/** The substring search of lib13, which compares only where a rolling sum agrees. */
module Memmem {
  import opened ByteStrings
  import opened Options

  /** `needle` is found in `hay` at place `k`. */
  predicate OccursAt(hay: Str, needle: Str, k: nat) {
    k + |needle| <= |hay| && hay[k..k + |needle|] == needle
  }

  /** A byte as a signed character. */
  function Signed(b: Byte): int {
    var x: int := b;
    if x < 128 then x else x - 256
  }

  /** A sum as it comes out in 32 bits. */
  function Wrapped(x: int): int {
    (x + 0x8000_0000) % 0x1_0000_0000 - 0x8000_0000
  }

  lemma WrappedPlus(x: int, y: int)
    ensures Wrapped(Wrapped(x) + y) == Wrapped(x + y)
  {
    var q := (x + 0x8000_0000) / 0x1_0000_0000;
    assert Wrapped(x) + y + 0x8000_0000 == x + y + 0x8000_0000 - 0x1_0000_0000 * q;
    ModShift(x + y + 0x8000_0000, q);
  }

  lemma ModShift(x: int, q: int)
    ensures (x - 0x1_0000_0000 * q) % 0x1_0000_0000 == x % 0x1_0000_0000
  {
    var d := x / 0x1_0000_0000;
    assert x - 0x1_0000_0000 * q == 0x1_0000_0000 * (d - q) + x % 0x1_0000_0000;
  }

  function Sum(s: Str): int {
    if s == [] then 0 else Sum(s[..|s| - 1]) + Signed(s[|s| - 1])
  }

  /** The sum of the next window. */
  lemma {:induction false} SumRolls(s: Str, next: Byte)
    requires s != []
    ensures Sum((s + [next])[1..]) == Sum(s) - Signed(s[0]) + Signed(next)
  {
    var window := (s + [next])[1..];
    assert window[..|window| - 1] == s[1..];
    SumDropFirst(s);
  }

  lemma {:induction false} SumDropFirst(s: Str)
    requires s != []
    ensures Sum(s[1..]) == Sum(s) - Signed(s[0])
  {
    if |s| == 1 {
      assert s[..0] == [];
    } else {
      SumDropFirst(s[..|s| - 1]);
      assert s[1..][..|s| - 2] == s[..|s| - 1][1..];
    }
  }

  /** What a read at place `i` gives; the byte behind the haystack is read once and can be anything. */
  function ReadAt(hay: Str, beyond: Byte, i: nat): Byte
    requires i <= |hay|
  {
    if i < |hay| then hay[i] else beyond
  }

  method SumBoth(hay: Str, needle: Str) returns (hash: int, hayHash: int)
    requires |needle| <= |hay|
    ensures hash == Wrapped(Sum(needle)) && hayHash == Wrapped(Sum(hay[..|needle|]))
  {
    hash, hayHash := 0, 0;
    for i := 0 to |needle|
      invariant hash == Wrapped(Sum(needle[..i])) && hayHash == Wrapped(Sum(hay[..i]))
    {
      assert needle[..i + 1][..i] == needle[..i] && hay[..i + 1][..i] == hay[..i];
      WrappedPlus(Sum(needle[..i]), Signed(needle[i]));
      WrappedPlus(Sum(hay[..i]), Signed(hay[i]));
      hash := Wrapped(hash + Signed(needle[i]));
      hayHash := Wrapped(hayHash + Signed(hay[i]));
    }
    assert needle[..|needle|] == needle;
  }

  method Roll(hayHash: int, window: Str, next: Byte) returns (rolled: int)
    requires window != [] && hayHash == Wrapped(Sum(window))
    ensures rolled == Wrapped(Sum((window + [next])[1..]))
  {
    rolled := Wrapped(hayHash - Signed(window[0]));
    WrappedPlus(Sum(window), -Signed(window[0]));
    WrappedPlus(Sum(window) - Signed(window[0]), Signed(next));
    SumRolls(window, next);
    rolled := Wrapped(rolled + Signed(next));
  }

  /** The first place at which the needle occurs, and none only when it occurs nowhere. */
  method Search(hay: Str, needle: Str, beyond: Byte) returns (found: Option<nat>)
    ensures found.Some? ==>
              OccursAt(hay, needle, found.value) && forall k | 0 <= k < found.value :: !OccursAt(hay, needle, k)
    ensures found.None? ==> forall k: nat :: !OccursAt(hay, needle, k)
  {
    hide Wrapped, Sum;
    if |hay| < |needle| {
      return None;
    }
    if needle == [] {
      return Some(0);
    }
    var n := |needle|;
    var hash, hayHash := SumBoth(hay, needle);
    ghost var all := hay + [beyond];
    assert all[..n] == hay[..n];
    var i := 0;
    while i < |hay| - n + 1
      invariant 0 <= i <= |hay| - n + 1
      invariant hash == Wrapped(Sum(needle)) && hayHash == Wrapped(Sum(all[i..i + n]))
      invariant forall k | 0 <= k < i :: !OccursAt(hay, needle, k)
    {
      assert all[i..i + n] == hay[i..i + n];
      if hash == hayHash && hay[i] == needle[0] && hay[i..i + n] == needle {
        return Some(i);
      }
      var next := ReadAt(hay, beyond, i + n);
      assert (all[i..i + n] + [next])[1..] == all[i + 1..i + 1 + n];
      hayHash := Roll(hayHash, hay[i..i + n], next);
      i := i + 1;
    }
    found := None;
  }
}
