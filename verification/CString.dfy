/** Strings in C quoting as the sqlite shell writes them, and its in-place resolution of backslashes. */
module CString {
  import opened ByteStrings

  const BACKSLASH: Byte := 92
  const TAB: Byte := 9

  /** isprint in the C locale. */
  predicate Printable(c: Byte) {
    32 <= c <= 126
  }

  predicate OctalDigit(c: Byte) {
    48 <= c <= 55
  }

  function Octal(c: Byte): Str {
    [48 + c / 64, 48 + c / 8 % 8, 48 + c % 8]
  }

  /** One byte as `output_c_string` writes it. */
  function Escaped(c: Byte): Str {
    if c == BACKSLASH then [BACKSLASH, BACKSLASH]
    else if c == TAB then [BACKSLASH, 't' as int]
    else if c == LF then [BACKSLASH, 'n' as int]
    else if c == CR then [BACKSLASH, 'r' as int]
    else if !Printable(c) then [BACKSLASH] + Octal(c)
    else [c]
  }

  function EscapedBody(z: Str): Str {
    if z == [] then [] else Escaped(z[0]) + EscapedBody(z[1..])
  }

  // ---------- resolving ----------

  /** How many bytes the first character of a text takes: an escape with up to three octal digits. */
  function Taken(s: Str): (n: nat)
    requires s != [] && (s[0] == BACKSLASH ==> |s| > 1)
    ensures 0 < n <= |s|
  {
    if s[0] != BACKSLASH then 1
    else if OctalDigit(s[1]) && |s| > 2 && OctalDigit(s[2]) then
      if |s| > 3 && OctalDigit(s[3]) then 4 else 3
    else 2
  }

  /** The byte it stands for. */
  function Meaning(s: Str): Byte
    requires s != [] && (s[0] == BACKSLASH ==> |s| > 1)
  {
    if s[0] != BACKSLASH then s[0]
    else if s[1] == 'n' as int then LF
    else if s[1] == 't' as int then TAB
    else if s[1] == 'r' as int then CR
    else if !OctalDigit(s[1]) then s[1]
    else if Taken(s) == 2 then s[1] - 48
    else if Taken(s) == 3 then (s[1] - 48) * 8 + (s[2] - 48)
    else
      var a: int, b: int, c: int := s[1], s[2], s[3];
      ((a - 48) * 64 + (b - 48) * 8 + (c - 48)) % 256
  }

  /** The text ends in a backslash that has nothing to escape. */
  predicate Dangling(s: Str) {
    if s == [] then false
    else if s[0] == BACKSLASH && |s| == 1 then true
    else Dangling(s[Taken(s)..])
  }

  function Resolved(s: Str): Str
    requires !Dangling(s)
  {
    if s == [] then [] else [Meaning(s)] + Resolved(s[Taken(s)..])
  }

  // ---------- the laws ----------

  lemma EscapedMeaning(c: Byte, rest: Str)
    ensures var s := Escaped(c) + rest;
            Taken(s) == |Escaped(c)| && Meaning(s) == c && s[Taken(s)..] == rest
  {
    var s := Escaped(c) + rest;
    if c != BACKSLASH && c != TAB && c != LF && c != CR && !Printable(c) {
      assert s[1] == 48 + c / 64 && s[2] == 48 + c / 8 % 8 && s[3] == 48 + c % 8;
      assert c == c / 64 * 64 + c / 8 % 8 * 8 + c % 8;
    }
  }

  /** Resolving what was escaped gives the string back, for every string of bytes. */
  lemma {:induction false} EscapeRoundTrip(z: Str)
    ensures !Dangling(EscapedBody(z)) && Resolved(EscapedBody(z)) == z
  {
    if z != [] {
      EscapeRoundTrip(z[1..]);
      EscapedMeaning(z[0], EscapedBody(z[1..]));
    }
  }

  // ---------- what is written, as C reads it ----------

  function Ascii(text: string): Str
    requires forall i | 0 <= i < |text| :: text[i] < 128 as char
  {
    seq(|text|, i requires 0 <= i < |text| => text[i] as int)
  }

  function OctalValue(digits: Str): int {
    if digits == [] then 0 else
      var last: int := digits[|digits| - 1];
      8 * OctalValue(digits[..|digits| - 1]) + (last - 48)
  }

  ghost predicate Visible(c: Byte) {
    ' ' as int <= c <= '~' as int
  }

  /** Each byte is written as itself if it is visible and no backslash, and otherwise as the escape that C
      has for it: by a letter for three of them, and by three octal digits for the others. */
  lemma Spelling(c: Byte)
    ensures var e := Escaped(c);
            && (e == [c] <==> Visible(c) && c != '\\' as int)
            && (c == '\\' as int ==> e == Ascii("\\\\"))
            && (c == '\t' as int ==> e == Ascii("\\t"))
            && (c == '\n' as int ==> e == Ascii("\\n"))
            && (c == '\r' as int ==> e == Ascii("\\r"))
            && (!Visible(c) && c != '\t' as int && c != '\n' as int && c != '\r' as int ==>
                  |e| == 4 && e[0] == '\\' as int && (forall i | 1 <= i < 4 :: '0' as int <= e[i] <= '7' as int) && OctalValue(e[1..]) == c)
            && forall i | 0 <= i < |e| :: Visible(e[i])
  {
    hide OctalValue;
    var e := Escaped(c);
    if !Visible(c) && c != '\t' as int && c != '\n' as int && c != '\r' as int {
      assert e[1..] == Octal(c);
      OctalIs(c);
    }
  }

  lemma OctalIs(c: Byte)
    ensures OctalValue(Octal(c)) == c
  {
    hide OctalValue;
    var d := Octal(c);
    assert d == [d[0], d[1], d[2]];
    ThreeDigits(d[0], d[1], d[2]);
    assert c == c / 64 * 64 + c / 8 % 8 * 8 + c % 8;
  }

  lemma ThreeDigits(a: Byte, b: Byte, c: Byte)
    ensures OctalValue([a]) == a - 48 && OctalValue([a, b]) == 8 * (a - 48) + (b - 48)
    ensures OctalValue([a, b, c]) == 64 * (a - 48) + 8 * (b - 48) + (c - 48)
  {
    assert [a][..0] == [] && [a, b][..1] == [a] && [a, b, c][..2] == [a, b];
    assert OctalValue([a]) == a - 48;
    assert OctalValue([a, b]) == 8 * OctalValue([a]) + (b - 48);
  }

  lemma {:induction false} AllVisible(z: Str)
    ensures forall i | 0 <= i < |EscapedBody(z)| :: Visible(EscapedBody(z)[i])
    ensures EscapedBody(z) == z <==> forall i | 0 <= i < |z| :: Visible(z[i]) && z[i] != '\\' as int
    ensures |EscapedBody(z)| >= |z|
  {
    hide Escaped, Visible;
    if z != [] {
      Spelling(z[0]);
      NotEmpty(z[0]);
      AllVisible(z[1..]);
      var e, rest := Escaped(z[0]), EscapedBody(z[1..]);
      assert EscapedBody(z) == e + rest;
      assert EscapedBody(z) == z ==> |e| == 1 && (e + rest)[0] == z[0] && (e + rest)[1..] == z[1..] && e == [z[0]];
      assert (forall i | 0 <= i < |z| :: Visible(z[i]) && z[i] != '\\' as int)
        <==> (Visible(z[0]) && z[0] != '\\' as int && forall i | 0 <= i < |z[1..]| :: Visible(z[1..][i]) && z[1..][i] != '\\' as int);
    }
  }

  lemma NotEmpty(c: Byte)
    ensures |Escaped(c)| > 0
  {
  }

  /** What an escape stands for: up to three octal digits for their value, three letters for control
      characters, and any other byte for itself. */
  lemma EscapeMeans(c: Byte, rest: Str)
    ensures var s := [BACKSLASH, c] + rest;
            && (c == 'n' as int ==> Meaning(s) == '\n' as int)
            && (c == 't' as int ==> Meaning(s) == '\t' as int)
            && (c == 'r' as int ==> Meaning(s) == '\r' as int)
            && (c !in Ascii("01234567ntr") ==> Meaning(s) == c)
            && (c !in Ascii("01234567") ==> Taken(s) == 2)
  {
    var letters := Ascii("01234567ntr");
    assert letters[8] == 'n' as int && letters[9] == 't' as int && letters[10] == 'r' as int;
    if OctalDigit(c) {
      assert letters[c - 48] == c && Ascii("01234567")[c - 48] == c;
    }
  }

  predicate Octals(digits: Str) {
    forall i | 0 <= i < |digits| :: '0' as int <= digits[i] <= '7' as int
  }

  lemma OneDigit(s: Str)
    requires |s| >= 2 && s[0] == BACKSLASH && OctalDigit(s[1]) && (|s| == 2 || !OctalDigit(s[2]))
    ensures Taken(s) == 2 && Meaning(s) == s[1] - 48
  {
  }

  lemma TwoDigits(s: Str)
    requires |s| >= 3 && s[0] == BACKSLASH && OctalDigit(s[1]) && OctalDigit(s[2]) && (|s| == 3 || !OctalDigit(s[3]))
    ensures var a: int, b: int := s[1], s[2]; Taken(s) == 3 && Meaning(s) == 8 * (a - 48) + (b - 48)
  {
  }

  lemma AllDigits(s: Str)
    requires |s| >= 4 && s[0] == BACKSLASH && OctalDigit(s[1]) && OctalDigit(s[2]) && OctalDigit(s[3])
    ensures var a: int, b: int, c: int := s[1], s[2], s[3];
            Taken(s) == 4 && Meaning(s) == (64 * (a - 48) + 8 * (b - 48) + (c - 48)) % 256
  {
  }

  lemma SmallRemainder(x: int)
    requires 0 <= x < 256
    ensures x % 256 == x
  {
  }

  lemma OctalMeans(digits: Str, rest: Str)
    requires 1 <= |digits| <= 3 && Octals(digits)
    requires |digits| == 3 || rest == [] || !('0' as int <= rest[0] <= '7' as int)
    ensures var s := [BACKSLASH] + digits + rest;
            Taken(s) == 1 + |digits| && Meaning(s) == OctalValue(digits) % 256
  {
    hide OctalValue, Taken, Meaning;
    var s := [BACKSLASH] + digits + rest;
    assert s[0] == BACKSLASH && s[1] == digits[0];
    if |digits| == 1 {
      assert |s| > 2 ==> s[2] == rest[0];
      OneDigit(s);
      assert digits == [s[1]];
      ThreeDigits(s[1], 0, 0);
      SmallRemainder(s[1] - 48);
    } else if |digits| == 2 {
      assert s[2] == digits[1] && (|s| > 3 ==> s[3] == rest[0]);
      TwoDigits(s);
      assert digits == [s[1], s[2]];
      ThreeDigits(s[1], s[2], 0);
      var a: int, b: int := s[1], s[2];
      SmallRemainder(8 * (a - 48) + (b - 48));
    } else {
      assert s[2] == digits[1] && s[3] == digits[2];
      AllDigits(s);
      assert digits == [s[1], s[2], s[3]];
      ThreeDigits(s[1], s[2], s[3]);
    }
  }

  // ---------- the quotation mark ----------

  /** Read as C reads it, the text has a quotation mark that is not escaped, and would end there. */
  predicate EndsEarly(s: Str) {
    if s == [] || (s[0] == BACKSLASH && |s| == 1) then false
    else s[0] == QUOTE || EndsEarly(s[Taken(s)..])
  }

  /** The quotation mark is the one visible character that would have needed an escape and is given none:
      what is written is one C string just when the string has no quotation mark. */
  lemma {:induction false} EndsEarlyExactly(z: Str)
    ensures EndsEarly(EscapedBody(z)) <==> '\"' as int in z
  {
    if z != [] {
      EndsEarlyExactly(z[1..]);
      EscapedMeaning(z[0], EscapedBody(z[1..]));
      assert (Escaped(z[0]) + EscapedBody(z[1..]))[0] == QUOTE <==> z[0] == QUOTE;
    }
  }

  function TrailingBackslashes(s: Str): nat {
    if s == [] || s[|s| - 1] != BACKSLASH then 0 else 1 + TrailingBackslashes(s[..|s| - 1])
  }

  lemma {:induction false} TrailingAppend(a: Str, b: Str)
    requires a != [] && a[|a| - 1] != BACKSLASH
    ensures TrailingBackslashes(a + b) == TrailingBackslashes(b)
    decreases |b|
  {
    if b == [] {
      assert a + b == a;
    } else {
      assert (a + b)[..|a + b| - 1] == a + b[..|b| - 1];
      TrailingAppend(a, b[..|b| - 1]);
    }
  }

  lemma {:induction false} TrailingPair(b: Str)
    ensures TrailingBackslashes([BACKSLASH, BACKSLASH] + b) % 2 == TrailingBackslashes(b) % 2
    decreases |b|
  {
    var p := [BACKSLASH, BACKSLASH];
    if b == [] {
      assert p + b == p && p[..1] == [BACKSLASH] && [BACKSLASH][..0] == [];
    } else {
      assert (p + b)[..|p + b| - 1] == p + b[..|b| - 1];
      TrailingPair(b[..|b| - 1]);
    }
  }

  /** A backslash is left dangling just when the text ends in an odd number of backslashes. */
  lemma {:induction false} DanglingExactly(s: Str)
    ensures Dangling(s) <==> TrailingBackslashes(s) % 2 == 1
    decreases |s|
  {
    if s == [] {
    } else if s == [BACKSLASH] {
      assert s[..0] == [];
    } else {
      var head, rest := s[..Taken(s)], s[Taken(s)..];
      assert s == head + rest;
      DanglingExactly(rest);
      if s[0] == BACKSLASH && s[1] == BACKSLASH {
        assert head == [BACKSLASH, BACKSLASH];
        TrailingPair(rest);
      } else {
        TrailingAppend(head, rest);
      }
    }
  }

  /** So what `output_c_string` writes between its quotes can always be resolved. */
  lemma {:induction false} EscapedIsResolvable(z: Str)
    ensures TrailingBackslashes(EscapedBody(z)) % 2 == 0
    ensures NulFree(EscapedBody(z))
  {
    EscapeRoundTrip(z);
    DanglingExactly(EscapedBody(z));
    EscapedNulFree(z);
  }

  lemma {:induction false} EscapedNulFree(z: Str)
    ensures NulFree(EscapedBody(z))
  {
    if z != [] { EscapedNulFree(z[1..]); }
  }

  // ---------- the program ----------

  /** `output_c_string` */
  method OutputCString(z: Str) returns (out: Str)
    requires NulFree(z)
    ensures out == [QUOTE] + EscapedBody(z) + [QUOTE]
  {
    hide Escaped;
    out := [QUOTE];
    for i := 0 to |z|
      invariant out + EscapedBody(z[i..]) == [QUOTE] + EscapedBody(z)
    {
      var e := WriteEscaped(z[i]);
      assert z[i..][1..] == z[i + 1..];
      assert out + (e + EscapedBody(z[i + 1..])) == (out + e) + EscapedBody(z[i + 1..]);
      out := out + e;
    }
    assert out == [QUOTE] + EscapedBody(z);
    out := out + [QUOTE];
  }

  method WriteEscaped(c: Byte) returns (out: Str)
    ensures out == Escaped(c)
  {
    if c == BACKSLASH {
      out := [c];
      out := out + [c];
    } else if c == TAB {
      out := [BACKSLASH, 't' as int];
    } else if c == LF {
      out := [BACKSLASH, 'n' as int];
    } else if c == CR {
      out := [BACKSLASH, 'r' as int];
    } else if !Printable(c) {
      out := [BACKSLASH] + Octal(c);
    } else {
      out := [c];
    }
  }

  /** What `resolve_backslashes` gets to before it meets the terminator or steps over it: all of the
      text but for a dangling backslash. */
  function Body(s: Str): Str {
    if Dangling(s) && s != [] then s[..|s| - 1] else s
  }

  /** A backslash behind a text changes nothing about the first character of the text. */
  lemma BackslashBehind(t: Str)
    requires t != [] && (t[0] == BACKSLASH ==> |t| > 1)
    ensures Taken(t + [BACKSLASH]) == Taken(t) && Meaning(t + [BACKSLASH]) == Meaning(t)
  {
  }

  lemma {:induction false} DanglingBody(s: Str)
    ensures !Dangling(Body(s)) && (Dangling(s) ==> s == Body(s) + [BACKSLASH])
  {
    if Dangling(s) {
      DanglingExactly(s);
      DanglingExactly(s[..|s| - 1]);
      assert s[|s| - 1] == BACKSLASH;
    }
  }

  lemma BodyAt(s: Str, i: nat)
    requires i < |Body(s)| && !Dangling(Body(s)[i..])
    ensures |Body(s)| <= |s| && s[i] == Body(s)[i] && (s[i] == BACKSLASH ==> i + 1 < |s| && i + 1 < |Body(s)|)
    ensures Taken(s[i..]) == Taken(Body(s)[i..]) && Meaning(s[i..]) == Meaning(Body(s)[i..])
  {
    hide Dangling;
    DanglingBody(s);
    StartsWell(Body(s)[i..]);
    if Body(s) != s {
      BackslashBehind(Body(s)[i..]);
      assert s[i..] == Body(s)[i..] + [BACKSLASH];
    }
  }

  lemma StartsWell(t: Str)
    requires t != [] && !Dangling(t)
    ensures t[0] == BACKSLASH ==> |t| > 1
  {
  }

  /** `resolve_backslashes`, on a buffer that begins with the C string `s`.  When the byte read behind
      a backslash is the terminator, the next read would lie behind it: `overran` says so, and what
      the loop does from there on depends on what happens to lie there. */
  method ResolveBackslashes(z: array<Byte>, ghost s: Str) returns (overran: bool)
    requires Holds(z[..], 0, s) && NulFree(s)
    modifies z
    ensures overran <==> TrailingBackslashes(s) % 2 == 1
    ensures !Dangling(Body(s)) && Holds(z[..], 0, Resolved(Body(s)))
    ensures !overran ==> Body(s) == s
    ensures z[|s|..] == old(z[|s|..])
  {
    hide NulFree, Holds, Midway, Resolved, Taken, Meaning, Dangling, Body;
    DanglingExactly(s);
    DanglingBody(s);
    BodySize(s);
    HoldsRoom(z[..], 0, s);
    ghost var body := Body(s);
    ghost var pre, post := z[..0], z[|s|..];
    ghost var out: Str := [];
    var i, j := 0, 0;
    MidwayStart(z[..], pre, s, 0, post);
    MidwayRead(z[..], pre, out, s, 0, 0, post);
    ResolvedStart(body);
    while z[i] != NUL
      invariant |out| == j <= i <= |body| <= |s| < z.Length && !Dangling(body[i..])
      invariant out + Resolved(body[i..]) == Resolved(body) && Midway(z[..], pre, out, s, i, post)
      decreases |s| - i
    {
      MidwayRead(z[..], pre, out, s, i, i, post);
      BodyEnds(s, i);
      var c, next, over := ReadEscape(z, i, pre, out, s, post);
      ghost var before := z[..];
      z[j] := c;
      if over {
        ResolvedEnd(body, out);
        MidwayEnd(before, z[..], j, pre, out, s, i, post);
        return true;
      }
      BodyAt(s, i);
      ResolvedStep(body, i, out);
      MidwayWrite(before, z[..], j, c, pre, out, s, i, next, post);
      out := out + [c];
      i, j := next, j + 1;
    }
    MidwayRead(z[..], pre, out, s, i, i, post);
    ResolvedEnd(body, out);
    ghost var before := z[..];
    z[j] := NUL;
    MidwayEnd(before, z[..], j, pre, out, s, i, post);
    overran := false;
  }

  /** The body of the loop up to the write: the byte that the text at `i0` stands for, where the next
      one begins, and whether the terminator was read as what a backslash escapes. */
  method ReadEscape(z: array<Byte>, i0: nat, ghost pre: Str, ghost out: Str, ghost s: Str, ghost post: Str)
    returns (c: Byte, next: nat, over: bool)
    requires |pre| == 0 && NulFree(s) && i0 < |s| && Midway(z[..], pre, out, s, i0, post)
    ensures over <==> s[i0] == BACKSLASH && i0 + 1 == |s|
    ensures over ==> c == NUL && next == |s| + 1
    ensures !over ==> c == Meaning(s[i0..]) && next == i0 + Taken(s[i0..])
  {
    hide NulFree, Midway;
    var i := i0;
    over := false;
    MidwayRead(z[..], pre, out, s, i0, i0, post);
    c := z[i];
    if c == BACKSLASH {
      MidwayRead(z[..], pre, out, s, i0, i0 + 1, post);
      if i0 + 1 < |s| { MidwayRead(z[..], pre, out, s, i0, i0 + 2, post); }
      if i0 + 2 < |s| { MidwayRead(z[..], pre, out, s, i0, i0 + 3, post); }
      i := i + 1;
      c := z[i];
      over := c == NUL;
      if c == 'n' as int {
        c := LF;
      } else if c == 't' as int {
        c := TAB;
      } else if c == 'r' as int {
        c := CR;
      } else if OctalDigit(c) {
        c := c - 48;
        if OctalDigit(z[i + 1]) {
          i := i + 1;
          c := c * 8 + z[i] - 48;
          if OctalDigit(z[i + 1]) {
            i := i + 1;
            c := (c * 8 + z[i] - 48) % 256;
          }
        }
      }
    }
    next := i + 1;
  }

  lemma BodySize(s: Str)
    ensures |Body(s)| <= |s| <= |Body(s)| + 1 && (|Body(s)| == |s| ==> Body(s) == s)
  {
  }

  /** The loop reads a backslash before the terminator just when it has come to the end of the body and
      there is more. */
  lemma BodyEnds(s: Str, i: nat)
    requires i < |s| && i <= |Body(s)| && !Dangling(Body(s)[i..])
    ensures s[i] == BACKSLASH && i + 1 == |s| <==> i == |Body(s)|
    ensures i == |Body(s)| ==> Dangling(s)
  {
    hide Dangling;
    BodySize(s);
    DanglingBody(s);
    if i < |Body(s)| {
      BodyAt(s, i);
    }
  }

  /** The shortest string that is stepped over. */
  lemma LoneBackslash()
    ensures TrailingBackslashes([BACKSLASH]) == 1 && Dangling([BACKSLASH]) && Body([BACKSLASH]) == []
  {
    assert [BACKSLASH][..0] == [];
  }

  lemma ResolvedStart(s: Str)
    requires !Dangling(s)
    ensures !Dangling(s[0..]) && [] + Resolved(s[0..]) == Resolved(s)
  {
    assert s[0..] == s;
  }

  lemma ResolvedStep(s: Str, i: nat, out: Str)
    requires i < |s| && !Dangling(s[i..])
    ensures s[i] == BACKSLASH ==> i + 1 < |s|
    ensures var next := i + Taken(s[i..]);
            && i < next <= |s| && !Dangling(s[next..])
            && out + Resolved(s[i..]) == out + [Meaning(s[i..])] + Resolved(s[next..])
  {
    assert s[i..][Taken(s[i..])..] == s[i + Taken(s[i..])..];
  }

  lemma ResolvedEnd(s: Str, out: Str)
    requires !Dangling(s) && out + Resolved(s[|s|..]) == Resolved(s)
    ensures out == Resolved(s)
  {
  }

  /** A string written out, and its body resolved where it lies. */
  method WriteAndResolve(z: Str) returns (buffer: array<Byte>)
    requires NulFree(z)
    ensures Holds(buffer[..], 0, z)
  {
    hide EscapedBody, Resolved;
    var out := OutputCString(z);
    var body := out[1..|out| - 1];
    assert body == EscapedBody(z);
    buffer := new Byte[|body| + 1](i requires 0 <= i <= |body| => if i < |body| then body[i] else NUL);
    assert buffer[..] == body + [NUL];
    EscapedIsResolvable(z);
    var _ := ResolveBackslashes(buffer, body);
    EscapeRoundTrip(z);
  }
}
