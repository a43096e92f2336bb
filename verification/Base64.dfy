/** The base64 encoder of lib13, and the encoding of section 3 of RFC 3548 that it is for. */
module Base64 {
  import opened Options

  // ---------- letters ----------

  const PAD := '='
  const NUL := '\0'

  type Sextet = s: bv8 | s < 64

  function Upper(): (r: string)
    ensures |r| == 26 && forall i | 0 <= i < 26 :: r[i] as int == 'A' as int + i
  {
    "ABCDEFGHIJKLMNOPQRSTUVWXYZ"
  }

  function Lower(): (r: string)
    ensures |r| == 26 && forall i | 0 <= i < 26 :: r[i] as int == 'a' as int + i
  {
    "abcdefghijklmnopqrstuvwxyz"
  }

  function Digits(): (r: string)
    ensures |r| == 10 && forall i | 0 <= i < 10 :: r[i] as int == '0' as int + i
  {
    "0123456789"
  }

  function Alphabet(): (r: string)
    ensures |r| == 64
  {
    Upper() + Lower() + Digits() + "+/"
  }

  function Letter(s: Sextet): char {
    Alphabet()[s as int]
  }

  /** The place of a letter in the alphabet, or -1. */
  function Place(c: char): (i: int)
    ensures -1 <= i < 64
  {
    if 'A' <= c <= 'Z' then c as int - 'A' as int
    else if 'a' <= c <= 'z' then c as int - 'a' as int + 26
    else if '0' <= c <= '9' then c as int - '0' as int + 52
    else if c == '+' then 62
    else if c == '/' then 63
    else -1
  }

  predicate IsLetter(c: char) {
    Place(c) >= 0
  }

  lemma IntAndBack(i: int)
    requires 0 <= i < 64
    ensures i as bv8 as int == i
  {
  }

  lemma SmallEnough(s: bv8)
    requires s as int < 64
    ensures s < 64
  {
  }

  function Value(c: char): Sextet
    requires IsLetter(c)
  {
    IntAndBack(Place(c));
    SmallEnough(Place(c) as bv8);
    Place(c) as bv8
  }

  lemma PlaceInAlphabet(i: int, c: char)
    requires 0 <= i < 64
    ensures Alphabet()[i] == c <==> Place(c) == i
  {
    hide Upper, Lower, Digits;
    if i < 26 {
      assert Alphabet()[i] == Upper()[i];
    } else if i < 52 {
      assert Alphabet()[i] == Lower()[i - 26];
    } else if i < 62 {
      assert Alphabet()[i] == Digits()[i - 52];
    }
  }

  lemma ValueOfLetter(s: Sextet)
    ensures IsLetter(Letter(s)) && Value(Letter(s)) == s && Letter(s) != PAD
  {
    hide Alphabet, Place;
    PlaceInAlphabet(s as int, Letter(s));
    PlaceOfPad();
  }

  lemma PlaceOfPad()
    ensures !IsLetter(PAD)
  {
  }

  lemma LetterOfValue(c: char)
    requires IsLetter(c)
    ensures Letter(Value(c)) == c
  {
    hide Alphabet, Place;
    IntAndBack(Place(c));
    PlaceInAlphabet(Place(c), c);
  }

  // ---------- three bytes and four sextets ----------

  function First(a: bv8): Sextet { (a >> 2) & 0x3F }
  function Second(a: bv8, b: bv8): Sextet { ((a << 4) & 0x30) | ((b >> 4) & 0xF) }
  function Third(b: bv8, c: bv8): Sextet { ((b << 2) & 0x3C) | ((c >> 6) & 0x3) }
  function Fourth(c: bv8): Sextet { c & 0x3F }

  function Byte0(s0: Sextet, s1: Sextet): bv8 { (s0 << 2) | (s1 >> 4) }
  function Byte1(s1: Sextet, s2: Sextet): bv8 { (s1 << 4) | (s2 >> 2) }
  function Byte2(s2: Sextet, s3: Sextet): bv8 { (s2 << 6) | s3 }

  /** The bits of a sextet that no byte is left for. */
  predicate Spare4(s: Sextet) { s & 0xF == 0 }
  predicate Spare2(s: Sextet) { s & 0x3 == 0 }

  /** The 24 bits of three bytes are those of the four sextets, in the same order. */
  lemma SameBits(a: bv8, b: bv8, c: bv8)
    ensures ((a as bv32) << 16) | ((b as bv32) << 8) | (c as bv32)
              == ((First(a) as bv32) << 18) | ((Second(a, b) as bv32) << 12) | ((Third(b, c) as bv32) << 6) | (Fourth(c) as bv32)
  {
  }

  lemma BytesBack(a: bv8, b: bv8, c: bv8)
    ensures Byte0(First(a), Second(a, b)) == a && Byte1(Second(a, b), Third(b, c)) == b
    ensures Byte2(Third(b, c), Fourth(c)) == c
    ensures Spare4(Second(a, 0)) && Spare2(Third(b, 0))
  {
  }

  lemma SextetsBack(s0: Sextet, s1: Sextet, s2: Sextet, s3: Sextet)
    ensures var a, b, c := Byte0(s0, s1), Byte1(s1, s2), Byte2(s2, s3);
            First(a) == s0 && Second(a, b) == s1 && Third(b, c) == s2 && Fourth(c) == s3
    ensures Spare4(s1) ==> Second(Byte0(s0, s1), 0) == s1
    ensures Spare2(s2) ==> Third(Byte1(s1, s2), 0) == s2
  {
  }

  // ---------- the encoding ----------

  function Group(data: seq<bv8>): (r: string)
    requires 1 <= |data| <= 3
    ensures |r| == 4
  {
    var a := data[0];
    if |data| == 1 then [Letter(First(a)), Letter(Second(a, 0)), PAD, PAD] else
      var b := data[1];
      if |data| == 2 then [Letter(First(a)), Letter(Second(a, b)), Letter(Third(b, 0)), PAD] else
        var c := data[2];
        [Letter(First(a)), Letter(Second(a, b)), Letter(Third(b, c)), Letter(Fourth(c))]
  }

  function Encoded(data: seq<bv8>): string
    decreases |data|
  {
    if data == [] then ""
    else if |data| <= 3 then Group(data)
    else Group(data[..3]) + Encoded(data[3..])
  }

  /** The bytes that one group of four characters stands for. */
  function Bytes(g: string): Option<seq<bv8>>
    requires |g| == 4
  {
    if !IsLetter(g[0]) || !IsLetter(g[1]) then None else
      var s0, s1 := Value(g[0]), Value(g[1]);
      if g[2] == PAD && g[3] == PAD then
        if Spare4(s1) then Some([Byte0(s0, s1)]) else None
      else if !IsLetter(g[2]) then None else
        var s2 := Value(g[2]);
        if g[3] == PAD then
          if Spare2(s2) then Some([Byte0(s0, s1), Byte1(s1, s2)]) else None
        else if !IsLetter(g[3]) then None else
          Some([Byte0(s0, s1), Byte1(s1, s2), Byte2(s2, Value(g[3]))])
  }

  /** A text is decoded group by group, and only the last may be padded. */
  function Decoded(text: string): Option<seq<bv8>>
    decreases |text|
  {
    if text == "" then Some([])
    else if |text| < 4 then None
    else if |text| == 4 then Bytes(text) else
      var first, rest := Bytes(text[..4]), Decoded(text[4..]);
      if first.Some? && |first.value| == 3 && rest.Some? then Some(first.value + rest.value) else None
  }

  lemma GroupBack(data: seq<bv8>)
    requires 1 <= |data| <= 3
    ensures Bytes(Group(data)) == Some(data)
  {
    hide Letter, Value, IsLetter, First, Second, Third, Fourth, Byte0, Byte1, Byte2, Spare4, Spare2;
    var a := data[0];
    var b := if |data| > 1 then data[1] else 0;
    var c := if |data| > 2 then data[2] else 0;
    BytesBack(a, b, c);
    BytesBack(a, b, 0);
    BytesBack(a, 0, 0);
    ValueOfLetter(First(a));
    ValueOfLetter(Second(a, b));
    ValueOfLetter(Third(b, c));
    ValueOfLetter(Fourth(c));
    assert data == if |data| == 1 then [a] else if |data| == 2 then [a, b] else [a, b, c];
  }

  lemma BytesBackToGroup(g: string)
    requires |g| == 4 && Bytes(g).Some?
    ensures var data := Bytes(g).value; 1 <= |data| <= 3 && Group(data) == g
  {
    hide Letter, Value, IsLetter, First, Second, Third, Fourth, Byte0, Byte1, Byte2, Spare4, Spare2;
    var s0, s1 := Value(g[0]), Value(g[1]);
    LetterOfValue(g[0]);
    LetterOfValue(g[1]);
    if g[2] == PAD && g[3] == PAD {
      SextetsBack(s0, s1, s1, s1);
    } else {
      var s2 := Value(g[2]);
      LetterOfValue(g[2]);
      if g[3] == PAD {
        SextetsBack(s0, s1, s2, s2);
      } else {
        SextetsBack(s0, s1, s2, Value(g[3]));
        LetterOfValue(g[3]);
      }
    }
  }

  /** What was encoded is decoded to what it was. */
  lemma {:induction false} RoundTrip(data: seq<bv8>)
    ensures Decoded(Encoded(data)) == Some(data) && |Encoded(data)| == (|data| + 2) / 3 * 4
    decreases |data|
  {
    hide Group, Bytes;
    if data != [] && |data| <= 3 {
      GroupBack(data);
    } else if data != [] {
      GroupBack(data[..3]);
      RoundTrip(data[3..]);
      var text := Encoded(data);
      assert text[..4] == Group(data[..3]) && text[4..] == Encoded(data[3..]);
      assert data == data[..3] + data[3..];
    }
  }

  /** No other text is decoded to it. */
  lemma {:induction false} OnlyTheEncoding(text: string)
    requires Decoded(text).Some?
    ensures Encoded(Decoded(text).value) == text
    decreases |text|
  {
    hide Group, Bytes;
    if |text| == 4 {
      BytesBackToGroup(text);
    } else if text != "" {
      var first, rest := Bytes(text[..4]).value, Decoded(text[4..]).value;
      BytesBackToGroup(text[..4]);
      OnlyTheEncoding(text[4..]);
      assert rest != [];
      assert (first + rest)[..3] == first && (first + rest)[3..] == rest;
      assert text == text[..4] + text[4..];
    }
  }

  // ---------- the encoder ----------

  function Size(n: nat): nat {
    (n + 2) / 3 * 4
  }

  /** What is asked of the allocator, in 32 bits. */
  function Allocated(n: nat): nat {
    4 * n % 0x1_0000_0000 / 3 + 4
  }

  /** The text and the character that ends it fit what was allocated just when four times the length
      is a 32-bit number. */
  lemma AllocatedIsEnough(n: nat)
    requires n < 0x1_0000_0000
    ensures Size(n) + 1 <= Allocated(n) <==> 4 * n < 0x1_0000_0000
  {
    var k, r := n / 3, n % 3;
    assert n == 3 * k + r;
    assert Size(n) == if r == 0 then 4 * k else 4 * k + 4;
    if 4 * n < 0x1_0000_0000 {
      assert 4 * n % 0x1_0000_0000 == 4 * n;
      assert 4 * n / 3 == 4 * k + 4 * r / 3;
    } else {
      assert 4 * n % 0x1_0000_0000 <= 4 * n - 0x1_0000_0000;
      assert 4 * n % 0x1_0000_0000 / 3 <= (4 * n - 0x1_0000_0000) / 3 < 4 * k + 3 - 0x1000_0000;
    }
  }

  /** The text of what is left goes behind the text of what has been done. */
  lemma EncodedStep(data: seq<bv8>, i: nat)
    requires i < |data|
    ensures var j := if |data| - i >= 3 then i + 3 else |data|;
            Encoded(data[i..]) == Group(data[i..j]) + Encoded(data[j..])
  {
    hide Group;
    var rest := data[i..];
    if |rest| <= 3 {
      assert |data| - i >= 3 ==> i + 3 == |data|;
      assert data[i..|data|] == rest && data[|data|..] == [];
      assert Group(rest) + "" == Group(rest);
    } else {
      assert rest[..3] == data[i..i + 3] && rest[3..] == data[i + 3..];
    }
  }

  /** The last bytes have nothing behind them to be filled up with. */
  function SecondAlone(a: bv8): Sextet { (a << 4) & 0x30 }
  function ThirdAlone(b: bv8): Sextet { (b << 2) & 0x3C }

  lemma AloneIsZeroFilled(a: bv8)
    ensures SecondAlone(a) == Second(a, 0) && ThirdAlone(a) == Third(a, 0)
  {
  }

  lemma FourWritten(z: string, z': string, at: nat, g: string)
    requires |z'| == |z| && at + 4 <= |z| && |g| == 4
    requires z' == z[at := g[0]][at + 1 := g[1]][at + 2 := g[2]][at + 3 := g[3]]
    ensures z' == z[..at] + g + z[at + 4..]
  {
  }

  method EncodeTriple(dest: array<char>, at: nat, a: bv8, b: bv8, c: bv8)
    requires at + 4 <= dest.Length
    modifies dest
    ensures dest[..] == old(dest[..])[..at] + Group([a, b, c]) + old(dest[..])[at + 4..]
  {
    hide Letter, First, Second, Third, Fourth;
    dest[at] := Letter(First(a));
    dest[at + 1] := Letter(Second(a, b));
    dest[at + 2] := Letter(Third(b, c));
    dest[at + 3] := Letter(Fourth(c));
    FourWritten(old(dest[..]), dest[..], at, Group([a, b, c]));
  }

  method EncodeLast(dest: array<char>, at: nat, last: seq<bv8>)
    requires at + 4 <= dest.Length && 1 <= |last| <= 2
    modifies dest
    ensures dest[..] == old(dest[..])[..at] + Group(last) + old(dest[..])[at + 4..]
  {
    hide Letter, First, Second, Third, Fourth, SecondAlone, ThirdAlone;
    var a := last[0];
    AloneIsZeroFilled(a);
    dest[at] := Letter(First(a));
    if |last| > 1 {
      var b := last[1];
      AloneIsZeroFilled(b);
      dest[at + 1] := Letter(Second(a, b));
      dest[at + 2] := Letter(ThirdAlone(b));
    } else {
      dest[at + 1] := Letter(SecondAlone(a));
      dest[at + 2] := PAD;
    }
    dest[at + 3] := PAD;
    FourWritten(old(dest[..]), dest[..], at, Group(last));
  }

  /** The destination when the first `i` bytes have been done: `n` characters are written, and behind
      the place where the text will end it is as it was. */
  ghost predicate Written(z: string, n: nat, data: seq<bv8>, i: nat, behind: string) {
    && i <= |data| && n + |Encoded(data[i..])| == |Encoded(data)| < |z|
    && z[..n] + Encoded(data[i..]) == Encoded(data) && z[|Encoded(data)| + 1..] == behind
  }

  lemma WrittenStart(z: string, data: seq<bv8>)
    requires |Encoded(data)| < |z|
    ensures Written(z, 0, data, 0, z[|Encoded(data)| + 1..])
  {
    assert data[0..] == data && z[..0] + Encoded(data) == Encoded(data);
  }

  lemma WrittenGroup(z: string, z': string, n: nat, data: seq<bv8>, i: nat, j: nat, behind: string)
    requires Written(z, n, data, i, behind) && i < |data| && j == if |data| - i >= 3 then i + 3 else |data|
    requires n + 4 <= |z| && z' == z[..n] + Group(data[i..j]) + z[n + 4..]
    ensures Written(z', n + 4, data, j, behind)
  {
    hide Group, Encoded;
    EncodedStep(data, i);
    assert z'[..n + 4] == z[..n] + Group(data[i..j]);
    assert z[..n] + (Group(data[i..j]) + Encoded(data[j..])) == z'[..n + 4] + Encoded(data[j..]);
    assert z'[|Encoded(data)| + 1..] == z[|Encoded(data)| + 1..];
  }

  lemma WrittenRoom(z: string, n: nat, data: seq<bv8>, i: nat, behind: string)
    requires Written(z, n, data, i, behind)
    ensures n + 4 <= |z| || i == |data|
  {
    hide Group;
    if i < |data| {
      EncodedStep(data, i);
    }
  }

  lemma WrittenEnd(z: string, z': string, n: nat, data: seq<bv8>, behind: string)
    requires Written(z, n, data, |data|, behind) && z' == z[n := NUL]
    ensures n == |Encoded(data)| && z'[..n] == Encoded(data) && z'[n] == NUL && z'[n + 1..] == behind
  {
    assert Encoded(data[|data|..]) == "";
    assert z[..n] + "" == z[..n];
  }

  lemma EncodedSize(data: seq<bv8>)
    ensures |Encoded(data)| == Size(|data|)
  {
    RoundTrip(data);
  }

  method EncodeTriples(data: seq<bv8>, dest: array<char>, ghost behind: string) returns (i: nat, n: nat)
    requires Written(dest[..], 0, data, 0, behind)
    modifies dest
    ensures |data| - 3 < i <= |data| && Written(dest[..], n, data, i, behind)
  {
    hide Group, Encoded, Written;
    i, n := 0, 0;
    while |data| - i >= 3
      invariant i <= |data| && Written(dest[..], n, data, i, behind)
    {
      ghost var before := dest[..];
      WrittenRoom(before, n, data, i, behind);
      EncodeTriple(dest, n, data[i], data[i + 1], data[i + 2]);
      assert data[i..i + 3] == [data[i], data[i + 1], data[i + 2]];
      WrittenGroup(before, dest[..], n, data, i, i + 3, behind);
      i, n := i + 3, n + 4;
    }
  }

  /** The text is written to the destination and ended; nothing behind it is touched. */
  method EncodeInto(data: seq<bv8>, dest: array<char>) returns (n: nat)
    requires Size(|data|) < dest.Length
    modifies dest
    ensures n == Size(|data|) && dest[..n] == Encoded(data) && dest[n] == NUL
    ensures dest[n + 1..] == old(dest[n + 1..])
  {
    hide Group, Encoded, Written, Size;
    EncodedSize(data);
    WrittenStart(dest[..], data);
    ghost var behind := dest[..][|Encoded(data)| + 1..];
    var i;
    i, n := EncodeTriples(data, dest, behind);
    if |data| - i > 0 {
      ghost var before := dest[..];
      WrittenRoom(before, n, data, i, behind);
      EncodeLast(dest, n, data[i..]);
      assert data[i..|data|] == data[i..];
      WrittenGroup(before, dest[..], n, data, i, |data|, behind);
      n := n + 4;
    }
    WrittenFits(dest[..], n, data, behind);
    ghost var before := dest[..];
    dest[n] := NUL;
    WrittenEnd(before, dest[..], n, data, behind);
  }

  lemma WrittenFits(z: string, n: nat, data: seq<bv8>, behind: string)
    requires Written(z, n, data, |data|, behind)
    ensures n < |z|
  {
  }

  /** The caller's destination is used when there is one; otherwise one is allocated.  When that is too small
      the encoder would write over its end: `overrun` says so, and nothing is encoded here. */
  method Encode(dst: array?<char>, data: seq<bv8>, memory: bool) returns (dest: array?<char>, overrun: bool)
    requires |data| < 0x1_0000_0000
    requires dst != null ==> Size(|data|) < dst.Length
    modifies dst
    ensures dst != null ==> dest == dst
    ensures dst == null ==> (dest != null <==> memory) && (dest != null ==> fresh(dest) && dest.Length == Allocated(|data|))
    ensures overrun <==> dst == null && memory && 4 * |data| >= 0x1_0000_0000
    ensures dest != null && !overrun ==>
              && Size(|data|) < dest.Length && dest[..Size(|data|)] == Encoded(data) && dest[Size(|data|)] == NUL
  {
    dest := dst;
    overrun := false;
    if dest == null {
      if !memory {
        return;
      }
      AllocatedIsEnough(|data|);
      dest := new char[Allocated(|data|)];
      if Allocated(|data|) <= Size(|data|) {
        overrun := true;
        return;
      }
    }
    dest[0] := NUL;
    var _ := EncodeInto(data, dest);
  }
}
