/** The lookup3 hashes: the same function of the bytes of a key, whether it reads them as words, half
    words or single bytes, and whatever lies behind the key. */
module Jenkins {
  import opened Words32

  datatype Abc = Abc(a: bv32, b: bv32, c: bv32)

  function Rot(x: bv32, k: bv8): bv32
    requires k <= 32
  {
    (x << k) | (x >> (32 - k))
  }

  // ---------- mixing ----------

  /** One line of mix: `p -= q; p ^= rot(q, k); q += r`. */
  function MixLine(p: bv32, q: bv32, r: bv32, k: bv8): (bv32, bv32)
    requires k <= 32
  {
    (Xor(Minus(p, q), Rot(q, k)), Plus(q, r))
  }

  function Mix(s: Abc): Abc {
    var (a1, c1) := MixLine(s.a, s.c, s.b, 4);
    var (b1, a2) := MixLine(s.b, a1, c1, 6);
    var (c2, b2) := MixLine(c1, b1, a2, 8);
    var (a3, c3) := MixLine(a2, c2, b2, 16);
    var (b3, a4) := MixLine(b2, a3, c3, 19);
    var (c4, b4) := MixLine(c3, b3, a4, 4);
    Abc(a4, b4, c4)
  }

  function UnmixLine(p: bv32, q: bv32, r: bv32, k: bv8): (bv32, bv32)
    requires k <= 32
  {
    var q0 := Minus(q, r);
    (Plus(Xor(p, Rot(q0, k)), q0), q0)
  }

  function Unmix(s: Abc): Abc {
    var (c3, b3) := UnmixLine(s.c, s.b, s.a, 4);
    var (b2, a3) := UnmixLine(b3, s.a, c3, 19);
    var (a2, c2) := UnmixLine(a3, c3, b2, 16);
    var (c1, b1) := UnmixLine(c2, b2, a2, 8);
    var (b0, a1) := UnmixLine(b1, a2, c1, 6);
    var (a0, c0) := UnmixLine(a1, c1, b0, 4);
    Abc(a0, b0, c0)
  }

  lemma LineReversible(p: bv32, q: bv32, r: bv32, k: bv8)
    requires k <= 32
    ensures var (p1, q1) := MixLine(p, q, r, k); UnmixLine(p1, q1, r, k) == (p, q)
    ensures var (p0, q0) := UnmixLine(p, q, r, k); MixLine(p0, q0, r, k) == (p, q)
  {
    hide Rot, Plus, Minus, Xor;
    PlusMinus(q, r);
    XorTwice(Minus(p, q), Rot(q, k));
    PlusMinus(p, q);
    var q0 := Minus(q, r);
    PlusMinus(Xor(p, Rot(q0, k)), q0);
    XorTwice(p, Rot(q0, k));
  }

  /** Mixing loses nothing: it has an inverse. */
  lemma MixReversible(s: Abc)
    ensures Unmix(Mix(s)) == s && Mix(Unmix(s)) == s
  {
    hide MixLine, UnmixLine;
    var (a1, c1) := MixLine(s.a, s.c, s.b, 4);
    var (b1, a2) := MixLine(s.b, a1, c1, 6);
    var (c2, b2) := MixLine(c1, b1, a2, 8);
    var (a3, c3) := MixLine(a2, c2, b2, 16);
    var (b3, a4) := MixLine(b2, a3, c3, 19);
    LineReversible(c3, b3, a4, 4);
    LineReversible(b2, a3, c3, 19);
    LineReversible(a2, c2, b2, 16);
    LineReversible(c1, b1, a2, 8);
    LineReversible(s.b, a1, c1, 6);
    LineReversible(s.a, s.c, s.b, 4);
    MixOfUnmix(s);
  }

  lemma MixOfUnmix(s: Abc)
    ensures Mix(Unmix(s)) == s
  {
    hide MixLine, UnmixLine;
    var (c3, b3) := UnmixLine(s.c, s.b, s.a, 4);
    var (b2, a3) := UnmixLine(b3, s.a, c3, 19);
    var (a2, c2) := UnmixLine(a3, c3, b2, 16);
    var (c1, b1) := UnmixLine(c2, b2, a2, 8);
    var (b0, a1) := UnmixLine(b1, a2, c1, 6);
    LineReversible(a1, c1, b0, 4);
    LineReversible(b1, a2, c1, 6);
    LineReversible(c2, b2, a2, 8);
    LineReversible(a3, c3, b2, 16);
    LineReversible(b3, s.a, c3, 19);
    LineReversible(s.c, s.b, s.a, 4);
  }

  /** final: `p ^= q; p -= rot(q, k)`, seven times. */
  function FinalLine(p: bv32, q: bv32, k: bv8): bv32
    requires k <= 32
  {
    Minus(Xor(p, q), Rot(q, k))
  }

  function Final(s: Abc): Abc {
    var c1 := FinalLine(s.c, s.b, 14);
    var a1 := FinalLine(s.a, c1, 11);
    var b1 := FinalLine(s.b, a1, 25);
    var c2 := FinalLine(c1, b1, 16);
    var a2 := FinalLine(a1, c2, 4);
    var b2 := FinalLine(b1, a2, 14);
    var c3 := FinalLine(c2, b2, 24);
    Abc(a2, b2, c3)
  }

  function UnfinalLine(p: bv32, q: bv32, k: bv8): bv32
    requires k <= 32
  {
    Xor(Plus(p, Rot(q, k)), q)
  }

  function Unfinal(s: Abc): Abc {
    var c2 := UnfinalLine(s.c, s.b, 24);
    var b1 := UnfinalLine(s.b, s.a, 14);
    var a1 := UnfinalLine(s.a, c2, 4);
    var c1 := UnfinalLine(c2, b1, 16);
    var b0 := UnfinalLine(b1, a1, 25);
    var a0 := UnfinalLine(a1, c1, 11);
    Abc(a0, b0, UnfinalLine(c1, b0, 14))
  }

  lemma FinalLineReversible(p: bv32, q: bv32, k: bv8)
    requires k <= 32
    ensures UnfinalLine(FinalLine(p, q, k), q, k) == p && FinalLine(UnfinalLine(p, q, k), q, k) == p
  {
    hide Rot, Plus, Minus, Xor;
    PlusMinus(Xor(p, q), Rot(q, k));
    XorTwice(p, q);
    XorTwice(Plus(p, Rot(q, k)), q);
    PlusMinus(p, Rot(q, k));
  }

  /** Nor does the final mixing lose anything. */
  lemma FinalReversible(s: Abc)
    ensures Unfinal(Final(s)) == s && Final(Unfinal(s)) == s
  {
    hide FinalLine, UnfinalLine;
    var c1 := FinalLine(s.c, s.b, 14);
    var a1 := FinalLine(s.a, c1, 11);
    var b1 := FinalLine(s.b, a1, 25);
    var c2 := FinalLine(c1, b1, 16);
    var a2 := FinalLine(a1, c2, 4);
    var b2 := FinalLine(b1, a2, 14);
    FinalLineReversible(s.c, s.b, 14);
    FinalLineReversible(s.a, c1, 11);
    FinalLineReversible(s.b, a1, 25);
    FinalLineReversible(c1, b1, 16);
    FinalLineReversible(a1, c2, 4);
    FinalLineReversible(b1, a2, 14);
    FinalLineReversible(c2, b2, 24);
    FinalOfUnfinal(s);
  }

  lemma FinalOfUnfinal(s: Abc)
    ensures Final(Unfinal(s)) == s
  {
    hide FinalLine, UnfinalLine;
    var c2 := UnfinalLine(s.c, s.b, 24);
    var b1 := UnfinalLine(s.b, s.a, 14);
    var a1 := UnfinalLine(s.a, c2, 4);
    var c1 := UnfinalLine(c2, b1, 16);
    var b0 := UnfinalLine(b1, a1, 25);
    FinalLineReversible(s.c, s.b, 24);
    FinalLineReversible(s.b, s.a, 14);
    FinalLineReversible(s.a, c2, 4);
    FinalLineReversible(c2, b1, 16);
    FinalLineReversible(b1, a1, 25);
    FinalLineReversible(a1, c1, 11);
    FinalLineReversible(c1, b0, 14);
  }

  // ---------- the function that is computed ----------

  /** Byte `i` of a key that goes on with zeros. */
  function ByteAt(key: seq<bv8>, i: nat): bv8 {
    if i < |key| then key[i] else 0
  }

  /** Word `w` of a key that goes on with zeros. */
  function PaddedWord(key: seq<bv8>, w: nat): bv32 {
    LittleEndian(ByteAt(key, 4 * w), ByteAt(key, 4 * w + 1), ByteAt(key, 4 * w + 2), ByteAt(key, 4 * w + 3))
  }

  /** The first three words of the key added to the state. */
  function AddWords(s: Abc, key: seq<bv8>): Abc {
    Abc(Plus(s.a, PaddedWord(key, 0)), Plus(s.b, PaddedWord(key, 1)), Plus(s.c, PaddedWord(key, 2)))
  }

  /** Twelve bytes at a time, the last ones filled up with zeros; an empty key is not mixed at all. */
  function Hashed(s: Abc, key: seq<bv8>): Abc
    decreases |key|
  {
    if |key| > 12 then Hashed(Mix(AddWords(s, key[..12])), key[12..])
    else if key == [] then s
    else Final(AddWords(s, key))
  }

  /** The conversion of a length to uint32_t. */
  function Truncated(n: nat): bv32 {
    if n == 0 then 0 else Plus(Truncated(n - 1), 1)
  }

  function Start(length: nat, seed: bv32, seed2: bv32): Abc {
    var v := Plus(Plus(0xDEAD_BEEF, Truncated(length)), seed);
    Abc(v, v, Plus(v, seed2))
  }

  /** The hash of a key of bytes under a seed. */
  function Hash(key: seq<bv8>, seed: bv32): bv32 {
    Hashed(Start(|key|, seed, 0), key).c
  }

  // ---------- short keys do not collide ----------

  lemma LittleEndianInjective(a0: bv8, a1: bv8, a2: bv8, a3: bv8, b0: bv8, b1: bv8, b2: bv8, b3: bv8)
    requires LittleEndian(a0, a1, a2, a3) == LittleEndian(b0, b1, b2, b3)
    ensures a0 == b0 && a1 == b1 && a2 == b2 && a3 == b3
  {
  }

  lemma SameWord(key: seq<bv8>, other: seq<bv8>, w: nat)
    requires |key| == |other| && PaddedWord(key, w) == PaddedWord(other, w)
    ensures forall i | 4 * w <= i < 4 * w + 4 && i < |key| :: key[i] == other[i]
  {
    hide LittleEndian;
    LittleEndianInjective(ByteAt(key, 4 * w), ByteAt(key, 4 * w + 1), ByteAt(key, 4 * w + 2), ByteAt(key, 4 * w + 3),
                          ByteAt(other, 4 * w), ByteAt(other, 4 * w + 1), ByteAt(other, 4 * w + 2), ByteAt(other, 4 * w + 3));
    assert forall i | 4 * w <= i < 4 * w + 4 && i < |key| :: ByteAt(key, i) == ByteAt(other, i);
  }

  /** Two keys of the same length that fit into one block leave the same state only if they are the same. */
  lemma NoCollision(s: Abc, key: seq<bv8>, other: seq<bv8>)
    requires |key| == |other| <= 12 && Hashed(s, key) == Hashed(s, other)
    ensures key == other
  {
    hide Final, Plus, Minus, PaddedWord;
    FinalReversible(AddWords(s, key));
    FinalReversible(AddWords(s, other));
    if key != [] {
      SameSummand(s.a, PaddedWord(key, 0), PaddedWord(other, 0));
      SameSummand(s.b, PaddedWord(key, 1), PaddedWord(other, 1));
      SameSummand(s.c, PaddedWord(key, 2), PaddedWord(other, 2));
      SameWord(key, other, 0);
      SameWord(key, other, 1);
      SameWord(key, other, 2);
    }
  }

  lemma SameSummand(x: bv32, y: bv32, z: bv32)
    ensures Plus(x, y) == Plus(x, z) ==> y == z
  {
    hide Plus, Minus;
    PlusCommutative(x, y);
    PlusCommutative(x, z);
    PlusMinus(y, x);
    PlusMinus(z, x);
  }

  // ---------- words and parts of words ----------

  /** What is read from memory at the word `w`, whether or not it belongs to the key. */
  function MemWord(m: seq<bv8>, w: nat): bv32
    requires 4 * w + 4 <= |m|
  {
    LittleEndian(m[4 * w], m[4 * w + 1], m[4 * w + 2], m[4 * w + 3])
  }

  /** A word that belongs to the key as a whole. */
  lemma WholeWord(m: seq<bv8>, n: nat, w: nat)
    requires 4 * w + 4 <= n <= |m|
    ensures PaddedWord(m[..n], w) == MemWord(m, w)
  {
  }

  /** A word of which only the first bytes belong to the key: the others are masked off. */
  lemma MaskedWord(m: seq<bv8>, n: nat, w: nat)
    requires 4 * w < n < 4 * w + 4 <= |m|
    ensures n == 4 * w + 1 ==> PaddedWord(m[..n], w) == MemWord(m, w) & 0xFF
    ensures n == 4 * w + 2 ==> PaddedWord(m[..n], w) == MemWord(m, w) & 0xFFFF
    ensures n == 4 * w + 3 ==> PaddedWord(m[..n], w) == MemWord(m, w) & 0xFF_FFFF
  {
    hide LittleEndian;
    var b0, b1, b2, b3 := m[4 * w], m[4 * w + 1], m[4 * w + 2], m[4 * w + 3];
    MaskOne(b0, b1, b2, b3);
    MaskTwo(b0, b1, b2, b3);
    MaskThree(b0, b1, b2, b3);
  }

  lemma MaskOne(b0: bv8, b1: bv8, b2: bv8, b3: bv8)
    ensures LittleEndian(b0, b1, b2, b3) & 0xFF == LittleEndian(b0, 0, 0, 0)
  {
  }

  lemma MaskTwo(b0: bv8, b1: bv8, b2: bv8, b3: bv8)
    ensures LittleEndian(b0, b1, b2, b3) & 0xFFFF == LittleEndian(b0, b1, 0, 0)
  {
  }

  lemma MaskThree(b0: bv8, b1: bv8, b2: bv8, b3: bv8)
    ensures LittleEndian(b0, b1, b2, b3) & 0xFF_FFFF == LittleEndian(b0, b1, b2, 0)
  {
  }

  lemma NoWord(x: bv32, key: seq<bv8>, w: nat)
    requires |key| <= 4 * w
    ensures Plus(x, PaddedWord(key, w)) == x
  {
    ZeroBytes();
    assert PaddedWord(key, w) == 0;
  }

  lemma ZeroBytes()
    ensures LittleEndian(0, 0, 0, 0) == 0
  {
  }

  /** What a word read from memory adds, by how much of it belongs to the key. */
  lemma WordToAdd(m: seq<bv8>, n: nat, w: nat, x: bv32)
    requires n <= |m| && (4 * w < n ==> 4 * w + 4 <= |m|)
    ensures n >= 4 * w + 4 ==> PaddedWord(m[..n], w) == MemWord(m, w)
    ensures n == 4 * w + 3 ==> PaddedWord(m[..n], w) == MemWord(m, w) & 0xFF_FFFF
    ensures n == 4 * w + 2 ==> PaddedWord(m[..n], w) == MemWord(m, w) & 0xFFFF
    ensures n == 4 * w + 1 ==> PaddedWord(m[..n], w) == MemWord(m, w) & 0xFF
    ensures n <= 4 * w ==> Plus(x, PaddedWord(m[..n], w)) == x
  {
    hide PaddedWord, MemWord, Plus;
    if n >= 4 * w + 4 {
      WholeWord(m, n, w);
    } else if n > 4 * w {
      MaskedWord(m, n, w);
    } else {
      NoWord(x, m[..n], w);
    }
  }

  function Shl(b: bv8, k: bv8): bv32
    requires k <= 24
  {
    (b as bv32) << k
  }

  function HalfWord(b0: bv8, b1: bv8): bv32 {
    (b0 as bv32) | ((b1 as bv32) << 8)
  }

  /** A half word read from memory. */
  function Half(m: seq<bv8>, i: nat): bv32
    requires 2 * i + 2 <= |m|
  {
    HalfWord(m[2 * i], m[2 * i + 1])
  }

  /** The bytes of a word can be added one by one, in either order. */
  lemma ByteSum(x: bv32, b0: bv8, b1: bv8, b2: bv8, b3: bv8)
    ensures var p, q, r, s := Shl(b0, 0), Shl(b1, 8), Shl(b2, 16), Shl(b3, 24);
            && Plus(Plus(Plus(Plus(x, p), q), r), s) == Plus(x, LittleEndian(b0, b1, b2, b3))
            && Plus(Plus(Plus(Plus(x, s), r), q), p) == Plus(x, LittleEndian(b0, b1, b2, b3))
  {
    var p, q, r, s := Shl(b0, 0), Shl(b1, 8), Shl(b2, 16), Shl(b3, 24);
    DisjointBytes(b0, b1, b2, b3);
    SumOrder(x, p, q, r, s);
  }

  lemma DisjointBytes(b0: bv8, b1: bv8, b2: bv8, b3: bv8)
    ensures LittleEndian(b0, b1, b2, b3) == Plus(Plus(Plus(Shl(b0, 0), Shl(b1, 8)), Shl(b2, 16)), Shl(b3, 24))
  {
  }

  lemma SumOrder(x: bv32, p: bv32, q: bv32, r: bv32, s: bv32)
    ensures Plus(Plus(Plus(Plus(x, p), q), r), s) == Plus(x, Plus(Plus(Plus(p, q), r), s))
    ensures Plus(Plus(Plus(Plus(x, s), r), q), p) == Plus(x, Plus(Plus(Plus(p, q), r), s))
  {
    hide Plus;
    PlusAssociative(x, p, q);
    PlusAssociative(x, Plus(p, q), r);
    PlusAssociative(x, Plus(Plus(p, q), r), s);
    PlusAssociative(x, s, r);
    PlusAssociative(x, Plus(s, r), q);
    PlusAssociative(x, Plus(Plus(s, r), q), p);
    PlusCommutative(Plus(Plus(s, r), q), p);
    PlusCommutative(Plus(s, r), q);
    PlusAssociative(p, q, Plus(s, r));
    PlusCommutative(s, r);
    PlusAssociative(Plus(p, q), r, s);
  }

  // ---------- half words ----------

  function High(h: bv32): bv32 { h << 16 }

  lemma TwoHalves(b0: bv8, b1: bv8, b2: bv8, b3: bv8)
    ensures Plus(HalfWord(b0, b1), High(HalfWord(b2, b3))) == LittleEndian(b0, b1, b2, b3)
  {
  }

  lemma HalfAndByte(b0: bv8, b1: bv8, b2: bv8)
    ensures Plus(Shl(b2, 16), HalfWord(b0, b1)) == LittleEndian(b0, b1, b2, 0)
  {
  }

  lemma HalfOnly(b0: bv8, b1: bv8)
    ensures HalfWord(b0, b1) == LittleEndian(b0, b1, 0, 0) && Shl(b0, 0) == LittleEndian(b0, 0, 0, 0)
  {
  }

  /** What half words and bytes read from memory add. */
  lemma HalvesToAdd(m: seq<bv8>, n: nat, w: nat, x: bv32)
    requires n <= |m|
    ensures n >= 4 * w + 4 ==> PaddedWord(m[..n], w) == Plus(Half(m, 2 * w), High(Half(m, 2 * w + 1)))
    ensures n == 4 * w + 3 ==> Plus(x, PaddedWord(m[..n], w)) == Plus(Plus(x, Shl(m[4 * w + 2], 16)), Half(m, 2 * w))
    ensures n == 4 * w + 2 ==> PaddedWord(m[..n], w) == Half(m, 2 * w)
    ensures n == 4 * w + 1 ==> PaddedWord(m[..n], w) == Shl(m[4 * w], 0)
    ensures n <= 4 * w ==> Plus(x, PaddedWord(m[..n], w)) == x
  {
    hide Plus, LittleEndian, Shl, High, HalfWord;
    if n >= 4 * w + 4 {
      TwoHalves(m[4 * w], m[4 * w + 1], m[4 * w + 2], m[4 * w + 3]);
    } else if n == 4 * w + 3 {
      HalfAndByte(m[4 * w], m[4 * w + 1], m[4 * w + 2]);
      PlusAssociative(x, Shl(m[4 * w + 2], 16), Half(m, 2 * w));
    } else if n == 4 * w + 2 {
      HalfOnly(m[4 * w], m[4 * w + 1]);
    } else if n == 4 * w + 1 {
      HalfOnly(m[4 * w], 0);
    } else {
      NoWord(x, m[..n], w);
    }
  }

  // ---------- the last block, read in three ways ----------

  /** The switch of the word path.  It reads words that reach beyond the key. */
  method LastByWords(m: seq<bv8>, n: nat, s: Abc) returns (s': Abc)
    requires 0 < n <= 12 && n <= |m| && (n + 3) / 4 * 4 <= |m|
    ensures s' == AddWords(s, m[..n])
  {
    hide PaddedWord, MemWord, Plus;
    var Abc(a, b, c) := s;
    WordToAdd(m, n, 0, a);
    WordToAdd(m, n, 1, b);
    WordToAdd(m, n, 2, c);
    if n == 12 {
      c := Plus(c, MemWord(m, 2));
      b := Plus(b, MemWord(m, 1));
      a := Plus(a, MemWord(m, 0));
    } else if n == 11 {
      c := Plus(c, MemWord(m, 2) & 0xFF_FFFF);
      b := Plus(b, MemWord(m, 1));
      a := Plus(a, MemWord(m, 0));
    } else if n == 10 {
      c := Plus(c, MemWord(m, 2) & 0xFFFF);
      b := Plus(b, MemWord(m, 1));
      a := Plus(a, MemWord(m, 0));
    } else if n == 9 {
      c := Plus(c, MemWord(m, 2) & 0xFF);
      b := Plus(b, MemWord(m, 1));
      a := Plus(a, MemWord(m, 0));
    } else if n == 8 {
      b := Plus(b, MemWord(m, 1));
      a := Plus(a, MemWord(m, 0));
    } else if n == 7 {
      b := Plus(b, MemWord(m, 1) & 0xFF_FFFF);
      a := Plus(a, MemWord(m, 0));
    } else if n == 6 {
      b := Plus(b, MemWord(m, 1) & 0xFFFF);
      a := Plus(a, MemWord(m, 0));
    } else if n == 5 {
      b := Plus(b, MemWord(m, 1) & 0xFF);
      a := Plus(a, MemWord(m, 0));
    } else if n == 4 {
      a := Plus(a, MemWord(m, 0));
    } else if n == 3 {
      a := Plus(a, MemWord(m, 0) & 0xFF_FFFF);
    } else if n == 2 {
      a := Plus(a, MemWord(m, 0) & 0xFFFF);
    } else if n == 1 {
      a := Plus(a, MemWord(m, 0) & 0xFF);
    }
    s' := Abc(a, b, c);
  }

  /** The switch of the half word path. */
  method LastByHalves(m: seq<bv8>, n: nat, s: Abc) returns (s': Abc)
    requires 0 < n <= 12 && n <= |m|
    ensures s' == AddWords(s, m[..n])
  {
    hide PaddedWord, Half, Shl, High, Plus;
    var Abc(a, b, c) := s;
    HalvesToAdd(m, n, 0, a);
    HalvesToAdd(m, n, 1, b);
    HalvesToAdd(m, n, 2, c);
    if n == 12 {
      c := Plus(c, Plus(Half(m, 4), High(Half(m, 5))));
      b := Plus(b, Plus(Half(m, 2), High(Half(m, 3))));
      a := Plus(a, Plus(Half(m, 0), High(Half(m, 1))));
    } else if n == 11 {
      c := Plus(c, Shl(m[10], 16));
      c := Plus(c, Half(m, 4));
      b := Plus(b, Plus(Half(m, 2), High(Half(m, 3))));
      a := Plus(a, Plus(Half(m, 0), High(Half(m, 1))));
    } else if n == 10 {
      c := Plus(c, Half(m, 4));
      b := Plus(b, Plus(Half(m, 2), High(Half(m, 3))));
      a := Plus(a, Plus(Half(m, 0), High(Half(m, 1))));
    } else if n == 9 {
      c := Plus(c, Shl(m[8], 0));
      b := Plus(b, Plus(Half(m, 2), High(Half(m, 3))));
      a := Plus(a, Plus(Half(m, 0), High(Half(m, 1))));
    } else if n == 8 {
      b := Plus(b, Plus(Half(m, 2), High(Half(m, 3))));
      a := Plus(a, Plus(Half(m, 0), High(Half(m, 1))));
    } else if n == 7 {
      b := Plus(b, Shl(m[6], 16));
      b := Plus(b, Half(m, 2));
      a := Plus(a, Plus(Half(m, 0), High(Half(m, 1))));
    } else if n == 6 {
      b := Plus(b, Half(m, 2));
      a := Plus(a, Plus(Half(m, 0), High(Half(m, 1))));
    } else if n == 5 {
      b := Plus(b, Shl(m[4], 0));
      a := Plus(a, Plus(Half(m, 0), High(Half(m, 1))));
    } else if n == 4 {
      a := Plus(a, Plus(Half(m, 0), High(Half(m, 1))));
    } else if n == 3 {
      a := Plus(a, Shl(m[2], 16));
      a := Plus(a, Half(m, 0));
    } else if n == 2 {
      a := Plus(a, Half(m, 0));
    } else if n == 1 {
      a := Plus(a, Shl(m[0], 0));
    }
    s' := Abc(a, b, c);
  }

  /** One case of the byte path, which is reached for every length from its own on. */
  method AddByte(x: bv32, m: seq<bv8>, i: nat, n: nat, k: bv8) returns (r: bv32)
    requires n <= |m| && k <= 24
    ensures r == Plus(x, Shl(ByteAt(m[..n], i), k))
  {
    r := x;
    if n > i {
      r := Plus(r, Shl(m[i], k));
    } else {
      NothingShifted(k);
    }
  }

  lemma NothingShifted(k: bv8)
    requires k <= 24
    ensures Shl(0, k) == 0
  {
  }

  /** The switch of the byte path, in which every case falls through to the next. */
  method LastByBytes(m: seq<bv8>, n: nat, s: Abc) returns (s': Abc)
    requires 0 < n <= 12 && n <= |m|
    ensures s' == AddWords(s, m[..n])
  {
    hide Plus, Shl, LittleEndian, ByteAt;
    var Abc(a, b, c) := s;
    ghost var key := m[..n];
    ByteSum(s.a, ByteAt(key, 0), ByteAt(key, 1), ByteAt(key, 2), ByteAt(key, 3));
    ByteSum(s.b, ByteAt(key, 4), ByteAt(key, 5), ByteAt(key, 6), ByteAt(key, 7));
    ByteSum(s.c, ByteAt(key, 8), ByteAt(key, 9), ByteAt(key, 10), ByteAt(key, 11));
    c := AddByte(c, m, 11, n, 24);
    c := AddByte(c, m, 10, n, 16);
    c := AddByte(c, m, 9, n, 8);
    c := AddByte(c, m, 8, n, 0);
    b := AddByte(b, m, 7, n, 24);
    b := AddByte(b, m, 6, n, 16);
    b := AddByte(b, m, 5, n, 8);
    b := AddByte(b, m, 4, n, 0);
    a := AddByte(a, m, 3, n, 24);
    a := AddByte(a, m, 2, n, 16);
    a := AddByte(a, m, 1, n, 8);
    a := AddByte(a, m, 0, n, 0);
    s' := Abc(a, b, c);
  }

  // ---------- a whole block, read in three ways ----------

  method BlockByWords(m: seq<bv8>, s: Abc) returns (s': Abc)
    requires 12 <= |m|
    ensures s' == AddWords(s, m[..12])
  {
    hide PaddedWord, MemWord, Plus;
    WholeWord(m, 12, 0);
    WholeWord(m, 12, 1);
    WholeWord(m, 12, 2);
    s' := Abc(Plus(s.a, MemWord(m, 0)), Plus(s.b, MemWord(m, 1)), Plus(s.c, MemWord(m, 2)));
  }

  method BlockByHalves(m: seq<bv8>, s: Abc) returns (s': Abc)
    requires 12 <= |m|
    ensures s' == AddWords(s, m[..12])
  {
    hide PaddedWord, Half, High, Plus;
    HalvesToAdd(m, 12, 0, s.a);
    HalvesToAdd(m, 12, 1, s.b);
    HalvesToAdd(m, 12, 2, s.c);
    s' := Abc(Plus(s.a, Plus(Half(m, 0), High(Half(m, 1)))),
              Plus(s.b, Plus(Half(m, 2), High(Half(m, 3)))),
              Plus(s.c, Plus(Half(m, 4), High(Half(m, 5)))));
  }

  method BlockByBytes(m: seq<bv8>, s: Abc) returns (s': Abc)
    requires 12 <= |m|
    ensures s' == AddWords(s, m[..12])
  {
    hide Plus, Shl, LittleEndian;
    ghost var key := m[..12];
    var Abc(a, b, c) := s;
    ByteSum(a, key[0], key[1], key[2], key[3]);
    ByteSum(b, key[4], key[5], key[6], key[7]);
    ByteSum(c, key[8], key[9], key[10], key[11]);
    a := Plus(a, Shl(m[0], 0));
    a := Plus(a, Shl(m[1], 8));
    a := Plus(a, Shl(m[2], 16));
    a := Plus(a, Shl(m[3], 24));
    b := Plus(b, Shl(m[4], 0));
    b := Plus(b, Shl(m[5], 8));
    b := Plus(b, Shl(m[6], 16));
    b := Plus(b, Shl(m[7], 24));
    c := Plus(c, Shl(m[8], 0));
    c := Plus(c, Shl(m[9], 8));
    c := Plus(c, Shl(m[10], 16));
    c := Plus(c, Shl(m[11], 24));
    s' := Abc(a, b, c);
  }

  lemma HashedBlock(s: Abc, key: seq<bv8>)
    requires |key| > 12
    ensures Hashed(s, key) == Hashed(Mix(AddWords(s, key[..12])), key[12..])
  {
  }

  lemma HashedTail(s: Abc, key: seq<bv8>)
    requires |key| <= 12
    ensures Hashed(s, key) == if key == [] then s else Final(AddWords(s, key))
  {
  }

  // ---------- the whole key, read in three ways ----------

  lemma NextBlock(m: seq<bv8>, off: nat, n: nat)
    requires off + 12 <= n <= |m|
    ensures m[off..][..12] == m[off..n][..12] && m[off..n][12..] == m[off + 12..n]
  {
  }

  /** A key at an address divisible by four. */
  method ByWords(m: seq<bv8>, n: nat, s0: Abc) returns (s: Abc)
    requires n <= |m| && (n + 3) / 4 * 4 <= |m|
    ensures s == Hashed(s0, m[..n])
  {
    hide Hashed, AddWords, Mix, Final;
    var off := 0;
    s := s0;
    assert m[0..n] == m[..n];
    while n - off > 12
      invariant off <= n && off % 4 == 0 && Hashed(s, m[off..n]) == Hashed(s0, m[..n])
    {
      HashedBlock(s, m[off..n]);
      NextBlock(m, off, n);
      s := BlockByWords(m[off..], s);
      s := Mix(s);
      off := off + 12;
    }
    HashedTail(s, m[off..n]);
    if n - off > 0 {
      assert m[off..][..n - off] == m[off..n];
      s := LastByWords(m[off..], n - off, s);
      s := Final(s);
    }
  }

  /** A key at an even address. */
  method ByHalves(m: seq<bv8>, n: nat, s0: Abc) returns (s: Abc)
    requires n <= |m|
    ensures s == Hashed(s0, m[..n])
  {
    hide Hashed, AddWords, Mix, Final;
    var off := 0;
    s := s0;
    assert m[0..n] == m[..n];
    while n - off > 12
      invariant off <= n && off % 4 == 0 && Hashed(s, m[off..n]) == Hashed(s0, m[..n])
    {
      HashedBlock(s, m[off..n]);
      NextBlock(m, off, n);
      s := BlockByHalves(m[off..], s);
      s := Mix(s);
      off := off + 12;
    }
    HashedTail(s, m[off..n]);
    if n - off > 0 {
      assert m[off..][..n - off] == m[off..n];
      s := LastByHalves(m[off..], n - off, s);
      s := Final(s);
    }
  }

  /** A key anywhere. */
  method ByBytes(m: seq<bv8>, n: nat, s0: Abc) returns (s: Abc)
    requires n <= |m|
    ensures s == Hashed(s0, m[..n])
  {
    hide Hashed, AddWords, Mix, Final;
    var off := 0;
    s := s0;
    assert m[0..n] == m[..n];
    while n - off > 12
      invariant off <= n && off % 4 == 0 && Hashed(s, m[off..n]) == Hashed(s0, m[..n])
    {
      HashedBlock(s, m[off..n]);
      NextBlock(m, off, n);
      s := BlockByBytes(m[off..], s);
      s := Mix(s);
      off := off + 12;
    }
    HashedTail(s, m[off..n]);
    if n - off > 0 {
      assert m[off..][..n - off] == m[off..n];
      s := LastByBytes(m[off..], n - off, s);
      s := Final(s);
    }
  }

  /** The part that `hashlittle` and `hashlittle2` share: the address of the key decides how it is
      read, and memory behind the key does not matter. */
  method HashMemory(m: seq<bv8>, n: nat, littleEndian: bool, address: nat, s0: Abc) returns (s: Abc)
    requires n <= |m| && (littleEndian && address % 4 == 0 ==> (n + 3) / 4 * 4 <= |m|)
    ensures s == Hashed(s0, m[..n])
  {
    if littleEndian && address % 4 == 0 {
      s := ByWords(m, n, s0);
    } else if littleEndian && address % 2 == 0 {
      s := ByHalves(m, n, s0);
    } else {
      s := ByBytes(m, n, s0);
    }
  }

  /** `hashlittle` */
  method HashLittle(m: seq<bv8>, n: nat, littleEndian: bool, address: nat, initval: bv32) returns (h: bv32)
    requires n <= |m| && (littleEndian && address % 4 == 0 ==> (n + 3) / 4 * 4 <= |m|)
    ensures h == Hash(m[..n], initval)
  {
    hide Hashed, Truncated, Plus;
    var v := Plus(Plus(0xDEAD_BEEF, Truncated(n)), initval);
    PlusZero(v);
    var s := HashMemory(m, n, littleEndian, address, Abc(v, v, v));
    h := s.c;
  }

  /** `hashlittle2` */
  method HashLittle2(m: seq<bv8>, n: nat, littleEndian: bool, address: nat, pc: bv32, pb: bv32)
    returns (pc': bv32, pb': bv32)
    requires n <= |m| && (littleEndian && address % 4 == 0 ==> (n + 3) / 4 * 4 <= |m|)
    ensures var s := Hashed(Start(n, pc, pb), m[..n]); pc' == s.c && pb' == s.b
    ensures pb == 0 ==> pc' == Hash(m[..n], pc)
  {
    hide Hashed, Truncated, Plus;
    var v := Plus(Plus(0xDEAD_BEEF, Truncated(n)), pc);
    var s := HashMemory(m, n, littleEndian, address, Abc(v, v, Plus(v, pb)));
    pc', pb' := s.c, s.b;
  }

  // ---------- keys of words ----------

  function LittleEndianBytes(w: bv32): (b: seq<bv8>)
    ensures |b| == 4
  {
    [(w & 0xFF) as bv8, ((w >> 8) & 0xFF) as bv8, ((w >> 16) & 0xFF) as bv8, (w >> 24) as bv8]
  }

  lemma WordOfBytes(w: bv32)
    ensures var b := LittleEndianBytes(w); LittleEndian(b[0], b[1], b[2], b[3]) == w
  {
  }

  /** The bytes of a key of words on a little-endian machine. */
  function KeyBytes(k: seq<bv32>): (b: seq<bv8>)
    ensures |b| == 4 * |k|
  {
    if k == [] then [] else LittleEndianBytes(k[0]) + KeyBytes(k[1..])
  }

  lemma PaddedShift(a: seq<bv8>, b: seq<bv8>, w: nat)
    requires |a| == 4 && w > 0
    ensures PaddedWord(a + b, w) == PaddedWord(b, w - 1)
  {
    hide LittleEndian;
    assert forall i | 4 * w <= i < 4 * w + 4 :: ByteAt(a + b, i) == ByteAt(b, i - 4);
  }

  lemma {:induction false} KeyWord(k: seq<bv32>, w: nat)
    requires w < |k|
    ensures PaddedWord(KeyBytes(k), w) == k[w]
    decreases w
  {
    hide LittleEndian, LittleEndianBytes;
    if w == 0 {
      WordOfBytes(k[0]);
    } else {
      hide PaddedWord;
      KeyWord(k[1..], w - 1);
      PaddedShift(LittleEndianBytes(k[0]), KeyBytes(k[1..]), w);
    }
  }

  lemma {:induction false} KeyBytesSplit(k: seq<bv32>, i: nat)
    requires i <= |k|
    ensures KeyBytes(k) == KeyBytes(k[..i]) + KeyBytes(k[i..])
    decreases i
  {
    hide LittleEndianBytes;
    if i == 0 {
      assert k[0..] == k;
    } else {
      KeyBytesSplit(k[1..], i - 1);
      assert k[..i][1..] == k[1..][..i - 1] && k[1..][i - 1..] == k[i..];
    }
  }

  /** At most three words added to the state. */
  lemma AddKeyWords(s: Abc, k: seq<bv32>)
    requires |k| <= 3
    ensures AddWords(s, KeyBytes(k)) ==
            Abc(if |k| > 0 then Plus(s.a, k[0]) else s.a,
                if |k| > 1 then Plus(s.b, k[1]) else s.b,
                if |k| > 2 then Plus(s.c, k[2]) else s.c)
  {
    hide PaddedWord, Plus, KeyBytes;
    if |k| > 0 { KeyWord(k, 0); } else { NoWord(s.a, KeyBytes(k), 0); }
    if |k| > 1 { KeyWord(k, 1); } else { NoWord(s.b, KeyBytes(k), 1); }
    if |k| > 2 { KeyWord(k, 2); } else { NoWord(s.c, KeyBytes(k), 2); }
  }

  function TimesFour(x: bv32): bv32 { x << 2 }

  lemma TimesFourIsSum(x: bv32)
    ensures TimesFour(x) == Plus(Plus(x, x), Plus(x, x))
  {
    assert x << 2 == (x + x) + (x + x);
    assert Plus(x + x, x + x) == (x + x) + (x + x);
  }

  lemma PlusZero(v: bv32)
    ensures Plus(v, 0) == v
  {
  }

  lemma {:induction false} TruncatedSum(a: nat, b: nat)
    ensures Truncated(a + b) == Plus(Truncated(a), Truncated(b))
  {
    hide Plus;
    if b == 0 {
      PlusZero(Truncated(a));
    } else {
      TruncatedSum(a, b - 1);
      PlusAssociative(Truncated(a), Truncated(b - 1), 1);
    }
  }

  /** Counting four bytes a word commutes with the conversion of the length. */
  lemma TruncatedTimesFour(n: nat)
    ensures Truncated(4 * n) == TimesFour(Truncated(n))
  {
    hide Plus, TimesFour, Truncated;
    TruncatedSum(n, n);
    TruncatedSum(n + n, n + n);
    assert 4 * n == (n + n) + (n + n);
    TimesFourIsSum(Truncated(n));
  }

  /** The part that `hashword` and `hashword2` share. */
  method HashKey(k: seq<bv32>, s0: Abc) returns (s: Abc)
    ensures s == Hashed(s0, KeyBytes(k))
  {
    hide Hashed, AddWords, Mix, Final, KeyBytes, Plus;
    var off := 0;
    s := s0;
    assert k[0..] == k;
    while |k| - off > 3
      invariant off <= |k| && Hashed(s, KeyBytes(k[off..])) == Hashed(s0, KeyBytes(k))
    {
      ghost var rest := k[off..];
      KeyBytesSplit(rest, 3);
      assert KeyBytes(rest)[..12] == KeyBytes(rest[..3]) && KeyBytes(rest)[12..] == KeyBytes(rest[3..]);
      HashedBlock(s, KeyBytes(rest));
      AddKeyWords(s, rest[..3]);
      s := Abc(Plus(s.a, k[off]), Plus(s.b, k[off + 1]), Plus(s.c, k[off + 2]));
      s := Mix(s);
      assert rest[3..] == k[off + 3..];
      off := off + 3;
    }
    HashedTail(s, KeyBytes(k[off..]));
    AddKeyWords(s, k[off..]);
    var length := |k| - off;
    if length > 0 {
      var Abc(a, b, c) := s;
      if length >= 3 { c := Plus(c, k[off + 2]); }
      if length >= 2 { b := Plus(b, k[off + 1]); }
      a := Plus(a, k[off]);
      s := Final(Abc(a, b, c));
    }
  }

  /** `hashword`: the same as `hashlittle` on the bytes of the words. */
  method HashWord(k: seq<bv32>, initval: bv32) returns (h: bv32)
    ensures h == Hash(KeyBytes(k), initval)
  {
    hide Hashed, Truncated, Plus, TimesFour, KeyBytes;
    TruncatedTimesFour(|k|);
    var v := Plus(Plus(0xDEAD_BEEF, TimesFour(Truncated(|k|))), initval);
    PlusZero(v);
    var s := HashKey(k, Abc(v, v, v));
    h := s.c;
  }

  /** `hashword2` */
  method HashWord2(k: seq<bv32>, pc: bv32, pb: bv32) returns (pc': bv32, pb': bv32)
    ensures var s := Hashed(Start(4 * |k|, pc, pb), KeyBytes(k)); pc' == s.c && pb' == s.b
    ensures pb == 0 ==> pc' == Hash(KeyBytes(k), pc)
  {
    hide Hashed, Truncated, Plus, TimesFour, KeyBytes;
    TruncatedTimesFour(|k|);
    var v := Plus(Plus(0xDEAD_BEEF, TimesFour(Truncated(|k|))), pc);
    var s := HashKey(k, Abc(v, v, Plus(v, pb)));
    pc', pb' := s.c, s.b;
  }
}
