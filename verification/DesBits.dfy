/** The bit permutations of DES: how the program moves bits, and the table of FIPS 46-3 they come to. */
module DesBits {
  import opened Words32

  datatype Halves = Halves(x: bv32, y: bv32)

  function Swap(h: Halves): Halves { Halves(h.y, h.x) }

  // ---------- the initial and the final permutation ----------

  /** Where the bits of `y` under `m` differ from the bits of `x` that lie `s` places higher. */
  function Difference(x: bv32, y: bv32, s: bv8, m: bv32): bv32
    requires s < 32
  {
    ((x >> s) ^ y) & m
  }

  function Up(t: bv32, s: bv8): bv32
    requires s < 32
  {
    t << s
  }

  /** Exchange those bits. */
  function Exchange(h: Halves, s: bv8, m: bv32): Halves
    requires s < 32
  {
    var t := Difference(h.x, h.y, s, m);
    Halves(Xor(h.x, Up(t, s)), Xor(h.y, t))
  }

  /** The same with the halves in each other's place. */
  function ExchangeBack(h: Halves, s: bv8, m: bv32): Halves
    requires s < 32
  {
    Swap(Exchange(Swap(h), s, m))
  }

  function RotateLeft(w: bv32): bv32 { (w << 1) | (w >> 31) }
  function RotateRight(w: bv32): bv32 { (w << 31) | (w >> 1) }

  /** DES_IP */
  function InitialPermutation(h: Halves): Halves {
    var h1 := Exchange(h, 4, 0x0F0F_0F0F);
    var h2 := Exchange(h1, 16, 0x0000_FFFF);
    var h3 := ExchangeBack(h2, 2, 0x3333_3333);
    var h4 := ExchangeBack(h3, 8, 0x00FF_00FF);
    var h5 := Halves(h4.x, RotateLeft(h4.y));
    var h6 := Exchange(h5, 0, 0xAAAA_AAAA);
    Halves(RotateLeft(h6.x), h6.y)
  }

  /** DES_FP */
  function FinalPermutation(h: Halves): Halves {
    var h6 := Halves(RotateRight(h.x), h.y);
    var h5 := Exchange(h6, 0, 0xAAAA_AAAA);
    var h4 := Halves(h5.x, RotateRight(h5.y));
    var h3 := ExchangeBack(h4, 8, 0x00FF_00FF);
    var h2 := ExchangeBack(h3, 2, 0x3333_3333);
    var h1 := Exchange(h2, 16, 0x0000_FFFF);
    Exchange(h1, 4, 0x0F0F_0F0F)
  }

  // The bits that differ still do after they have been exchanged, for each of the five masks.

  lemma Difference4(x: bv32, y: bv32)
    ensures var t := Difference(x, y, 4, 0x0F0F_0F0F); Difference(Xor(x, Up(t, 4)), Xor(y, t), 4, 0x0F0F_0F0F) == t
  {
  }

  lemma Difference16(x: bv32, y: bv32)
    ensures var t := Difference(x, y, 16, 0x0000_FFFF); Difference(Xor(x, Up(t, 16)), Xor(y, t), 16, 0x0000_FFFF) == t
  {
  }

  lemma Difference2(x: bv32, y: bv32)
    ensures var t := Difference(x, y, 2, 0x3333_3333); Difference(Xor(x, Up(t, 2)), Xor(y, t), 2, 0x3333_3333) == t
  {
  }

  lemma Difference8(x: bv32, y: bv32)
    ensures var t := Difference(x, y, 8, 0x00FF_00FF); Difference(Xor(x, Up(t, 8)), Xor(y, t), 8, 0x00FF_00FF) == t
  {
  }

  lemma Difference0(x: bv32, y: bv32)
    ensures var t := Difference(x, y, 0, 0xAAAA_AAAA); Difference(Xor(x, Up(t, 0)), Xor(y, t), 0, 0xAAAA_AAAA) == t
  {
  }

  lemma ExchangeTwice(h: Halves, s: bv8, m: bv32)
    requires s < 32
    requires var t := Difference(h.x, h.y, s, m); Difference(Xor(h.x, Up(t, s)), Xor(h.y, t), s, m) == t
    ensures Exchange(Exchange(h, s, m), s, m) == h
  {
    hide Difference, Up, Xor;
    var t := Difference(h.x, h.y, s, m);
    XorTwice(h.x, Up(t, s));
    XorTwice(h.y, t);
  }

  lemma Exchange4Twice(h: Halves)
    ensures Exchange(Exchange(h, 4, 0x0F0F_0F0F), 4, 0x0F0F_0F0F) == h
  {
    hide Difference, Up, Xor, Exchange;
    Difference4(h.x, h.y);
    ExchangeTwice(h, 4, 0x0F0F_0F0F);
  }

  lemma Exchange16Twice(h: Halves)
    ensures Exchange(Exchange(h, 16, 0x0000_FFFF), 16, 0x0000_FFFF) == h
  {
    hide Difference, Up, Xor, Exchange;
    Difference16(h.x, h.y);
    ExchangeTwice(h, 16, 0x0000_FFFF);
  }

  lemma Exchange0Twice(h: Halves)
    ensures Exchange(Exchange(h, 0, 0xAAAA_AAAA), 0, 0xAAAA_AAAA) == h
  {
    hide Difference, Up, Xor, Exchange;
    Difference0(h.x, h.y);
    ExchangeTwice(h, 0, 0xAAAA_AAAA);
  }

  lemma ExchangeBackTwice(h: Halves)
    ensures ExchangeBack(ExchangeBack(h, 2, 0x3333_3333), 2, 0x3333_3333) == h
    ensures ExchangeBack(ExchangeBack(h, 8, 0x00FF_00FF), 8, 0x00FF_00FF) == h
  {
    hide Difference, Up, Xor, Exchange;
    Difference2(h.y, h.x);
    ExchangeTwice(Swap(h), 2, 0x3333_3333);
    Difference8(h.y, h.x);
    ExchangeTwice(Swap(h), 8, 0x00FF_00FF);
  }

  lemma Rotations(w: bv32)
    ensures RotateRight(RotateLeft(w)) == w && RotateLeft(RotateRight(w)) == w
  {
  }

  lemma FinalUndoesInitial(h: Halves)
    ensures FinalPermutation(InitialPermutation(h)) == h
  {
    hide Exchange, ExchangeBack, RotateLeft, RotateRight;
    var h1 := Exchange(h, 4, 0x0F0F_0F0F);
    var h2 := Exchange(h1, 16, 0x0000_FFFF);
    var h3 := ExchangeBack(h2, 2, 0x3333_3333);
    var h4 := ExchangeBack(h3, 8, 0x00FF_00FF);
    var h5 := Halves(h4.x, RotateLeft(h4.y));
    var h6 := Exchange(h5, 0, 0xAAAA_AAAA);
    Rotations(h6.x);
    Rotations(h4.y);
    Exchange0Twice(h5);
    ExchangeBackTwice(h3);
    ExchangeBackTwice(h2);
    Exchange16Twice(h1);
    Exchange4Twice(h);
  }

  lemma InitialUndoesFinal(h: Halves)
    ensures InitialPermutation(FinalPermutation(h)) == h
  {
    hide Exchange, ExchangeBack, RotateLeft, RotateRight;
    var h6 := Halves(RotateRight(h.x), h.y);
    var h5 := Exchange(h6, 0, 0xAAAA_AAAA);
    var h4 := Halves(h5.x, RotateRight(h5.y));
    var h3 := ExchangeBack(h4, 8, 0x00FF_00FF);
    var h2 := ExchangeBack(h3, 2, 0x3333_3333);
    var h1 := Exchange(h2, 16, 0x0000_FFFF);
    Exchange4Twice(h1);
    Exchange16Twice(h2);
    ExchangeBackTwice(h3);
    ExchangeBackTwice(h4);
    Rotations(h5.y);
    Exchange0Twice(h6);
    Rotations(h.x);
  }

  // ---------- blocks ----------

  function Load(block: seq<bv8>): Halves
    requires |block| == 8
  {
    Halves(BigEndian(block[0], block[1], block[2], block[3]), BigEndian(block[4], block[5], block[6], block[7]))
  }

  function Store(h: Halves): (block: seq<bv8>)
    ensures |block| == 8
  {
    WordBytes(h.x) + WordBytes(h.y)
  }

  lemma LoadStore(h: Halves)
    ensures Load(Store(h)) == h
  {
    hide BigEndian, WordBytes;
    WordFromBytes(h.x);
    WordFromBytes(h.y);
  }

  lemma StoreLoad(block: seq<bv8>)
    requires |block| == 8
    ensures Store(Load(block)) == block
  {
    hide BigEndian, WordBytes;
    BytesFromWord(block[0], block[1], block[2], block[3]);
    BytesFromWord(block[4], block[5], block[6], block[7]);
  }

  // ---------- the table of the initial permutation ----------

  /** Bit `i` of a block, counted from 1 at its front as in FIPS 46-3. */
  function Bit(h: Halves, i: bv8): bv32
    requires 1 <= i <= 64
  {
    if i <= 32 then (h.x >> (32 - i)) & 1 else (h.y >> (64 - i)) & 1
  }

  /** Bit `j` of a byte, counted from 1 at its front. */
  function ByteBit(b: bv8, j: bv8): bv32
    requires 1 <= j <= 8
  {
    ((b >> (8 - j)) & 1) as bv32
  }

  lemma WordBits(b0: bv8, b1: bv8, b2: bv8, b3: bv8, j: bv8)
    requires 1 <= j <= 8
    ensures var h := Halves(BigEndian(b0, b1, b2, b3), 0);
            Bit(h, j) == ByteBit(b0, j) && Bit(h, 8 + j) == ByteBit(b1, j)
            && Bit(h, 16 + j) == ByteBit(b2, j) && Bit(h, 24 + j) == ByteBit(b3, j)
  {
  }

  lemma BitOfHalf(x: bv32, y: bv32, i: bv8)
    requires 1 <= i <= 32
    ensures Bit(Halves(x, y), i) == Bit(Halves(x, 0), i) && Bit(Halves(x, y), 32 + i) == Bit(Halves(y, 0), i)
  {
  }

  /** The bits of a block are those of its bytes, one byte after the other. */
  lemma BlockBits(block: seq<bv8>, j: bv8)
    requires |block| == 8 && 1 <= j <= 8
    ensures var h := Load(block);
            && Bit(h, j) == ByteBit(block[0], j) && Bit(h, 8 + j) == ByteBit(block[1], j)
            && Bit(h, 16 + j) == ByteBit(block[2], j) && Bit(h, 24 + j) == ByteBit(block[3], j)
            && Bit(h, 32 + j) == ByteBit(block[4], j) && Bit(h, 40 + j) == ByteBit(block[5], j)
            && Bit(h, 48 + j) == ByteBit(block[6], j) && Bit(h, 56 + j) == ByteBit(block[7], j)
  {
    hide Bit, ByteBit, BigEndian;
    var h := Load(block);
    WordBits(block[0], block[1], block[2], block[3], j);
    WordBits(block[4], block[5], block[6], block[7], j);
    BitOfHalf(h.x, h.y, j);
    BitOfHalf(h.x, h.y, 8 + j);
    BitOfHalf(h.x, h.y, 16 + j);
    BitOfHalf(h.x, h.y, 24 + j);
    assert 32 + (8 + j) == 40 + j && 32 + (16 + j) == 48 + j && 32 + (24 + j) == 56 + j;
  }

  function Row7(h: Halves, a: bv8, b: bv8, c: bv8, d: bv8, e: bv8, f: bv8, g: bv8): bv32
    requires 1 <= a <= 64 && 1 <= b <= 64 && 1 <= c <= 64 && 1 <= d <= 64 && 1 <= e <= 64 && 1 <= f <= 64 && 1 <= g <= 64
  {
    (Bit(h, a) << 6) | (Bit(h, b) << 5) | (Bit(h, c) << 4) | (Bit(h, d) << 3) | (Bit(h, e) << 2) | (Bit(h, f) << 1) | Bit(h, g)
  }

  function Row8(h: Halves, a: bv8, b: bv8, c: bv8, d: bv8, e: bv8, f: bv8, g: bv8, i: bv8): bv32
    requires 1 <= a <= 64 && 1 <= b <= 64 && 1 <= c <= 64 && 1 <= d <= 64 && 1 <= e <= 64 && 1 <= f <= 64 && 1 <= g <= 64
    requires 1 <= i <= 64
  {
    (Row7(h, a, b, c, d, e, f, g) << 1) | Bit(h, i)
  }

  function Rows(a: bv32, b: bv32, c: bv32, d: bv32): bv32 {
    (a << 24) | (b << 16) | (c << 8) | d
  }

  /** The two halves of the table IP. */
  function TableLeft(h: Halves): bv32 {
    Rows(Row8(h, 58, 50, 42, 34, 26, 18, 10, 2),
         Row8(h, 60, 52, 44, 36, 28, 20, 12, 4),
         Row8(h, 62, 54, 46, 38, 30, 22, 14, 6),
         Row8(h, 64, 56, 48, 40, 32, 24, 16, 8))
  }

  function TableRight(h: Halves): bv32 {
    Rows(Row8(h, 57, 49, 41, 33, 25, 17, 9, 1),
         Row8(h, 59, 51, 43, 35, 27, 19, 11, 3),
         Row8(h, 61, 53, 45, 37, 29, 21, 13, 5),
         Row8(h, 63, 55, 47, 39, 31, 23, 15, 7))
  }

  // Exchanging bits by their difference moves them; then only the wiring is left to compare.

  function Raised(x: bv32, y: bv32, s: bv8, m: bv32): bv32
    requires s < 32
  {
    (x & !(m << s)) | ((y & m) << s)
  }

  function Lowered(x: bv32, y: bv32, s: bv8, m: bv32): bv32
    requires s < 32
  {
    (y & !m) | ((x >> s) & m)
  }

  function Moved(h: Halves, s: bv8, m: bv32): Halves
    requires s < 32
  {
    Halves(Raised(h.x, h.y, s, m), Lowered(h.x, h.y, s, m))
  }

  function MovedBack(h: Halves, s: bv8, m: bv32): Halves
    requires s < 32
  {
    Swap(Moved(Swap(h), s, m))
  }

  lemma Moved4(h: Halves)
    ensures Exchange(h, 4, 0x0F0F_0F0F) == Moved(h, 4, 0x0F0F_0F0F)
  {
    hide Difference, Up, Xor, Raised, Lowered;
    Raised4(h.x, h.y);
    Lowered4(h.x, h.y);
  }

  lemma Raised4(x: bv32, y: bv32)
    ensures Xor(x, Up(Difference(x, y, 4, 0x0F0F_0F0F), 4)) == Raised(x, y, 4, 0x0F0F_0F0F)
  {
  }

  lemma Lowered4(x: bv32, y: bv32)
    ensures Xor(y, Difference(x, y, 4, 0x0F0F_0F0F)) == Lowered(x, y, 4, 0x0F0F_0F0F)
  {
  }

  lemma Moved16(h: Halves)
    ensures Exchange(h, 16, 0x0000_FFFF) == Moved(h, 16, 0x0000_FFFF)
  {
    hide Difference, Up, Xor, Raised, Lowered;
    Raised16(h.x, h.y);
    Lowered16(h.x, h.y);
  }

  lemma Raised16(x: bv32, y: bv32)
    ensures Xor(x, Up(Difference(x, y, 16, 0x0000_FFFF), 16)) == Raised(x, y, 16, 0x0000_FFFF)
  {
  }

  lemma Lowered16(x: bv32, y: bv32)
    ensures Xor(y, Difference(x, y, 16, 0x0000_FFFF)) == Lowered(x, y, 16, 0x0000_FFFF)
  {
  }

  lemma Moved2(h: Halves)
    ensures Exchange(h, 2, 0x3333_3333) == Moved(h, 2, 0x3333_3333)
  {
    hide Difference, Up, Xor, Raised, Lowered;
    Raised2(h.x, h.y);
    Lowered2(h.x, h.y);
  }

  lemma Raised2(x: bv32, y: bv32)
    ensures Xor(x, Up(Difference(x, y, 2, 0x3333_3333), 2)) == Raised(x, y, 2, 0x3333_3333)
  {
  }

  lemma Lowered2(x: bv32, y: bv32)
    ensures Xor(y, Difference(x, y, 2, 0x3333_3333)) == Lowered(x, y, 2, 0x3333_3333)
  {
  }

  lemma Moved8(h: Halves)
    ensures Exchange(h, 8, 0x00FF_00FF) == Moved(h, 8, 0x00FF_00FF)
  {
    hide Difference, Up, Xor, Raised, Lowered;
    Raised8(h.x, h.y);
    Lowered8(h.x, h.y);
  }

  lemma Raised8(x: bv32, y: bv32)
    ensures Xor(x, Up(Difference(x, y, 8, 0x00FF_00FF), 8)) == Raised(x, y, 8, 0x00FF_00FF)
  {
  }

  lemma Lowered8(x: bv32, y: bv32)
    ensures Xor(y, Difference(x, y, 8, 0x00FF_00FF)) == Lowered(x, y, 8, 0x00FF_00FF)
  {
  }

  lemma Moved0(h: Halves)
    ensures Exchange(h, 0, 0xAAAA_AAAA) == Moved(h, 0, 0xAAAA_AAAA)
  {
    hide Difference, Up, Xor, Raised, Lowered;
    Raised0(h.x, h.y);
    Lowered0(h.x, h.y);
  }

  lemma Raised0(x: bv32, y: bv32)
    ensures Xor(x, Up(Difference(x, y, 0, 0xAAAA_AAAA), 0)) == Raised(x, y, 0, 0xAAAA_AAAA)
  {
  }

  lemma Lowered0(x: bv32, y: bv32)
    ensures Xor(y, Difference(x, y, 0, 0xAAAA_AAAA)) == Lowered(x, y, 0, 0xAAAA_AAAA)
  {
  }

  function InitialWiring(h: Halves): Halves {
    var h1 := Moved(h, 4, 0x0F0F_0F0F);
    var h2 := Moved(h1, 16, 0x0000_FFFF);
    var h3 := MovedBack(h2, 2, 0x3333_3333);
    var h4 := MovedBack(h3, 8, 0x00FF_00FF);
    var h5 := Halves(h4.x, RotateLeft(h4.y));
    var h6 := Moved(h5, 0, 0xAAAA_AAAA);
    Halves(RotateLeft(h6.x), h6.y)
  }

  lemma InitialIsWiring(h: Halves)
    ensures InitialPermutation(h) == InitialWiring(h)
  {
    hide Exchange, Moved, RotateLeft;
    var h1 := Moved(h, 4, 0x0F0F_0F0F);
    var h2 := Moved(h1, 16, 0x0000_FFFF);
    var h3 := MovedBack(h2, 2, 0x3333_3333);
    var h4 := MovedBack(h3, 8, 0x00FF_00FF);
    Moved4(h);
    Moved16(h1);
    Moved2(Swap(h2));
    Moved8(Swap(h3));
    Moved0(Halves(h4.x, RotateLeft(h4.y)));
  }

  lemma WiringLeft(h: Halves)
    ensures InitialWiring(h).x == RotateLeft(TableLeft(h))
  {
  }

  lemma WiringRight(h: Halves)
    ensures InitialWiring(h).y == RotateLeft(TableRight(h))
  {
  }

  /** The macro is the initial permutation of FIPS 46-3, with both halves rotated by one place so that
      the expansion of a half becomes a matter of shifts. */
  lemma InitialIsTable(h: Halves)
    ensures InitialPermutation(h) == Halves(RotateLeft(TableLeft(h)), RotateLeft(TableRight(h)))
  {
    hide InitialPermutation, InitialWiring, RotateLeft, TableLeft, TableRight;
    InitialIsWiring(h);
    WiringLeft(h);
    WiringRight(h);
  }

  // ---------- the table of the final permutation ----------

  /** The inverse of the table IP, as FIPS 46-3 prints it. */
  function InverseTable(h: Halves): Halves {
    Halves(Rows(Row8(h, 40, 8, 48, 16, 56, 24, 64, 32),
                Row8(h, 39, 7, 47, 15, 55, 23, 63, 31),
                Row8(h, 38, 6, 46, 14, 54, 22, 62, 30),
                Row8(h, 37, 5, 45, 13, 53, 21, 61, 29)),
           Rows(Row8(h, 36, 4, 44, 12, 52, 20, 60, 28),
                Row8(h, 35, 3, 43, 11, 51, 19, 59, 27),
                Row8(h, 34, 2, 42, 10, 50, 18, 58, 26),
                Row8(h, 33, 1, 41, 9, 49, 17, 57, 25)))
  }

  function FinalWiring(h: Halves): Halves {
    var h6 := Halves(RotateRight(h.x), h.y);
    var h5 := Moved(h6, 0, 0xAAAA_AAAA);
    var h4 := Halves(h5.x, RotateRight(h5.y));
    var h3 := MovedBack(h4, 8, 0x00FF_00FF);
    var h2 := MovedBack(h3, 2, 0x3333_3333);
    var h1 := Moved(h2, 16, 0x0000_FFFF);
    Moved(h1, 4, 0x0F0F_0F0F)
  }

  lemma FinalIsWiring(h: Halves)
    ensures FinalPermutation(h) == FinalWiring(h)
  {
    hide Exchange, Moved, RotateRight;
    var h6 := Halves(RotateRight(h.x), h.y);
    var h5 := Moved(h6, 0, 0xAAAA_AAAA);
    var h4 := Halves(h5.x, RotateRight(h5.y));
    var h3 := MovedBack(h4, 8, 0x00FF_00FF);
    var h2 := MovedBack(h3, 2, 0x3333_3333);
    Moved0(h6);
    Moved8(Swap(h4));
    Moved2(Swap(h3));
    Moved16(h2);
    Moved4(Moved(h2, 16, 0x0000_FFFF));
  }

  lemma FinalWiringLeft(a: bv32, b: bv32)
    ensures FinalWiring(Halves(RotateLeft(a), RotateLeft(b))).x == InverseTable(Halves(a, b)).x
  {
  }

  lemma FinalWiringRight(a: bv32, b: bv32)
    ensures FinalWiring(Halves(RotateLeft(a), RotateLeft(b))).y == InverseTable(Halves(a, b)).y
  {
  }

  /** The final macro takes rotated halves through that table. */
  lemma FinalIsTable(a: bv32, b: bv32)
    ensures FinalPermutation(Halves(RotateLeft(a), RotateLeft(b))) == InverseTable(Halves(a, b))
  {
    hide FinalPermutation, FinalWiring, RotateLeft, InverseTable;
    FinalIsWiring(Halves(RotateLeft(a), RotateLeft(b)));
    FinalWiringLeft(a, b);
    FinalWiringRight(a, b);
  }
}
