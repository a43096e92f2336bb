/** DES as FIPS 46-3 defines it, bit by bit from its tables, for S-boxes whose outputs have already been put
    through the permutation P and rotated by one place, which is the form in which the program has them. */
module DesStandard {
  import opened Words32
  import opened DesBits
  import opened DesKeys
  import opened Des

  // ---------- the standard ----------

  /** Bit `i` of a half, counted from 1. */
  function HalfBit(r: bv32, i: bv8): bv32
    requires 1 <= i <= 32
  {
    (r >> (32 - i)) & 1
  }

  function Expansion(r: bv32, a: bv8, b: bv8, c: bv8, d: bv8, e: bv8, f: bv8): bv32
    requires 1 <= a <= 32 && 1 <= b <= 32 && 1 <= c <= 32 && 1 <= d <= 32 && 1 <= e <= 32 && 1 <= f <= 32
  {
    (HalfBit(r, a) << 5) | (HalfBit(r, b) << 4) | (HalfBit(r, c) << 3) | (HalfBit(r, d) << 2) | (HalfBit(r, e) << 1) | HalfBit(r, f)
  }

  /** The rows of the table E. */
  function Expanded1(r: bv32): bv32 { Expansion(r, 32, 1, 2, 3, 4, 5) }
  function Expanded2(r: bv32): bv32 { Expansion(r, 4, 5, 6, 7, 8, 9) }
  function Expanded3(r: bv32): bv32 { Expansion(r, 8, 9, 10, 11, 12, 13) }
  function Expanded4(r: bv32): bv32 { Expansion(r, 12, 13, 14, 15, 16, 17) }
  function Expanded5(r: bv32): bv32 { Expansion(r, 16, 17, 18, 19, 20, 21) }
  function Expanded6(r: bv32): bv32 { Expansion(r, 20, 21, 22, 23, 24, 25) }
  function Expanded7(r: bv32): bv32 { Expansion(r, 24, 25, 26, 27, 28, 29) }
  function Expanded8(r: bv32): bv32 { Expansion(r, 28, 29, 30, 31, 32, 1) }

  /** What an S-box is given: six bits of the half and six of the subkey. */
  function Input(e: bv32, k: bv32): bv6 {
    Xor6(Low(k), Low(e))
  }

  function Xor6(a: bv6, b: bv6): bv6 {
    a ^ b
  }

  function Low(v: bv32): bv6 {
    (v & 0x3F) as bv6
  }

  /** The function f of a half and of the halves of the key in that round, rotated by one place. */
  function F(sb: SBoxes, r: bv32, c: bv32, d: bv32): bv32 {
    Eight(sb.sb1(Input(Expanded1(r), Choice1(c))),
          sb.sb2(Input(Expanded2(r), Choice2(c))),
          sb.sb3(Input(Expanded3(r), Choice3(c))),
          sb.sb4(Input(Expanded4(r), Choice4(c))),
          sb.sb5(Input(Expanded5(r), Choice5(d))),
          sb.sb6(Input(Expanded6(r), Choice6(d))),
          sb.sb7(Input(Expanded7(r), Choice7(d))),
          sb.sb8(Input(Expanded8(r), Choice8(d))))
  }

  function Eight(v1: bv32, v2: bv32, v3: bv32, v4: bv32, v5: bv32, v6: bv32, v7: bv32, v8: bv32): bv32 {
    v1 ^ v2 ^ v3 ^ v4 ^ v5 ^ v6 ^ v7 ^ v8
  }

  function Mixed(l: bv32, f: bv32): bv32 {
    Xor(l, RotateRight(f))
  }

  /** The rounds after the first `i`; `cd0` is the key before any shift. */
  function StandardRounds(sb: SBoxes, lr: Halves, cd0: Halves, i: nat): Halves
    requires i <= 16
    decreases 16 - i
  {
    if i == 16 then lr else
      var cd := KeyHalves(cd0, i + 1);
      StandardRounds(sb, Halves(lr.y, Mixed(lr.x, F(sb, lr.y, cd.x, cd.y))), cd0, i + 1)
  }

  function StandardDes(sb: SBoxes, key: seq<bv8>, block: seq<bv8>): (r: seq<bv8>)
    requires |key| == |block| == 8
    ensures |r| == 8
  {
    var h, k := Load(block), Load(key);
    var lr := StandardRounds(sb, Halves(TableLeft(h), TableRight(h)), Halves(TableC(k), TableD(k)), 0);
    Store(InverseTable(Swap(lr)))
  }

  // ---------- the program's rounds against it ----------

  // Cutting six bits out of a word, piece by piece.

  lemma Cut0(p: bv32, w: bv32)
    ensures Six(Xor(p, w), 0) == Xor6(Six(p, 0), Six(w, 0))
  {
  }

  lemma Cut8(p: bv32, w: bv32)
    ensures Six(Xor(p, w), 8) == Xor6(Six(p, 8), Six(w, 8))
  {
  }

  lemma Cut16(p: bv32, w: bv32)
    ensures Six(Xor(p, w), 16) == Xor6(Six(p, 16), Six(w, 16))
  {
  }

  lemma Cut24(p: bv32, w: bv32)
    ensures Six(Xor(p, w), 24) == Xor6(Six(p, 24), Six(w, 24))
  {
  }

  lemma CutPacked(a: bv32, b: bv32, c: bv32, d: bv32)
    requires a < 64 && b < 64 && c < 64 && d < 64
    ensures var p := Packed(a, b, c, d);
            Six(p, 24) == Low(a) && Six(p, 16) == Low(b) && Six(p, 8) == Low(c) && Six(p, 0) == Low(d)
  {
  }

  /** The six bits the program cuts out of a half are those of the expansion. */
  lemma CutEven(r: bv32)
    ensures var w := RotateLeft(r);
            && Six(w, 24) == Low(Expanded2(r)) && Six(w, 16) == Low(Expanded4(r))
            && Six(w, 8) == Low(Expanded6(r)) && Six(w, 0) == Low(Expanded8(r))
  {
  }

  lemma CutOdd(r: bv32)
    ensures var w := Quarter(RotateLeft(r));
            && Six(w, 24) == Low(Expanded1(r)) && Six(w, 16) == Low(Expanded3(r))
            && Six(w, 8) == Low(Expanded5(r)) && Six(w, 0) == Low(Expanded7(r))
  {
  }

  lemma FourIs(a: bv32, b: bv32, c: bv32, d: bv32)
    ensures Four(a, b, c, d) == a ^ b ^ c ^ d
  {
  }

  lemma NativelyReordered(v1: bv32, v2: bv32, v3: bv32, v4: bv32, v5: bv32, v6: bv32, v7: bv32, v8: bv32)
    ensures Xor(v8 ^ v6 ^ v4 ^ v2, v7 ^ v5 ^ v3 ^ v1) == Eight(v1, v2, v3, v4, v5, v6, v7, v8)
  {
  }

  lemma Reordered(v1: bv32, v2: bv32, v3: bv32, v4: bv32, v5: bv32, v6: bv32, v7: bv32, v8: bv32)
    ensures Xor(Four(v8, v6, v4, v2), Four(v7, v5, v3, v1)) == Eight(v1, v2, v3, v4, v5, v6, v7, v8)
  {
    hide Xor, Four, Eight;
    FourIs(v8, v6, v4, v2);
    FourIs(v7, v5, v3, v1);
    NativelyReordered(v1, v2, v3, v4, v5, v6, v7, v8);
  }

  lemma EvenInputs(sb: SBoxes, r: bv32, b2: bv32, b4: bv32, b6: bv32, b8: bv32)
    requires b2 < 64 && b4 < 64 && b6 < 64 && b8 < 64
    ensures EvenBoxes(sb, Xor(Packed(b2, b4, b6, b8), RotateLeft(r)))
              == Four(sb.sb8(Input(Expanded8(r), b8)), sb.sb6(Input(Expanded6(r), b6)),
                      sb.sb4(Input(Expanded4(r), b4)), sb.sb2(Input(Expanded2(r), b2)))
  {
    hide Six, Xor, Xor6, Packed, RotateLeft, Low, Four, Expanded2, Expanded4, Expanded6, Expanded8;
    var p, w := Packed(b2, b4, b6, b8), RotateLeft(r);
    CutPacked(b2, b4, b6, b8);
    CutEven(r);
    Cut0(p, w);
    Cut8(p, w);
    Cut16(p, w);
    Cut24(p, w);
  }

  lemma OddInputs(sb: SBoxes, r: bv32, b1: bv32, b3: bv32, b5: bv32, b7: bv32)
    requires b1 < 64 && b3 < 64 && b5 < 64 && b7 < 64
    ensures OddBoxes(sb, Xor(Packed(b1, b3, b5, b7), Quarter(RotateLeft(r))))
              == Four(sb.sb7(Input(Expanded7(r), b7)), sb.sb5(Input(Expanded5(r), b5)),
                      sb.sb3(Input(Expanded3(r), b3)), sb.sb1(Input(Expanded1(r), b1)))
  {
    hide Six, Xor, Xor6, Packed, RotateLeft, Quarter, Low, Four, Expanded1, Expanded3, Expanded5, Expanded7;
    var p, w := Packed(b1, b3, b5, b7), Quarter(RotateLeft(r));
    CutPacked(b1, b3, b5, b7);
    CutOdd(r);
    Cut0(p, w);
    Cut8(p, w);
    Cut16(p, w);
    Cut24(p, w);
  }

  lemma Sixes(c: bv32)
    ensures Choice1(c) < 64 && Choice2(c) < 64 && Choice3(c) < 64 && Choice4(c) < 64
    ensures Choice5(c) < 64 && Choice6(c) < 64 && Choice7(c) < 64 && Choice8(c) < 64
  {
    hide Row6;
  }

  /** A round of the program is a round of the standard on halves that are rotated by one place. */
  lemma RoundIsF(sb: SBoxes, r: bv32, c: bv32, d: bv32)
    ensures var ks := SubkeyWords(c, d); RoundFunction(sb, RotateLeft(r), ks[0], ks[1]) == F(sb, r, c, d)
  {
    hide EvenBoxes, OddBoxes, Xor, Packed, RotateLeft, Quarter, Input, Four, Eight;
    hide Choice1, Choice2, Choice3, Choice4, Choice5, Choice6, Choice7, Choice8;
    hide Expanded1, Expanded2, Expanded3, Expanded4, Expanded5, Expanded6, Expanded7, Expanded8;
    Sixes(c);
    Sixes(d);
    EvenInputs(sb, r, Choice2(c), Choice4(c), Choice6(d), Choice8(d));
    OddInputs(sb, r, Choice1(c), Choice3(c), Choice5(d), Choice7(d));
    Reordered(sb.sb1(Input(Expanded1(r), Choice1(c))), sb.sb2(Input(Expanded2(r), Choice2(c))),
              sb.sb3(Input(Expanded3(r), Choice3(c))), sb.sb4(Input(Expanded4(r), Choice4(c))),
              sb.sb5(Input(Expanded5(r), Choice5(d))), sb.sb6(Input(Expanded6(r), Choice6(d))),
              sb.sb7(Input(Expanded7(r), Choice7(d))), sb.sb8(Input(Expanded8(r), Choice8(d))));
  }

  lemma MixedRotated(l: bv32, f: bv32)
    ensures RotateLeft(Mixed(l, f)) == Xor(RotateLeft(l), f)
  {
  }

  function BothRotated(h: Halves): Halves {
    Halves(RotateLeft(h.x), RotateLeft(h.y))
  }

  lemma {:induction false} RoundsAreStandard(sb: SBoxes, lr: Halves, cd0: Halves, i: nat)
    requires i <= 16
    ensures Feistel(sb, BothRotated(lr), StandardFrom(cd0, i)) == BothRotated(StandardRounds(sb, lr, cd0, i))
    decreases 16 - i
  {
    hide Xor, RoundFunction, RotateLeft, Mixed, F, KeyHalves, SubkeyWords;
    if i < 16 {
      var cd := KeyHalves(cd0, i + 1);
      var ks := StandardFrom(cd0, i);
      assert ks[2..] == StandardFrom(cd0, i + 1) && ks[..2] == SubkeyWords(cd.x, cd.y);
      RoundIsF(sb, lr.y, cd.x, cd.y);
      MixedRotated(lr.x, F(sb, lr.y, cd.x, cd.y));
      RoundsAreStandard(sb, Halves(lr.y, Mixed(lr.x, F(sb, lr.y, cd.x, cd.y))), cd0, i + 1);
    }
  }

  /** The program's DES under the program's key schedule is that of FIPS 46-3. */
  lemma CipherIsStandard(sb: SBoxes, key: seq<bv8>, block: seq<bv8>)
    requires |key| == |block| == 8
    ensures Cipher(sb, Subkeys(key), block) == StandardDes(sb, key, block)
  {
    hide Load, Store, InitialPermutation, FinalPermutation, RotateLeft, TableLeft, TableRight, TableC, TableD;
    hide InverseTable, Feistel, Subkeys, StandardFrom, StandardRounds;
    var h, k := Load(block), Load(key);
    var lr, cd := Halves(TableLeft(h), TableRight(h)), Halves(TableC(k), TableD(k));
    InitialIsTable(h);
    SubkeysAreStandard(key);
    RoundsAreStandard(sb, lr, cd, 0);
    var end := StandardRounds(sb, lr, cd, 0);
    FinalIsTable(end.y, end.x);
  }

  // ---------- complementation ----------

  /** Every bit inverted: of the halves of a block, of the 28-bit halves of a key, of bytes. */
  function Inverse(w: bv32): bv32 {
    !w
  }

  function Not(h: Halves): Halves {
    Halves(Inverse(h.x), Inverse(h.y))
  }

  function Flip(w: bv32): bv32 {
    w ^ 0x0FFF_FFFF
  }

  function NotKey(cd: Halves): Halves {
    Halves(Flip(cd.x), Flip(cd.y))
  }

  function NotBytes(b: seq<bv8>): (r: seq<bv8>)
    ensures |r| == |b|
  {
    seq(|b|, i requires 0 <= i < |b| => !b[i])
  }

  lemma SameInput1(r: bv32, c: bv32)
    ensures Input(Expanded1(Inverse(r)), Choice1(Flip(c))) == Input(Expanded1(r), Choice1(c))
  {
  }

  lemma SameInput2(r: bv32, c: bv32)
    ensures Input(Expanded2(Inverse(r)), Choice2(Flip(c))) == Input(Expanded2(r), Choice2(c))
  {
  }

  lemma SameInput3(r: bv32, c: bv32)
    ensures Input(Expanded3(Inverse(r)), Choice3(Flip(c))) == Input(Expanded3(r), Choice3(c))
  {
  }

  lemma SameInput4(r: bv32, c: bv32)
    ensures Input(Expanded4(Inverse(r)), Choice4(Flip(c))) == Input(Expanded4(r), Choice4(c))
  {
  }

  lemma SameInput5(r: bv32, d: bv32)
    ensures Input(Expanded5(Inverse(r)), Choice5(Flip(d))) == Input(Expanded5(r), Choice5(d))
  {
  }

  lemma SameInput6(r: bv32, d: bv32)
    ensures Input(Expanded6(Inverse(r)), Choice6(Flip(d))) == Input(Expanded6(r), Choice6(d))
  {
  }

  lemma SameInput7(r: bv32, d: bv32)
    ensures Input(Expanded7(Inverse(r)), Choice7(Flip(d))) == Input(Expanded7(r), Choice7(d))
  {
  }

  lemma SameInput8(r: bv32, d: bv32)
    ensures Input(Expanded8(Inverse(r)), Choice8(Flip(d))) == Input(Expanded8(r), Choice8(d))
  {
  }

  /** The function f does not change when half and key are both inverted. */
  lemma SameF(sb: SBoxes, r: bv32, c: bv32, d: bv32)
    ensures F(sb, Inverse(r), Flip(c), Flip(d)) == F(sb, r, c, d)
  {
    hide Input, Eight, Flip, Inverse, Choice1, Choice2, Choice3, Choice4, Choice5, Choice6, Choice7, Choice8;
    hide Expanded1, Expanded2, Expanded3, Expanded4, Expanded5, Expanded6, Expanded7, Expanded8;
    SameInput1(r, c);
    SameInput2(r, c);
    SameInput3(r, c);
    SameInput4(r, c);
    SameInput5(r, d);
    SameInput6(r, d);
    SameInput7(r, d);
    SameInput8(r, d);
  }

  lemma XorInverted(l: bv32, f: bv32)
    ensures Xor(Inverse(l), f) == Inverse(Xor(l, f))
  {
  }

  lemma MixedInverted(l: bv32, f: bv32)
    ensures Mixed(Inverse(l), f) == Inverse(Mixed(l, f))
  {
    hide Xor, Inverse, RotateRight;
    XorInverted(l, RotateRight(f));
  }

  lemma BitFlipped(w: bv32, j: bv8, s: bv8)
    requires 1 <= j <= 28 && s <= 28
    ensures ShiftedBit(Flip(w), j, s) == Other(ShiftedBit(w, j, s)) && ShiftedBit(w, j, s) <= 1
  {
    hide KeyBit, Flip;
    KeyBitFlipped(w, (j - 1 + s) % 28 + 1);
  }

  function Other(b: bv32): bv32 {
    1 - b
  }

  lemma KeyBitFlipped(w: bv32, i: bv8)
    requires 1 <= i <= 28
    ensures KeyBit(Flip(w), i) == Other(KeyBit(w, i)) && KeyBit(w, i) <= 1
  {
  }

  lemma SevenFlipped(b1: bv32, b2: bv32, b3: bv32, b4: bv32, b5: bv32, b6: bv32, b7: bv32)
    requires b1 <= 1 && b2 <= 1 && b3 <= 1 && b4 <= 1 && b5 <= 1 && b6 <= 1 && b7 <= 1
    ensures SevenBits(Other(b1), Other(b2), Other(b3), Other(b4), Other(b5), Other(b6), Other(b7))
              == SevenBits(b1, b2, b3, b4, b5, b6, b7) ^ 0x7F
    ensures SevenBits(b1, b2, b3, b4, b5, b6, b7) < 0x80
  {
  }

  lemma RowFlipped(w: bv32, j: bv8, s: bv8)
    requires 1 <= j <= 22 && s <= 28
    ensures ShiftedRow(Flip(w), j, s) == ShiftedRow(w, j, s) ^ 0x7F && ShiftedRow(w, j, s) < 0x80
  {
    hide ShiftedBit, SevenBits, Flip, Other;
    BitFlipped(w, j, s);
    BitFlipped(w, j + 1, s);
    BitFlipped(w, j + 2, s);
    BitFlipped(w, j + 3, s);
    BitFlipped(w, j + 4, s);
    BitFlipped(w, j + 5, s);
    BitFlipped(w, j + 6, s);
    SevenFlipped(ShiftedBit(w, j, s), ShiftedBit(w, j + 1, s), ShiftedBit(w, j + 2, s), ShiftedBit(w, j + 3, s),
                 ShiftedBit(w, j + 4, s), ShiftedBit(w, j + 5, s), ShiftedBit(w, j + 6, s));
  }

  lemma ChosenFlipped(a: bv32, b: bv32, c: bv32, d: bv32)
    requires a < 0x80 && b < 0x80 && c < 0x80 && d < 0x80
    ensures Chosen(a ^ 0x7F, b ^ 0x7F, c ^ 0x7F, d ^ 0x7F) == Flip(Chosen(a, b, c, d))
  {
  }

  lemma ShiftedFlipped(w: bv32, s: bv8)
    requires s <= 28
    ensures Shifted(Flip(w), s) == Flip(Shifted(w, s))
  {
    hide ShiftedRow, Chosen, Flip;
    RowFlipped(w, 1, s);
    RowFlipped(w, 8, s);
    RowFlipped(w, 15, s);
    RowFlipped(w, 22, s);
    ChosenFlipped(ShiftedRow(w, 1, s), ShiftedRow(w, 8, s), ShiftedRow(w, 15, s), ShiftedRow(w, 22, s));
  }

  lemma KeyHalvesInverted(cd0: Halves, n: nat)
    requires n <= 16
    ensures KeyHalves(NotKey(cd0), n) == NotKey(KeyHalves(cd0, n))
  {
    hide Shifted, Flip, TotalShift;
    ShiftedFlipped(cd0.x, TotalShift(n));
    ShiftedFlipped(cd0.y, TotalShift(n));
  }

  lemma {:induction false} RoundsInverted(sb: SBoxes, lr: Halves, cd0: Halves, i: nat)
    requires i <= 16
    ensures StandardRounds(sb, Not(lr), NotKey(cd0), i) == Not(StandardRounds(sb, lr, cd0, i))
    decreases 16 - i
  {
    hide F, Mixed, KeyHalves, Flip, Inverse;
    if i < 16 {
      var cd := KeyHalves(cd0, i + 1);
      KeyHalvesInverted(cd0, i + 1);
      SameF(sb, lr.y, cd.x, cd.y);
      MixedInverted(lr.x, F(sb, lr.y, cd.x, cd.y));
      RoundsInverted(sb, Halves(lr.y, Mixed(lr.x, F(sb, lr.y, cd.x, cd.y))), cd0, i + 1);
    }
  }

  lemma InvertedLeft(h: Halves)
    ensures TableLeft(Not(h)) == Inverse(TableLeft(h))
  {
  }

  lemma InvertedRight(h: Halves)
    ensures TableRight(Not(h)) == Inverse(TableRight(h))
  {
  }

  lemma InvertedC(h: Halves)
    ensures TableC(Not(h)) == Flip(TableC(h))
  {
  }

  lemma InvertedD(h: Halves)
    ensures TableD(Not(h)) == Flip(TableD(h))
  {
  }

  lemma InvertedEndLeft(h: Halves)
    ensures InverseTable(Not(h)).x == Inverse(InverseTable(h).x)
  {
  }

  lemma InvertedEndRight(h: Halves)
    ensures InverseTable(Not(h)).y == Inverse(InverseTable(h).y)
  {
  }

  lemma BigEndianInverted(a: bv8, b: bv8, c: bv8, d: bv8)
    ensures BigEndian(!a, !b, !c, !d) == Inverse(BigEndian(a, b, c, d))
  {
  }

  lemma LoadInverted(block: seq<bv8>)
    requires |block| == 8
    ensures Load(NotBytes(block)) == Not(Load(block))
  {
    hide BigEndian, Inverse;
    BigEndianInverted(block[0], block[1], block[2], block[3]);
    BigEndianInverted(block[4], block[5], block[6], block[7]);
  }

  lemma StoreInverted(h: Halves)
    ensures Store(Not(h)) == NotBytes(Store(h))
  {
    hide Store, Load, NotBytes, Inverse;
    LoadStore(h);
    LoadInverted(Store(h));
    StoreLoad(NotBytes(Store(h)));
  }

  /** The complementation law: with every bit of key and block inverted, the program's DES gives the
      inverted result, whatever its S-boxes. */
  lemma Complementation(sb: SBoxes, key: seq<bv8>, block: seq<bv8>)
    requires |key| == |block| == 8
    ensures Cipher(sb, Subkeys(NotBytes(key)), NotBytes(block)) == NotBytes(Cipher(sb, Subkeys(key), block))
  {
    hide Cipher, Subkeys, Load, Store, NotBytes, TableLeft, TableRight, TableC, TableD, InverseTable, StandardRounds;
    hide Flip, Inverse;
    CipherIsStandard(sb, key, block);
    CipherIsStandard(sb, NotBytes(key), NotBytes(block));
    LoadInverted(key);
    LoadInverted(block);
    var h, k := Load(block), Load(key);
    InvertedLeft(h);
    InvertedRight(h);
    InvertedC(k);
    InvertedD(k);
    var lr, cd := Halves(TableLeft(h), TableRight(h)), Halves(TableC(k), TableD(k));
    RoundsInverted(sb, lr, cd, 0);
    var end := Swap(StandardRounds(sb, lr, cd, 0));
    InvertedEndLeft(end);
    InvertedEndRight(end);
    StoreInverted(InverseTable(end));
  }
}
