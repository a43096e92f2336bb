/** The key schedule of DES, and the permuted choices and shifts of FIPS 46-3 that it comes to. */
module DesKeys {
  import opened Words32
  import opened DesBits

  // ---------- the program's tables and words ----------

  /** LHs and RHs: four bits spread over the bytes of a word, in either order. */
  function LeftSpread(i: bv32): bv32 {
    if i == 0 then 0x0000_0000
    else if i == 1 then 0x0000_0001
    else if i == 2 then 0x0000_0100
    else if i == 3 then 0x0000_0101
    else if i == 4 then 0x0001_0000
    else if i == 5 then 0x0001_0001
    else if i == 6 then 0x0001_0100
    else if i == 7 then 0x0001_0101
    else if i == 8 then 0x0100_0000
    else if i == 9 then 0x0100_0001
    else if i == 10 then 0x0100_0100
    else if i == 11 then 0x0100_0101
    else if i == 12 then 0x0101_0000
    else if i == 13 then 0x0101_0001
    else if i == 14 then 0x0101_0100
    else 0x0101_0101
  }

  function RightSpread(i: bv32): bv32 {
    if i == 0 then 0x0000_0000
    else if i == 1 then 0x0100_0000
    else if i == 2 then 0x0001_0000
    else if i == 3 then 0x0101_0000
    else if i == 4 then 0x0000_0100
    else if i == 5 then 0x0100_0100
    else if i == 6 then 0x0001_0100
    else if i == 7 then 0x0101_0100
    else if i == 8 then 0x0000_0001
    else if i == 9 then 0x0100_0001
    else if i == 10 then 0x0001_0001
    else if i == 11 then 0x0101_0001
    else if i == 12 then 0x0000_0101
    else if i == 13 then 0x0100_0101
    else if i == 14 then 0x0001_0101
    else 0x0101_0101
  }

  function Nibble(x: bv32, s: bv8): (i: bv32)
    requires s < 32
    ensures i < 16
  {
    (x >> s) & 0xF
  }

  function Assembled(a: bv32, b: bv32, c: bv32, d: bv32, e: bv32, f: bv32, g: bv32, h: bv32): bv32 {
    ((a << 3) | (b << 2) | (c << 1) | d | (e << 7) | (f << 6) | (g << 5) | (h << 4)) & 0x0FFF_FFFF
  }

  function GatherLeft(x: bv32): bv32 {
    Assembled(LeftSpread(Nibble(x, 0)), LeftSpread(Nibble(x, 8)), LeftSpread(Nibble(x, 16)), LeftSpread(Nibble(x, 24)),
              LeftSpread(Nibble(x, 5)), LeftSpread(Nibble(x, 13)), LeftSpread(Nibble(x, 21)), LeftSpread(Nibble(x, 29)))
  }

  function GatherRight(x: bv32): bv32 {
    Assembled(RightSpread(Nibble(x, 1)), RightSpread(Nibble(x, 9)), RightSpread(Nibble(x, 17)), RightSpread(Nibble(x, 25)),
              RightSpread(Nibble(x, 4)), RightSpread(Nibble(x, 12)), RightSpread(Nibble(x, 20)), RightSpread(Nibble(x, 28)))
  }

  /** Permuted choice 1 of `des_main_ks`. */
  function PermutedChoice1(h: Halves): Halves {
    var h1 := ExchangeBack(h, 4, 0x0F0F_0F0F);
    var h2 := ExchangeBack(h1, 0, 0x1010_1010);
    Halves(GatherLeft(h2.x), GatherRight(h2.y))
  }

  function Rotated(w: bv32, s: bv8): bv32
    requires s <= 28
  {
    ((w << s) | (w >> (28 - s))) & 0x0FFF_FFFF
  }

  /** The halves of the key in the next round; `i` counts the rounds from zero. */
  function NextHalves(cd: Halves, i: nat): Halves {
    if i < 2 || i == 8 || i == 15 then Halves(Rotated(cd.x, 1), Rotated(cd.y, 1))
    else Halves(Rotated(cd.x, 2), Rotated(cd.y, 2))
  }

  /** The two words of a subkey. */
  function EvenWord(x: bv32, y: bv32): bv32 {
    ((x << 4) & 0x2400_0000) | ((x << 28) & 0x1000_0000) | ((x << 14) & 0x0800_0000) | ((x << 18) & 0x0208_0000)
    | ((x << 6) & 0x0100_0000) | ((x << 9) & 0x0020_0000) | ((x >> 1) & 0x0010_0000) | ((x << 10) & 0x0004_0000)
    | ((x << 2) & 0x0002_0000) | ((x >> 10) & 0x0001_0000) | ((y >> 13) & 0x0000_2000) | ((y >> 4) & 0x0000_1000)
    | ((y << 6) & 0x0000_0800) | ((y >> 1) & 0x0000_0400) | ((y >> 14) & 0x0000_0200) | (y & 0x0000_0100)
    | ((y >> 5) & 0x0000_0020) | ((y >> 10) & 0x0000_0010) | ((y >> 3) & 0x0000_0008) | ((y >> 18) & 0x0000_0004)
    | ((y >> 26) & 0x0000_0002) | ((y >> 24) & 0x0000_0001)
  }

  function OddWord(x: bv32, y: bv32): bv32 {
    ((x << 15) & 0x2000_0000) | ((x << 17) & 0x1000_0000) | ((x << 10) & 0x0800_0000) | ((x << 22) & 0x0400_0000)
    | ((x >> 2) & 0x0200_0000) | ((x << 1) & 0x0100_0000) | ((x << 16) & 0x0020_0000) | ((x << 11) & 0x0010_0000)
    | ((x << 3) & 0x0008_0000) | ((x >> 6) & 0x0004_0000) | ((x << 15) & 0x0002_0000) | ((x >> 4) & 0x0001_0000)
    | ((y >> 2) & 0x0000_2000) | ((y << 8) & 0x0000_1000) | ((y >> 14) & 0x0000_0808) | ((y >> 9) & 0x0000_0400)
    | (y & 0x0000_0200) | ((y << 7) & 0x0000_0100) | ((y >> 7) & 0x0000_0020) | ((y >> 3) & 0x0000_0011)
    | ((y << 2) & 0x0000_0004) | ((y >> 21) & 0x0000_0002)
  }

  /** The words of the subkeys from round `i` on. */
  function SubkeysFrom(cd: Halves, i: nat): (ks: seq<bv32>)
    requires i <= 16
    ensures |ks| == 2 * (16 - i)
    decreases 16 - i
  {
    if i == 16 then [] else
      var next := NextHalves(cd, i);
      [EvenWord(next.x, next.y), OddWord(next.x, next.y)] + SubkeysFrom(next, i + 1)
  }

  function Subkeys(key: seq<bv8>): (ks: seq<bv32>)
    requires |key| == 8
    ensures |ks| == 32
  {
    SubkeysFrom(PermutedChoice1(Load(key)), 0)
  }

  /** The array `z` in round `i`: what is written from `at` on and what is still to come make up `ks`, and
      around its place everything is as in `was`. */
  ghost predicate Underway(z: seq<bv32>, was: seq<bv32>, at: nat, i: nat, cd: Halves, ks: seq<bv32>) {
    && i <= 16 && at + 32 <= |z| == |was| && |ks| == 32
    && z[..at] == was[..at] && z[at + 32..] == was[at + 32..]
    && z[at..at + 2 * i] + SubkeysFrom(cd, i) == ks
  }

  lemma UnderwayStart(was: seq<bv32>, at: nat, key: seq<bv8>)
    requires |key| == 8 && at + 32 <= |was|
    ensures Underway(was, was, at, 0, PermutedChoice1(Load(key)), Subkeys(key))
  {
    hide PermutedChoice1, Load, SubkeysFrom;
    assert was[at..at] + Subkeys(key) == Subkeys(key);
  }

  lemma SubkeysStep(cd: Halves, i: nat)
    requires i < 16
    ensures var next := NextHalves(cd, i);
            SubkeysFrom(cd, i) == [EvenWord(next.x, next.y), OddWord(next.x, next.y)] + SubkeysFrom(next, i + 1)
  {
    hide NextHalves, EvenWord, OddWord;
  }

  lemma UnderwayStep(z: seq<bv32>, z': seq<bv32>, was: seq<bv32>, at: nat, i: nat, cd: Halves, next: Halves, ks: seq<bv32>)
    requires Underway(z, was, at, i, cd, ks) && i < 16 && next == NextHalves(cd, i)
    requires z' == z[at + 2 * i := EvenWord(next.x, next.y)][at + 2 * i + 1 := OddWord(next.x, next.y)]
    ensures Underway(z', was, at, i + 1, next, ks)
  {
    hide NextHalves, EvenWord, OddWord, SubkeysFrom;
    var pair := [EvenWord(next.x, next.y), OddWord(next.x, next.y)];
    SubkeysStep(cd, i);
    assert z'[at..at + 2 * (i + 1)] == z[at..at + 2 * i] + pair;
    assert z[at..at + 2 * i] + (pair + SubkeysFrom(next, i + 1)) == z'[at..at + 2 * (i + 1)] + SubkeysFrom(next, i + 1);
    assert z'[at + 32..] == z[at + 32..];
  }

  lemma UnderwayEnd(z: seq<bv32>, was: seq<bv32>, at: nat, cd: Halves, ks: seq<bv32>)
    requires Underway(z, was, at, 16, cd, ks)
    ensures at + 32 <= |z| == |was| && z[at..at + 32] == ks && z[..at] == was[..at] && z[at + 32..] == was[at + 32..]
  {
    assert SubkeysFrom(cd, 16) == [];
    assert z[at..at + 32] + [] == z[at..at + 32];
  }

  /** `des_main_ks`, with the schedule in `sk` from place `at` on. */
  method MainKeySchedule(sk: array<bv32>, at: nat, key: seq<bv8>)
    requires |key| == 8 && at + 32 <= sk.Length
    modifies sk
    ensures sk[at..at + 32] == Subkeys(key) == StandardSubkeys(key)
    ensures sk[..at] == old(sk[..at]) && sk[at + 32..] == old(sk[at + 32..])
  {
    hide PermutedChoice1, NextHalves, EvenWord, OddWord, Load, Underway, Subkeys, StandardSubkeys;
    ghost var was := sk[..];
    var cd := PermutedChoice1(Load(key));
    UnderwayStart(was, at, key);
    for i := 0 to 16
      invariant Underway(sk[..], was, at, i, cd, Subkeys(key))
    {
      ghost var before := sk[..];
      var next := NextHalves(cd, i);
      sk[at + 2 * i] := EvenWord(next.x, next.y);
      sk[at + 2 * i + 1] := OddWord(next.x, next.y);
      UnderwayStep(before, sk[..], was, at, i, cd, next, Subkeys(key));
      cd := next;
    }
    UnderwayEnd(sk[..], was, at, cd, Subkeys(key));
    SubkeysAreStandard(key);
  }

  // ---------- the standard ----------

  function Chosen(a: bv32, b: bv32, c: bv32, d: bv32): bv32 {
    (a << 21) | (b << 14) | (c << 7) | d
  }

  /** The two halves of the table PC-1. */
  function TableC(h: Halves): bv32 {
    Chosen(Row7(h, 57, 49, 41, 33, 25, 17, 9),
           Row7(h, 1, 58, 50, 42, 34, 26, 18),
           Row7(h, 10, 2, 59, 51, 43, 35, 27),
           Row7(h, 19, 11, 3, 60, 52, 44, 36))
  }

  function TableD(h: Halves): bv32 {
    Chosen(Row7(h, 63, 55, 47, 39, 31, 23, 15),
           Row7(h, 7, 62, 54, 46, 38, 30, 22),
           Row7(h, 14, 6, 61, 53, 45, 37, 29),
           Row7(h, 21, 13, 5, 28, 20, 12, 4))
  }

  /** Bit `i` of one half of the key, counted from 1. */
  function KeyBit(w: bv32, i: bv8): bv32
    requires 1 <= i <= 28
  {
    (w >> (28 - i)) & 1
  }

  function Row6(w: bv32, a: bv8, b: bv8, c: bv8, d: bv8, e: bv8, f: bv8): (r: bv32)
    requires 1 <= a <= 28 && 1 <= b <= 28 && 1 <= c <= 28 && 1 <= d <= 28 && 1 <= e <= 28 && 1 <= f <= 28
    ensures r < 64
  {
    (KeyBit(w, a) << 5) | (KeyBit(w, b) << 4) | (KeyBit(w, c) << 3) | (KeyBit(w, d) << 2) | (KeyBit(w, e) << 1) | KeyBit(w, f)
  }

  /** The rows of the table PC-2.  The last four choose from the second half, whose bits the table counts
      from 29 on. */
  function Choice1(w: bv32): bv32 { Row6(w, 14, 17, 11, 24, 1, 5) }
  function Choice2(w: bv32): bv32 { Row6(w, 3, 28, 15, 6, 21, 10) }
  function Choice3(w: bv32): bv32 { Row6(w, 23, 19, 12, 4, 26, 8) }
  function Choice4(w: bv32): bv32 { Row6(w, 16, 7, 27, 20, 13, 2) }
  function Choice5(w: bv32): bv32 { Row6(w, 13, 24, 3, 9, 19, 27) }
  function Choice6(w: bv32): bv32 { Row6(w, 2, 12, 23, 17, 5, 20) }
  function Choice7(w: bv32): bv32 { Row6(w, 16, 21, 11, 28, 6, 25) }
  function Choice8(w: bv32): bv32 { Row6(w, 18, 14, 22, 8, 1, 4) }

  /** How far the halves have been shifted to the left in all after `n` rounds: the sums of the shifts
      1, 1, 2, 2, 2, 2, 2, 2, 1, 2, 2, 2, 2, 2, 2, 1 that the standard prints. */
  const TOTAL_SHIFTS: seq<bv8> := [0, 1, 2, 4, 6, 8, 10, 12, 14, 15, 17, 19, 21, 23, 25, 27, 28]

  function TotalShift(n: nat): (s: bv8)
    requires n <= 16
    ensures s <= 28
  {
    TOTAL_SHIFTS[n]
  }

  /** Bit `j` of a half after `s` shifts to the left. */
  function ShiftedBit(w: bv32, j: bv8, s: bv8): bv32
    requires 1 <= j <= 28 && s <= 28
  {
    KeyBit(w, (j - 1 + s) % 28 + 1)
  }

  function SevenBits(b1: bv32, b2: bv32, b3: bv32, b4: bv32, b5: bv32, b6: bv32, b7: bv32): bv32 {
    (b1 << 6) | (b2 << 5) | (b3 << 4) | (b4 << 3) | (b5 << 2) | (b6 << 1) | b7
  }

  function ShiftedRow(w: bv32, j: bv8, s: bv8): bv32
    requires 1 <= j <= 22 && s <= 28
  {
    SevenBits(ShiftedBit(w, j, s), ShiftedBit(w, j + 1, s), ShiftedBit(w, j + 2, s), ShiftedBit(w, j + 3, s),
              ShiftedBit(w, j + 4, s), ShiftedBit(w, j + 5, s), ShiftedBit(w, j + 6, s))
  }

  function Shifted(w: bv32, s: bv8): bv32
    requires s <= 28
  {
    Chosen(ShiftedRow(w, 1, s), ShiftedRow(w, 8, s), ShiftedRow(w, 15, s), ShiftedRow(w, 22, s))
  }

  /** C and D of round `n`, from those before the first round. */
  function KeyHalves(cd0: Halves, n: nat): Halves
    requires n <= 16
  {
    Halves(Shifted(cd0.x, TotalShift(n)), Shifted(cd0.y, TotalShift(n)))
  }

  function Packed(a: bv32, b: bv32, c: bv32, d: bv32): bv32 {
    (a << 24) | (b << 16) | (c << 8) | d
  }

  /** The 48 bits that PC-2 chooses, in the two words in which the program keeps them. */
  function SubkeyWords(c: bv32, d: bv32): (ks: seq<bv32>)
    ensures |ks| == 2
  {
    [Packed(Choice2(c), Choice4(c), Choice6(d), Choice8(d)), Packed(Choice1(c), Choice3(c), Choice5(d), Choice7(d))]
  }

  /** The keys of the rounds after the first `i`. */
  function StandardFrom(cd0: Halves, i: nat): (ks: seq<bv32>)
    requires i <= 16
    ensures |ks| == 2 * (16 - i)
    decreases 16 - i
  {
    hide KeyHalves, SubkeyWords;
    if i == 16 then [] else
      var cd := KeyHalves(cd0, i + 1);
      SubkeyWords(cd.x, cd.y) + StandardFrom(cd0, i + 1)
  }

  function StandardSubkeys(key: seq<bv8>): (ks: seq<bv32>)
    requires |key| == 8
    ensures |ks| == 32
  {
    var k := Load(key);
    StandardFrom(Halves(TableC(k), TableD(k)), 0)
  }

  // ---------- the program against the standard ----------

  /** What the two tables do to four bits. */
  function LeftBits(i: bv32): bv32 {
    (i & 1) | ((i & 2) << 7) | ((i & 4) << 14) | ((i & 8) << 21)
  }

  function RightBits(i: bv32): bv32 {
    ((i & 1) << 24) | ((i & 2) << 15) | ((i & 4) << 6) | ((i & 8) >> 3)
  }

  lemma LeftSpreadIs(i: bv32)
    requires i < 16
    ensures LeftSpread(i) == LeftBits(i)
  {
  }

  lemma RightSpreadIs(i: bv32)
    requires i < 16
    ensures RightSpread(i) == RightBits(i)
  {
  }

  function LeftWiring(x: bv32): bv32 {
    Assembled(LeftBits(Nibble(x, 0)), LeftBits(Nibble(x, 8)), LeftBits(Nibble(x, 16)), LeftBits(Nibble(x, 24)),
              LeftBits(Nibble(x, 5)), LeftBits(Nibble(x, 13)), LeftBits(Nibble(x, 21)), LeftBits(Nibble(x, 29)))
  }

  function RightWiring(x: bv32): bv32 {
    Assembled(RightBits(Nibble(x, 1)), RightBits(Nibble(x, 9)), RightBits(Nibble(x, 17)), RightBits(Nibble(x, 25)),
              RightBits(Nibble(x, 4)), RightBits(Nibble(x, 12)), RightBits(Nibble(x, 20)), RightBits(Nibble(x, 28)))
  }

  lemma GatherLeftIs(x: bv32)
    ensures GatherLeft(x) == LeftWiring(x)
  {
    hide LeftSpread, LeftBits, Nibble, Assembled;
    LeftSpreadIs(Nibble(x, 0));
    LeftSpreadIs(Nibble(x, 8));
    LeftSpreadIs(Nibble(x, 16));
    LeftSpreadIs(Nibble(x, 24));
    LeftSpreadIs(Nibble(x, 5));
    LeftSpreadIs(Nibble(x, 13));
    LeftSpreadIs(Nibble(x, 21));
    LeftSpreadIs(Nibble(x, 29));
  }

  lemma GatherRightIs(x: bv32)
    ensures GatherRight(x) == RightWiring(x)
  {
    hide RightSpread, RightBits, Nibble, Assembled;
    RightSpreadIs(Nibble(x, 1));
    RightSpreadIs(Nibble(x, 9));
    RightSpreadIs(Nibble(x, 17));
    RightSpreadIs(Nibble(x, 25));
    RightSpreadIs(Nibble(x, 4));
    RightSpreadIs(Nibble(x, 12));
    RightSpreadIs(Nibble(x, 20));
    RightSpreadIs(Nibble(x, 28));
  }

  function ChoiceWiring(h: Halves): Halves {
    var h1 := MovedBack(h, 4, 0x0F0F_0F0F);
    MovedBack(h1, 0, 0x1010_1010)
  }

  lemma ChoiceIsWiring(h: Halves)
    ensures ExchangeBack(ExchangeBack(h, 4, 0x0F0F_0F0F), 0, 0x1010_1010) == ChoiceWiring(h)
  {
    hide Exchange, Moved;
    Moved4(Swap(h));
    MovedTens(Swap(MovedBack(h, 4, 0x0F0F_0F0F)));
  }

  lemma MovedTens(h: Halves)
    ensures Exchange(h, 0, 0x1010_1010) == Moved(h, 0, 0x1010_1010)
  {
    hide Difference, Up, Xor, Raised, Lowered;
    RaisedTens(h.x, h.y);
    LoweredTens(h.x, h.y);
  }

  lemma RaisedTens(x: bv32, y: bv32)
    ensures Xor(x, Up(Difference(x, y, 0, 0x1010_1010), 0)) == Raised(x, y, 0, 0x1010_1010)
  {
  }

  lemma LoweredTens(x: bv32, y: bv32)
    ensures Xor(y, Difference(x, y, 0, 0x1010_1010)) == Lowered(x, y, 0, 0x1010_1010)
  {
  }

  lemma WiringC(h: Halves)
    ensures LeftWiring(ChoiceWiring(h).x) == TableC(h)
  {
  }

  lemma WiringD(h: Halves)
    ensures RightWiring(ChoiceWiring(h).y) == TableD(h)
  {
  }

  /** Permuted choice 1 of the program is that of FIPS 46-3. */
  lemma Choice1IsTable(h: Halves)
    ensures PermutedChoice1(h) == Halves(TableC(h), TableD(h))
  {
    hide ExchangeBack, GatherLeft, GatherRight, LeftWiring, RightWiring, ChoiceWiring, TableC, TableD;
    ChoiceIsWiring(h);
    var h2 := ChoiceWiring(h);
    GatherLeftIs(h2.x);
    GatherRightIs(h2.y);
    WiringC(h);
    WiringD(h);
  }

  /** The two words of a subkey hold the rows of PC-2, the even ones in the first and the odd ones in the
      second. */
  lemma EvenChoices(c: bv32, d: bv32)
    ensures EvenWord(c, d) == Packed(Choice2(c), Choice4(c), Choice6(d), Choice8(d))
  {
  }

  lemma OddChoices(c: bv32, d: bv32)
    ensures OddWord(c, d) == Packed(Choice1(c), Choice3(c), Choice5(d), Choice7(d))
  {
  }

  predicate Short(w: bv32) {
    w < 0x1000_0000
  }

  lemma NotShifted(w: bv32)
    requires Short(w)
    ensures Shifted(w, 0) == w
  {
  }

  lemma BitRotated(w: bv32, j: bv8)
    requires Short(w) && 1 <= j <= 28
    ensures KeyBit(Rotated(w, 1), j) == KeyBit(w, j % 28 + 1)
  {
  }

  lemma PlaceNext(j: bv8, s: bv8)
    requires 1 <= j <= 28 && s < 28
    ensures ((j - 1 + s) % 28 + 1) % 28 + 1 == (j - 1 + (s + 1)) % 28 + 1
  {
  }

  lemma BitNext(w: bv32, j: bv8, s: bv8)
    requires Short(w) && 1 <= j <= 28 && s < 28
    ensures ShiftedBit(Rotated(w, 1), j, s) == ShiftedBit(w, j, s + 1)
  {
    hide KeyBit, Rotated, Short;
    PlaceNext(j, s);
    BitRotated(w, (j - 1 + s) % 28 + 1);
  }

  lemma RowNext(w: bv32, j: bv8, s: bv8)
    requires Short(w) && 1 <= j <= 22 && s < 28
    ensures ShiftedRow(Rotated(w, 1), j, s) == ShiftedRow(w, j, s + 1)
  {
    hide KeyBit, Rotated, ShiftedBit, SevenBits, Short;
    BitNext(w, j, s);
    BitNext(w, j + 1, s);
    BitNext(w, j + 2, s);
    BitNext(w, j + 3, s);
    BitNext(w, j + 4, s);
    BitNext(w, j + 5, s);
    BitNext(w, j + 6, s);
  }

  /** A rotation of the program is one shift more. */
  lemma RotatedOnce(w: bv32, s: bv8)
    requires Short(w) && s < 28
    ensures Shifted(Rotated(w, 1), s) == Shifted(w, s + 1)
  {
    hide ShiftedRow, Chosen, Rotated, Short;
    RowNext(w, 1, s);
    RowNext(w, 8, s);
    RowNext(w, 15, s);
    RowNext(w, 22, s);
  }

  lemma RotatedTwice(w: bv32)
    requires Short(w)
    ensures Rotated(w, 2) == Rotated(Rotated(w, 1), 1) && Short(Rotated(w, 1))
  {
  }

  /** The half `w` is the half `w0` after `t` shifts, and so is what comes of either by further ones. */
  ghost predicate Ahead(w0: bv32, w: bv32, t: bv8) {
    t <= 28 && Short(w) && forall s | s <= 28 - t :: Shifted(w, s) == Shifted(w0, t + s)
  }

  lemma AheadStart(w: bv32)
    requires Short(w)
    ensures Ahead(w, w, 0)
  {
    hide Shifted, Short;
    forall s: bv8 | s <= 28 ensures Shifted(w, s) == Shifted(w, 0 + s) { }
  }

  lemma AheadOnce(w0: bv32, w: bv32, t: bv8)
    requires Ahead(w0, w, t) && t < 28
    ensures Ahead(w0, Rotated(w, 1), t + 1)
  {
    hide Shifted, Rotated, Short;
    RotatedTwice(w);
    forall s: bv8 | s <= 28 - (t + 1) ensures Shifted(Rotated(w, 1), s) == Shifted(w0, t + 1 + s) {
      RotatedOnce(w, s);
      assert t + (s + 1) == t + 1 + s;
    }
  }

  lemma AheadTwice(w0: bv32, w: bv32, t: bv8)
    requires Ahead(w0, w, t) && t < 27
    ensures Ahead(w0, Rotated(w, 2), t + 2)
  {
    hide Shifted, Rotated, Short;
    RotatedTwice(w);
    AheadOnce(w0, w, t);
    AheadOnce(w0, Rotated(w, 1), t + 1);
    assert t + 1 + 1 == t + 2;
  }

  lemma AheadIs(w0: bv32, w: bv32, t: bv8)
    requires Ahead(w0, w, t)
    ensures w == Shifted(w0, t)
  {
    hide Shifted, Short;
    NotShifted(w);
    assert Shifted(w, 0) == Shifted(w0, t + 0) && t + 0 == t;
  }

  lemma TotalsAdd(i: nat)
    requires i < 16
    ensures TotalShift(0) == 0
    ensures TotalShift(i) < 28 && (i < 2 || i == 8 || i == 15 ==> TotalShift(i + 1) == TotalShift(i) + 1)
    ensures !(i < 2 || i == 8 || i == 15) ==> TotalShift(i) < 27 && TotalShift(i + 1) == TotalShift(i) + 2
  {
  }

  /** The program's halves are as far as the standard's in round `i`. */
  ghost predicate InStep(cd0: Halves, cd: Halves, i: nat) {
    i <= 16 && Ahead(cd0.x, cd.x, TotalShift(i)) && Ahead(cd0.y, cd.y, TotalShift(i))
  }

  lemma InStepStart(cd: Halves)
    requires Short(cd.x) && Short(cd.y)
    ensures InStep(cd, cd, 0)
  {
    hide Ahead, Short;
    TotalsAdd(0);
    AheadStart(cd.x);
    AheadStart(cd.y);
  }

  /** A round of the program's loop gives the next halves of the standard. */
  lemma InStepNext(cd0: Halves, cd: Halves, i: nat)
    requires InStep(cd0, cd, i) && i < 16
    ensures InStep(cd0, NextHalves(cd, i), i + 1) && NextHalves(cd, i) == KeyHalves(cd0, i + 1)
  {
    hide Ahead, Shifted, Rotated, TotalShift;
    TotalsAdd(i);
    if i < 2 || i == 8 || i == 15 {
      AheadOnce(cd0.x, cd.x, TotalShift(i));
      AheadOnce(cd0.y, cd.y, TotalShift(i));
    } else {
      AheadTwice(cd0.x, cd.x, TotalShift(i));
      AheadTwice(cd0.y, cd.y, TotalShift(i));
    }
    AheadIs(cd0.x, NextHalves(cd, i).x, TotalShift(i + 1));
    AheadIs(cd0.y, NextHalves(cd, i).y, TotalShift(i + 1));
  }

  /** The standard's halves of round `i`, which are the program's. */
  lemma {:induction false} InStepAt(cd0: Halves, i: nat)
    requires i <= 16 && Short(cd0.x) && Short(cd0.y)
    ensures InStep(cd0, KeyHalves(cd0, i), i)
  {
    hide InStep, NextHalves, KeyHalves, Short;
    if i == 0 {
      InStepStart(cd0);
      KeyHalvesFirst(cd0);
    } else {
      InStepAt(cd0, i - 1);
      InStepNext(cd0, KeyHalves(cd0, i - 1), i - 1);
    }
  }

  lemma KeyHalvesFirst(cd0: Halves)
    requires Short(cd0.x) && Short(cd0.y)
    ensures KeyHalves(cd0, 0) == cd0
  {
    hide Shifted, Short, TotalShift;
    TotalsAdd(0);
    NotShifted(cd0.x);
    NotShifted(cd0.y);
  }

  lemma {:induction false} SubkeysFromRound(cd0: Halves, i: nat)
    requires i <= 16 && Short(cd0.x) && Short(cd0.y)
    ensures SubkeysFrom(KeyHalves(cd0, i), i) == StandardFrom(cd0, i)
    decreases 16 - i
  {
    hide InStep, NextHalves, KeyHalves, EvenWord, OddWord, Packed, Short;
    hide Choice1, Choice2, Choice3, Choice4, Choice5, Choice6, Choice7, Choice8;
    if i < 16 {
      InStepAt(cd0, i);
      InStepNext(cd0, KeyHalves(cd0, i), i);
      var next := KeyHalves(cd0, i + 1);
      SubkeysFromRound(cd0, i + 1);
      EvenChoices(next.x, next.y);
      OddChoices(next.x, next.y);
    }
  }

  lemma TablesShort(h: Halves)
    ensures Short(TableC(h)) && Short(TableD(h))
  {
  }

  /** The program's subkeys are those of FIPS 46-3. */
  lemma SubkeysAreStandard(key: seq<bv8>)
    requires |key| == 8
    ensures Subkeys(key) == StandardSubkeys(key)
  {
    hide PermutedChoice1, TableC, TableD, Load, KeyHalves, SubkeysFrom, StandardFrom, Short;
    var k := Load(key);
    var cd := Halves(TableC(k), TableD(k));
    Choice1IsTable(k);
    TablesShort(k);
    KeyHalvesFirst(cd);
    SubkeysFromRound(cd, 0);
  }
}
