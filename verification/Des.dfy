/** DES and triple DES: the permutations, the Feistel rounds and the key schedules for the two
    directions.  What the rounds compute from a half and a subkey is left open, since nothing here
    depends on it: encryption and decryption undo each other for every choice of S-boxes. */
module Des {
  import opened Words32
  import opened DesBits
  import opened DesKeys

  // ---------- the rounds ----------

  /** The eight S-boxes, each with its place in the output word. */
  datatype SBoxes = SBoxes(sb1: bv6 -> bv32, sb2: bv6 -> bv32, sb3: bv6 -> bv32, sb4: bv6 -> bv32,
                           sb5: bv6 -> bv32, sb6: bv6 -> bv32, sb7: bv6 -> bv32, sb8: bv6 -> bv32)

  function Six(t: bv32, s: bv8): bv6
    requires s < 32
  {
    ((t >> s) & 0x3F) as bv6
  }

  function Four(a: bv32, b: bv32, c: bv32, d: bv32): bv32 {
    a ^ b ^ c ^ d
  }

  function Quarter(w: bv32): bv32 {
    (w << 28) | (w >> 4)
  }

  function EvenBoxes(sb: SBoxes, t: bv32): bv32 {
    Four(sb.sb8(Six(t, 0)), sb.sb6(Six(t, 8)), sb.sb4(Six(t, 16)), sb.sb2(Six(t, 24)))
  }

  function OddBoxes(sb: SBoxes, t: bv32): bv32 {
    Four(sb.sb7(Six(t, 0)), sb.sb5(Six(t, 8)), sb.sb3(Six(t, 16)), sb.sb1(Six(t, 24)))
  }

  /** What a round adds to one half, from the other half and the two words of its subkey. */
  function RoundFunction(sb: SBoxes, w: bv32, k0: bv32, k1: bv32): bv32 {
    Xor(EvenBoxes(sb, Xor(k0, w)), OddBoxes(sb, Xor(k1, Quarter(w))))
  }

  /** A Feistel network: the halves change places in every round.  The words of `ks` are used in
      pairs, one pair a round. */
  function Feistel(sb: SBoxes, h: Halves, ks: seq<bv32>): Halves
    decreases |ks|
  {
    if |ks| < 2 then h
    else Feistel(sb, Halves(h.y, Xor(h.x, RoundFunction(sb, h.y, ks[0], ks[1]))), ks[2..])
  }

  /** The pairs of a schedule in reverse order. */
  function Reversed(ks: seq<bv32>): (r: seq<bv32>)
    requires |ks| % 2 == 0
    ensures |r| == |ks|
    decreases |ks|
  {
    if ks == [] then [] else Reversed(ks[2..]) + ks[..2]
  }

  lemma {:induction false} FeistelAppend(sb: SBoxes, h: Halves, ks: seq<bv32>, more: seq<bv32>)
    requires |ks| % 2 == 0 && |more| % 2 == 0
    ensures Feistel(sb, h, ks + more) == Feistel(sb, Feistel(sb, h, ks), more)
    decreases |ks|
  {
    hide Xor, RoundFunction;
    if ks == [] {
      assert ks + more == more;
    } else {
      assert (ks + more)[2..] == ks[2..] + more;
      FeistelAppend(sb, Halves(h.y, Xor(h.x, RoundFunction(sb, h.y, ks[0], ks[1]))), ks[2..], more);
    }
  }

  /** Running the rounds in reverse order on exchanged halves undoes them. */
  lemma {:induction false} FeistelInverse(sb: SBoxes, h: Halves, ks: seq<bv32>)
    requires |ks| % 2 == 0
    ensures Feistel(sb, Swap(Feistel(sb, h, ks)), Reversed(ks)) == Swap(h)
    decreases |ks|
  {
    hide Xor, RoundFunction;
    if ks != [] {
      var next := Halves(h.y, Xor(h.x, RoundFunction(sb, h.y, ks[0], ks[1])));
      FeistelInverse(sb, next, ks[2..]);
      FeistelAppend(sb, Swap(Feistel(sb, h, ks)), Reversed(ks[2..]), ks[..2]);
      assert Feistel(sb, Swap(Feistel(sb, h, ks)), Reversed(ks[2..])) == Swap(next);
      XorTwice(h.x, RoundFunction(sb, h.y, ks[0], ks[1]));
      assert ks[..2][2..] == [];
    }
  }

  // ---------- one block ----------

  /** The cipher under a schedule, as in FIPS 46-3: permute, run the rounds, exchange the halves,
      permute back. */
  function Cipher(sb: SBoxes, ks: seq<bv32>, block: seq<bv8>): (r: seq<bv8>)
    requires |ks| % 2 == 0 && |block| == 8
    ensures |r| == 8
  {
    Store(FinalPermutation(Swap(Feistel(sb, InitialPermutation(Load(block)), ks))))
  }

  /** The reversed schedule deciphers. */
  lemma CipherInverse(sb: SBoxes, ks: seq<bv32>, block: seq<bv8>)
    requires |ks| % 2 == 0 && |block| == 8
    ensures Cipher(sb, Reversed(ks), Cipher(sb, ks, block)) == block
  {
    hide Store, Load, InitialPermutation, FinalPermutation, Feistel, Reversed;
    var h := InitialPermutation(Load(block));
    var out := Swap(Feistel(sb, h, ks));
    LoadStore(FinalPermutation(out));
    InitialUndoesFinal(out);
    FeistelInverse(sb, h, ks);
    FinalUndoesInitial(Load(block));
    StoreLoad(block);
  }

  /** One pass of the cipher after another, with the next 32 words of the schedule each. */
  function Passes(sb: SBoxes, sk: seq<bv32>, block: seq<bv8>): (r: seq<bv8>)
    requires |block| == 8
    ensures |r| == 8
    decreases |sk|
  {
    if |sk| < 32 then block else Passes(sb, sk[32..], Cipher(sb, sk[..32], block))
  }

  lemma {:induction false} ThreePasses(sb: SBoxes, k1: seq<bv32>, k2: seq<bv32>, k3: seq<bv32>, block: seq<bv8>)
    requires |k1| == |k2| == |k3| == 32 && |block| == 8
    ensures Passes(sb, k1 + k2 + k3, block) == Cipher(sb, k3, Cipher(sb, k2, Cipher(sb, k1, block)))
  {
    hide Cipher;
    var b1 := Cipher(sb, k1, block);
    var b2 := Cipher(sb, k2, b1);
    assert (k1 + k2 + k3)[..32] == k1 && (k1 + k2 + k3)[32..] == k2 + k3;
    assert (k2 + k3)[..32] == k2 && (k2 + k3)[32..] == k3;
    assert k3[..32] == k3 && k3[32..] == [];
    assert Passes(sb, k2 + k3, b1) == Passes(sb, k3, b2);
  }

  lemma {:induction false} ReversedAppend(a: seq<bv32>, b: seq<bv32>)
    requires |a| % 2 == 0 && |b| % 2 == 0
    ensures Reversed(a + b) == Reversed(b) + Reversed(a)
    decreases |a|
  {
    if a == [] {
      assert a + b == b;
    } else {
      assert (a + b)[2..] == a[2..] + b && (a + b)[..2] == a[..2];
      ReversedAppend(a[2..], b);
    }
  }

  lemma {:induction false} ReversedTwice(ks: seq<bv32>)
    requires |ks| % 2 == 0
    ensures Reversed(Reversed(ks)) == ks
    decreases |ks|
  {
    if ks != [] {
      ReversedTwice(ks[2..]);
      ReversedAppend(Reversed(ks[2..]), ks[..2]);
      assert ks[..2][2..] == [] && ks[..2][..2] == ks[..2];
    }
  }

  // ---------- the program on one block ----------

  /** DES_ROUND: `other` is changed under the half `w` and two words of the schedule. */
  method DesRound(sb: SBoxes, w: bv32, other: bv32, k0: bv32, k1: bv32) returns (r: bv32)
    ensures r == Xor(other, RoundFunction(sb, w, k0, k1))
  {
    hide EvenBoxes, OddBoxes, Xor, Quarter;
    var t := Xor(k0, w);
    r := Xor(other, EvenBoxes(sb, t));
    t := Xor(k1, Quarter(w));
    XorAssociative(other, EvenBoxes(sb, Xor(k0, w)), OddBoxes(sb, t));
    r := Xor(r, OddBoxes(sb, t));
  }

  lemma FeistelStep(sb: SBoxes, h: Halves, sk: seq<bv32>, at: nat, end: nat)
    requires at + 2 <= end <= |sk| && (end - at) % 2 == 0
    ensures Feistel(sb, h, sk[at..end]) ==
            Feistel(sb, Halves(h.y, Xor(h.x, RoundFunction(sb, h.y, sk[at], sk[at + 1]))), sk[at + 2..end])
  {
    hide Xor, RoundFunction;
    assert sk[at..end][2..] == sk[at + 2..end];
  }

  /** Two rounds, one on each half, from place `at` of the schedule on. */
  method TwoRounds(sb: SBoxes, x: bv32, y: bv32, sk: seq<bv32>, at: nat, ghost end: nat) returns (x': bv32, y': bv32)
    requires at + 4 <= end <= |sk| && (end - at) % 2 == 0
    ensures Feistel(sb, Halves(x', y'), sk[at + 4..end]) == Feistel(sb, Halves(x, y), sk[at..end])
  {
    hide Xor, RoundFunction, Feistel;
    x' := DesRound(sb, y, x, sk[at], sk[at + 1]);
    y' := DesRound(sb, x', y, sk[at + 2], sk[at + 3]);
    FeistelStep(sb, Halves(x, y), sk, at, end);
    FeistelStep(sb, Halves(y, x'), sk, at + 2, end);
  }

  /** The sixteen rounds of one pass. */
  method SixteenRounds(sb: SBoxes, x: bv32, y: bv32, sk: seq<bv32>, at: nat) returns (x': bv32, y': bv32)
    requires at + 32 <= |sk|
    ensures Halves(x', y') == Feistel(sb, Halves(x, y), sk[at..at + 32])
  {
    ghost var end := at + 32;
    x', y' := TwoRounds(sb, x, y, sk, at, end);
    x', y' := TwoRounds(sb, x', y', sk, at + 4, end);
    x', y' := TwoRounds(sb, x', y', sk, at + 8, end);
    x', y' := TwoRounds(sb, x', y', sk, at + 12, end);
    x', y' := TwoRounds(sb, x', y', sk, at + 16, end);
    x', y' := TwoRounds(sb, x', y', sk, at + 20, end);
    x', y' := TwoRounds(sb, x', y', sk, at + 24, end);
    x', y' := TwoRounds(sb, x', y', sk, at + 28, end);
    assert sk[end..end] == [];
  }

  /** `des_crypt` */
  method DesCrypt(sb: SBoxes, sk: seq<bv32>, input: seq<bv8>) returns (output: seq<bv8>)
    requires |sk| == 32 && |input| == 8
    ensures output == Cipher(sb, sk, input)
  {
    hide InitialPermutation, FinalPermutation, Feistel, Load, Store;
    var h := InitialPermutation(Load(input));
    var x, y := SixteenRounds(sb, h.x, h.y, sk, 0);
    assert sk[0..32] == sk;
    output := Store(FinalPermutation(Halves(y, x)));
  }

  /** `des3_crypt`: three passes, of which the second begins with the other half. */
  method Des3Crypt(sb: SBoxes, sk: seq<bv32>, input: seq<bv8>) returns (output: seq<bv8>)
    requires |sk| == 96 && |input| == 8
    ensures output == Passes(sb, sk, input)
  {
    hide Passes, InitialPermutation, FinalPermutation, Feistel, Load, Store;
    var h := InitialPermutation(Load(input));
    var x, y := SixteenRounds(sb, h.x, h.y, sk, 0);
    Intermediate(Halves(y, x));
    y, x := SixteenRounds(sb, y, x, sk, 32);
    Intermediate(Halves(x, y));
    x, y := SixteenRounds(sb, x, y, sk, 64);
    output := Store(FinalPermutation(Halves(y, x)));
    assert sk == sk[0..32] + sk[32..64] + sk[64..96];
    ThreePasses(sb, sk[0..32], sk[32..64], sk[64..96], input);
  }

  /** Between two passes, permuting back and writing the block out would be undone at once. */
  lemma Intermediate(h: Halves)
    ensures InitialPermutation(Load(Store(FinalPermutation(h)))) == h
  {
    LoadStore(FinalPermutation(h));
    InitialUndoesFinal(h);
  }

  // ---------- the key schedules of the two directions ----------

  /** The place a word of a schedule of `n` words goes to when the pairs are reversed. */
  function Mirror(n: nat, j: nat): (k: nat)
    requires n % 2 == 0 && j < n
    ensures k < n
  {
    if j % 2 == 0 then n - 2 - j else n - j
  }

  lemma {:induction false} ReversedAt(ks: seq<bv32>, j: nat)
    requires |ks| % 2 == 0 && j < |ks|
    ensures Reversed(ks)[j] == ks[Mirror(|ks|, j)]
    decreases |ks|
  {
    if j < |ks| - 2 {
      ReversedAt(ks[2..], j);
    }
  }

  lemma MirrorPair(n: nat, j: nat)
    requires n % 2 == 0 && j % 2 == 0 && j + 1 < n
    ensures Mirror(n, j) == n - 2 - j && Mirror(n, j + 1) == n - 1 - j
  {
  }

  lemma IsReversed(r: seq<bv32>, ks: seq<bv32>)
    requires |r| == |ks| == 32
    requires forall j | 0 <= j < 32 :: r[j] == ks[Mirror(32, j)]
    ensures r == Reversed(ks)
  {
    forall j | 0 <= j < 32 ensures r[j] == Reversed(ks)[j] {
      ReversedAt(ks, j);
    }
  }

  /** `des_context` and `des3_context`, with room for the subkeys of one or three passes in each
      direction. */
  class KeyContext {
    const esk: array<bv32>
    const dsk: array<bv32>

    ghost predicate Sized(n: nat) {
      esk.Length == n && dsk.Length == n && esk != dsk
    }

    constructor (n: nat)
      ensures Sized(n) && fresh(esk) && fresh(dsk)
    {
      esk := new bv32[n];
      dsk := new bv32[n];
    }

    /** `des_set_key` */
    method SetKey(key: seq<bv8>)
      requires Sized(32) && |key| == 8
      modifies esk, dsk
      ensures esk[..] == Subkeys(key) && dsk[..] == Reversed(Subkeys(key))
    {
      hide Reversed, Mirror, Subkeys, StandardSubkeys;
      ghost var ks := Subkeys(key);
      MainKeySchedule(esk, 0, key);
      assert esk[..] == esk[0..32];
      var i := 0;
      while i < 32
        invariant 0 <= i <= 32 && i % 2 == 0
        invariant esk[..] == ks
        invariant forall j | 0 <= j < i :: dsk[j] == ks[Mirror(32, j)]
      {
        MirrorPair(32, i);
        dsk[i] := esk[30 - i];
        dsk[i + 1] := esk[31 - i];
        i := i + 2;
      }
      IsReversed(dsk[..], ks);
    }

    /** `des3_set_3keys` */
    method Set3Keys(key: seq<bv8>)
      requires Sized(96) && |key| == 24
      modifies esk, dsk
      ensures var ks1, ks2, ks3 := Subkeys(key[..8]), Subkeys(key[8..16]), Subkeys(key[16..]);
              esk[..] == ks1 + Reversed(ks2) + ks3 && dsk[..] == Reversed(ks3) + ks2 + Reversed(ks1)
    {
      hide Reversed, Mirror, Partly, Subkeys, StandardSubkeys;
      ghost var ks1, ks2, ks3 := Subkeys(key[..8]), Subkeys(key[8..16]), Subkeys(key[16..]);
      MainKeySchedule(esk, 0, key[..8]);
      MainKeySchedule(dsk, 32, key[8..16]);
      MainKeySchedule(esk, 64, key[16..]);
      PartlyStart(esk[..], dsk[..], ks1, ks2, ks3, 32);
      var i := 0;
      while i < 32
        invariant 0 <= i <= 32 && i % 2 == 0
        invariant Partly(esk[..], dsk[..], ks1, ks2, ks3, i, 32)
      {
        ghost var e, d := esk[..], dsk[..];
        dsk[i] := esk[94 - i];
        dsk[i + 1] := esk[95 - i];
        esk[i + 32] := dsk[62 - i];
        esk[i + 33] := dsk[63 - i];
        dsk[i + 64] := esk[30 - i];
        dsk[i + 65] := esk[31 - i];
        PartlyStep3(e, d, ks1, ks2, ks3, i);
        i := i + 2;
      }
      PartlyDone(esk[..], dsk[..], ks1, ks2, ks3);
    }

    /** `des3_set_2keys`, which is the schedule of three keys with the first used again. */
    method Set2Keys(key: seq<bv8>)
      requires Sized(96) && |key| == 16
      modifies esk, dsk
      ensures var ks1, ks2 := Subkeys(key[..8]), Subkeys(key[8..]);
              esk[..] == ks1 + Reversed(ks2) + ks1 && dsk[..] == Reversed(ks1) + ks2 + Reversed(ks1)
    {
      hide Reversed, Mirror, Partly, Subkeys, StandardSubkeys;
      ghost var ks1, ks2 := Subkeys(key[..8]), Subkeys(key[8..]);
      MainKeySchedule(esk, 0, key[..8]);
      MainKeySchedule(dsk, 32, key[8..]);
      PartlyStart(esk[..], dsk[..], ks1, ks2, ks1, 0);
      var i := 0;
      while i < 32
        invariant 0 <= i <= 32 && i % 2 == 0
        invariant Partly(esk[..], dsk[..], ks1, ks2, ks1, i, i)
      {
        ghost var e, d := esk[..], dsk[..];
        dsk[i] := esk[30 - i];
        dsk[i + 1] := esk[31 - i];
        esk[i + 32] := dsk[62 - i];
        esk[i + 33] := dsk[63 - i];
        esk[i + 64] := esk[i];
        esk[i + 65] := esk[1 + i];
        dsk[i + 64] := dsk[i];
        dsk[i + 65] := dsk[1 + i];
        PartlyStep2(e, d, ks1, ks2, i);
        i := i + 2;
      }
      PartlyDone(esk[..], dsk[..], ks1, ks2, ks1);
    }
  }

  /** The first `n` words of `ks` are in `z` from `off` on, in order or with the pairs reversed. */
  ghost predicate Copied(z: seq<bv32>, off: nat, ks: seq<bv32>, n: nat)
    requires |ks| == 32 && n <= 32
  {
    off + 32 <= |z| && forall j | 0 <= j < n :: z[off + j] == ks[j]
  }

  ghost predicate Mirrored(z: seq<bv32>, off: nat, ks: seq<bv32>, n: nat)
    requires |ks| == 32 && n <= 32
  {
    off + 32 <= |z| && forall j | 0 <= j < n :: z[off + j] == ks[Mirror(32, j)]
  }

  lemma CopiedAt(z: seq<bv32>, off: nat, ks: seq<bv32>, n: nat, j: nat)
    requires |ks| == 32 && j < n <= 32 && Copied(z, off, ks, n)
    ensures off + 32 <= |z| && z[off + j] == ks[j]
  {
  }

  ghost predicate Same(z: seq<bv32>, z': seq<bv32>, lo: nat, hi: nat) {
    hi <= |z| && hi <= |z'| && forall j | lo <= j < hi :: z'[j] == z[j]
  }

  lemma CopiedKept(z: seq<bv32>, z': seq<bv32>, off: nat, ks: seq<bv32>, n: nat)
    requires |ks| == 32 && n <= 32 && Copied(z, off, ks, n)
    requires off + 32 <= |z'| && Same(z, z', off, off + n)
    ensures Copied(z', off, ks, n)
  {
  }

  lemma CopiedPair(z: seq<bv32>, off: nat, ks: seq<bv32>, i: nat)
    requires |ks| == 32 && i < 31 && Copied(z, off, ks, i) && z[off + i] == ks[i] && z[off + i + 1] == ks[i + 1]
    ensures Copied(z, off, ks, i + 2)
  {
  }

  lemma MirroredPair(z: seq<bv32>, z': seq<bv32>, off: nat, ks: seq<bv32>, i: nat)
    requires |ks| == 32 && i < 31 && i % 2 == 0 && Mirrored(z, off, ks, i)
    requires off + 32 <= |z'| && Same(z, z', off, off + i)
    requires z'[off + i] == ks[30 - i] && z'[off + i + 1] == ks[31 - i]
    ensures Mirrored(z', off, ks, i + 2)
  {
    hide Mirror;
    MirrorPair(32, i);
  }

  lemma MirroredDone(z: seq<bv32>, off: nat, ks: seq<bv32>)
    requires |ks| == 32 && Mirrored(z, off, ks, 32)
    ensures off + 32 <= |z| && z[off..off + 32] == Reversed(ks)
  {
    hide Mirror, Reversed;
    IsReversed(z[off..off + 32], ks);
  }

  /** The two schedules of three passes with the first `i` words of each derived part in place, and
      the first `last` words of the last part. */
  ghost predicate Partly(e: seq<bv32>, d: seq<bv32>, ks1: seq<bv32>, ks2: seq<bv32>, ks3: seq<bv32>, i: nat, last: nat)
    requires |ks1| == |ks2| == |ks3| == 32 && i <= 32 && last <= 32
  {
    && |e| == |d| == 96
    && Copied(e, 0, ks1, 32) && Copied(d, 32, ks2, 32) && Copied(e, 64, ks3, last)
    && Mirrored(d, 0, ks3, i) && Mirrored(e, 32, ks2, i) && Mirrored(d, 64, ks1, i)
  }

  lemma PartlyStart(e: seq<bv32>, d: seq<bv32>, ks1: seq<bv32>, ks2: seq<bv32>, ks3: seq<bv32>, last: nat)
    requires |ks1| == |ks2| == |ks3| == 32 && |e| == |d| == 96 && last <= 32
    requires e[..32] == ks1 && d[32..64] == ks2 && e[64..64 + last] == ks3[..last]
    ensures Partly(e, d, ks1, ks2, ks3, 0, last)
  {
    forall j | 0 <= j < 32 ensures d[32 + j] == ks2[j] {
      assert d[32 + j] == d[32..64][j];
    }
    forall j | 0 <= j < last ensures e[64 + j] == ks3[j] {
      assert e[64 + j] == e[64..64 + last][j];
    }
  }

  /** Two words next to each other. */
  function Paired(z: seq<bv32>, at: nat, a: bv32, b: bv32): (z': seq<bv32>)
    requires at + 2 <= |z|
    ensures |z'| == |z|
  {
    z[at := a][at + 1 := b]
  }

  /** Written, they leave the words elsewhere. */
  lemma PairWritten(z: seq<bv32>, at: nat, a: bv32, b: bv32, lo: nat, hi: nat)
    requires at + 2 <= |z| && hi <= |z| && (hi <= at || at + 2 <= lo)
    ensures var z' := Paired(z, at, a, b); z'[at] == a && z'[at + 1] == b && Same(z, z', lo, hi)
  {
  }

  lemma SameTwice(z: seq<bv32>, z1: seq<bv32>, z2: seq<bv32>, lo: nat, hi: nat)
    requires Same(z, z1, lo, hi) && Same(z1, z2, lo, hi)
    ensures Same(z, z2, lo, hi)
  {
  }

  /** Two pairs of words written, at different places, leave the words that are at neither. */
  lemma PairsWritten(z: seq<bv32>, p: nat, a: bv32, b: bv32, q: nat, c: bv32, d: bv32, lo: nat, hi: nat)
    requires p + 2 <= q && q + 2 <= |z| && hi <= |z| && (hi <= p || p + 2 <= lo) && (hi <= q || q + 2 <= lo)
    ensures var z' := Paired(Paired(z, p, a, b), q, c, d);
            z'[p] == a && z'[p + 1] == b && z'[q] == c && z'[q + 1] == d && Same(z, z', lo, hi)
  {
    hide Paired;
    var z1 := Paired(z, p, a, b);
    var z' := Paired(z1, q, c, d);
    PairWritten(z, p, a, b, lo, hi);
    PairWritten(z1, q, c, d, lo, hi);
    PairWritten(z1, q, c, d, p, p + 2);
    SameTwice(z, z1, z', lo, hi);
  }

  lemma PartlyStep3(e: seq<bv32>, d: seq<bv32>, ks1: seq<bv32>, ks2: seq<bv32>, ks3: seq<bv32>, i: nat)
    requires |ks1| == |ks2| == |ks3| == 32 && i < 31 && i % 2 == 0 && Partly(e, d, ks1, ks2, ks3, i, 32)
    ensures |e| == |d| == 96
    ensures Partly(Paired(e, i + 32, d[62 - i], d[63 - i]),
                   Paired(Paired(d, i, e[94 - i], e[95 - i]), i + 64, e[30 - i], e[31 - i]), ks1, ks2, ks3, i + 2, 32)
  {
    hide Copied, Mirrored, Same, Paired;
    var e' := Paired(e, i + 32, d[62 - i], d[63 - i]);
    var d' := Paired(Paired(d, i, e[94 - i], e[95 - i]), i + 64, e[30 - i], e[31 - i]);
    CopiedAt(e, 0, ks1, 32, 30 - i);
    CopiedAt(e, 0, ks1, 32, 31 - i);
    CopiedAt(d, 32, ks2, 32, 30 - i);
    CopiedAt(d, 32, ks2, 32, 31 - i);
    CopiedAt(e, 64, ks3, 32, 30 - i);
    CopiedAt(e, 64, ks3, 32, 31 - i);
    PairWritten(e, i + 32, d[62 - i], d[63 - i], 0, 32);
    PairWritten(e, i + 32, d[62 - i], d[63 - i], 64, 96);
    PairWritten(e, i + 32, d[62 - i], d[63 - i], 32, i + 32);
    CopiedKept(e, e', 0, ks1, 32);
    CopiedKept(e, e', 64, ks3, 32);
    MirroredPair(e, e', 32, ks2, i);
    PairsWritten(d, i, e[94 - i], e[95 - i], i + 64, e[30 - i], e[31 - i], 32, 64);
    PairsWritten(d, i, e[94 - i], e[95 - i], i + 64, e[30 - i], e[31 - i], 0, i);
    PairsWritten(d, i, e[94 - i], e[95 - i], i + 64, e[30 - i], e[31 - i], 64, i + 64);
    CopiedKept(d, d', 32, ks2, 32);
    MirroredPair(d, d', 0, ks3, i);
    MirroredPair(d, d', 64, ks1, i);
  }

  lemma PartlyStep2(e: seq<bv32>, d: seq<bv32>, ks1: seq<bv32>, ks2: seq<bv32>, i: nat)
    requires |ks1| == |ks2| == 32 && i < 31 && i % 2 == 0 && Partly(e, d, ks1, ks2, ks1, i, i)
    ensures |e| == |d| == 96
    ensures Partly(Paired(Paired(e, i + 32, d[62 - i], d[63 - i]), i + 64, e[i], e[i + 1]),
                   Paired(Paired(d, i, e[30 - i], e[31 - i]), i + 64, e[30 - i], e[31 - i]), ks1, ks2, ks1, i + 2, i + 2)
  {
    hide Copied, Mirrored, Same, Paired;
    var e' := Paired(Paired(e, i + 32, d[62 - i], d[63 - i]), i + 64, e[i], e[i + 1]);
    var d' := Paired(Paired(d, i, e[30 - i], e[31 - i]), i + 64, e[30 - i], e[31 - i]);
    CopiedAt(e, 0, ks1, 32, i);
    CopiedAt(e, 0, ks1, 32, i + 1);
    CopiedAt(e, 0, ks1, 32, 30 - i);
    CopiedAt(e, 0, ks1, 32, 31 - i);
    CopiedAt(d, 32, ks2, 32, 30 - i);
    CopiedAt(d, 32, ks2, 32, 31 - i);
    PairsWritten(e, i + 32, d[62 - i], d[63 - i], i + 64, e[i], e[i + 1], 0, 32);
    PairsWritten(e, i + 32, d[62 - i], d[63 - i], i + 64, e[i], e[i + 1], 64, i + 64);
    PairsWritten(e, i + 32, d[62 - i], d[63 - i], i + 64, e[i], e[i + 1], 32, i + 32);
    CopiedKept(e, e', 0, ks1, 32);
    CopiedKept(e, e', 64, ks1, i);
    CopiedPair(e', 64, ks1, i);
    MirroredPair(e, e', 32, ks2, i);
    PairsWritten(d, i, e[30 - i], e[31 - i], i + 64, e[30 - i], e[31 - i], 32, 64);
    PairsWritten(d, i, e[30 - i], e[31 - i], i + 64, e[30 - i], e[31 - i], 0, i);
    PairsWritten(d, i, e[30 - i], e[31 - i], i + 64, e[30 - i], e[31 - i], 64, i + 64);
    CopiedKept(d, d', 32, ks2, 32);
    MirroredPair(d, d', 0, ks1, i);
    MirroredPair(d, d', 64, ks1, i);
  }

  lemma PartlyDone(e: seq<bv32>, d: seq<bv32>, ks1: seq<bv32>, ks2: seq<bv32>, ks3: seq<bv32>)
    requires |ks1| == |ks2| == |ks3| == 32 && Partly(e, d, ks1, ks2, ks3, 32, 32)
    ensures e == ks1 + Reversed(ks2) + ks3 && d == Reversed(ks3) + ks2 + Reversed(ks1)
  {
    hide Reversed, Mirrored;
    MirroredDone(d, 0, ks3);
    MirroredDone(e, 32, ks2);
    MirroredDone(d, 64, ks1);
    assert e == e[..32] + e[32..64] + e[64..] && d == d[..32] + d[32..64] + d[64..];
    assert e[..32] == ks1 && e[64..] == ks3 && d[32..64] == ks2;
  }

  // ---------- the laws of triple DES ----------

  /** Encrypt, decrypt, encrypt: the TDEA of FIPS 46-3.  The pass in the middle undoes encryption under the
      second key. */
  lemma EncryptDecryptEncrypt(sb: SBoxes, ks1: seq<bv32>, ks2: seq<bv32>, ks3: seq<bv32>, block: seq<bv8>)
    requires |ks1| == |ks2| == |ks3| == 32 && |block| == 8
    ensures Passes(sb, ks1 + Reversed(ks2) + ks3, block) ==
            Cipher(sb, ks3, Cipher(sb, Reversed(ks2), Cipher(sb, ks1, block)))
    ensures forall b | |b| == 8 ::
              Cipher(sb, Reversed(ks2), Cipher(sb, ks2, b)) == b && Cipher(sb, ks2, Cipher(sb, Reversed(ks2), b)) == b
  {
    hide Cipher, Reversed, Passes;
    ThreePasses(sb, ks1, Reversed(ks2), ks3, block);
    ReversedTwice(ks2);
    forall b | |b| == 8
      ensures Cipher(sb, Reversed(ks2), Cipher(sb, ks2, b)) == b && Cipher(sb, ks2, Cipher(sb, Reversed(ks2), b)) == b
    {
      CipherInverse(sb, ks2, b);
      CipherInverse(sb, Reversed(ks2), b);
    }
  }

  /** The schedule for decryption is the one for encryption with its 48 pairs reversed. */
  lemma SchedulesMirror(ks1: seq<bv32>, ks2: seq<bv32>, ks3: seq<bv32>)
    requires |ks1| == |ks2| == |ks3| == 32
    ensures Reversed(ks1 + Reversed(ks2) + ks3) == Reversed(ks3) + ks2 + Reversed(ks1)
  {
    hide Reversed;
    ReversedAppend(ks1 + Reversed(ks2), ks3);
    ReversedAppend(ks1, Reversed(ks2));
    ReversedTwice(ks2);
    assert Reversed(ks3) + (ks2 + Reversed(ks1)) == Reversed(ks3) + ks2 + Reversed(ks1);
  }

  /** Decryption undoes encryption, for every three keys and every block. */
  lemma TripleInverse(sb: SBoxes, ks1: seq<bv32>, ks2: seq<bv32>, ks3: seq<bv32>, block: seq<bv8>)
    requires |ks1| == |ks2| == |ks3| == 32 && |block| == 8
    ensures Passes(sb, Reversed(ks3) + ks2 + Reversed(ks1), Passes(sb, ks1 + Reversed(ks2) + ks3, block)) == block
  {
    hide Cipher, Reversed, Passes;
    var b1 := Cipher(sb, ks1, block);
    var b2 := Cipher(sb, Reversed(ks2), b1);
    var b3 := Cipher(sb, ks3, b2);
    ThreePasses(sb, ks1, Reversed(ks2), ks3, block);
    ThreePasses(sb, Reversed(ks3), ks2, Reversed(ks1), b3);
    CipherInverse(sb, ks3, b2);
    CipherInverse(sb, Reversed(ks2), b1);
    ReversedTwice(ks2);
    CipherInverse(sb, ks1, block);
  }

  /** With the same key three times, triple DES is DES. */
  lemma TripleWithOneKey(sb: SBoxes, ks: seq<bv32>, block: seq<bv8>)
    requires |ks| == 32 && |block| == 8
    ensures Passes(sb, ks + Reversed(ks) + ks, block) == Cipher(sb, ks, block)
  {
    hide Cipher, Reversed, Passes;
    ThreePasses(sb, ks, Reversed(ks), ks, block);
    CipherInverse(sb, ks, block);
  }

  /** `des3_set_3keys`, `des3_encrypt` and `des3_decrypt` together. */
  method EncryptAndDecrypt(sb: SBoxes, key: seq<bv8>, block: seq<bv8>)
    returns (encrypted: seq<bv8>, decrypted: seq<bv8>)
    requires |key| == 24 && |block| == 8
    ensures var ks1, ks2, ks3 := Subkeys(key[..8]), Subkeys(key[8..16]), Subkeys(key[16..]);
            encrypted == Cipher(sb, ks3, Cipher(sb, Reversed(ks2), Cipher(sb, ks1, block)))
    ensures decrypted == block
  {
    hide Cipher, Reversed, Passes, Subkeys;
    var ctx := new KeyContext(96);
    ctx.Set3Keys(key);
    ghost var ks1, ks2, ks3 := Subkeys(key[..8]), Subkeys(key[8..16]), Subkeys(key[16..]);
    encrypted := Des3Crypt(sb, ctx.esk[..], block);
    EncryptDecryptEncrypt(sb, ks1, ks2, ks3, block);
    decrypted := Des3Crypt(sb, ctx.dsk[..], encrypted);
    TripleInverse(sb, ks1, ks2, ks3, block);
  }
}
