/** The compression function of SHA-256: the program's unrolled rounds, in which the registers
    stay where they are and their names rotate, against section 6.2.2 of FIPS 180-2. */
module Sha256Block {
  import opened Words32

  function OneOf(i: nat, k0: bv32, k1: bv32, k2: bv32, k3: bv32, k4: bv32, k5: bv32, k6: bv32, k7: bv32): bv32 {
    if i < 4 then if i == 0 then k0 else if i == 1 then k1 else if i == 2 then k2 else k3
    else if i == 4 then k4 else if i == 5 then k5 else if i == 6 then k6 else k7
  }

  /** The constant of round `t`. */
  function RoundConstant(t: nat): bv32
    requires t < 64
  {
    if t < 8 then
      OneOf(t, 0x428A_2F98, 0x7137_4491, 0xB5C0_FBCF, 0xE9B5_DBA5, 0x3956_C25B, 0x59F1_11F1, 0x923F_82A4, 0xAB1C_5ED5)
    else if t < 16 then
      OneOf(t - 8, 0xD807_AA98, 0x1283_5B01, 0x2431_85BE, 0x550C_7DC3, 0x72BE_5D74, 0x80DE_B1FE, 0x9BDC_06A7, 0xC19B_F174)
    else if t < 24 then
      OneOf(t - 16, 0xE49B_69C1, 0xEFBE_4786, 0x0FC1_9DC6, 0x240C_A1CC, 0x2DE9_2C6F, 0x4A74_84AA, 0x5CB0_A9DC, 0x76F9_88DA)
    else if t < 32 then
      OneOf(t - 24, 0x983E_5152, 0xA831_C66D, 0xB003_27C8, 0xBF59_7FC7, 0xC6E0_0BF3, 0xD5A7_9147, 0x06CA_6351, 0x1429_2967)
    else if t < 40 then
      OneOf(t - 32, 0x27B7_0A85, 0x2E1B_2138, 0x4D2C_6DFC, 0x5338_0D13, 0x650A_7354, 0x766A_0ABB, 0x81C2_C92E, 0x9272_2C85)
    else if t < 48 then
      OneOf(t - 40, 0xA2BF_E8A1, 0xA81A_664B, 0xC24B_8B70, 0xC76C_51A3, 0xD192_E819, 0xD699_0624, 0xF40E_3585, 0x106A_A070)
    else if t < 56 then
      OneOf(t - 48, 0x19A4_C116, 0x1E37_6C08, 0x2748_774C, 0x34B0_BCB5, 0x391C_0CB3, 0x4ED8_AA4A, 0x5B9C_CA4F, 0x682E_6FF3)
    else
      OneOf(t - 56, 0x748F_82EE, 0x78A5_636F, 0x84C8_7814, 0x8CC7_0208, 0x90BE_FFFA, 0xA450_6CEB, 0xBEF9_A3F7, 0xC671_78F2)
  }

  /** The eight working variables, and also the eight words of a hash value. */
  datatype Words = Words(a: bv32, b: bv32, c: bv32, d: bv32, e: bv32, f: bv32, g: bv32, h: bv32)

  const INITIAL: Words := Words(0x6A09_E667, 0xBB67_AE85, 0x3C6E_F372, 0xA54F_F53A,
                                0x510E_527F, 0x9B05_688C, 0x1F83_D9AB, 0x5BE0_CD19)

  // ---------- the functions of section 4.1.2 ----------

  function Rotr(x: bv32, n: bv8): bv32
    requires n <= 32
  {
    (x >> n) | (x << (32 - n))
  }

  function Ch(x: bv32, y: bv32, z: bv32): bv32 { (x & y) ^ (!x & z) }
  function Maj(x: bv32, y: bv32, z: bv32): bv32 { (x & y) ^ (x & z) ^ (y & z) }
  function Shr(x: bv32, n: bv8): bv32
    requires n <= 32
  {
    x >> n
  }

  function Sum3(x: bv32, y: bv32, z: bv32): bv32 { Xor(Xor(x, y), z) }
  function BigSigma0(x: bv32): bv32 { Sum3(Rotr(x, 2), Rotr(x, 13), Rotr(x, 22)) }
  function BigSigma1(x: bv32): bv32 { Sum3(Rotr(x, 6), Rotr(x, 11), Rotr(x, 25)) }
  function SmallSigma0(x: bv32): bv32 { Sum3(Rotr(x, 7), Rotr(x, 18), Shr(x, 3)) }
  function SmallSigma1(x: bv32): bv32 { Sum3(Rotr(x, 17), Rotr(x, 19), Shr(x, 10)) }

  /** Bit `i` of a word, counted from 0 at its end. */
  function Bit(x: bv32, i: bv8): bv32
    requires i < 32
  {
    (x >> i) & 1
  }

  lemma RotrBit2(x: bv32, i: bv8)
    requires i < 32
    ensures Bit(Rotr(x, 2), i) == Bit(x, (i + 2) % 32)
  {
  }

  lemma RotrBit6(x: bv32, i: bv8)
    requires i < 32
    ensures Bit(Rotr(x, 6), i) == Bit(x, (i + 6) % 32)
  {
  }

  lemma RotrBit7(x: bv32, i: bv8)
    requires i < 32
    ensures Bit(Rotr(x, 7), i) == Bit(x, (i + 7) % 32)
  {
  }

  lemma RotrBit11(x: bv32, i: bv8)
    requires i < 32
    ensures Bit(Rotr(x, 11), i) == Bit(x, (i + 11) % 32)
  {
  }

  lemma RotrBit13(x: bv32, i: bv8)
    requires i < 32
    ensures Bit(Rotr(x, 13), i) == Bit(x, (i + 13) % 32)
  {
  }

  lemma RotrBit17(x: bv32, i: bv8)
    requires i < 32
    ensures Bit(Rotr(x, 17), i) == Bit(x, (i + 17) % 32)
  {
  }

  lemma RotrBit18(x: bv32, i: bv8)
    requires i < 32
    ensures Bit(Rotr(x, 18), i) == Bit(x, (i + 18) % 32)
  {
  }

  lemma RotrBit19(x: bv32, i: bv8)
    requires i < 32
    ensures Bit(Rotr(x, 19), i) == Bit(x, (i + 19) % 32)
  {
  }

  lemma RotrBit22(x: bv32, i: bv8)
    requires i < 32
    ensures Bit(Rotr(x, 22), i) == Bit(x, (i + 22) % 32)
  {
  }

  lemma RotrBit25(x: bv32, i: bv8)
    requires i < 32
    ensures Bit(Rotr(x, 25), i) == Bit(x, (i + 25) % 32)
  {
  }

  lemma ShrBit3(x: bv32, i: bv8)
    requires i < 32
    ensures Bit(Shr(x, 3), i) == if i + 3 < 32 then Bit(x, i + 3) else 0
  {
  }

  lemma ShrBit10(x: bv32, i: bv8)
    requires i < 32
    ensures Bit(Shr(x, 10), i) == if i + 10 < 32 then Bit(x, i + 10) else 0
  {
  }

  lemma XorBit(x: bv32, y: bv32, i: bv8)
    requires i < 32
    ensures Bit(Xor(x, y), i) == Xor(Bit(x, i), Bit(y, i))
  {
  }

  lemma SumBit(x: bv32, y: bv32, z: bv32, i: bv8)
    requires i < 32
    ensures Bit(Sum3(x, y, z), i) == Sum3(Bit(x, i), Bit(y, i), Bit(z, i))
  {
    hide Bit, Xor;
    XorBit(x, y, i);
    XorBit(Xor(x, y), z, i);
  }

  /** Bit by bit, the four functions are sums of bits taken from further ahead, which come round again for
      a rotation and are zero behind the front of the word for a shift. */
  lemma BigSigmaBits(x: bv32, i: bv8)
    requires i < 32
    ensures Bit(BigSigma0(x), i) == Sum3(Bit(x, (i + 2) % 32), Bit(x, (i + 13) % 32), Bit(x, (i + 22) % 32))
    ensures Bit(BigSigma1(x), i) == Sum3(Bit(x, (i + 6) % 32), Bit(x, (i + 11) % 32), Bit(x, (i + 25) % 32))
  {
    hide Bit, Rotr, Sum3;
    SumBit(Rotr(x, 2), Rotr(x, 13), Rotr(x, 22), i);
    SumBit(Rotr(x, 6), Rotr(x, 11), Rotr(x, 25), i);
    RotrBit2(x, i);
    RotrBit13(x, i);
    RotrBit22(x, i);
    RotrBit6(x, i);
    RotrBit11(x, i);
    RotrBit25(x, i);
  }

  lemma SmallSigmaBits(x: bv32, i: bv8)
    requires i < 32
    ensures Bit(SmallSigma0(x), i)
              == Sum3(Bit(x, (i + 7) % 32), Bit(x, (i + 18) % 32), if i + 3 < 32 then Bit(x, i + 3) else 0)
    ensures Bit(SmallSigma1(x), i)
              == Sum3(Bit(x, (i + 17) % 32), Bit(x, (i + 19) % 32), if i + 10 < 32 then Bit(x, i + 10) else 0)
  {
    hide Bit, Rotr, Shr, Sum3;
    SumBit(Rotr(x, 7), Rotr(x, 18), Shr(x, 3), i);
    SumBit(Rotr(x, 17), Rotr(x, 19), Shr(x, 10), i);
    RotrBit7(x, i);
    RotrBit18(x, i);
    ShrBit3(x, i);
    RotrBit17(x, i);
    RotrBit19(x, i);
    ShrBit10(x, i);
  }

  // ---------- section 6.2.2 ----------

  function ScheduleWord(w2: bv32, w7: bv32, w15: bv32, w16: bv32): bv32 {
    Plus(Plus(Plus(SmallSigma1(w2), w7), SmallSigma0(w15)), w16)
  }

  /** Word `t` of the message schedule of the block `m`. */
  function Schedule(m: seq<bv32>, t: nat): bv32
    requires |m| == 16
  {
    if t < 16 then m[t]
    else ScheduleWord(Schedule(m, t - 2), Schedule(m, t - 7), Schedule(m, t - 15), Schedule(m, t - 16))
  }

  function Round(r: Words, w: bv32, k: bv32): Words {
    var t1 := Plus(Plus(Plus(Plus(r.h, BigSigma1(r.e)), Ch(r.e, r.f, r.g)), k), w);
    var t2 := Plus(BigSigma0(r.a), Maj(r.a, r.b, r.c));
    Words(Plus(t1, t2), r.a, r.b, r.c, Plus(r.d, t1), r.e, r.f, r.g)
  }

  function Rounds(h: Words, m: seq<bv32>, t: nat): Words
    requires |m| == 16 && t <= 64
  {
    if t == 0 then h else Round(Rounds(h, m, t - 1), Schedule(m, t - 1), RoundConstant(t - 1))
  }

  function AddWords(x: Words, y: Words): Words {
    Words(Plus(x.a, y.a), Plus(x.b, y.b), Plus(x.c, y.c), Plus(x.d, y.d),
          Plus(x.e, y.e), Plus(x.f, y.f), Plus(x.g, y.g), Plus(x.h, y.h))
  }

  function BlockWords(block: seq<bv8>): (m: seq<bv32>)
    requires |block| == 64
    ensures |m| == 16
  {
    seq(16, i requires 0 <= i < 16 => BigEndian(block[4 * i], block[4 * i + 1], block[4 * i + 2], block[4 * i + 3]))
  }

  /** The next hash value after `block`. */
  function Compress(h: Words, block: seq<bv8>): Words
    requires |block| == 64
  {
    AddWords(h, Rounds(h, BlockWords(block), 64))
  }

  // ---------- the program ----------

  lemma MajorityRewritten(x: bv32, y: bv32, z: bv32)
    ensures (x & y) | (z & (x | y)) == Maj(x, y, z)
  {
  }

  lemma ChoiceRewritten(x: bv32, y: bv32, z: bv32)
    ensures z ^ (x & (y ^ z)) == Ch(x, y, z)
  {
  }

  /** The macro P: one round, which changes only the registers `d` and `h`.  Reading the registers
      from `h` on is what the shift of all variables amounts to in section 6.2.2. */
  method RoundStep(a: bv32, b: bv32, c: bv32, d: bv32, e: bv32, f: bv32, g: bv32, h: bv32, x: bv32, k: bv32)
    returns (d': bv32, h': bv32)
    ensures Words(h', a, b, c, d', e, f, g) == Round(Words(a, b, c, d, e, f, g, h), x, k)
  {
    hide Plus, BigSigma0, BigSigma1, Ch, Maj;
    var temp1 := Plus(Plus(Plus(Plus(h, BigSigma1(e)), g ^ (e & (f ^ g))), k), x);
    var temp2 := Plus(BigSigma0(a), (a & b) | (c & (a | b)));
    ChoiceRewritten(e, f, g);
    MajorityRewritten(a, b, c);
    d' := Plus(d, temp1);
    h' := Plus(temp1, temp2);
  }

  /** The operand W[t], and for later rounds the macro R(t), which fills that place first. */
  method Fetch(w: array<bv32>, t: nat, ghost m: seq<bv32>) returns (x: bv32)
    requires w.Length == 64 && t < 64 && |m| == 16
    requires forall i | 0 <= i < t || 0 <= i < 16 :: w[i] == Schedule(m, i)
    modifies w
    ensures x == Schedule(m, t)
    ensures forall i | 0 <= i <= t || 0 <= i < 16 :: w[i] == Schedule(m, i)
  {
    hide ScheduleWord;
    if t >= 16 {
      w[t] := ScheduleWord(w[t - 2], w[t - 7], w[t - 15], w[t - 16]);
    }
    x := w[t];
  }

  /** The schedule is filled as far as `t` rounds need it. */
  ghost predicate Filled(w: array<bv32>, m: seq<bv32>, t: nat)
    requires |m| == 16
    reads w
  {
    w.Length == 64 && t <= 64 && forall i | 0 <= i < t || 0 <= i < 16 :: w[i] == Schedule(m, i)
  }

  /** Round `t` of the block `m`, on registers under their rotated names. */
  method ScheduledRound(a: bv32, b: bv32, c: bv32, d: bv32, e: bv32, f: bv32, g: bv32, h: bv32,
                        w: array<bv32>, t: nat, ghost h0: Words, ghost m: seq<bv32>)
    returns (d': bv32, h': bv32)
    requires t < 64 && |m| == 16 && Filled(w, m, t) && Words(a, b, c, d, e, f, g, h) == Rounds(h0, m, t)
    modifies w
    ensures Filled(w, m, t + 1) && Words(h', a, b, c, d', e, f, g) == Rounds(h0, m, t + 1)
  {
    hide Round, Schedule;
    var x := Fetch(w, t, m);
    d', h' := RoundStep(a, b, c, d, e, f, g, h, x, RoundConstant(t));
  }

  /** Eight rounds, after which every register has its first name again. */
  method EightRounds(r: Words, w: array<bv32>, t: nat, ghost h0: Words, ghost m: seq<bv32>) returns (r': Words)
    requires t <= 56 && |m| == 16 && Filled(w, m, t) && r == Rounds(h0, m, t)
    modifies w
    ensures r' == Rounds(h0, m, t + 8) && Filled(w, m, t + 8)
  {
    hide Rounds, Filled;
    var Words(a, b, c, d, e, f, g, h) := r;
    d, h := ScheduledRound(a, b, c, d, e, f, g, h, w, t, h0, m);
    c, g := ScheduledRound(h, a, b, c, d, e, f, g, w, t + 1, h0, m);
    b, f := ScheduledRound(g, h, a, b, c, d, e, f, w, t + 2, h0, m);
    a, e := ScheduledRound(f, g, h, a, b, c, d, e, w, t + 3, h0, m);
    h, d := ScheduledRound(e, f, g, h, a, b, c, d, w, t + 4, h0, m);
    g, c := ScheduledRound(d, e, f, g, h, a, b, c, w, t + 5, h0, m);
    f, b := ScheduledRound(c, d, e, f, g, h, a, b, w, t + 6, h0, m);
    e, a := ScheduledRound(b, c, d, e, f, g, h, a, w, t + 7, h0, m);
    r' := Words(a, b, c, d, e, f, g, h);
  }

  /** The sixteen words of the block, read in network order. */
  method LoadBlock(block: seq<bv8>) returns (w: array<bv32>)
    requires |block| == 64
    ensures fresh(w) && Filled(w, BlockWords(block), 0)
  {
    hide BigEndian;
    w := new bv32[64];
    for i := 0 to 16
      invariant forall j | 0 <= j < i :: w[j] == BlockWords(block)[j]
    {
      w[i] := BigEndian(block[4 * i], block[4 * i + 1], block[4 * i + 2], block[4 * i + 3]);
    }
  }

  lemma NoRounds(h: Words, m: seq<bv32>)
    requires |m| == 16
    ensures Rounds(h, m, 0) == h
  {
  }

  /** `sha256_process` */
  method Process(state: Words, block: seq<bv8>) returns (state': Words)
    requires |block| == 64
    ensures state' == Compress(state, block)
  {
    hide Rounds, Filled, BlockWords, AddWords;
    ghost var m := BlockWords(block);
    NoRounds(state, m);
    var w := LoadBlock(block);
    var r := EightRounds(state, w, 0, state, m);
    r := EightRounds(r, w, 8, state, m);
    r := EightRounds(r, w, 16, state, m);
    r := EightRounds(r, w, 24, state, m);
    r := EightRounds(r, w, 32, state, m);
    r := EightRounds(r, w, 40, state, m);
    r := EightRounds(r, w, 48, state, m);
    r := EightRounds(r, w, 56, state, m);
    state' := AddWords(state, r);
  }
}
