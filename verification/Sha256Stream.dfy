/** SHA-256 over a message that arrives in pieces: a context with a partly filled block and a byte
    count in two words, against the padding and block chaining of FIPS 180-2. */
module Sha256Stream {
  import opened Arithmetic
  import opened Sequences
  import opened Words32
  import opened Sha256Block

  // ---------- the standard ----------

  /** The hash value after the whole 64-byte blocks of `data` (section 6.2.2). */
  function Chain(data: seq<bv8>): Words {
    if |data| < 64 then INITIAL
    else Compress(Chain(data[..|data| - 64]), data[|data| - 64..])
  }

  /** The number of zero bytes between the closing bit and the length: the smallest one that leaves
      eight bytes of a block for the length. */
  function ZeroBytes(n: nat): (k: nat)
    ensures k < 64 && (n + 1 + k) % 64 == 56
  {
    (55 - n % 64) % 64
  }

  /** No smaller number of zero bytes does (section 5.1.1). */
  lemma ZeroBytesLeast(n: nat, k: nat)
    requires (n + 1 + k) % 64 == 56
    ensures ZeroBytes(n) <= k
  {
  }

  function Byte(x: nat): bv8
    requires x < 256
  {
    x as bv8
  }

  function BigEndianBytes(x: nat, count: nat): (b: seq<bv8>)
    ensures |b| == count
  {
    if count == 0 then [] else BigEndianBytes(x / 256, count - 1) + [Byte(x % 256)]
  }

  function Zeros(k: nat): (z: seq<bv8>)
    ensures |z| == k
  {
    seq(k, _ => 0 as bv8)
  }

  /** The message with a one bit, zero bits and its length in bits appended (section 5.1.1). */
  function Padded(msg: seq<bv8>): seq<bv8> {
    msg + [0x80] + Zeros(ZeroBytes(|msg|)) + BigEndianBytes(8 * |msg|, 8)
  }

  function DigestBytes(h: Words): (b: seq<bv8>)
    ensures |b| == 32
  {
    WordBytes(h.a) + WordBytes(h.b) + WordBytes(h.c) + WordBytes(h.d) +
    WordBytes(h.e) + WordBytes(h.f) + WordBytes(h.g) + WordBytes(h.h)
  }

  function Sha256(msg: seq<bv8>): seq<bv8> {
    DigestBytes(Chain(Padded(msg)))
  }

  // ---------- blocks and pieces ----------

  function Whole(msg: seq<bv8>): seq<bv8> { msg[..|msg| - |msg| % 64] }
  function Tail(msg: seq<bv8>): seq<bv8> { msg[|msg| - |msg| % 64..] }

  lemma ChainStep(data: seq<bv8>, block: seq<bv8>)
    requires |block| == 64
    ensures Chain(data + block) == Compress(Chain(data), block)
  {
    hide Compress;
    assert (data + block)[..|data|] == data && (data + block)[|data|..] == block;
  }

  /** The low word of the count is enough to find the place in the block. */
  lemma PlaceInBlock(n: nat)
    ensures n % UINT32 % 64 == n % 64
  {
    var r := n % UINT32;
    assert n == 64 * (0x400_0000 * (n / UINT32) + r / 64) + r % 64;
    QuotientOf(n, 64, 0x400_0000 * (n / UINT32) + r / 64, r % 64);
  }

  /** Adding to the two-word count: the low word has wrapped just when it ends up below what was
      added to it. */
  lemma CountCarry(n: nat, length: nat)
    requires length < UINT32
    ensures (n + length) % UINT32 == (n % UINT32 + length) % UINT32
    ensures var carry := if (n % UINT32 + length) % UINT32 < length then 1 else 0;
            (n + length) / UINT32 % UINT32 == (n / UINT32 % UINT32 + carry) % UINT32
  {
    var q, r := n / UINT32, n % UINT32;
    var carry := if r + length < UINT32 then 0 else 1;
    QuotientOf(n + length, UINT32, q + carry, r + length - carry * UINT32);
    var q1, r1 := q / UINT32, q % UINT32;
    if r1 + carry < UINT32 {
      QuotientOf(q + carry, UINT32, q1, r1 + carry);
    } else {
      QuotientOf(q + carry, UINT32, q1 + 1, 0);
    }
  }

  // ---------- the program ----------

  /** `sha256_context`: the message so far is kept as its length, the hash value of its whole blocks
      and the bytes after them. */
  class Context {
    var total0: nat
    var total1: nat
    var state: Words
    const buffer: array<bv8>
    ghost var msg: seq<bv8>

    ghost predicate Valid()
      reads this, buffer
    {
      && buffer.Length == 64
      && total0 == |msg| % UINT32 && total1 == |msg| / UINT32 % UINT32
      && state == Chain(Whole(msg)) && buffer[..|msg| % 64] == Tail(msg)
    }

    /** `sha256_starts` */
    constructor ()
      ensures Valid() && msg == [] && fresh(buffer)
    {
      total0, total1 := 0, 0;
      state := INITIAL;
      buffer := new bv8[64];
      msg := [];
    }

    method CopyIn(at: nat, data: seq<bv8>)
      requires buffer.Length == 64 && at + |data| <= 64
      modifies buffer
      ensures buffer[..at] == old(buffer[..at]) && buffer[at..at + |data|] == data
    {
      forall i | 0 <= i < |data| {
        buffer[at + i] := data[i];
      }
    }

    /** The count of bytes, in two words with a carry. */
    method Count(length: nat)
      requires length < UINT32 && total0 == |msg| % UINT32 && total1 == |msg| / UINT32 % UINT32
      modifies this`total0, this`total1
      ensures total0 == (|msg| + length) % UINT32 && total1 == (|msg| + length) / UINT32 % UINT32
    {
      CountCarry(|msg|, length);
      total0 := (total0 + length) % UINT32;
      if total0 < length {
        total1 := (total1 + 1) % UINT32;
      }
    }

    /** The loop over the whole blocks of the input from `off` on, after the whole blocks of `done`. */
    method WholeBlocks(input: seq<bv8>, off: nat, ghost done: seq<bv8>) returns (end: nat)
      requires off <= |input| && state == Chain(done)
      modifies this`state
      ensures off <= end <= |input| < end + 64 && (end - off) % 64 == 0
      ensures state == Chain(done + input[off..end])
    {
      hide Compress, Chain;
      end := off;
      assert done + input[off..end] == done;
      while |input| - end >= 64
        invariant off <= end <= |input| && (end - off) % 64 == 0
        invariant state == Chain(done + input[off..end])
      {
        state := Process(state, input[end..end + 64]);
        ChainStep(done + input[off..end], input[end..end + 64]);
        assert done + input[off..end] + input[end..end + 64] == done + input[off..end + 64];
        end := end + 64;
      }
    }

    /** A started block that the input fills up is taken in. */
    method FillUp(input: seq<bv8>, left: nat)
      requires buffer.Length == 64 && left == |msg| % 64 && 64 - left <= |input|
      requires state == Chain(Whole(msg)) && buffer[..left] == Tail(msg)
      modifies this`state, buffer
      ensures state == Chain(msg + input[..64 - left])
    {
      hide Compress, Chain;
      var fill := 64 - left;
      CopyIn(left, input[..fill]);
      assert buffer[..] == Tail(msg) + input[..fill];
      state := Process(state, buffer[..]);
      ChainStep(Whole(msg), buffer[..]);
      assert Whole(msg) + buffer[..] == msg + input[..fill];
    }

    /** An input that does not fill a started block is kept there. */
    method AbsorbShort(input: seq<bv8>, left: nat)
      requires buffer.Length == 64 && left == |msg| % 64 && left + |input| < 64
      requires state == Chain(Whole(msg)) && buffer[..left] == Tail(msg)
      modifies this`state, buffer
      ensures var msg' := msg + input;
              state == Chain(Whole(msg')) && buffer[..|msg'| % 64] == Tail(msg')
    {
      hide Chain, Whole, Tail;
      CopyIn(left, input);
      ShortInput(msg, input);
      assert buffer[..left + |input|] == buffer[..left] + buffer[left..left + |input|];
    }

    /** Otherwise the block is filled up, the whole blocks of the input are taken in, and the rest of
        it is kept. */
    method AbsorbLong(input: seq<bv8>, left: nat)
      requires buffer.Length == 64 && left == |msg| % 64 && (left != 0 ==> 64 <= left + |input|)
      requires state == Chain(Whole(msg)) && buffer[..left] == Tail(msg)
      modifies this`state, buffer
      ensures var msg' := msg + input;
              state == Chain(Whole(msg')) && buffer[..|msg'| % 64] == Tail(msg')
    {
      hide Chain;
      var off := 0;
      assert left == 0 ==> Whole(msg) == msg + input[..0];
      if left != 0 {
        FillUp(input, left);
        off := 64 - left;
      }
      var end := WholeBlocks(input, off, msg + input[..off]);
      assert msg + input[..off] + input[off..end] == msg + input[..end];
      CopyIn(0, input[end..]);
      LongInput(msg, input, off, end);
    }

    /** `sha256_update` */
    method Update(input: seq<bv8>)
      requires Valid() && |input| < UINT32
      modifies this, buffer
      ensures Valid() && msg == old(msg) + input
    {
      hide Chain, Whole, Tail;
      if |input| == 0 {
        assert msg + input == msg;
        return;
      }
      PlaceInBlock(|msg|);
      var left := total0 % 64;
      Count(|input|);
      if left != 0 && left + |input| < 64 {
        AbsorbShort(input, left);
      } else {
        AbsorbLong(input, left);
      }
      msg := msg + input;
    }

    /** `sha256_finish`, for every message of less than 2^64 bits. */
    method Finish() returns (digest: seq<bv8>)
      requires Valid() && |msg| < 0x2000_0000_0000_0000
      modifies this, buffer
      ensures digest == Sha256(old(msg))
    {
      hide Chain, Whole, Tail, BigEndianBytes, DigestBytes, ZeroBytes, Padded, Zeros, HighWord, LowWord, WordOf, WordBytes;
      ghost var n := |msg|;
      var high := HighWord(WordOf(total0), WordOf(total1));
      var low := LowWord(WordOf(total0));
      var msglen := WordBytes(high) + WordBytes(low);
      LengthBytes(n, total0, total1);
      PlaceInBlock(n);
      var last := total0 % 64;
      var padn := if last < 56 then 56 - last else 120 - last;
      PaddingLength(n);
      Update([0x80] + Zeros(padn - 1));
      Update(msglen);
      PaddedInTwoPieces(old(msg), Zeros(padn - 1), msglen);
      PaddedIsWhole(old(msg));
      digest := DigestBytes(state);
    }
  }

  // ---------- the length in bits ----------

  /** The word that has this value. */
  function WordOf(t: nat): bv32
    requires t < UINT32
  {
    var b := BigEndianBytes(t, 4);
    BigEndian(b[0], b[1], b[2], b[3])
  }

  /** The words of the length in bits, from those of the length in bytes. */
  function HighWord(t0: bv32, t1: bv32): bv32 {
    (t0 >> 29) | (t1 << 3)
  }

  function LowWord(t0: bv32): bv32 {
    t0 << 3
  }

  /** A byte shifted up, filled from the top of the next. */
  function Joint(a: bv8, b: bv8): bv8 {
    (a << 3) | (b >> 5)
  }

  function Value(a: bv8): int { a as int }

  lemma ShiftedHigh(a: seq<bv8>, b: seq<bv8>)
    requires |a| == |b| == 4
    ensures WordBytes(HighWord(BigEndian(b[0], b[1], b[2], b[3]), BigEndian(a[0], a[1], a[2], a[3])))
              == [Joint(a[0], a[1]), Joint(a[1], a[2]), Joint(a[2], a[3]), Joint(a[3], b[0])]
  {
  }

  lemma ShiftedLow(b: seq<bv8>)
    requires |b| == 4
    ensures WordBytes(LowWord(BigEndian(b[0], b[1], b[2], b[3])))
              == [Joint(b[0], b[1]), Joint(b[1], b[2]), Joint(b[2], b[3]), Joint(b[3], 0)]
  {
  }

  lemma ValueOfByte(x: nat)
    requires x < 256
    ensures Value(Byte(x)) == x
  {
    ByteThereAndBack(x);
  }

  lemma ByteOfItsValue(a: bv8)
    ensures 0 <= Value(a) < 256 && a == Byte(Value(a))
  {
  }

  lemma ValueOfJoint(a: bv8, b: bv8)
    ensures Value(Joint(a, b)) == Value(a) * 8 % 256 + Value(b) / 32
  {
    ShiftedUp(a);
    ShiftedDown(b);
    Disjoint(a, b);
  }

  lemma ShiftedUp(a: bv8)
    ensures (a << 3) as int == a as int * 8 % 256
  {
  }

  lemma ShiftedDown(a: bv8)
    ensures (a >> 5) as int == a as int / 32
  {
  }

  lemma Disjoint(a: bv8, b: bv8)
    ensures ((a << 3) | (b >> 5)) as int == (a << 3) as int + (b >> 5) as int
  {
  }

  /** A digit shifted up, filled from the top of the next. */
  function JointDigit(x: nat, y: nat): nat {
    x * 8 % 256 + y / 32
  }

  lemma JointValue(x: nat, y: nat)
    requires x < 256 && y < 256
    ensures JointDigit(x, y) < 256 && Joint(Byte(x), Byte(y)) == Byte(JointDigit(x, y))
  {
    hide Byte, Joint, Value;
    ValueOfByte(x);
    ValueOfByte(y);
    ValueOfJoint(Byte(x), Byte(y));
    ByteOfItsValue(Joint(Byte(x), Byte(y)));
  }

  datatype Digits = Digits(d0: nat, d1: nat, d2: nat, d3: nat)

  predicate AreDigits(d: Digits) {
    d.d0 < 256 && d.d1 < 256 && d.d2 < 256 && d.d3 < 256
  }

  function Number(d: Digits): nat {
    ((d.d0 * 256 + d.d1) * 256 + d.d2) * 256 + d.d3
  }

  lemma DigitBytes(d: Digits)
    requires AreDigits(d)
    ensures Number(d) < UINT32 && BigEndianBytes(Number(d), 4) == [Byte(d.d0), Byte(d.d1), Byte(d.d2), Byte(d.d3)]
  {
    hide Byte;
    var n1 := d.d0 * 256 + d.d1;
    var n2 := n1 * 256 + d.d2;
    QuotientOf(n2 * 256 + d.d3, 256, n2, d.d3);
    QuotientOf(n2, 256, n1, d.d2);
    QuotientOf(n1, 256, d.d0, d.d1);
    QuotientOf(d.d0, 256, 0, d.d0);
    assert BigEndianBytes(d.d0, 1) == [] + [Byte(d.d0)];
    assert BigEndianBytes(n1, 2) == [Byte(d.d0), Byte(d.d1)];
    assert BigEndianBytes(n2, 3) == [Byte(d.d0), Byte(d.d1), Byte(d.d2)];
  }

  lemma DigitsOf(t: nat) returns (d: Digits)
    requires t < UINT32
    ensures AreDigits(d) && Number(d) == t
  {
    d := Digits(t / 256 / 256 / 256, t / 256 / 256 % 256, t / 256 % 256, t % 256);
  }

  lemma JointDigitIs(x: nat, y: nat, q: nat, r: nat)
    requires x == 32 * q + r && r < 32
    ensures JointDigit(x, y) == 8 * r + y / 32
  {
    QuotientOf(x * 8, 256, q, 8 * r);
  }

  function Shifted(d: Digits, fill: nat): Digits {
    Digits(JointDigit(d.d0, d.d1), JointDigit(d.d1, d.d2), JointDigit(d.d2, d.d3), JointDigit(d.d3, fill))
  }

  /** A number times eight, filled from the top of the next. */
  lemma ShiftedNumber(d: Digits, fill: nat)
    requires AreDigits(d) && fill < 256
    ensures AreDigits(Shifted(d, fill)) && Number(Shifted(d, fill)) == Number(d) * 8 % UINT32 + fill / 32
  {
    hide JointDigit;
    var q0, q1, q2, q3, q4 := d.d0 / 32, d.d1 / 32, d.d2 / 32, d.d3 / 32, fill / 32;
    var r0, r1, r2, r3 := d.d0 % 32, d.d1 % 32, d.d2 % 32, d.d3 % 32;
    JointDigitIs(d.d0, d.d1, q0, r0);
    JointDigitIs(d.d1, d.d2, q1, r1);
    JointDigitIs(d.d2, d.d3, q2, r2);
    JointDigitIs(d.d3, fill, q3, r3);
    EightTimes(d, q0, q1, q2, q3, r0, r1, r2, r3);
    var rest := Number(Digits(8 * r0 + q1, 8 * r1 + q2, 8 * r2 + q3, 8 * r3));
    QuotientOf(Number(d) * 8, UINT32, q0, rest);
  }

  lemma EightTimes(d: Digits, q0: nat, q1: nat, q2: nat, q3: nat, r0: nat, r1: nat, r2: nat, r3: nat)
    requires d == Digits(32 * q0 + r0, 32 * q1 + r1, 32 * q2 + r2, 32 * q3 + r3)
    requires q1 < 8 && q2 < 8 && q3 < 8 && r0 < 32 && r1 < 32 && r2 < 32 && r3 < 32
    ensures var rest := Number(Digits(8 * r0 + q1, 8 * r1 + q2, 8 * r2 + q3, 8 * r3));
            rest < UINT32 && Number(d) * 8 == UINT32 * q0 + rest
  {
  }

  lemma TopDigit(d: Digits)
    requires AreDigits(d)
    ensures d.d0 / 32 == Number(d) / 0x2000_0000
  {
    QuotientOf(Number(d), 0x2000_0000, d.d0 / 32, Number(d) - 0x2000_0000 * (d.d0 / 32));
  }

  lemma ShiftedBytesOf(d: Digits, fill: nat)
    requires AreDigits(d) && fill < 256
    ensures [Joint(Byte(d.d0), Byte(d.d1)), Joint(Byte(d.d1), Byte(d.d2)), Joint(Byte(d.d2), Byte(d.d3)), Joint(Byte(d.d3), Byte(fill))]
              == BigEndianBytes(Number(d) * 8 % UINT32 + fill / 32, 4)
  {
    hide Byte, Joint, BigEndianBytes, Number, JointDigit;
    JointValue(d.d0, d.d1);
    JointValue(d.d1, d.d2);
    JointValue(d.d2, d.d3);
    JointValue(d.d3, fill);
    ShiftedNumber(d, fill);
    DigitBytes(Shifted(d, fill));
  }

  /** The disjunction of the two shifted words is the high word of the length in bits, and the low word
      shifted its low word. */
  lemma ShiftedWords(t0: nat, t1: nat)
    requires t0 < UINT32 && t1 < UINT32
    ensures WordBytes(HighWord(WordOf(t0), WordOf(t1))) == BigEndianBytes(HighValue(t0, t1), 4)
    ensures WordBytes(LowWord(WordOf(t0))) == BigEndianBytes(LowValue(t0), 4)
  {
    hide Byte, Joint, BigEndianBytes, BigEndian, WordBytes, Number, HighWord, LowWord;
    var d0 := DigitsOf(t0);
    var d1 := DigitsOf(t1);
    DigitBytes(d0);
    DigitBytes(d1);
    ShiftedHigh(BigEndianBytes(t1, 4), BigEndianBytes(t0, 4));
    ShiftedLow(BigEndianBytes(t0, 4));
    ShiftedBytesOf(d1, d0.d0);
    ShiftedBytesOf(d0, 0);
    TopDigit(d0);
    ByteOfZero();
  }

  lemma ByteOfZero()
    ensures Byte(0) == 0
  {
  }

  /** So the two words written behind the padding are the length in bits of a message of `n` bytes. */
  lemma LengthBytes(n: nat, t0: nat, t1: nat)
    requires n < 0x2000_0000_0000_0000 && t0 == n % UINT32 && t1 == n / UINT32 % UINT32
    ensures WordBytes(HighWord(WordOf(t0), WordOf(t1))) + WordBytes(LowWord(WordOf(t0))) == BigEndianBytes(8 * n, 8)
  {
    hide BigEndianBytes, WordOf, WordBytes, HighWord, LowWord, HighValue, LowValue;
    ShiftedWords(t0, t1);
    LengthWords(n);
    TwoWords(8 * n, HighValue(t0, t1), LowValue(t0));
  }

  lemma TwoWords(x: nat, high: nat, low: nat)
    requires low < UINT32 && x == high * UINT32 + low
    ensures BigEndianBytes(x, 8) == BigEndianBytes(high, 4) + BigEndianBytes(low, 4)
  {
    assert Pow256(4) == UINT32;
    BytesSplit(high, low, 4, 4);
  }

  /** The values of the two words of the length in bits. */
  function HighValue(t0: nat, t1: nat): nat {
    t1 * 8 % UINT32 + t0 / 0x2000_0000
  }

  function LowValue(t0: nat): (v: nat)
    ensures v < UINT32
  {
    t0 * 8 % UINT32
  }

  /** The bit length in two words, from the byte count in two words. */
  lemma LengthWords(n: nat)
    requires n < 0x2000_0000_0000_0000
    ensures var t0, t1 := n % UINT32, n / UINT32 % UINT32; 8 * n == HighValue(t0, t1) * UINT32 + LowValue(t0)
  {
    var t0, t1 := n % UINT32, n / UINT32;
    QuotientOf(t1, UINT32, 0, t1);
    QuotientOf(t1 * 8, UINT32, 0, t1 * 8);
    QuotientOf(t0 * 8, UINT32, t0 / 0x2000_0000, t0 % 0x2000_0000 * 8);
  }

  function Pow256(k: nat): (p: nat)
    ensures p > 0
  {
    if k == 0 then 1 else 256 * Pow256(k - 1)
  }

  /** The bytes of a number are those of its high part before those of its low part. */
  lemma {:induction false} BytesSplit(high: nat, low: nat, a: nat, b: nat)
    requires low < Pow256(b)
    ensures BigEndianBytes(high * Pow256(b) + low, a + b) == BigEndianBytes(high, a) + BigEndianBytes(low, b)
  {
    hide Byte;
    if b > 0 {
      var x := high * Pow256(b) + low;
      var up := high * Pow256(b - 1) + low / 256;
      assert high * Pow256(b) == 256 * (high * Pow256(b - 1));
      assert x == 256 * up + low % 256;
      QuotientOf(x, 256, up, low % 256);
      BytesSplit(high, low / 256, a, b - 1);
    }
  }

  lemma PaddingLength(n: nat)
    ensures ZeroBytes(n) == (if n % 64 < 56 then 56 - n % 64 else 120 - n % 64) - 1
  {
  }

  lemma PaddedInTwoPieces(msg: seq<bv8>, zeros: seq<bv8>, length: seq<bv8>)
    requires zeros == Zeros(ZeroBytes(|msg|)) && length == BigEndianBytes(8 * |msg|, 8)
    ensures msg + ([0x80] + zeros) + length == Padded(msg)
  {
    hide ZeroBytes, BigEndianBytes, Zeros;
    assert msg + ([0x80] + zeros) == msg + [0x80] + zeros;
  }

  lemma PaddedIsWhole(msg: seq<bv8>)
    ensures |Padded(msg)| % 64 == 0 && Whole(Padded(msg)) == Padded(msg)
  {
    hide ZeroBytes, BigEndianBytes, Zeros;
    var n := |msg| + 1 + ZeroBytes(|msg|);
    assert |Padded(msg)| == n + 8;
    QuotientOf(n + 8, 64, n / 64 + 1, 0);
  }

  /** `sha256` */
  method HashOnce(input: seq<bv8>) returns (digest: seq<bv8>)
    requires |input| < UINT32
    ensures digest == Sha256(input)
  {
    var ctx := new Context();
    ctx.Update(input);
    assert [] + input == input;
    digest := ctx.Finish();
  }

  /** However a message is cut into calls of update, its digest is that of the whole message. */
  method HashPieces(pieces: seq<seq<bv8>>) returns (digest: seq<bv8>)
    requires forall i | 0 <= i < |pieces| :: |pieces[i]| < UINT32
    requires |Joined(pieces)| < 0x2000_0000_0000_0000
    ensures digest == Sha256(Joined(pieces))
  {
    hide Sha256, Chain, Whole, Tail;
    var ctx := new Context();
    for i := 0 to |pieces|
      invariant ctx.Valid() && fresh(ctx) && fresh(ctx.buffer) && ctx.msg == Joined(pieces[..i])
    {
      ctx.Update(pieces[i]);
      JoinedNext(pieces, i);
    }
    assert pieces[..|pieces|] == pieces;
    digest := ctx.Finish();
  }

  /** An input that does not fill the block only extends its tail. */
  lemma ShortInput(msg: seq<bv8>, input: seq<bv8>)
    requires |msg| % 64 + |input| < 64
    ensures |msg + input| % 64 == |msg| % 64 + |input|
    ensures Whole(msg + input) == Whole(msg) && Tail(msg + input) == Tail(msg) + input
  {
    QuotientOf(|msg| + |input|, 64, |msg| / 64, |msg| % 64 + |input|);
  }

  /** An input taken in whole blocks up to `end` leaves its rest as the tail. */
  lemma LongInput(msg: seq<bv8>, input: seq<bv8>, off: nat, end: nat)
    requires off <= end <= |input| < end + 64 && (|msg| + off) % 64 == 0 && (end - off) % 64 == 0
    ensures |msg + input| % 64 == |input| - end
    ensures Whole(msg + input) == msg + input[..end] && Tail(msg + input) == input[end..]
  {
    QuotientOf(|msg| + |input|, 64, (|msg| + off) / 64 + (end - off) / 64, |input| - end);
  }
}
