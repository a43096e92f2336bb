/** 32-bit words: addition, and the four bytes of a word in either order. */
module Words32 {

  /** Addition and subtraction modulo 2^32. */
  function Plus(x: bv32, y: bv32): bv32 { x + y }
  function Minus(x: bv32, y: bv32): bv32 { x - y }
  function Xor(x: bv32, y: bv32): bv32 { x ^ y }

  // The lemmas about native addition are kept apart from the ones that open the functions.

  lemma PlusIs(x: bv32, y: bv32)
    ensures Plus(x, y) == x + y && Minus(x, y) == x - y
  {
  }

  lemma NativePlusMinus(x: bv32, y: bv32)
    ensures Minus(x + y, y) == x && Plus(x - y, y) == x
  {
  }

  lemma PlusMinus(x: bv32, y: bv32)
    ensures Minus(Plus(x, y), y) == x && Plus(Minus(x, y), y) == x
  {
    hide Plus, Minus;
    PlusIs(x, y);
    NativePlusMinus(x, y);
  }

  lemma PlusAssociative(x: bv32, y: bv32, z: bv32)
    ensures Plus(Plus(x, y), z) == Plus(x, Plus(y, z))
  {
    assert x + y + z == x + (y + z);
    assert Plus(x + y, z) == x + y + z && Plus(x, y + z) == x + (y + z);
  }

  lemma PlusCommutative(x: bv32, y: bv32)
    ensures Plus(x, y) == Plus(y, x)
  {
    assert x + y == y + x;
  }

  lemma XorTwice(x: bv32, y: bv32)
    ensures Xor(Xor(x, y), y) == x
  {
  }

  lemma XorAssociative(x: bv32, y: bv32, z: bv32)
    ensures Xor(Xor(x, y), z) == Xor(x, Xor(y, z))
  {
  }

  function BigEndian(b0: bv8, b1: bv8, b2: bv8, b3: bv8): bv32 {
    ((b0 as bv32) << 24) | ((b1 as bv32) << 16) | ((b2 as bv32) << 8) | (b3 as bv32)
  }

  function WordBytes(w: bv32): (b: seq<bv8>)
    ensures |b| == 4
  {
    [(w >> 24) as bv8, ((w >> 16) & 0xFF) as bv8, ((w >> 8) & 0xFF) as bv8, (w & 0xFF) as bv8]
  }

  lemma WordFromBytes(w: bv32)
    ensures var b := WordBytes(w); BigEndian(b[0], b[1], b[2], b[3]) == w
  {
  }

  lemma BytesFromWord(b0: bv8, b1: bv8, b2: bv8, b3: bv8)
    ensures WordBytes(BigEndian(b0, b1, b2, b3)) == [b0, b1, b2, b3]
  {
  }

  function LittleEndian(b0: bv8, b1: bv8, b2: bv8, b3: bv8): bv32 {
    (b0 as bv32) | ((b1 as bv32) << 8) | ((b2 as bv32) << 16) | ((b3 as bv32) << 24)
  }

  // ---------- bytes as numbers ----------

  lemma NextByte(a: bv8)
    requires a != 255
    ensures (a + 1) as int == a as int + 1
  {
  }

  lemma ByteOfValue(a: bv8)
    ensures a as int as bv8 == a
  {
  }

  lemma {:induction false} ByteThereAndBack(x: nat)
    requires x < 256
    ensures x as bv8 as int == x
  {
    if x > 0 {
      ByteThereAndBack(x - 1);
      var a := (x - 1) as bv8;
      NextByte(a);
      ByteOfValue(a + 1);
    }
  }
}
