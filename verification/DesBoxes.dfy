/** The S-boxes: the tables of the program, in which the permutation P and a rotation by one place are
    already done, and those of FIPS 46-3.  With them nothing of the standard is left open. */
module DesBoxes {
  import opened Words32
  import opened DesBits
  import opened DesKeys
  import opened Des
  import opened DesStandard

  // ---------- the tables of the program ----------

  function Of8(x: bv6, a0: bv32, a1: bv32, a2: bv32, a3: bv32, a4: bv32, a5: bv32, a6: bv32, a7: bv32): bv32 {
    var low := x & 7;
    if low < 4 then if low < 2 then (if low == 0 then a0 else a1) else if low == 2 then a2 else a3
    else if low < 6 then (if low == 4 then a4 else a5) else if low == 6 then a6 else a7
  }

  function Table1(x: bv6): bv32 {
    if x < 8 then Of8(x, 0x01010400, 0x00000000, 0x00010000, 0x01010404, 0x01010004, 0x00010404, 0x00000004, 0x00010000)
    else if x < 16 then Of8(x, 0x00000400, 0x01010400, 0x01010404, 0x00000400, 0x01000404, 0x01010004, 0x01000000, 0x00000004)
    else if x < 24 then Of8(x, 0x00000404, 0x01000400, 0x01000400, 0x00010400, 0x00010400, 0x01010000, 0x01010000, 0x01000404)
    else if x < 32 then Of8(x, 0x00010004, 0x01000004, 0x01000004, 0x00010004, 0x00000000, 0x00000404, 0x00010404, 0x01000000)
    else if x < 40 then Of8(x, 0x00010000, 0x01010404, 0x00000004, 0x01010000, 0x01010400, 0x01000000, 0x01000000, 0x00000400)
    else if x < 48 then Of8(x, 0x01010004, 0x00010000, 0x00010400, 0x01000004, 0x00000400, 0x00000004, 0x01000404, 0x00010404)
    else if x < 56 then Of8(x, 0x01010404, 0x00010004, 0x01010000, 0x01000404, 0x01000004, 0x00000404, 0x00010404, 0x01010400)
    else Of8(x, 0x00000404, 0x01000400, 0x01000400, 0x00000000, 0x00010004, 0x00010400, 0x00000000, 0x01010004)
  }

  function Table2(x: bv6): bv32 {
    if x < 8 then Of8(x, 0x80108020, 0x80008000, 0x00008000, 0x00108020, 0x00100000, 0x00000020, 0x80100020, 0x80008020)
    else if x < 16 then Of8(x, 0x80000020, 0x80108020, 0x80108000, 0x80000000, 0x80008000, 0x00100000, 0x00000020, 0x80100020)
    else if x < 24 then Of8(x, 0x00108000, 0x00100020, 0x80008020, 0x00000000, 0x80000000, 0x00008000, 0x00108020, 0x80100000)
    else if x < 32 then Of8(x, 0x00100020, 0x80000020, 0x00000000, 0x00108000, 0x00008020, 0x80108000, 0x80100000, 0x00008020)
    else if x < 40 then Of8(x, 0x00000000, 0x00108020, 0x80100020, 0x00100000, 0x80008020, 0x80100000, 0x80108000, 0x00008000)
    else if x < 48 then Of8(x, 0x80100000, 0x80008000, 0x00000020, 0x80108020, 0x00108020, 0x00000020, 0x00008000, 0x80000000)
    else if x < 56 then Of8(x, 0x00008020, 0x80108000, 0x00100000, 0x80000020, 0x00100020, 0x80008020, 0x80000020, 0x00100020)
    else Of8(x, 0x00108000, 0x00000000, 0x80008000, 0x00008020, 0x80000000, 0x80100020, 0x80108020, 0x00108000)
  }

  function Table3(x: bv6): bv32 {
    if x < 8 then Of8(x, 0x00000208, 0x08020200, 0x00000000, 0x08020008, 0x08000200, 0x00000000, 0x00020208, 0x08000200)
    else if x < 16 then Of8(x, 0x00020008, 0x08000008, 0x08000008, 0x00020000, 0x08020208, 0x00020008, 0x08020000, 0x00000208)
    else if x < 24 then Of8(x, 0x08000000, 0x00000008, 0x08020200, 0x00000200, 0x00020200, 0x08020000, 0x08020008, 0x00020208)
    else if x < 32 then Of8(x, 0x08000208, 0x00020200, 0x00020000, 0x08000208, 0x00000008, 0x08020208, 0x00000200, 0x08000000)
    else if x < 40 then Of8(x, 0x08020200, 0x08000000, 0x00020008, 0x00000208, 0x00020000, 0x08020200, 0x08000200, 0x00000000)
    else if x < 48 then Of8(x, 0x00000200, 0x00020008, 0x08020208, 0x08000200, 0x08000008, 0x00000200, 0x00000000, 0x08020008)
    else if x < 56 then Of8(x, 0x08000208, 0x00020000, 0x08000000, 0x08020208, 0x00000008, 0x00020208, 0x00020200, 0x08000008)
    else Of8(x, 0x08020000, 0x08000208, 0x00000208, 0x08020000, 0x00020208, 0x00000008, 0x08020008, 0x00020200)
  }

  function Table4(x: bv6): bv32 {
    if x < 8 then Of8(x, 0x00802001, 0x00002081, 0x00002081, 0x00000080, 0x00802080, 0x00800081, 0x00800001, 0x00002001)
    else if x < 16 then Of8(x, 0x00000000, 0x00802000, 0x00802000, 0x00802081, 0x00000081, 0x00000000, 0x00800080, 0x00800001)
    else if x < 24 then Of8(x, 0x00000001, 0x00002000, 0x00800000, 0x00802001, 0x00000080, 0x00800000, 0x00002001, 0x00002080)
    else if x < 32 then Of8(x, 0x00800081, 0x00000001, 0x00002080, 0x00800080, 0x00002000, 0x00802080, 0x00802081, 0x00000081)
    else if x < 40 then Of8(x, 0x00800080, 0x00800001, 0x00802000, 0x00802081, 0x00000081, 0x00000000, 0x00000000, 0x00802000)
    else if x < 48 then Of8(x, 0x00002080, 0x00800080, 0x00800081, 0x00000001, 0x00802001, 0x00002081, 0x00002081, 0x00000080)
    else if x < 56 then Of8(x, 0x00802081, 0x00000081, 0x00000001, 0x00002000, 0x00800001, 0x00002001, 0x00802080, 0x00800081)
    else Of8(x, 0x00002001, 0x00002080, 0x00800000, 0x00802001, 0x00000080, 0x00800000, 0x00002000, 0x00802080)
  }

  function Table5(x: bv6): bv32 {
    if x < 8 then Of8(x, 0x00000100, 0x02080100, 0x02080000, 0x42000100, 0x00080000, 0x00000100, 0x40000000, 0x02080000)
    else if x < 16 then Of8(x, 0x40080100, 0x00080000, 0x02000100, 0x40080100, 0x42000100, 0x42080000, 0x00080100, 0x40000000)
    else if x < 24 then Of8(x, 0x02000000, 0x40080000, 0x40080000, 0x00000000, 0x40000100, 0x42080100, 0x42080100, 0x02000100)
    else if x < 32 then Of8(x, 0x42080000, 0x40000100, 0x00000000, 0x42000000, 0x02080100, 0x02000000, 0x42000000, 0x00080100)
    else if x < 40 then Of8(x, 0x00080000, 0x42000100, 0x00000100, 0x02000000, 0x40000000, 0x02080000, 0x42000100, 0x40080100)
    else if x < 48 then Of8(x, 0x02000100, 0x40000000, 0x42080000, 0x02080100, 0x40080100, 0x00000100, 0x02000000, 0x42080000)
    else if x < 56 then Of8(x, 0x42080100, 0x00080100, 0x42000000, 0x42080100, 0x02080000, 0x00000000, 0x40080000, 0x42000000)
    else Of8(x, 0x00080100, 0x02000100, 0x40000100, 0x00080000, 0x00000000, 0x40080000, 0x02080100, 0x40000100)
  }

  function Table6(x: bv6): bv32 {
    if x < 8 then Of8(x, 0x20000010, 0x20400000, 0x00004000, 0x20404010, 0x20400000, 0x00000010, 0x20404010, 0x00400000)
    else if x < 16 then Of8(x, 0x20004000, 0x00404010, 0x00400000, 0x20000010, 0x00400010, 0x20004000, 0x20000000, 0x00004010)
    else if x < 24 then Of8(x, 0x00000000, 0x00400010, 0x20004010, 0x00004000, 0x00404000, 0x20004010, 0x00000010, 0x20400010)
    else if x < 32 then Of8(x, 0x20400010, 0x00000000, 0x00404010, 0x20404000, 0x00004010, 0x00404000, 0x20404000, 0x20000000)
    else if x < 40 then Of8(x, 0x20004000, 0x00000010, 0x20400010, 0x00404000, 0x20404010, 0x00400000, 0x00004010, 0x20000010)
    else if x < 48 then Of8(x, 0x00400000, 0x20004000, 0x20000000, 0x00004010, 0x20000010, 0x20404010, 0x00404000, 0x20400000)
    else if x < 56 then Of8(x, 0x00404010, 0x20404000, 0x00000000, 0x20400010, 0x00000010, 0x00004000, 0x20400000, 0x00404010)
    else Of8(x, 0x00004000, 0x00400010, 0x20004010, 0x00000000, 0x20404000, 0x20000000, 0x00400010, 0x20004010)
  }

  function Table7(x: bv6): bv32 {
    if x < 8 then Of8(x, 0x00200000, 0x04200002, 0x04000802, 0x00000000, 0x00000800, 0x04000802, 0x00200802, 0x04200800)
    else if x < 16 then Of8(x, 0x04200802, 0x00200000, 0x00000000, 0x04000002, 0x00000002, 0x04000000, 0x04200002, 0x00000802)
    else if x < 24 then Of8(x, 0x04000800, 0x00200802, 0x00200002, 0x04000800, 0x04000002, 0x04200000, 0x04200800, 0x00200002)
    else if x < 32 then Of8(x, 0x04200000, 0x00000800, 0x00000802, 0x04200802, 0x00200800, 0x00000002, 0x04000000, 0x00200800)
    else if x < 40 then Of8(x, 0x04000000, 0x00200800, 0x00200000, 0x04000802, 0x04000802, 0x04200002, 0x04200002, 0x00000002)
    else if x < 48 then Of8(x, 0x00200002, 0x04000000, 0x04000800, 0x00200000, 0x04200800, 0x00000802, 0x00200802, 0x04200800)
    else if x < 56 then Of8(x, 0x00000802, 0x04000002, 0x04200802, 0x04200000, 0x00200800, 0x00000000, 0x00000002, 0x04200802)
    else Of8(x, 0x00000000, 0x00200802, 0x04200000, 0x00000800, 0x04000002, 0x04000800, 0x00000800, 0x00200002)
  }

  function Table8(x: bv6): bv32 {
    if x < 8 then Of8(x, 0x10001040, 0x00001000, 0x00040000, 0x10041040, 0x10000000, 0x10001040, 0x00000040, 0x10000000)
    else if x < 16 then Of8(x, 0x00040040, 0x10040000, 0x10041040, 0x00041000, 0x10041000, 0x00041040, 0x00001000, 0x00000040)
    else if x < 24 then Of8(x, 0x10040000, 0x10000040, 0x10001000, 0x00001040, 0x00041000, 0x00040040, 0x10040040, 0x10041000)
    else if x < 32 then Of8(x, 0x00001040, 0x00000000, 0x00000000, 0x10040040, 0x10000040, 0x10001000, 0x00041040, 0x00040000)
    else if x < 40 then Of8(x, 0x00041040, 0x00040000, 0x10041000, 0x00001000, 0x00000040, 0x10040040, 0x00001000, 0x00041040)
    else if x < 48 then Of8(x, 0x10001000, 0x00000040, 0x10000040, 0x10040000, 0x10040040, 0x10000000, 0x00040000, 0x10001040)
    else if x < 56 then Of8(x, 0x00000000, 0x10041040, 0x00040040, 0x10000040, 0x10040000, 0x10001000, 0x10001040, 0x00000000)
    else Of8(x, 0x10041040, 0x00041000, 0x00041000, 0x00001040, 0x00001040, 0x00040040, 0x10000000, 0x10041000)
  }

  const BOXES := SBoxes(Table1, Table2, Table3, Table4, Table5, Table6, Table7, Table8)

  // ---------- the tables of the standard ----------

  /** The entry of an S-box for six bits: the outer two choose the row and the inner four the column.  A
      row is written as one number, an entry being one hexadecimal digit. */
  function Entry(row0: bv64, row1: bv64, row2: bv64, row3: bv64, x: bv6): (s: bv32)
    ensures s < 16
  {
    var row := if x & 0x21 == 0 then row0 else if x & 0x21 == 1 then row1 else if x & 0x21 == 0x20 then row2 else row3;
    var column := ((x >> 1) & 0xF) as bv8;
    ((row >> (60 - 4 * column)) & 0xF) as bv32
  }

  function S1(x: bv6): (s: bv32)
    ensures s < 16
  {
    Entry(0xE4D1_2FB8_3A6C_5907, 0x0F74_E2D1_A6CB_9538,
          0x41E8_D62B_FC97_3A50, 0xFC82_4917_5B3E_A06D, x)
  }

  function S2(x: bv6): (s: bv32)
    ensures s < 16
  {
    Entry(0xF18E_6B34_972D_C05A, 0x3D47_F28E_C01A_69B5,
          0x0E7B_A4D1_58C6_932F, 0xD8A1_3F42_B67C_05E9, x)
  }

  function S3(x: bv6): (s: bv32)
    ensures s < 16
  {
    Entry(0xA09E_63F5_1DC7_B428, 0xD709_346A_285E_CBF1,
          0xD649_8F30_B12C_5AE7, 0x1AD0_6987_4FE3_B52C, x)
  }

  function S4(x: bv6): (s: bv32)
    ensures s < 16
  {
    Entry(0x7DE3_069A_1285_BC4F, 0xD8B5_6F03_472C_1AE9,
          0xA690_CB7D_F13E_5284, 0x3F06_A1D8_945B_C72E, x)
  }

  function S5(x: bv6): (s: bv32)
    ensures s < 16
  {
    Entry(0x2C41_7AB6_853F_D0E9, 0xEB2C_47D1_50FA_3986,
          0x421B_AD78_F9C5_630E, 0xB8C7_1E2D_6F09_A453, x)
  }

  function S6(x: bv6): (s: bv32)
    ensures s < 16
  {
    Entry(0xC1AF_9268_0D34_E75B, 0xAF42_7C95_61DE_0B38,
          0x9EF5_28C3_704A_1DB6, 0x432C_95FA_BE17_608D, x)
  }

  function S7(x: bv6): (s: bv32)
    ensures s < 16
  {
    Entry(0x4B2E_F08D_3C97_5A61, 0xD0B7_491A_E35C_2F86,
          0x14BD_C37E_AF68_0592, 0x6BD8_14A7_950F_E23C, x)
  }

  function S8(x: bv6): (s: bv32)
    ensures s < 16
  {
    Entry(0xD284_6FB1_A93E_50C7, 0x1FD8_A374_C56B_0E92,
          0x7B41_9CE2_06AD_F358, 0x21E7_4A8D_FC90_356B, x)
  }

  function Row4(w: bv32, a: bv8, b: bv8, c: bv8, d: bv8): bv32
    requires 1 <= a <= 32 && 1 <= b <= 32 && 1 <= c <= 32 && 1 <= d <= 32
  {
    (HalfBit(w, a) << 3) | (HalfBit(w, b) << 2) | (HalfBit(w, c) << 1) | HalfBit(w, d)
  }

  function EightDigits(s1: bv32, s2: bv32, s3: bv32, s4: bv32, s5: bv32, s6: bv32, s7: bv32, s8: bv32): bv32 {
    (s1 << 28) | (s2 << 24) | (s3 << 20) | (s4 << 16) | (s5 << 12) | (s6 << 8) | (s7 << 4) | s8
  }

  /** The table P. */
  function P(w: bv32): bv32 {
    EightDigits(Row4(w, 16, 7, 20, 21),
                Row4(w, 29, 12, 28, 17),
                Row4(w, 1, 15, 23, 26),
                Row4(w, 5, 18, 31, 10),
                Row4(w, 2, 8, 24, 14),
                Row4(w, 32, 27, 3, 9),
                Row4(w, 19, 13, 30, 6),
                Row4(w, 22, 11, 4, 25))
  }

  /** The function f of a half and of the key in that round. */
  function CipherFunction(r: bv32, c: bv32, d: bv32): bv32 {
    P(EightDigits(S1(Input(Expanded1(r), Choice1(c))),
                  S2(Input(Expanded2(r), Choice2(c))),
                  S3(Input(Expanded3(r), Choice3(c))),
                  S4(Input(Expanded4(r), Choice4(c))),
                  S5(Input(Expanded5(r), Choice5(d))),
                  S6(Input(Expanded6(r), Choice6(d))),
                  S7(Input(Expanded7(r), Choice7(d))),
                  S8(Input(Expanded8(r), Choice8(d)))))
  }

  function Fips46Rounds(lr: Halves, cd0: Halves, i: nat): Halves
    requires i <= 16
    decreases 16 - i
  {
    if i == 16 then lr else
      var cd := KeyHalves(cd0, i + 1);
      Fips46Rounds(Halves(lr.y, Xor(lr.x, CipherFunction(lr.y, cd.x, cd.y))), cd0, i + 1)
  }

  /** DES. */
  function Fips46(key: seq<bv8>, block: seq<bv8>): (r: seq<bv8>)
    requires |key| == |block| == 8
    ensures |r| == 8
  {
    var h, k := Load(block), Load(key);
    var lr := Fips46Rounds(Halves(TableLeft(h), TableRight(h)), Halves(TableC(k), TableD(k)), 0);
    Store(InverseTable(Swap(lr)))
  }

  // ---------- the tables against each other ----------

  lemma Table1Is(x: bv6)
    ensures Table1(x) == RotateLeft(P(S1(x) << 28))
  {
  }

  lemma Table2Is(x: bv6)
    ensures Table2(x) == RotateLeft(P(S2(x) << 24))
  {
  }

  lemma Table3Is(x: bv6)
    ensures Table3(x) == RotateLeft(P(S3(x) << 20))
  {
  }

  lemma Table4Is(x: bv6)
    ensures Table4(x) == RotateLeft(P(S4(x) << 16))
  {
  }

  lemma Table5Is(x: bv6)
    ensures Table5(x) == RotateLeft(P(S5(x) << 12))
  {
  }

  lemma Table6Is(x: bv6)
    ensures Table6(x) == RotateLeft(P(S6(x) << 8))
  {
  }

  lemma Table7Is(x: bv6)
    ensures Table7(x) == RotateLeft(P(S7(x) << 4))
  {
  }

  lemma Table8Is(x: bv6)
    ensures Table8(x) == RotateLeft(P(S8(x)))
  {
  }

  lemma PDistributes(s1: bv32, s2: bv32, s3: bv32, s4: bv32, s5: bv32, s6: bv32, s7: bv32, s8: bv32)
    requires s1 < 16 && s2 < 16 && s3 < 16 && s4 < 16 && s5 < 16 && s6 < 16 && s7 < 16 && s8 < 16
    ensures P(EightDigits(s1, s2, s3, s4, s5, s6, s7, s8))
              == RotateRight(Eight(RotateLeft(P(s1 << 28)), RotateLeft(P(s2 << 24)), RotateLeft(P(s3 << 20)),
                                   RotateLeft(P(s4 << 16)), RotateLeft(P(s5 << 12)), RotateLeft(P(s6 << 8)),
                                   RotateLeft(P(s7 << 4)), RotateLeft(P(s8))))
  {
  }

  /** What the program looks up and combines in a round is the function f. */
  lemma FIsCipherFunction(r: bv32, c: bv32, d: bv32)
    ensures RotateRight(F(BOXES, r, c, d)) == CipherFunction(r, c, d)
  {
    hide Input, RotateLeft, RotateRight, Eight, EightDigits, P, S1, S2, S3, S4, S5, S6, S7, S8;
    hide Table1, Table2, Table3, Table4, Table5, Table6, Table7, Table8;
    hide Choice1, Choice2, Choice3, Choice4, Choice5, Choice6, Choice7, Choice8;
    hide Expanded1, Expanded2, Expanded3, Expanded4, Expanded5, Expanded6, Expanded7, Expanded8;
    var x1, x2 := Input(Expanded1(r), Choice1(c)), Input(Expanded2(r), Choice2(c));
    var x3, x4 := Input(Expanded3(r), Choice3(c)), Input(Expanded4(r), Choice4(c));
    var x5, x6 := Input(Expanded5(r), Choice5(d)), Input(Expanded6(r), Choice6(d));
    var x7, x8 := Input(Expanded7(r), Choice7(d)), Input(Expanded8(r), Choice8(d));
    Table1Is(x1);
    Table2Is(x2);
    Table3Is(x3);
    Table4Is(x4);
    Table5Is(x5);
    Table6Is(x6);
    Table7Is(x7);
    Table8Is(x8);
    PDistributes(S1(x1), S2(x2), S3(x3), S4(x4), S5(x5), S6(x6), S7(x7), S8(x8));
  }

  lemma {:induction false} RoundsAreFips46(lr: Halves, cd0: Halves, i: nat)
    requires i <= 16
    ensures StandardRounds(BOXES, lr, cd0, i) == Fips46Rounds(lr, cd0, i)
    decreases 16 - i
  {
    hide F, Xor, RotateRight, CipherFunction, KeyHalves;
    if i < 16 {
      var cd := KeyHalves(cd0, i + 1);
      FIsCipherFunction(lr.y, cd.x, cd.y);
      RoundsAreFips46(Halves(lr.y, Xor(lr.x, CipherFunction(lr.y, cd.x, cd.y))), cd0, i + 1);
    }
  }

  /** The program's cipher, with its tables and its key schedule, is DES. */
  lemma CipherIsDes(key: seq<bv8>, block: seq<bv8>)
    requires |key| == |block| == 8
    ensures Cipher(BOXES, Subkeys(key), block) == Fips46(key, block)
  {
    hide Cipher, Subkeys, Load, Store, TableLeft, TableRight, TableC, TableD, InverseTable, StandardRounds, Fips46Rounds;
    var h, k := Load(block), Load(key);
    CipherIsStandard(BOXES, key, block);
    RoundsAreFips46(Halves(TableLeft(h), TableRight(h)), Halves(TableC(k), TableD(k)), 0);
  }
}
