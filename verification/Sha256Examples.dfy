/** The two worked examples of Appendix B of FIPS 180-2, with the values of the working variables as they
    are printed there, after every eight rounds. */
module Sha256Examples {
  import opened Words32
  import opened Sha256Block
  import opened Sha256Stream

  /** The variables after one round more, in which two of them are new. */
  function Renamed(r: Words, a: bv32, e: bv32): Words {
    Words(a, r.a, r.b, r.c, e, r.e, r.f, r.g)
  }

  /** A word of the schedule from four earlier ones. */
  lemma Extend(m: seq<bv32>, t: nat, w2: bv32, w7: bv32, w15: bv32, w16: bv32, w: bv32)
    requires |m| == 16 <= t && Schedule(m, t - 2) == w2 && Schedule(m, t - 7) == w7
    requires Schedule(m, t - 15) == w15 && Schedule(m, t - 16) == w16 && ScheduleWord(w2, w7, w15, w16) == w
    ensures Schedule(m, t) == w
  {
    hide ScheduleWord;
  }

  /** Round `t` leaves `a` and `e`. */
  lemma After(h: Words, m: seq<bv32>, t: nat, r: Words, w: bv32, a: bv32, e: bv32) returns (r': Words)
    requires |m| == 16 && t < 64 && Rounds(h, m, t) == r && Schedule(m, t) == w
    requires Round(r, w, RoundConstant(t)) == Renamed(r, a, e)
    ensures r' == Renamed(r, a, e) && Rounds(h, m, t + 1) == r'
  {
    hide Round, RoundConstant, Schedule;
    r' := Renamed(r, a, e);
  }

  // ---------- padding and digest ----------

  lemma {:induction false} SmallLength(x: nat, count: nat)
    requires x < 256 && 0 < count
    ensures BigEndianBytes(x, count) == Zeros(count - 1) + [Byte(x)]
  {
    hide Byte;
    if count == 1 {
      assert BigEndianBytes(x / 256, 0) == Zeros(0);
    } else {
      SmallLength(0, count - 1);
      assert Byte(0) == 0 by { ZeroByte(); }
      assert Zeros(count - 2) + [0] == Zeros(count - 1);
    }
  }

  lemma ZeroByte()
    ensures Byte(0) == 0
  {
  }

  lemma {:induction false} OneBlock(data: seq<bv8>)
    requires |data| == 64
    ensures Chain(data) == Compress(INITIAL, data)
  {
    hide Compress;
    assert data[..0] == [] && data[0..] == data;
    assert Chain([]) == INITIAL;
  }

  lemma TwoBlocks(data: seq<bv8>)
    requires |data| == 128
    ensures Chain(data) == Compress(Compress(INITIAL, data[..64]), data[64..])
  {
    hide Compress;
    OneBlock(data[..64]);
  }

  // ---------- the message "abc" ----------

  predicate AbcBlock(h: Words, m: seq<bv32>) {
    && h == Words(0x6A09_E667, 0xBB67_AE85, 0x3C6E_F372, 0xA54F_F53A,
                  0x510E_527F, 0x9B05_688C, 0x1F83_D9AB, 0x5BE0_CD19)
    && |m| == 16
    && m[0] == 0x6162_6380 && m[1] == 0x0000_0000 && m[2] == 0x0000_0000 && m[3] == 0x0000_0000
    && m[4] == 0x0000_0000 && m[5] == 0x0000_0000 && m[6] == 0x0000_0000 && m[7] == 0x0000_0000
    && m[8] == 0x0000_0000 && m[9] == 0x0000_0000 && m[10] == 0x0000_0000 && m[11] == 0x0000_0000
    && m[12] == 0x0000_0000 && m[13] == 0x0000_0000 && m[14] == 0x0000_0000 && m[15] == 0x0000_0018
  }

  lemma AbcWords8(h: Words, m: seq<bv32>)
    requires AbcBlock(h, m)
    ensures Schedule(m, 0) == 0x6162_6380 && Schedule(m, 1) == 0x0000_0000
    ensures Schedule(m, 2) == 0x0000_0000 && Schedule(m, 3) == 0x0000_0000
    ensures Schedule(m, 4) == 0x0000_0000 && Schedule(m, 5) == 0x0000_0000
    ensures Schedule(m, 6) == 0x0000_0000 && Schedule(m, 7) == 0x0000_0000
  {
  }

  lemma AbcWords16(h: Words, m: seq<bv32>)
    requires AbcBlock(h, m)
    ensures Schedule(m, 8) == 0x0000_0000 && Schedule(m, 9) == 0x0000_0000
    ensures Schedule(m, 10) == 0x0000_0000 && Schedule(m, 11) == 0x0000_0000
    ensures Schedule(m, 12) == 0x0000_0000 && Schedule(m, 13) == 0x0000_0000
    ensures Schedule(m, 14) == 0x0000_0000 && Schedule(m, 15) == 0x0000_0018
  {
  }

  lemma AbcWords24(h: Words, m: seq<bv32>)
    requires AbcBlock(h, m)
    ensures Schedule(m, 16) == 0x6162_6380 && Schedule(m, 17) == 0x000F_0000
    ensures Schedule(m, 18) == 0x7DA8_6405 && Schedule(m, 19) == 0x6000_03C6
    ensures Schedule(m, 20) == 0x3E9D_7B78 && Schedule(m, 21) == 0x0183_FC00
    ensures Schedule(m, 22) == 0x12DC_BFDB && Schedule(m, 23) == 0xE2E2_C38E
  {
    hide Schedule;
    AbcWords8(h, m);
    AbcWords16(h, m);
    assert Schedule(m, 16) == 0x6162_6380 by { Extend(m, 16, 0x0000_0000, 0x0000_0000, 0x0000_0000, 0x6162_6380, 0x6162_6380); }
    assert Schedule(m, 17) == 0x000F_0000 by { Extend(m, 17, 0x0000_0018, 0x0000_0000, 0x0000_0000, 0x0000_0000, 0x000F_0000); }
    assert Schedule(m, 18) == 0x7DA8_6405 by { Extend(m, 18, 0x6162_6380, 0x0000_0000, 0x0000_0000, 0x0000_0000, 0x7DA8_6405); }
    assert Schedule(m, 19) == 0x6000_03C6 by { Extend(m, 19, 0x000F_0000, 0x0000_0000, 0x0000_0000, 0x0000_0000, 0x6000_03C6); }
    assert Schedule(m, 20) == 0x3E9D_7B78 by { Extend(m, 20, 0x7DA8_6405, 0x0000_0000, 0x0000_0000, 0x0000_0000, 0x3E9D_7B78); }
    assert Schedule(m, 21) == 0x0183_FC00 by { Extend(m, 21, 0x6000_03C6, 0x0000_0000, 0x0000_0000, 0x0000_0000, 0x0183_FC00); }
    assert Schedule(m, 22) == 0x12DC_BFDB by { Extend(m, 22, 0x3E9D_7B78, 0x0000_0018, 0x0000_0000, 0x0000_0000, 0x12DC_BFDB); }
    assert Schedule(m, 23) == 0xE2E2_C38E by { Extend(m, 23, 0x0183_FC00, 0x6162_6380, 0x0000_0000, 0x0000_0000, 0xE2E2_C38E); }
  }

  lemma AbcWords32(h: Words, m: seq<bv32>)
    requires AbcBlock(h, m)
    ensures Schedule(m, 24) == 0xC821_5C1A && Schedule(m, 25) == 0xB736_79A2
    ensures Schedule(m, 26) == 0xE5BC_3909 && Schedule(m, 27) == 0x3266_3C5B
    ensures Schedule(m, 28) == 0x9D20_9D67 && Schedule(m, 29) == 0xEC87_26CB
    ensures Schedule(m, 30) == 0x7021_38A4 && Schedule(m, 31) == 0xD3B7_973B
  {
    hide Schedule;
    AbcWords16(h, m);
    AbcWords24(h, m);
    assert Schedule(m, 24) == 0xC821_5C1A by { Extend(m, 24, 0x12DC_BFDB, 0x000F_0000, 0x0000_0000, 0x0000_0000, 0xC821_5C1A); }
    assert Schedule(m, 25) == 0xB736_79A2 by { Extend(m, 25, 0xE2E2_C38E, 0x7DA8_6405, 0x0000_0000, 0x0000_0000, 0xB736_79A2); }
    assert Schedule(m, 26) == 0xE5BC_3909 by { Extend(m, 26, 0xC821_5C1A, 0x6000_03C6, 0x0000_0000, 0x0000_0000, 0xE5BC_3909); }
    assert Schedule(m, 27) == 0x3266_3C5B by { Extend(m, 27, 0xB736_79A2, 0x3E9D_7B78, 0x0000_0000, 0x0000_0000, 0x3266_3C5B); }
    assert Schedule(m, 28) == 0x9D20_9D67 by { Extend(m, 28, 0xE5BC_3909, 0x0183_FC00, 0x0000_0000, 0x0000_0000, 0x9D20_9D67); }
    assert Schedule(m, 29) == 0xEC87_26CB by { Extend(m, 29, 0x3266_3C5B, 0x12DC_BFDB, 0x0000_0000, 0x0000_0000, 0xEC87_26CB); }
    assert Schedule(m, 30) == 0x7021_38A4 by { Extend(m, 30, 0x9D20_9D67, 0xE2E2_C38E, 0x0000_0018, 0x0000_0000, 0x7021_38A4); }
    assert Schedule(m, 31) == 0xD3B7_973B by { Extend(m, 31, 0xEC87_26CB, 0xC821_5C1A, 0x6162_6380, 0x0000_0018, 0xD3B7_973B); }
  }

  lemma AbcWords40(h: Words, m: seq<bv32>)
    requires AbcBlock(h, m)
    ensures Schedule(m, 32) == 0x93F5_997F && Schedule(m, 33) == 0x3B68_BA73
    ensures Schedule(m, 34) == 0xAFF4_FFC1 && Schedule(m, 35) == 0xF10A_5C62
    ensures Schedule(m, 36) == 0x0A8B_3996 && Schedule(m, 37) == 0x72AF_830A
    ensures Schedule(m, 38) == 0x9409_E33E && Schedule(m, 39) == 0x2464_1522
  {
    hide Schedule;
    AbcWords24(h, m);
    AbcWords32(h, m);
    assert Schedule(m, 32) == 0x93F5_997F by { Extend(m, 32, 0x7021_38A4, 0xB736_79A2, 0x000F_0000, 0x6162_6380, 0x93F5_997F); }
    assert Schedule(m, 33) == 0x3B68_BA73 by { Extend(m, 33, 0xD3B7_973B, 0xE5BC_3909, 0x7DA8_6405, 0x000F_0000, 0x3B68_BA73); }
    assert Schedule(m, 34) == 0xAFF4_FFC1 by { Extend(m, 34, 0x93F5_997F, 0x3266_3C5B, 0x6000_03C6, 0x7DA8_6405, 0xAFF4_FFC1); }
    assert Schedule(m, 35) == 0xF10A_5C62 by { Extend(m, 35, 0x3B68_BA73, 0x9D20_9D67, 0x3E9D_7B78, 0x6000_03C6, 0xF10A_5C62); }
    assert Schedule(m, 36) == 0x0A8B_3996 by { Extend(m, 36, 0xAFF4_FFC1, 0xEC87_26CB, 0x0183_FC00, 0x3E9D_7B78, 0x0A8B_3996); }
    assert Schedule(m, 37) == 0x72AF_830A by { Extend(m, 37, 0xF10A_5C62, 0x7021_38A4, 0x12DC_BFDB, 0x0183_FC00, 0x72AF_830A); }
    assert Schedule(m, 38) == 0x9409_E33E by { Extend(m, 38, 0x0A8B_3996, 0xD3B7_973B, 0xE2E2_C38E, 0x12DC_BFDB, 0x9409_E33E); }
    assert Schedule(m, 39) == 0x2464_1522 by { Extend(m, 39, 0x72AF_830A, 0x93F5_997F, 0xC821_5C1A, 0xE2E2_C38E, 0x2464_1522); }
  }

  lemma AbcWords48(h: Words, m: seq<bv32>)
    requires AbcBlock(h, m)
    ensures Schedule(m, 40) == 0x9F47_BF94 && Schedule(m, 41) == 0xF0A6_4F5A
    ensures Schedule(m, 42) == 0x3E24_6A79 && Schedule(m, 43) == 0x2733_3BA3
    ensures Schedule(m, 44) == 0x0C47_63F2 && Schedule(m, 45) == 0x840A_BF27
    ensures Schedule(m, 46) == 0x7A29_0D5D && Schedule(m, 47) == 0x065C_43DA
  {
    hide Schedule;
    AbcWords32(h, m);
    AbcWords40(h, m);
    assert Schedule(m, 40) == 0x9F47_BF94 by { Extend(m, 40, 0x9409_E33E, 0x3B68_BA73, 0xB736_79A2, 0xC821_5C1A, 0x9F47_BF94); }
    assert Schedule(m, 41) == 0xF0A6_4F5A by { Extend(m, 41, 0x2464_1522, 0xAFF4_FFC1, 0xE5BC_3909, 0xB736_79A2, 0xF0A6_4F5A); }
    assert Schedule(m, 42) == 0x3E24_6A79 by { Extend(m, 42, 0x9F47_BF94, 0xF10A_5C62, 0x3266_3C5B, 0xE5BC_3909, 0x3E24_6A79); }
    assert Schedule(m, 43) == 0x2733_3BA3 by { Extend(m, 43, 0xF0A6_4F5A, 0x0A8B_3996, 0x9D20_9D67, 0x3266_3C5B, 0x2733_3BA3); }
    assert Schedule(m, 44) == 0x0C47_63F2 by { Extend(m, 44, 0x3E24_6A79, 0x72AF_830A, 0xEC87_26CB, 0x9D20_9D67, 0x0C47_63F2); }
    assert Schedule(m, 45) == 0x840A_BF27 by { Extend(m, 45, 0x2733_3BA3, 0x9409_E33E, 0x7021_38A4, 0xEC87_26CB, 0x840A_BF27); }
    assert Schedule(m, 46) == 0x7A29_0D5D by { Extend(m, 46, 0x0C47_63F2, 0x2464_1522, 0xD3B7_973B, 0x7021_38A4, 0x7A29_0D5D); }
    assert Schedule(m, 47) == 0x065C_43DA by { Extend(m, 47, 0x840A_BF27, 0x9F47_BF94, 0x93F5_997F, 0xD3B7_973B, 0x065C_43DA); }
  }

  lemma AbcWords56(h: Words, m: seq<bv32>)
    requires AbcBlock(h, m)
    ensures Schedule(m, 48) == 0xFB3E_89CB && Schedule(m, 49) == 0xCC76_17DB
    ensures Schedule(m, 50) == 0xB9E6_6C34 && Schedule(m, 51) == 0xA999_3667
    ensures Schedule(m, 52) == 0x84BA_DEDD && Schedule(m, 53) == 0xC214_62BC
    ensures Schedule(m, 54) == 0x1487_472C && Schedule(m, 55) == 0xB20F_7A99
  {
    hide Schedule;
    AbcWords40(h, m);
    AbcWords48(h, m);
    assert Schedule(m, 48) == 0xFB3E_89CB by { Extend(m, 48, 0x7A29_0D5D, 0xF0A6_4F5A, 0x3B68_BA73, 0x93F5_997F, 0xFB3E_89CB); }
    assert Schedule(m, 49) == 0xCC76_17DB by { Extend(m, 49, 0x065C_43DA, 0x3E24_6A79, 0xAFF4_FFC1, 0x3B68_BA73, 0xCC76_17DB); }
    assert Schedule(m, 50) == 0xB9E6_6C34 by { Extend(m, 50, 0xFB3E_89CB, 0x2733_3BA3, 0xF10A_5C62, 0xAFF4_FFC1, 0xB9E6_6C34); }
    assert Schedule(m, 51) == 0xA999_3667 by { Extend(m, 51, 0xCC76_17DB, 0x0C47_63F2, 0x0A8B_3996, 0xF10A_5C62, 0xA999_3667); }
    assert Schedule(m, 52) == 0x84BA_DEDD by { Extend(m, 52, 0xB9E6_6C34, 0x840A_BF27, 0x72AF_830A, 0x0A8B_3996, 0x84BA_DEDD); }
    assert Schedule(m, 53) == 0xC214_62BC by { Extend(m, 53, 0xA999_3667, 0x7A29_0D5D, 0x9409_E33E, 0x72AF_830A, 0xC214_62BC); }
    assert Schedule(m, 54) == 0x1487_472C by { Extend(m, 54, 0x84BA_DEDD, 0x065C_43DA, 0x2464_1522, 0x9409_E33E, 0x1487_472C); }
    assert Schedule(m, 55) == 0xB20F_7A99 by { Extend(m, 55, 0xC214_62BC, 0xFB3E_89CB, 0x9F47_BF94, 0x2464_1522, 0xB20F_7A99); }
  }

  lemma AbcWords64(h: Words, m: seq<bv32>)
    requires AbcBlock(h, m)
    ensures Schedule(m, 56) == 0xEF57_B9CD && Schedule(m, 57) == 0xEBE6_B238
    ensures Schedule(m, 58) == 0x9FE3_095E && Schedule(m, 59) == 0x78BC_8D4B
    ensures Schedule(m, 60) == 0xA43F_CF15 && Schedule(m, 61) == 0x668B_2FF8
    ensures Schedule(m, 62) == 0xEEAB_A2CC && Schedule(m, 63) == 0x12B1_EDEB
  {
    hide Schedule;
    AbcWords48(h, m);
    AbcWords56(h, m);
    assert Schedule(m, 56) == 0xEF57_B9CD by { Extend(m, 56, 0x1487_472C, 0xCC76_17DB, 0xF0A6_4F5A, 0x9F47_BF94, 0xEF57_B9CD); }
    assert Schedule(m, 57) == 0xEBE6_B238 by { Extend(m, 57, 0xB20F_7A99, 0xB9E6_6C34, 0x3E24_6A79, 0xF0A6_4F5A, 0xEBE6_B238); }
    assert Schedule(m, 58) == 0x9FE3_095E by { Extend(m, 58, 0xEF57_B9CD, 0xA999_3667, 0x2733_3BA3, 0x3E24_6A79, 0x9FE3_095E); }
    assert Schedule(m, 59) == 0x78BC_8D4B by { Extend(m, 59, 0xEBE6_B238, 0x84BA_DEDD, 0x0C47_63F2, 0x2733_3BA3, 0x78BC_8D4B); }
    assert Schedule(m, 60) == 0xA43F_CF15 by { Extend(m, 60, 0x9FE3_095E, 0xC214_62BC, 0x840A_BF27, 0x0C47_63F2, 0xA43F_CF15); }
    assert Schedule(m, 61) == 0x668B_2FF8 by { Extend(m, 61, 0x78BC_8D4B, 0x1487_472C, 0x7A29_0D5D, 0x840A_BF27, 0x668B_2FF8); }
    assert Schedule(m, 62) == 0xEEAB_A2CC by { Extend(m, 62, 0xA43F_CF15, 0xB20F_7A99, 0x065C_43DA, 0x7A29_0D5D, 0xEEAB_A2CC); }
    assert Schedule(m, 63) == 0x12B1_EDEB by { Extend(m, 63, 0x668B_2FF8, 0xEF57_B9CD, 0xFB3E_89CB, 0x065C_43DA, 0x12B1_EDEB); }
  }

  lemma Abc8(h: Words, m: seq<bv32>)
    requires AbcBlock(h, m)
    ensures Rounds(h, m, 8) == Words(0x85A0_7B5F, 0xE503_0380, 0x2B42_09F5, 0x0440_9A6A,
                                     0x0C65_7A79, 0x9B27_A401, 0x7142_60AD, 0x43AD_A245)
  {
    hide Rounds, Schedule;
    NoRounds(h, m);
    var r := h;
    AbcWords8(h, m);
    r := After(h, m, 0, r, 0x6162_6380, 0x5D6A_EBCD, 0xFA2A_4622);
    r := After(h, m, 1, r, 0x0000_0000, 0x5A6A_D9AD, 0x78CE_7989);
    r := After(h, m, 2, r, 0x0000_0000, 0xC8C3_47A7, 0xF929_39EB);
    r := After(h, m, 3, r, 0x0000_0000, 0xD550_F666, 0x24E0_0850);
    r := After(h, m, 4, r, 0x0000_0000, 0x0440_9A6A, 0x43AD_A245);
    r := After(h, m, 5, r, 0x0000_0000, 0x2B42_09F5, 0x7142_60AD);
    r := After(h, m, 6, r, 0x0000_0000, 0xE503_0380, 0x9B27_A401);
    r := After(h, m, 7, r, 0x0000_0000, 0x85A0_7B5F, 0x0C65_7A79);
  }

  lemma Abc16(h: Words, m: seq<bv32>)
    requires AbcBlock(h, m)
    ensures Rounds(h, m, 16) == Words(0xB0FA_238E, 0xC064_5FDE, 0xD932_EB16, 0x8791_2990,
                                     0x0759_0DCD, 0x0B92_F20C, 0x745A_48DE, 0x1E57_8218)
  {
    hide Rounds, Schedule;
    Abc8(h, m);
    var r := Rounds(h, m, 8);
    AbcWords16(h, m);
    r := After(h, m, 8, r, 0x0000_0000, 0x8E04_ECB9, 0x32CA_2D8C);
    r := After(h, m, 9, r, 0x0000_0000, 0x8C87_346B, 0x1CC9_2596);
    r := After(h, m, 10, r, 0x0000_0000, 0x4798_A3F4, 0x436B_23E8);
    r := After(h, m, 11, r, 0x0000_0000, 0xF71F_C5A9, 0x816F_D6E9);
    r := After(h, m, 12, r, 0x0000_0000, 0x8791_2990, 0x1E57_8218);
    r := After(h, m, 13, r, 0x0000_0000, 0xD932_EB16, 0x745A_48DE);
    r := After(h, m, 14, r, 0x0000_0000, 0xC064_5FDE, 0x0B92_F20C);
    r := After(h, m, 15, r, 0x0000_0018, 0xB0FA_238E, 0x0759_0DCD);
  }

  lemma Abc24(h: Words, m: seq<bv32>)
    requires AbcBlock(h, m)
    ensures Rounds(h, m, 24) == Words(0xC5D5_3D8D, 0xA7A3_623F, 0xC260_6D6D, 0x9DC6_8B63,
                                     0xAA47_C347, 0x49F5_114A, 0xE125_7970, 0x8ADA_8930)
  {
    hide Rounds, Schedule;
    Abc16(h, m);
    var r := Rounds(h, m, 16);
    AbcWords24(h, m);
    r := After(h, m, 16, r, 0x6162_6380, 0x21DA_9A9B, 0x8034_229C);
    r := After(h, m, 17, r, 0x000F_0000, 0xC2FB_D9D1, 0x846E_E454);
    r := After(h, m, 18, r, 0x7DA8_6405, 0xFE77_7BBF, 0xCC89_9961);
    r := After(h, m, 19, r, 0x6000_03C6, 0xE1F2_0C33, 0xB063_8179);
    r := After(h, m, 20, r, 0x3E9D_7B78, 0x9DC6_8B63, 0x8ADA_8930);
    r := After(h, m, 21, r, 0x0183_FC00, 0xC260_6D6D, 0xE125_7970);
    r := After(h, m, 22, r, 0x12DC_BFDB, 0xA7A3_623F, 0x49F5_114A);
    r := After(h, m, 23, r, 0xE2E2_C38E, 0xC5D5_3D8D, 0xAA47_C347);
  }

  lemma Abc32(h: Words, m: seq<bv32>)
    requires AbcBlock(h, m)
    ensures Rounds(h, m, 32) == Words(0x73B3_3BF5, 0xEA99_2A22, 0xA006_0B30, 0x3634_82C9,
                                     0xBA59_1112, 0x0109_AB3A, 0xADE7_9437, 0x6112_A3B7)
  {
    hide Rounds, Schedule;
    Abc24(h, m);
    var r := Rounds(h, m, 24);
    AbcWords32(h, m);
    r := After(h, m, 24, r, 0xC821_5C1A, 0x1C2C_2838, 0x2823_EF91);
    r := After(h, m, 25, r, 0xB736_79A2, 0xCDE8_037D, 0x1438_3D8E);
    r := After(h, m, 26, r, 0xE5BC_3909, 0xB62E_C4BC, 0xC74C_6516);
    r := After(h, m, 27, r, 0x3266_3C5B, 0x77D3_7528, 0xEDFF_BFF8);
    r := After(h, m, 28, r, 0x9D20_9D67, 0x3634_82C9, 0x6112_A3B7);
    r := After(h, m, 29, r, 0xEC87_26CB, 0xA006_0B30, 0xADE7_9437);
    r := After(h, m, 30, r, 0x7021_38A4, 0xEA99_2A22, 0x0109_AB3A);
    r := After(h, m, 31, r, 0xD3B7_973B, 0x73B3_3BF5, 0xBA59_1112);
  }

  lemma Abc40(h: Words, m: seq<bv32>)
    requires AbcBlock(h, m)
    ensures Rounds(h, m, 40) == Words(0x79EA_687A, 0x6DC5_7A8A, 0x34DF_1604, 0x41A6_5CB1,
                                     0x1EFB_C0A0, 0xF078_1BC8, 0xA507_A53D, 0x0772_A26B)
  {
    hide Rounds, Schedule;
    Abc32(h, m);
    var r := Rounds(h, m, 32);
    AbcWords40(h, m);
    r := After(h, m, 32, r, 0x93F5_997F, 0x98E1_2507, 0x9CD9_F5F6);
    r := After(h, m, 33, r, 0x3B68_BA73, 0xFE60_4DF5, 0x5924_9DD3);
    r := After(h, m, 34, r, 0xAFF4_FFC1, 0xA9A7_738C, 0x085F_3833);
    r := After(h, m, 35, r, 0xF10A_5C62, 0x65A0_CFE4, 0xF4B0_02D6);
    r := After(h, m, 36, r, 0x0A8B_3996, 0x41A6_5CB1, 0x0772_A26B);
    r := After(h, m, 37, r, 0x72AF_830A, 0x34DF_1604, 0xA507_A53D);
    r := After(h, m, 38, r, 0x9409_E33E, 0x6DC5_7A8A, 0xF078_1BC8);
    r := After(h, m, 39, r, 0x2464_1522, 0x79EA_687A, 0x1EFB_C0A0);
  }

  lemma Abc48(h: Words, m: seq<bv32>)
    requires AbcBlock(h, m)
    ensures Rounds(h, m, 48) == Words(0x4172_328D, 0xA14C_14B0, 0x72AB_4B91, 0x2662_8815,
                                     0xFECF_0BC6, 0xD57B_94A9, 0xB775_5DA1, 0xA80F_11F0)
  {
    hide Rounds, Schedule;
    Abc40(h, m);
    var r := Rounds(h, m, 40);
    AbcWords48(h, m);
    r := After(h, m, 40, r, 0x9F47_BF94, 0xD667_0766, 0x2635_2D63);
    r := After(h, m, 41, r, 0xF0A6_4F5A, 0xDF46_652F, 0x838B_2711);
    r := After(h, m, 42, r, 0x3E24_6A79, 0x17AA_0DFE, 0xDECD_4715);
    r := After(h, m, 43, r, 0x2733_3BA3, 0x9D4B_AF93, 0xFDA2_4C2E);
    r := After(h, m, 44, r, 0x0C47_63F2, 0x2662_8815, 0xA80F_11F0);
    r := After(h, m, 45, r, 0x840A_BF27, 0x72AB_4B91, 0xB775_5DA1);
    r := After(h, m, 46, r, 0x7A29_0D5D, 0xA14C_14B0, 0xD57B_94A9);
    r := After(h, m, 47, r, 0x065C_43DA, 0x4172_328D, 0xFECF_0BC6);
  }

  lemma Abc56(h: Words, m: seq<bv32>)
    requires AbcBlock(h, m)
    ensures Rounds(h, m, 56) == Words(0x38CC_9913, 0x3EC4_5CDB, 0xF570_2FDB, 0x101F_D28F,
                                     0x54CB_266B, 0xE50E_1B4F, 0x9F47_87C3, 0x529E_7D00)
  {
    hide Rounds, Schedule;
    Abc48(h, m);
    var r := Rounds(h, m, 48);
    AbcWords56(h, m);
    r := After(h, m, 48, r, 0xFB3E_89CB, 0x0575_7CEB, 0xBD71_4038);
    r := After(h, m, 49, r, 0xCC76_17DB, 0xF11B_FAA8, 0x6E5C_390C);
    r := After(h, m, 50, r, 0xB9E6_6C34, 0x7A05_08A1, 0x52F1_CCF7);
    r := After(h, m, 51, r, 0xA999_3667, 0x886E_7A22, 0x4923_1C1E);
    r := After(h, m, 52, r, 0x84BA_DEDD, 0x101F_D28F, 0x529E_7D00);
    r := After(h, m, 53, r, 0xC214_62BC, 0xF570_2FDB, 0x9F47_87C3);
    r := After(h, m, 54, r, 0x1487_472C, 0x3EC4_5CDB, 0xE50E_1B4F);
    r := After(h, m, 55, r, 0xB20F_7A99, 0x38CC_9913, 0x54CB_266B);
  }

  lemma Abc64(h: Words, m: seq<bv32>)
    requires AbcBlock(h, m)
    ensures Rounds(h, m, 64) == Words(0x506E_3058, 0xD39A_2165, 0x04D2_4D6C, 0xB85E_2CE9,
                                     0x5EF5_0F24, 0xFB12_1210, 0x948D_25B6, 0x961F_4894)
  {
    hide Rounds, Schedule;
    Abc56(h, m);
    var r := Rounds(h, m, 56);
    AbcWords64(h, m);
    r := After(h, m, 56, r, 0xEF57_B9CD, 0xFCD1_887B, 0x9B5E_906C);
    r := After(h, m, 57, r, 0xEBE6_B238, 0xC062_D46F, 0x7E44_008E);
    r := After(h, m, 58, r, 0x9FE3_095E, 0xFFB7_0472, 0x6D83_BFC6);
    r := After(h, m, 59, r, 0x78BC_8D4B, 0xB6AE_8FFF, 0xB21B_AD3D);
    r := After(h, m, 60, r, 0xA43F_CF15, 0xB85E_2CE9, 0x961F_4894);
    r := After(h, m, 61, r, 0x668B_2FF8, 0x04D2_4D6C, 0x948D_25B6);
    r := After(h, m, 62, r, 0xEEAB_A2CC, 0xD39A_2165, 0xFB12_1210);
    r := After(h, m, 63, r, 0x12B1_EDEB, 0x506E_3058, 0x5EF5_0F24);
  }

  const ABC: seq<bv8> := [0x61, 0x62, 0x63]

  lemma AbcPadded()
    ensures var p := Padded(ABC);
            && |p| == 64 && p[0] == 0x61 && p[1] == 0x62 && p[2] == 0x63 && p[3] == 0x80
            && (forall i | 4 <= i < 63 :: p[i] == 0) && p[63] == 24
  {
    hide BigEndianBytes, Byte;
    SmallLength(24, 8);
    ByteIs24();
  }

  lemma ByteIs24()
    ensures Byte(24) == 24
  {
  }

  lemma AbcWords()
    ensures |Padded(ABC)| == 64 && AbcBlock(INITIAL, BlockWords(Padded(ABC)))
  {
    hide Padded, BigEndian;
    AbcPadded();
    BigEndianOf();
  }

  lemma BigEndianOf()
    ensures BigEndian(0x61, 0x62, 0x63, 0x80) == 0x6162_6380 && BigEndian(0, 0, 0, 0) == 0 && BigEndian(0, 0, 0, 24) == 24
  {
  }

  lemma AbcHash(m: seq<bv32>)
    requires AbcBlock(INITIAL, m)
    ensures AddWords(INITIAL, Rounds(INITIAL, m, 64)) == Words(0xBA78_16BF, 0x8F01_CFEA, 0x4141_40DE, 0x5DAE_2223,
                                                               0xB003_61A3, 0x9617_7A9C, 0xB410_FF61, 0xF200_15AD)
  {
    hide Rounds;
    Abc64(INITIAL, m);
  }

  lemma AbcBytes()
    ensures WordBytes(0xBA78_16BF) == [0xBA, 0x78, 0x16, 0xBF] && WordBytes(0x8F01_CFEA) == [0x8F, 0x01, 0xCF, 0xEA]
    ensures WordBytes(0x4141_40DE) == [0x41, 0x41, 0x40, 0xDE] && WordBytes(0x5DAE_2223) == [0x5D, 0xAE, 0x22, 0x23]
    ensures WordBytes(0xB003_61A3) == [0xB0, 0x03, 0x61, 0xA3] && WordBytes(0x9617_7A9C) == [0x96, 0x17, 0x7A, 0x9C]
    ensures WordBytes(0xB410_FF61) == [0xB4, 0x10, 0xFF, 0x61] && WordBytes(0xF200_15AD) == [0xF2, 0x00, 0x15, 0xAD]
  {
  }

  /** Appendix B.1. */
  lemma AbcDigest()
    ensures Sha256(ABC) == [0xBA, 0x78, 0x16, 0xBF, 0x8F, 0x01, 0xCF, 0xEA, 0x41, 0x41, 0x40, 0xDE, 0x5D, 0xAE, 0x22, 0x23,
                            0xB0, 0x03, 0x61, 0xA3, 0x96, 0x17, 0x7A, 0x9C, 0xB4, 0x10, 0xFF, 0x61, 0xF2, 0x00, 0x15, 0xAD]
  {
    hide Padded, BlockWords, Rounds, Chain, WordBytes, AddWords, AbcBlock;
    AbcWords();
    OneBlock(Padded(ABC));
    AbcHash(BlockWords(Padded(ABC)));
    AbcBytes();
  }

  // ---------- the message of two blocks, its first block ----------

  predicate FirstBlock(h: Words, m: seq<bv32>) {
    && h == Words(0x6A09_E667, 0xBB67_AE85, 0x3C6E_F372, 0xA54F_F53A,
                  0x510E_527F, 0x9B05_688C, 0x1F83_D9AB, 0x5BE0_CD19)
    && |m| == 16
    && m[0] == 0x6162_6364 && m[1] == 0x6263_6465 && m[2] == 0x6364_6566 && m[3] == 0x6465_6667
    && m[4] == 0x6566_6768 && m[5] == 0x6667_6869 && m[6] == 0x6768_696A && m[7] == 0x6869_6A6B
    && m[8] == 0x696A_6B6C && m[9] == 0x6A6B_6C6D && m[10] == 0x6B6C_6D6E && m[11] == 0x6C6D_6E6F
    && m[12] == 0x6D6E_6F70 && m[13] == 0x6E6F_7071 && m[14] == 0x8000_0000 && m[15] == 0x0000_0000
  }

  lemma FirstWords8(h: Words, m: seq<bv32>)
    requires FirstBlock(h, m)
    ensures Schedule(m, 0) == 0x6162_6364 && Schedule(m, 1) == 0x6263_6465
    ensures Schedule(m, 2) == 0x6364_6566 && Schedule(m, 3) == 0x6465_6667
    ensures Schedule(m, 4) == 0x6566_6768 && Schedule(m, 5) == 0x6667_6869
    ensures Schedule(m, 6) == 0x6768_696A && Schedule(m, 7) == 0x6869_6A6B
  {
  }

  lemma FirstWords16(h: Words, m: seq<bv32>)
    requires FirstBlock(h, m)
    ensures Schedule(m, 8) == 0x696A_6B6C && Schedule(m, 9) == 0x6A6B_6C6D
    ensures Schedule(m, 10) == 0x6B6C_6D6E && Schedule(m, 11) == 0x6C6D_6E6F
    ensures Schedule(m, 12) == 0x6D6E_6F70 && Schedule(m, 13) == 0x6E6F_7071
    ensures Schedule(m, 14) == 0x8000_0000 && Schedule(m, 15) == 0x0000_0000
  {
  }

  lemma FirstWords24(h: Words, m: seq<bv32>)
    requires FirstBlock(h, m)
    ensures Schedule(m, 16) == 0xEB80_12AD && Schedule(m, 17) == 0xA7C3_AE92
    ensures Schedule(m, 18) == 0x76E9_3BA2 && Schedule(m, 19) == 0xBA42_E743
    ensures Schedule(m, 20) == 0x92A9_2204 && Schedule(m, 21) == 0xD847_E75E
    ensures Schedule(m, 22) == 0x9E16_0036 && Schedule(m, 23) == 0xB280_A7CB
  {
    hide Schedule;
    FirstWords8(h, m);
    FirstWords16(h, m);
    assert Schedule(m, 16) == 0xEB80_12AD by { Extend(m, 16, 0x8000_0000, 0x6A6B_6C6D, 0x6263_6465, 0x6162_6364, 0xEB80_12AD); }
    assert Schedule(m, 17) == 0xA7C3_AE92 by { Extend(m, 17, 0x0000_0000, 0x6B6C_6D6E, 0x6364_6566, 0x6263_6465, 0xA7C3_AE92); }
    assert Schedule(m, 18) == 0x76E9_3BA2 by { Extend(m, 18, 0xEB80_12AD, 0x6C6D_6E6F, 0x6465_6667, 0x6364_6566, 0x76E9_3BA2); }
    assert Schedule(m, 19) == 0xBA42_E743 by { Extend(m, 19, 0xA7C3_AE92, 0x6D6E_6F70, 0x6566_6768, 0x6465_6667, 0xBA42_E743); }
    assert Schedule(m, 20) == 0x92A9_2204 by { Extend(m, 20, 0x76E9_3BA2, 0x6E6F_7071, 0x6667_6869, 0x6566_6768, 0x92A9_2204); }
    assert Schedule(m, 21) == 0xD847_E75E by { Extend(m, 21, 0xBA42_E743, 0x8000_0000, 0x6768_696A, 0x6667_6869, 0xD847_E75E); }
    assert Schedule(m, 22) == 0x9E16_0036 by { Extend(m, 22, 0x92A9_2204, 0x0000_0000, 0x6869_6A6B, 0x6768_696A, 0x9E16_0036); }
    assert Schedule(m, 23) == 0xB280_A7CB by { Extend(m, 23, 0xD847_E75E, 0xEB80_12AD, 0x696A_6B6C, 0x6869_6A6B, 0xB280_A7CB); }
  }

  lemma FirstWords32(h: Words, m: seq<bv32>)
    requires FirstBlock(h, m)
    ensures Schedule(m, 24) == 0xDDEB_1516 && Schedule(m, 25) == 0xF365_86F4
    ensures Schedule(m, 26) == 0x969C_D048 && Schedule(m, 27) == 0xE959_D99D
    ensures Schedule(m, 28) == 0x6ACC_C0EC && Schedule(m, 29) == 0xF54C_B098
    ensures Schedule(m, 30) == 0x2AF1_B2DA && Schedule(m, 31) == 0xEE59_C4C9
  {
    hide Schedule;
    FirstWords16(h, m);
    FirstWords24(h, m);
    assert Schedule(m, 24) == 0xDDEB_1516 by { Extend(m, 24, 0x9E16_0036, 0xA7C3_AE92, 0x6A6B_6C6D, 0x696A_6B6C, 0xDDEB_1516); }
    assert Schedule(m, 25) == 0xF365_86F4 by { Extend(m, 25, 0xB280_A7CB, 0x76E9_3BA2, 0x6B6C_6D6E, 0x6A6B_6C6D, 0xF365_86F4); }
    assert Schedule(m, 26) == 0x969C_D048 by { Extend(m, 26, 0xDDEB_1516, 0xBA42_E743, 0x6C6D_6E6F, 0x6B6C_6D6E, 0x969C_D048); }
    assert Schedule(m, 27) == 0xE959_D99D by { Extend(m, 27, 0xF365_86F4, 0x92A9_2204, 0x6D6E_6F70, 0x6C6D_6E6F, 0xE959_D99D); }
    assert Schedule(m, 28) == 0x6ACC_C0EC by { Extend(m, 28, 0x969C_D048, 0xD847_E75E, 0x6E6F_7071, 0x6D6E_6F70, 0x6ACC_C0EC); }
    assert Schedule(m, 29) == 0xF54C_B098 by { Extend(m, 29, 0xE959_D99D, 0x9E16_0036, 0x8000_0000, 0x6E6F_7071, 0xF54C_B098); }
    assert Schedule(m, 30) == 0x2AF1_B2DA by { Extend(m, 30, 0x6ACC_C0EC, 0xB280_A7CB, 0x0000_0000, 0x8000_0000, 0x2AF1_B2DA); }
    assert Schedule(m, 31) == 0xEE59_C4C9 by { Extend(m, 31, 0xF54C_B098, 0xDDEB_1516, 0xEB80_12AD, 0x0000_0000, 0xEE59_C4C9); }
  }

  lemma FirstWords40(h: Words, m: seq<bv32>)
    requires FirstBlock(h, m)
    ensures Schedule(m, 32) == 0xA835_E16A && Schedule(m, 33) == 0x1DFF_4429
    ensures Schedule(m, 34) == 0xD6E1_5959 && Schedule(m, 35) == 0xC397_CD6E
    ensures Schedule(m, 36) == 0x6F18_01CA && Schedule(m, 37) == 0x2157_4205
    ensures Schedule(m, 38) == 0x35FF_7A84 && Schedule(m, 39) == 0x9743_EE78
  {
    hide Schedule;
    FirstWords24(h, m);
    FirstWords32(h, m);
    assert Schedule(m, 32) == 0xA835_E16A by { Extend(m, 32, 0x2AF1_B2DA, 0xF365_86F4, 0xA7C3_AE92, 0xEB80_12AD, 0xA835_E16A); }
    assert Schedule(m, 33) == 0x1DFF_4429 by { Extend(m, 33, 0xEE59_C4C9, 0x969C_D048, 0x76E9_3BA2, 0xA7C3_AE92, 0x1DFF_4429); }
    assert Schedule(m, 34) == 0xD6E1_5959 by { Extend(m, 34, 0xA835_E16A, 0xE959_D99D, 0xBA42_E743, 0x76E9_3BA2, 0xD6E1_5959); }
    assert Schedule(m, 35) == 0xC397_CD6E by { Extend(m, 35, 0x1DFF_4429, 0x6ACC_C0EC, 0x92A9_2204, 0xBA42_E743, 0xC397_CD6E); }
    assert Schedule(m, 36) == 0x6F18_01CA by { Extend(m, 36, 0xD6E1_5959, 0xF54C_B098, 0xD847_E75E, 0x92A9_2204, 0x6F18_01CA); }
    assert Schedule(m, 37) == 0x2157_4205 by { Extend(m, 37, 0xC397_CD6E, 0x2AF1_B2DA, 0x9E16_0036, 0xD847_E75E, 0x2157_4205); }
    assert Schedule(m, 38) == 0x35FF_7A84 by { Extend(m, 38, 0x6F18_01CA, 0xEE59_C4C9, 0xB280_A7CB, 0x9E16_0036, 0x35FF_7A84); }
    assert Schedule(m, 39) == 0x9743_EE78 by { Extend(m, 39, 0x2157_4205, 0xA835_E16A, 0xDDEB_1516, 0xB280_A7CB, 0x9743_EE78); }
  }

  lemma FirstWords48(h: Words, m: seq<bv32>)
    requires FirstBlock(h, m)
    ensures Schedule(m, 40) == 0xE441_83E7 && Schedule(m, 41) == 0x0D09_F00D
    ensures Schedule(m, 42) == 0x9C89_AF54 && Schedule(m, 43) == 0x042D_5BEF
    ensures Schedule(m, 44) == 0x71F1_34D0 && Schedule(m, 45) == 0x0F94_F463
    ensures Schedule(m, 46) == 0x7E49_DC63 && Schedule(m, 47) == 0x6F65_C997
  {
    hide Schedule;
    FirstWords32(h, m);
    FirstWords40(h, m);
    assert Schedule(m, 40) == 0xE441_83E7 by { Extend(m, 40, 0x35FF_7A84, 0x1DFF_4429, 0xF365_86F4, 0xDDEB_1516, 0xE441_83E7); }
    assert Schedule(m, 41) == 0x0D09_F00D by { Extend(m, 41, 0x9743_EE78, 0xD6E1_5959, 0x969C_D048, 0xF365_86F4, 0x0D09_F00D); }
    assert Schedule(m, 42) == 0x9C89_AF54 by { Extend(m, 42, 0xE441_83E7, 0xC397_CD6E, 0xE959_D99D, 0x969C_D048, 0x9C89_AF54); }
    assert Schedule(m, 43) == 0x042D_5BEF by { Extend(m, 43, 0x0D09_F00D, 0x6F18_01CA, 0x6ACC_C0EC, 0xE959_D99D, 0x042D_5BEF); }
    assert Schedule(m, 44) == 0x71F1_34D0 by { Extend(m, 44, 0x9C89_AF54, 0x2157_4205, 0xF54C_B098, 0x6ACC_C0EC, 0x71F1_34D0); }
    assert Schedule(m, 45) == 0x0F94_F463 by { Extend(m, 45, 0x042D_5BEF, 0x35FF_7A84, 0x2AF1_B2DA, 0xF54C_B098, 0x0F94_F463); }
    assert Schedule(m, 46) == 0x7E49_DC63 by { Extend(m, 46, 0x71F1_34D0, 0x9743_EE78, 0xEE59_C4C9, 0x2AF1_B2DA, 0x7E49_DC63); }
    assert Schedule(m, 47) == 0x6F65_C997 by { Extend(m, 47, 0x0F94_F463, 0xE441_83E7, 0xA835_E16A, 0xEE59_C4C9, 0x6F65_C997); }
  }

  lemma FirstWords56(h: Words, m: seq<bv32>)
    requires FirstBlock(h, m)
    ensures Schedule(m, 48) == 0x0B70_6583 && Schedule(m, 49) == 0x1793_12CA
    ensures Schedule(m, 50) == 0x5030_54E9 && Schedule(m, 51) == 0xBA12_5C39
    ensures Schedule(m, 52) == 0x7E93_92C9 && Schedule(m, 53) == 0xD5CB_AA1E
    ensures Schedule(m, 54) == 0x78E0_585D && Schedule(m, 55) == 0xF6E7_611C
  {
    hide Schedule;
    FirstWords40(h, m);
    FirstWords48(h, m);
    assert Schedule(m, 48) == 0x0B70_6583 by { Extend(m, 48, 0x7E49_DC63, 0x0D09_F00D, 0x1DFF_4429, 0xA835_E16A, 0x0B70_6583); }
    assert Schedule(m, 49) == 0x1793_12CA by { Extend(m, 49, 0x6F65_C997, 0x9C89_AF54, 0xD6E1_5959, 0x1DFF_4429, 0x1793_12CA); }
    assert Schedule(m, 50) == 0x5030_54E9 by { Extend(m, 50, 0x0B70_6583, 0x042D_5BEF, 0xC397_CD6E, 0xD6E1_5959, 0x5030_54E9); }
    assert Schedule(m, 51) == 0xBA12_5C39 by { Extend(m, 51, 0x1793_12CA, 0x71F1_34D0, 0x6F18_01CA, 0xC397_CD6E, 0xBA12_5C39); }
    assert Schedule(m, 52) == 0x7E93_92C9 by { Extend(m, 52, 0x5030_54E9, 0x0F94_F463, 0x2157_4205, 0x6F18_01CA, 0x7E93_92C9); }
    assert Schedule(m, 53) == 0xD5CB_AA1E by { Extend(m, 53, 0xBA12_5C39, 0x7E49_DC63, 0x35FF_7A84, 0x2157_4205, 0xD5CB_AA1E); }
    assert Schedule(m, 54) == 0x78E0_585D by { Extend(m, 54, 0x7E93_92C9, 0x6F65_C997, 0x9743_EE78, 0x35FF_7A84, 0x78E0_585D); }
    assert Schedule(m, 55) == 0xF6E7_611C by { Extend(m, 55, 0xD5CB_AA1E, 0x0B70_6583, 0xE441_83E7, 0x9743_EE78, 0xF6E7_611C); }
  }

  lemma FirstWords64(h: Words, m: seq<bv32>)
    requires FirstBlock(h, m)
    ensures Schedule(m, 56) == 0x8AC8_30CE && Schedule(m, 57) == 0x8B47_A303
    ensures Schedule(m, 58) == 0xFD6E_627F && Schedule(m, 59) == 0x8C6E_2C6A
    ensures Schedule(m, 60) == 0x4001_ADF1 && Schedule(m, 61) == 0x1A3D_D097
    ensures Schedule(m, 62) == 0xA9DF_6F62 && Schedule(m, 63) == 0x6AA6_0A39
  {
    hide Schedule;
    FirstWords48(h, m);
    FirstWords56(h, m);
    assert Schedule(m, 56) == 0x8AC8_30CE by { Extend(m, 56, 0x78E0_585D, 0x1793_12CA, 0x0D09_F00D, 0xE441_83E7, 0x8AC8_30CE); }
    assert Schedule(m, 57) == 0x8B47_A303 by { Extend(m, 57, 0xF6E7_611C, 0x5030_54E9, 0x9C89_AF54, 0x0D09_F00D, 0x8B47_A303); }
    assert Schedule(m, 58) == 0xFD6E_627F by { Extend(m, 58, 0x8AC8_30CE, 0xBA12_5C39, 0x042D_5BEF, 0x9C89_AF54, 0xFD6E_627F); }
    assert Schedule(m, 59) == 0x8C6E_2C6A by { Extend(m, 59, 0x8B47_A303, 0x7E93_92C9, 0x71F1_34D0, 0x042D_5BEF, 0x8C6E_2C6A); }
    assert Schedule(m, 60) == 0x4001_ADF1 by { Extend(m, 60, 0xFD6E_627F, 0xD5CB_AA1E, 0x0F94_F463, 0x71F1_34D0, 0x4001_ADF1); }
    assert Schedule(m, 61) == 0x1A3D_D097 by { Extend(m, 61, 0x8C6E_2C6A, 0x78E0_585D, 0x7E49_DC63, 0x0F94_F463, 0x1A3D_D097); }
    assert Schedule(m, 62) == 0xA9DF_6F62 by { Extend(m, 62, 0x4001_ADF1, 0xF6E7_611C, 0x6F65_C997, 0x7E49_DC63, 0xA9DF_6F62); }
    assert Schedule(m, 63) == 0x6AA6_0A39 by { Extend(m, 63, 0x1A3D_D097, 0x8AC8_30CE, 0x0B70_6583, 0x6F65_C997, 0x6AA6_0A39); }
  }

  lemma First8(h: Words, m: seq<bv32>)
    requires FirstBlock(h, m)
    ensures Rounds(h, m, 8) == Words(0xD237_E6DB, 0x4858_35B7, 0x55C8_EF48, 0xF921_C212,
                                     0xA401_D211, 0x39A5_B2CA, 0x7FF9_1C94, 0x05C4_F88A)
  {
    hide Rounds, Schedule;
    NoRounds(h, m);
    var r := h;
    FirstWords8(h, m);
    r := After(h, m, 0, r, 0x6162_6364, 0x5D6A_EBB1, 0xFA2A_4606);
    r := After(h, m, 1, r, 0x6263_6465, 0x2F2D_5FCF, 0x4EB1_CFCE);
    r := After(h, m, 2, r, 0x6364_6566, 0x9765_1825, 0x62D5_C49E);
    r := After(h, m, 3, r, 0x6465_6667, 0x4A8D_64D5, 0x6494_841B);
    r := After(h, m, 4, r, 0x6566_6768, 0xF921_C212, 0x05C4_F88A);
    r := After(h, m, 5, r, 0x6667_6869, 0x55C8_EF48, 0x7FF9_1C94);
    r := After(h, m, 6, r, 0x6768_696A, 0x4858_35B7, 0x39A5_B2CA);
    r := After(h, m, 7, r, 0x6869_6A6B, 0xD237_E6DB, 0xA401_D211);
  }

  lemma First16(h: Words, m: seq<bv32>)
    requires FirstBlock(h, m)
    ensures Rounds(h, m, 16) == Words(0xC348_6194, 0xDD16_CBB3, 0xD68E_6457, 0x101A_4861,
                                     0x1496_A54F, 0x9162_ADED, 0x9243_F8AF, 0x839A_0FC9)
  {
    hide Rounds, Schedule;
    First8(h, m);
    var r := Rounds(h, m, 8);
    FirstWords16(h, m);
    r := After(h, m, 8, r, 0x696A_6B6C, 0x359F_2BCE, 0xC09F_FEC4);
    r := After(h, m, 9, r, 0x6A6B_6C6D, 0x3A47_4B2B, 0x9037_B3B8);
    r := After(h, m, 10, r, 0x6B6C_6D6E, 0xB8E2_B4CB, 0x443E_D29E);
    r := After(h, m, 11, r, 0x6C6D_6E6F, 0x1762_215C, 0xEE1C_97A8);
    r := After(h, m, 12, r, 0x6D6E_6F70, 0x101A_4861, 0x839A_0FC9);
    r := After(h, m, 13, r, 0x6E6F_7071, 0xD68E_6457, 0x9243_F8AF);
    r := After(h, m, 14, r, 0x8000_0000, 0xDD16_CBB3, 0x9162_ADED);
    r := After(h, m, 15, r, 0x0000_0000, 0xC348_6194, 0x1496_A54F);
  }

  lemma First24(h: Words, m: seq<bv32>)
    requires FirstBlock(h, m)
    ensures Rounds(h, m, 24) == Words(0x59FC_E6B9, 0xAE2E_2D4F, 0x1B2B_66B8, 0xD70A_C17D,
                                     0xA2C7_D51D, 0xF074_FC95, 0xD560_B028, 0x7CC6_B262)
  {
    hide Rounds, Schedule;
    First16(h, m);
    var r := Rounds(h, m, 16);
    FirstWords24(h, m);
    r := After(h, m, 16, r, 0xEB80_12AD, 0xB9DC_ACB1, 0xD4F6_4250);
    r := After(h, m, 17, r, 0xA7C3_AE92, 0x046A_193E, 0x8853_70B6);
    r := After(h, m, 18, r, 0x76E9_3BA2, 0xF402_F058, 0x6F43_3549);
    r := After(h, m, 19, r, 0xBA42_E743, 0x2139_187B, 0x7C30_4206);
    r := After(h, m, 20, r, 0x92A9_2204, 0xD70A_C17D, 0x7CC6_B262);
    r := After(h, m, 21, r, 0xD847_E75E, 0x1B2B_66B8, 0xD560_B028);
    r := After(h, m, 22, r, 0x9E16_0036, 0xAE2E_2D4F, 0xF074_FC95);
    r := After(h, m, 23, r, 0xB280_A7CB, 0x59FC_E6B9, 0xA2C7_D51D);
  }

  lemma First32(h: Words, m: seq<bv32>)
    requires FirstBlock(h, m)
    ensures Rounds(h, m, 32) == Words(0x5581_AB07, 0xEB43_F3ED, 0xDF71_51A0, 0x74BC_F468,
                                     0xDF98_0085, 0x0635_D880, 0x7629_C961, 0x72AB_AECD)
  {
    hide Rounds, Schedule;
    First24(h, m);
    var r := Rounds(h, m, 24);
    FirstWords32(h, m);
    r := After(h, m, 24, r, 0xDDEB_1516, 0x4A88_5065, 0x7635_97FB);
    r := After(h, m, 25, r, 0xF365_86F4, 0x5732_21DA, 0x36E7_4EB4);
    r := After(h, m, 26, r, 0x969C_D048, 0x1286_61DA, 0x1162_D575);
    r := After(h, m, 27, r, 0xE959_D99D, 0x73F8_58AF, 0xE77C_797F);
    r := After(h, m, 28, r, 0x6ACC_C0EC, 0x74BC_F468, 0x72AB_AECD);
    r := After(h, m, 29, r, 0xF54C_B098, 0xDF71_51A0, 0x7629_C961);
    r := After(h, m, 30, r, 0x2AF1_B2DA, 0xEB43_F3ED, 0x0635_D880);
    r := After(h, m, 31, r, 0xEE59_C4C9, 0x5581_AB07, 0xDF98_0085);
  }

  lemma First40(h: Words, m: seq<bv32>)
    requires FirstBlock(h, m)
    ensures Rounds(h, m, 40) == Words(0x7E4D_30B8, 0x91AC_9D5D, 0xA985_B4BE, 0x2C55_D3A6,
                                     0x9F5B_9B6D, 0x68D8_D590, 0xF72B_F353, 0xB067_C1AF)
  {
    hide Rounds, Schedule;
    First32(h, m);
    var r := Rounds(h, m, 32);
    FirstWords40(h, m);
    r := After(h, m, 32, r, 0xA835_E16A, 0x9FC9_05C8, 0xA94D_2AF1);
    r := After(h, m, 33, r, 0x1DFF_4429, 0x9CE5_A62F, 0x6EF3_B6BD);
    r := After(h, m, 34, r, 0xD6E1_5959, 0x1DF8_E885, 0x2A9E_048E);
    r := After(h, m, 35, r, 0xC397_CD6E, 0x0786_DCE8, 0xDE2A_21D1);
    r := After(h, m, 36, r, 0x6F18_01CA, 0x2C55_D3A6, 0xB067_C1AF);
    r := After(h, m, 37, r, 0x2157_4205, 0xA985_B4BE, 0xF72B_F353);
    r := After(h, m, 38, r, 0x35FF_7A84, 0x91AC_9D5D, 0x68D8_D590);
    r := After(h, m, 39, r, 0x9743_EE78, 0x7E4D_30B8, 0x9F5B_9B6D);
  }

  lemma First48(h: Words, m: seq<bv32>)
    requires FirstBlock(h, m)
    ensures Rounds(h, m, 48) == Words(0x13D8_2741, 0x165B_E9CD, 0x18F0_D19D, 0xDE71_E2F2,
                                     0xA780_2A4D, 0xA483_F080, 0x6B88_472C, 0xFF61_C636)
  {
    hide Rounds, Schedule;
    First40(h, m);
    var r := Rounds(h, m, 40);
    FirstWords48(h, m);
    r := After(h, m, 40, r, 0xE441_83E7, 0x7E05_6794, 0x423B_26C0);
    r := After(h, m, 41, r, 0x0D09_F00D, 0x508A_16AB, 0x4545_9D97);
    r := After(h, m, 42, r, 0x9C89_AF54, 0xB62C_7013, 0x80A9_2A00);
    r := After(h, m, 43, r, 0x042D_5BEF, 0x1673_61DE, 0x41DD_3844);
    r := After(h, m, 44, r, 0x71F1_34D0, 0xDE71_E2F2, 0xFF61_C636);
    r := After(h, m, 45, r, 0x0F94_F463, 0x18F0_D19D, 0x6B88_472C);
    r := After(h, m, 46, r, 0x7E49_DC63, 0x165B_E9CD, 0xA483_F080);
    r := After(h, m, 47, r, 0x6F65_C997, 0x13D8_2741, 0xA780_2A4D);
  }

  lemma First56(h: Words, m: seq<bv32>)
    requires FirstBlock(h, m)
    ensures Rounds(h, m, 56) == Words(0x9E57_C4A0, 0xF907_B313, 0x1D6D_E87A, 0xB8D5_5619,
                                     0xEEC1_3548, 0x61A4_1711, 0x3443_BED4, 0x1C80_6A61)
  {
    hide Rounds, Schedule;
    First48(h, m);
    var r := Rounds(h, m, 48);
    FirstWords56(h, m);
    r := After(h, m, 48, r, 0x0B70_6583, 0x017B_9D99, 0xAEB1_0B60);
    r := After(h, m, 49, r, 0x1793_12CA, 0x543C_99A1, 0x16F1_34B6);
    r := After(h, m, 50, r, 0x5030_54E9, 0x758C_A97A, 0x100C_F2EA);
    r := After(h, m, 51, r, 0xBA12_5C39, 0x81C1_CDE0, 0x5C47_EB7B);
    r := After(h, m, 52, r, 0x7E93_92C9, 0xB8D5_5619, 0x1C80_6A61);
    r := After(h, m, 53, r, 0xD5CB_AA1E, 0x1D6D_E87A, 0x3443_BED4);
    r := After(h, m, 54, r, 0x78E0_585D, 0xF907_B313, 0x61A4_1711);
    r := After(h, m, 55, r, 0xF6E7_611C, 0x9E57_C4A0, 0xEEC1_3548);
  }

  lemma First64(h: Words, m: seq<bv32>)
    requires FirstBlock(h, m)
    ensures Rounds(h, m, 64) == Words(0x1BDC_6F6F, 0x8612_6910, 0xF6F4_43F8, 0xBCFC_E922,
                                     0x25D2_430A, 0x2FC0_8F85, 0xACC7_5916, 0x962D_8621)
  {
    hide Rounds, Schedule;
    First56(h, m);
    var r := Rounds(h, m, 56);
    FirstWords64(h, m);
    r := After(h, m, 56, r, 0x8AC8_30CE, 0x7162_9856, 0x2F6C_8C4E);
    r := After(h, m, 57, r, 0x8B47_A303, 0x7C01_5A2C, 0xCB9D_3DD0);
    r := After(h, m, 58, r, 0xFD6E_627F, 0x921F_CCB6, 0x43D8_A034);
    r := After(h, m, 59, r, 0x8C6E_2C6A, 0xE18F_259A, 0x51E1_5869);
    r := After(h, m, 60, r, 0x4001_ADF1, 0xBCFC_E922, 0x962D_8621);
    r := After(h, m, 61, r, 0x1A3D_D097, 0xF6F4_43F8, 0xACC7_5916);
    r := After(h, m, 62, r, 0xA9DF_6F62, 0x8612_6910, 0x2FC0_8F85);
    r := After(h, m, 63, r, 0x6AA6_0A39, 0x1BDC_6F6F, 0x25D2_430A);
  }

  // ---------- the second block ----------

  predicate SecondBlock(h: Words, m: seq<bv32>) {
    && h == Words(0x85E6_55D6, 0x417A_1795, 0x3363_376A, 0x624C_DE5C,
                  0x76E0_9589, 0xCAC5_F811, 0xCC4B_32C1, 0xF20E_533A)
    && |m| == 16
    && m[0] == 0x0000_0000 && m[1] == 0x0000_0000 && m[2] == 0x0000_0000 && m[3] == 0x0000_0000
    && m[4] == 0x0000_0000 && m[5] == 0x0000_0000 && m[6] == 0x0000_0000 && m[7] == 0x0000_0000
    && m[8] == 0x0000_0000 && m[9] == 0x0000_0000 && m[10] == 0x0000_0000 && m[11] == 0x0000_0000
    && m[12] == 0x0000_0000 && m[13] == 0x0000_0000 && m[14] == 0x0000_0000 && m[15] == 0x0000_01C0
  }

  lemma SecondWords8(h: Words, m: seq<bv32>)
    requires SecondBlock(h, m)
    ensures Schedule(m, 0) == 0x0000_0000 && Schedule(m, 1) == 0x0000_0000
    ensures Schedule(m, 2) == 0x0000_0000 && Schedule(m, 3) == 0x0000_0000
    ensures Schedule(m, 4) == 0x0000_0000 && Schedule(m, 5) == 0x0000_0000
    ensures Schedule(m, 6) == 0x0000_0000 && Schedule(m, 7) == 0x0000_0000
  {
  }

  lemma SecondWords16(h: Words, m: seq<bv32>)
    requires SecondBlock(h, m)
    ensures Schedule(m, 8) == 0x0000_0000 && Schedule(m, 9) == 0x0000_0000
    ensures Schedule(m, 10) == 0x0000_0000 && Schedule(m, 11) == 0x0000_0000
    ensures Schedule(m, 12) == 0x0000_0000 && Schedule(m, 13) == 0x0000_0000
    ensures Schedule(m, 14) == 0x0000_0000 && Schedule(m, 15) == 0x0000_01C0
  {
  }

  lemma SecondWords24(h: Words, m: seq<bv32>)
    requires SecondBlock(h, m)
    ensures Schedule(m, 16) == 0x0000_0000 && Schedule(m, 17) == 0x00D8_0000
    ensures Schedule(m, 18) == 0x0000_0000 && Schedule(m, 19) == 0x0000_3677
    ensures Schedule(m, 20) == 0x0000_0000 && Schedule(m, 21) == 0x1DF5_600D
    ensures Schedule(m, 22) == 0x0000_01C0 && Schedule(m, 23) == 0x1C00_501C
  {
    hide Schedule;
    SecondWords8(h, m);
    SecondWords16(h, m);
    assert Schedule(m, 16) == 0x0000_0000 by { Extend(m, 16, 0x0000_0000, 0x0000_0000, 0x0000_0000, 0x0000_0000, 0x0000_0000); }
    assert Schedule(m, 17) == 0x00D8_0000 by { Extend(m, 17, 0x0000_01C0, 0x0000_0000, 0x0000_0000, 0x0000_0000, 0x00D8_0000); }
    assert Schedule(m, 18) == 0x0000_0000 by { Extend(m, 18, 0x0000_0000, 0x0000_0000, 0x0000_0000, 0x0000_0000, 0x0000_0000); }
    assert Schedule(m, 19) == 0x0000_3677 by { Extend(m, 19, 0x00D8_0000, 0x0000_0000, 0x0000_0000, 0x0000_0000, 0x0000_3677); }
    assert Schedule(m, 20) == 0x0000_0000 by { Extend(m, 20, 0x0000_0000, 0x0000_0000, 0x0000_0000, 0x0000_0000, 0x0000_0000); }
    assert Schedule(m, 21) == 0x1DF5_600D by { Extend(m, 21, 0x0000_3677, 0x0000_0000, 0x0000_0000, 0x0000_0000, 0x1DF5_600D); }
    assert Schedule(m, 22) == 0x0000_01C0 by { Extend(m, 22, 0x0000_0000, 0x0000_01C0, 0x0000_0000, 0x0000_0000, 0x0000_01C0); }
    assert Schedule(m, 23) == 0x1C00_501C by { Extend(m, 23, 0x1DF5_600D, 0x0000_0000, 0x0000_0000, 0x0000_0000, 0x1C00_501C); }
  }

  lemma SecondWords32(h: Words, m: seq<bv32>)
    requires SecondBlock(h, m)
    ensures Schedule(m, 24) == 0x01B0_0000 && Schedule(m, 25) == 0x220A_8D94
    ensures Schedule(m, 26) == 0x0000_A365 && Schedule(m, 27) == 0x1770_17E7
    ensures Schedule(m, 28) == 0x63D3_8035 && Schedule(m, 29) == 0x090A_B713
    ensures Schedule(m, 30) == 0x4C75_39CA && Schedule(m, 31) == 0x0F19_A8C9
  {
    hide Schedule;
    SecondWords16(h, m);
    SecondWords24(h, m);
    assert Schedule(m, 24) == 0x01B0_0000 by { Extend(m, 24, 0x0000_01C0, 0x00D8_0000, 0x0000_0000, 0x0000_0000, 0x01B0_0000); }
    assert Schedule(m, 25) == 0x220A_8D94 by { Extend(m, 25, 0x1C00_501C, 0x0000_0000, 0x0000_0000, 0x0000_0000, 0x220A_8D94); }
    assert Schedule(m, 26) == 0x0000_A365 by { Extend(m, 26, 0x01B0_0000, 0x0000_3677, 0x0000_0000, 0x0000_0000, 0x0000_A365); }
    assert Schedule(m, 27) == 0x1770_17E7 by { Extend(m, 27, 0x220A_8D94, 0x0000_0000, 0x0000_0000, 0x0000_0000, 0x1770_17E7); }
    assert Schedule(m, 28) == 0x63D3_8035 by { Extend(m, 28, 0x0000_A365, 0x1DF5_600D, 0x0000_0000, 0x0000_0000, 0x63D3_8035); }
    assert Schedule(m, 29) == 0x090A_B713 by { Extend(m, 29, 0x1770_17E7, 0x0000_01C0, 0x0000_0000, 0x0000_0000, 0x090A_B713); }
    assert Schedule(m, 30) == 0x4C75_39CA by { Extend(m, 30, 0x63D3_8035, 0x1C00_501C, 0x0000_01C0, 0x0000_0000, 0x4C75_39CA); }
    assert Schedule(m, 31) == 0x0F19_A8C9 by { Extend(m, 31, 0x090A_B713, 0x01B0_0000, 0x0000_0000, 0x0000_01C0, 0x0F19_A8C9); }
  }

  lemma SecondWords40(h: Words, m: seq<bv32>)
    requires SecondBlock(h, m)
    ensures Schedule(m, 32) == 0x5DF4_B0C4 && Schedule(m, 33) == 0xE257_036A
    ensures Schedule(m, 34) == 0xC97B_B6F1 && Schedule(m, 35) == 0xC5B4_6F4D
    ensures Schedule(m, 36) == 0xF825_3C4E && Schedule(m, 37) == 0xA558_D189
    ensures Schedule(m, 38) == 0x7869_6285 && Schedule(m, 39) == 0xED07_117F
  {
    hide Schedule;
    SecondWords24(h, m);
    SecondWords32(h, m);
    assert Schedule(m, 32) == 0x5DF4_B0C4 by { Extend(m, 32, 0x4C75_39CA, 0x220A_8D94, 0x00D8_0000, 0x0000_0000, 0x5DF4_B0C4); }
    assert Schedule(m, 33) == 0xE257_036A by { Extend(m, 33, 0x0F19_A8C9, 0x0000_A365, 0x0000_0000, 0x00D8_0000, 0xE257_036A); }
    assert Schedule(m, 34) == 0xC97B_B6F1 by { Extend(m, 34, 0x5DF4_B0C4, 0x1770_17E7, 0x0000_3677, 0x0000_0000, 0xC97B_B6F1); }
    assert Schedule(m, 35) == 0xC5B4_6F4D by { Extend(m, 35, 0xE257_036A, 0x63D3_8035, 0x0000_0000, 0x0000_3677, 0xC5B4_6F4D); }
    assert Schedule(m, 36) == 0xF825_3C4E by { Extend(m, 36, 0xC97B_B6F1, 0x090A_B713, 0x1DF5_600D, 0x0000_0000, 0xF825_3C4E); }
    assert Schedule(m, 37) == 0xA558_D189 by { Extend(m, 37, 0xC5B4_6F4D, 0x4C75_39CA, 0x0000_01C0, 0x1DF5_600D, 0xA558_D189); }
    assert Schedule(m, 38) == 0x7869_6285 by { Extend(m, 38, 0xF825_3C4E, 0x0F19_A8C9, 0x1C00_501C, 0x0000_01C0, 0x7869_6285); }
    assert Schedule(m, 39) == 0xED07_117F by { Extend(m, 39, 0xA558_D189, 0x5DF4_B0C4, 0x01B0_0000, 0x1C00_501C, 0xED07_117F); }
  }

  lemma SecondWords48(h: Words, m: seq<bv32>)
    requires SecondBlock(h, m)
    ensures Schedule(m, 40) == 0x1073_58F6 && Schedule(m, 41) == 0x390A_E496
    ensures Schedule(m, 42) == 0x5650_10A2 && Schedule(m, 43) == 0xC51D_7D44
    ensures Schedule(m, 44) == 0x9E74_C972 && Schedule(m, 45) == 0x6614_B561
    ensures Schedule(m, 46) == 0x30FC_129D && Schedule(m, 47) == 0x9AC6_84A8
  {
    hide Schedule;
    SecondWords32(h, m);
    SecondWords40(h, m);
    assert Schedule(m, 40) == 0x1073_58F6 by { Extend(m, 40, 0x7869_6285, 0xE257_036A, 0x220A_8D94, 0x01B0_0000, 0x1073_58F6); }
    assert Schedule(m, 41) == 0x390A_E496 by { Extend(m, 41, 0xED07_117F, 0xC97B_B6F1, 0x0000_A365, 0x220A_8D94, 0x390A_E496); }
    assert Schedule(m, 42) == 0x5650_10A2 by { Extend(m, 42, 0x1073_58F6, 0xC5B4_6F4D, 0x1770_17E7, 0x0000_A365, 0x5650_10A2); }
    assert Schedule(m, 43) == 0xC51D_7D44 by { Extend(m, 43, 0x390A_E496, 0xF825_3C4E, 0x63D3_8035, 0x1770_17E7, 0xC51D_7D44); }
    assert Schedule(m, 44) == 0x9E74_C972 by { Extend(m, 44, 0x5650_10A2, 0xA558_D189, 0x090A_B713, 0x63D3_8035, 0x9E74_C972); }
    assert Schedule(m, 45) == 0x6614_B561 by { Extend(m, 45, 0xC51D_7D44, 0x7869_6285, 0x4C75_39CA, 0x090A_B713, 0x6614_B561); }
    assert Schedule(m, 46) == 0x30FC_129D by { Extend(m, 46, 0x9E74_C972, 0xED07_117F, 0x0F19_A8C9, 0x4C75_39CA, 0x30FC_129D); }
    assert Schedule(m, 47) == 0x9AC6_84A8 by { Extend(m, 47, 0x6614_B561, 0x1073_58F6, 0x5DF4_B0C4, 0x0F19_A8C9, 0x9AC6_84A8); }
  }

  lemma SecondWords56(h: Words, m: seq<bv32>)
    requires SecondBlock(h, m)
    ensures Schedule(m, 48) == 0x2B65_8DBD && Schedule(m, 49) == 0xE290_F793
    ensures Schedule(m, 50) == 0x9EEB_B24C && Schedule(m, 51) == 0x9713_B5DE
    ensures Schedule(m, 52) == 0x4106_1AB7 && Schedule(m, 53) == 0xE022_E23B
    ensures Schedule(m, 54) == 0x0772_079E && Schedule(m, 55) == 0x7DE2_2D9C
  {
    hide Schedule;
    SecondWords40(h, m);
    SecondWords48(h, m);
    assert Schedule(m, 48) == 0x2B65_8DBD by { Extend(m, 48, 0x30FC_129D, 0x390A_E496, 0xE257_036A, 0x5DF4_B0C4, 0x2B65_8DBD); }
    assert Schedule(m, 49) == 0xE290_F793 by { Extend(m, 49, 0x9AC6_84A8, 0x5650_10A2, 0xC97B_B6F1, 0xE257_036A, 0xE290_F793); }
    assert Schedule(m, 50) == 0x9EEB_B24C by { Extend(m, 50, 0x2B65_8DBD, 0xC51D_7D44, 0xC5B4_6F4D, 0xC97B_B6F1, 0x9EEB_B24C); }
    assert Schedule(m, 51) == 0x9713_B5DE by { Extend(m, 51, 0xE290_F793, 0x9E74_C972, 0xF825_3C4E, 0xC5B4_6F4D, 0x9713_B5DE); }
    assert Schedule(m, 52) == 0x4106_1AB7 by { Extend(m, 52, 0x9EEB_B24C, 0x6614_B561, 0xA558_D189, 0xF825_3C4E, 0x4106_1AB7); }
    assert Schedule(m, 53) == 0xE022_E23B by { Extend(m, 53, 0x9713_B5DE, 0x30FC_129D, 0x7869_6285, 0xA558_D189, 0xE022_E23B); }
    assert Schedule(m, 54) == 0x0772_079E by { Extend(m, 54, 0x4106_1AB7, 0x9AC6_84A8, 0xED07_117F, 0x7869_6285, 0x0772_079E); }
    assert Schedule(m, 55) == 0x7DE2_2D9C by { Extend(m, 55, 0xE022_E23B, 0x2B65_8DBD, 0x1073_58F6, 0xED07_117F, 0x7DE2_2D9C); }
  }

  lemma SecondWords64(h: Words, m: seq<bv32>)
    requires SecondBlock(h, m)
    ensures Schedule(m, 56) == 0xC8B8_3778 && Schedule(m, 57) == 0x75A7_9849
    ensures Schedule(m, 58) == 0xD93D_BDDB && Schedule(m, 59) == 0x0A03_6C9D
    ensures Schedule(m, 60) == 0xCB4F_6AC6 && Schedule(m, 61) == 0x823F_97E2
    ensures Schedule(m, 62) == 0xEA2F_2A7A && Schedule(m, 63) == 0xB901_8B52
  {
    hide Schedule;
    SecondWords48(h, m);
    SecondWords56(h, m);
    assert Schedule(m, 56) == 0xC8B8_3778 by { Extend(m, 56, 0x0772_079E, 0xE290_F793, 0x390A_E496, 0x1073_58F6, 0xC8B8_3778); }
    assert Schedule(m, 57) == 0x75A7_9849 by { Extend(m, 57, 0x7DE2_2D9C, 0x9EEB_B24C, 0x5650_10A2, 0x390A_E496, 0x75A7_9849); }
    assert Schedule(m, 58) == 0xD93D_BDDB by { Extend(m, 58, 0xC8B8_3778, 0x9713_B5DE, 0xC51D_7D44, 0x5650_10A2, 0xD93D_BDDB); }
    assert Schedule(m, 59) == 0x0A03_6C9D by { Extend(m, 59, 0x75A7_9849, 0x4106_1AB7, 0x9E74_C972, 0xC51D_7D44, 0x0A03_6C9D); }
    assert Schedule(m, 60) == 0xCB4F_6AC6 by { Extend(m, 60, 0xD93D_BDDB, 0xE022_E23B, 0x6614_B561, 0x9E74_C972, 0xCB4F_6AC6); }
    assert Schedule(m, 61) == 0x823F_97E2 by { Extend(m, 61, 0x0A03_6C9D, 0x0772_079E, 0x30FC_129D, 0x6614_B561, 0x823F_97E2); }
    assert Schedule(m, 62) == 0xEA2F_2A7A by { Extend(m, 62, 0xCB4F_6AC6, 0x7DE2_2D9C, 0x9AC6_84A8, 0x30FC_129D, 0xEA2F_2A7A); }
    assert Schedule(m, 63) == 0xB901_8B52 by { Extend(m, 63, 0x823F_97E2, 0xC8B8_3778, 0x2B65_8DBD, 0x9AC6_84A8, 0xB901_8B52); }
  }

  lemma Second8(h: Words, m: seq<bv32>)
    requires SecondBlock(h, m)
    ensures Rounds(h, m, 8) == Words(0xBF9A_93A0, 0x89BB_A3F1, 0x3EEB_6C06, 0x185A_5D79,
                                     0x059A_BDD1, 0x0A34_DF03, 0xFE20_CDA6, 0x8DFF_3001)
  {
    hide Rounds, Schedule;
    NoRounds(h, m);
    var r := h;
    SecondWords8(h, m);
    r := After(h, m, 0, r, 0x0000_0000, 0x7C20_C838, 0x4670_AE6E);
    r := After(h, m, 1, r, 0x0000_0000, 0x7C3C_0F86, 0x8C51_BE64);
    r := After(h, m, 2, r, 0x0000_0000, 0xFD1E_EBDC, 0xAF71_B9EA);
    r := After(h, m, 3, r, 0x0000_0000, 0xF268_FAA9, 0xE203_62EF);
    r := After(h, m, 4, r, 0x0000_0000, 0x185A_5D79, 0x8DFF_3001);
    r := After(h, m, 5, r, 0x0000_0000, 0x3EEB_6C06, 0xFE20_CDA6);
    r := After(h, m, 6, r, 0x0000_0000, 0x89BB_A3F1, 0x0A34_DF03);
    r := After(h, m, 7, r, 0x0000_0000, 0xBF9A_93A0, 0x059A_BDD1);
  }

  lemma Second16(h: Words, m: seq<bv32>)
    requires SecondBlock(h, m)
    ensures Rounds(h, m, 16) == Words(0x16A8_CC79, 0x0CEA_5CBC, 0xD740_80FA, 0x35EE_996D,
                                     0x0FCB_1F6F, 0x6035_6548, 0x68AA_893F, 0x5C24_E2A2)
  {
    hide Rounds, Schedule;
    Second8(h, m);
    var r := Rounds(h, m, 8);
    SecondWords16(h, m);
    r := After(h, m, 8, r, 0x0000_0000, 0x2C09_6744, 0xABFA_465B);
    r := After(h, m, 9, r, 0x0000_0000, 0x2D96_4E86, 0xAA27_ED82);
    r := After(h, m, 10, r, 0x0000_0000, 0x5B35_025B, 0x10E7_7723);
    r := After(h, m, 11, r, 0x0000_0000, 0x5EB4_EC40, 0xE11B_4548);
    r := After(h, m, 12, r, 0x0000_0000, 0x35EE_996D, 0x5C24_E2A2);
    r := After(h, m, 13, r, 0x0000_0000, 0xD740_80FA, 0x68AA_893F);
    r := After(h, m, 14, r, 0x0000_0000, 0x0CEA_5CBC, 0x6035_6548);
    r := After(h, m, 15, r, 0x0000_01C0, 0x16A8_CC79, 0x0FCB_1F6F);
  }

  lemma Second24(h: Words, m: seq<bv32>)
    requires SecondBlock(h, m)
    ensures Rounds(h, m, 24) == Words(0xA419_5B91, 0xF13A_E55B, 0xD44D_C81A, 0x20AA_D899,
                                     0xEDDB_D6ED, 0x966A_A287, 0x5BAC_E62D, 0xCC47_69F2)
  {
    hide Rounds, Schedule;
    Second16(h, m);
    var r := Rounds(h, m, 16);
    SecondWords24(h, m);
    r := After(h, m, 16, r, 0x0000_0000, 0xF16F_634E, 0x8B21_CDC1);
    r := After(h, m, 17, r, 0x00D8_0000, 0x23DC_B6C2, 0xCA91_82D3);
    r := After(h, m, 18, r, 0x0000_0000, 0xDCFF_40FD, 0x69BF_7B95);
    r := After(h, m, 19, r, 0x0000_3677, 0x76F1_A2BC, 0x0DC8_4BB1);
    r := After(h, m, 20, r, 0x0000_0000, 0x20AA_D899, 0xCC47_69F2);
    r := After(h, m, 21, r, 0x1DF5_600D, 0xD44D_C81A, 0x5BAC_E62D);
    r := After(h, m, 22, r, 0x0000_01C0, 0xF13A_E55B, 0x966A_A287);
    r := After(h, m, 23, r, 0x1C00_501C, 0xA419_5B91, 0xEDDB_D6ED);
  }

  lemma Second32(h: Words, m: seq<bv32>)
    requires SecondBlock(h, m)
    ensures Rounds(h, m, 32) == Words(0xB0EA_B1C5, 0x02EF_3A5F, 0x1CFA_5EB0, 0xD958_B529,
                                     0xF6D9_3952, 0x5DA1_0665, 0x6C49_DB9F, 0xC2FA_99B1)
  {
    hide Rounds, Schedule;
    Second24(h, m);
    var r := Rounds(h, m, 24);
    SecondWords32(h, m);
    r := After(h, m, 24, r, 0x01B0_0000, 0x4984_FA79, 0xA530_D939);
    r := After(h, m, 25, r, 0x220A_8D94, 0xAA6C_B982, 0x0B5E_EEA4);
    r := After(h, m, 26, r, 0x0000_A365, 0x9450_FBBC, 0x0916_6DDA);
    r := After(h, m, 27, r, 0x1770_17E7, 0x0D93_6BAB, 0x6E49_5D4B);
    r := After(h, m, 28, r, 0x63D3_8035, 0xD958_B529, 0xC2FA_99B1);
    r := After(h, m, 29, r, 0x090A_B713, 0x1CFA_5EB0, 0x6C49_DB9F);
    r := After(h, m, 30, r, 0x4C75_39CA, 0x02EF_3A5F, 0x5DA1_0665);
    r := After(h, m, 31, r, 0x0F19_A8C9, 0xB0EA_B1C5, 0xF6D9_3952);
  }

  lemma Second40(h: Words, m: seq<bv32>)
    requires SecondBlock(h, m)
    ensures Rounds(h, m, 40) == Words(0x221B_8A5A, 0xADCA_7A96, 0xD949_682B, 0x2F11_C939,
                                     0x0B82_C5EB, 0xC6CC_E4FF, 0x32D9_9008, 0xFED4_CE1D)
  {
    hide Rounds, Schedule;
    Second32(h, m);
    var r := Rounds(h, m, 32);
    SecondWords40(h, m);
    r := After(h, m, 32, r, 0x5DF4_B0C4, 0x0BFB_A73C, 0x8B99_E3A9);
    r := After(h, m, 33, r, 0xE257_036A, 0x4BD1_DF96, 0x905E_44AC);
    r := After(h, m, 34, r, 0xC97B_B6F1, 0x9907_F1B6, 0x66C3_043D);
    r := After(h, m, 35, r, 0xC5B4_6F4D, 0xECDE_4E0D, 0x5DC1_19E6);
    r := After(h, m, 36, r, 0xF825_3C4E, 0x2F11_C939, 0xFED4_CE1D);
    r := After(h, m, 37, r, 0xA558_D189, 0xD949_682B, 0x32D9_9008);
    r := After(h, m, 38, r, 0x7869_6285, 0xADCA_7A96, 0xC6CC_E4FF);
    r := After(h, m, 39, r, 0xED07_117F, 0x221B_8A5A, 0x0B82_C5EB);
  }

  lemma Second48(h: Words, m: seq<bv32>)
    requires SecondBlock(h, m)
    ensures Rounds(h, m, 48) == Words(0xD735_4D5B, 0x0B33_03A7, 0x104A_7DB4, 0x0F15_4E11,
                                     0xAAD5_5B6B, 0xBBE1_C39A, 0x5348_E8F6, 0x6F95_17CB)
  {
    hide Rounds, Schedule;
    Second40(h, m);
    var r := Rounds(h, m, 40);
    SecondWords48(h, m);
    r := After(h, m, 40, r, 0x1073_58F6, 0x12D9_7845, 0xE421_3CA2);
    r := After(h, m, 41, r, 0x390A_E496, 0x2C79_4876, 0xFF67_59BA);
    r := After(h, m, 42, r, 0x5650_10A2, 0x8300_FCA2, 0xE0E3_457C);
    r := After(h, m, 43, r, 0xC51D_7D44, 0xF2AD_6322, 0xCC48_C7F3);
    r := After(h, m, 44, r, 0x9E74_C972, 0x0F15_4E11, 0x6F95_17CB);
    r := After(h, m, 45, r, 0x6614_B561, 0x104A_7DB4, 0x5348_E8F6);
    r := After(h, m, 46, r, 0x30FC_129D, 0x0B33_03A7, 0xBBE1_C39A);
    r := After(h, m, 47, r, 0x9AC6_84A8, 0xD735_4D5B, 0xAAD5_5B6B);
  }

  lemma Second56(h: Words, m: seq<bv32>)
    requires SecondBlock(h, m)
    ensures Rounds(h, m, 56) == Words(0x9295_2710, 0xD9F0_C115, 0xEC02_560A, 0x4ECA_6FA0,
                                     0x2268_06D6, 0x6241_50C4, 0x7151_DF8E, 0x989E_D071)
  {
    hide Rounds, Schedule;
    Second48(h, m);
    var r := Rounds(h, m, 48);
    SecondWords56(h, m);
    r := After(h, m, 48, r, 0x2B65_8DBD, 0xB736_D7A6, 0x68F2_5260);
    r := After(h, m, 49, r, 0xE290_F793, 0x2748_E5EC, 0xD4B5_8576);
    r := After(h, m, 50, r, 0x9EEB_B24C, 0xD8AA_BCF9, 0x2784_4711);
    r := After(h, m, 51, r, 0x9713_B5DE, 0x1A6B_CF6A, 0xFF5E_99D0);
    r := After(h, m, 52, r, 0x4106_1AB7, 0x4ECA_6FA0, 0x989E_D071);
    r := After(h, m, 53, r, 0xE022_E23B, 0xEC02_560A, 0x7151_DF8E);
    r := After(h, m, 54, r, 0x0772_079E, 0xD9F0_C115, 0x6241_50C4);
    r := After(h, m, 55, r, 0x7DE2_2D9C, 0x9295_2710, 0x2268_06D6);
  }

  lemma Second64(h: Words, m: seq<bv32>)
    requires SecondBlock(h, m)
    ensures Rounds(h, m, 64) == Words(0x9EA7_148B, 0x908C_2123, 0xB25C_EF29, 0xA9F1_81DD,
                                     0x2C5C_4ED0, 0x9A39_2956, 0x2AA1_BB13, 0x27CC_B387)
  {
    hide Rounds, Schedule;
    Second56(h, m);
    var r := Rounds(h, m, 56);
    SecondWords64(h, m);
    r := After(h, m, 56, r, 0xC8B8_3778, 0x20D4_D0E4, 0x4E51_5A4D);
    r := After(h, m, 57, r, 0x75A7_9849, 0x4348_EB1F, 0xC21E_DDF9);
    r := After(h, m, 58, r, 0xD93D_BDDB, 0x286F_E5F0, 0x5407_6664);
    r := After(h, m, 59, r, 0x0A03_6C9D, 0x1C4C_DDD9, 0xF487_A853);
    r := After(h, m, 60, r, 0xCB4F_6AC6, 0xA9F1_81DD, 0x27CC_B387);
    r := After(h, m, 61, r, 0x823F_97E2, 0xB25C_EF29, 0x2AA1_BB13);
    r := After(h, m, 62, r, 0xEA2F_2A7A, 0x908C_2123, 0x9A39_2956);
    r := After(h, m, 63, r, 0xB901_8B52, 0x9EA7_148B, 0x2C5C_4ED0);
  }
  /** abcd, bcde and so on to nopq. */
  const ALPHABETICAL: seq<bv8> := seq(56, i requires 0 <= i < 56 => Byte(0x61 + i / 4 + i % 4))

  lemma AlphabeticalPadded()
    ensures var p := Padded(ALPHABETICAL);
            && |p| == 128 && (forall i | 0 <= i < 56 :: p[i] == Byte(0x61 + i / 4 + i % 4)) && p[56] == 0x80
            && (forall i | 57 <= i < 126 :: p[i] == 0) && p[126] == 1 && p[127] == 192
  {
    hide BigEndianBytes, Byte;
    assert BigEndianBytes(448, 8) == BigEndianBytes(1, 7) + [Byte(192)] by { LastByte(448, 8); }
    SmallLength(1, 7);
    LengthBytesAre();
  }

  lemma LastByte(x: nat, count: nat)
    requires 0 < count
    ensures BigEndianBytes(x, count) == BigEndianBytes(x / 256, count - 1) + [Byte(x % 256)]
  {
  }

  lemma LengthBytesAre()
    ensures Byte(1) == 1 && Byte(192) == 192
  {
  }

  lemma Letters()
    ensures Byte(0x61) == 0x61 && Byte(0x62) == 0x62 && Byte(0x63) == 0x63 && Byte(0x64) == 0x64 && Byte(0x65) == 0x65 && Byte(0x66) == 0x66
    ensures Byte(0x67) == 0x67 && Byte(0x68) == 0x68 && Byte(0x69) == 0x69 && Byte(0x6A) == 0x6A && Byte(0x6B) == 0x6B && Byte(0x6C) == 0x6C
    ensures Byte(0x6D) == 0x6D && Byte(0x6E) == 0x6E && Byte(0x6F) == 0x6F && Byte(0x70) == 0x70 && Byte(0x71) == 0x71
  {
  }

  lemma FourLetters()
    ensures BigEndian(0x61, 0x62, 0x63, 0x64) == 0x6162_6364
    ensures BigEndian(0x62, 0x63, 0x64, 0x65) == 0x6263_6465
    ensures BigEndian(0x63, 0x64, 0x65, 0x66) == 0x6364_6566
    ensures BigEndian(0x64, 0x65, 0x66, 0x67) == 0x6465_6667
    ensures BigEndian(0x65, 0x66, 0x67, 0x68) == 0x6566_6768
    ensures BigEndian(0x66, 0x67, 0x68, 0x69) == 0x6667_6869
    ensures BigEndian(0x67, 0x68, 0x69, 0x6A) == 0x6768_696A
    ensures BigEndian(0x68, 0x69, 0x6A, 0x6B) == 0x6869_6A6B
    ensures BigEndian(0x69, 0x6A, 0x6B, 0x6C) == 0x696A_6B6C
    ensures BigEndian(0x6A, 0x6B, 0x6C, 0x6D) == 0x6A6B_6C6D
    ensures BigEndian(0x6B, 0x6C, 0x6D, 0x6E) == 0x6B6C_6D6E
    ensures BigEndian(0x6C, 0x6D, 0x6E, 0x6F) == 0x6C6D_6E6F
    ensures BigEndian(0x6D, 0x6E, 0x6F, 0x70) == 0x6D6E_6F70
    ensures BigEndian(0x6E, 0x6F, 0x70, 0x71) == 0x6E6F_7071
    ensures BigEndian(0x80, 0, 0, 0) == 0x8000_0000 && BigEndian(0, 0, 0, 0) == 0 && BigEndian(0, 0, 1, 192) == 0x1C0
  {
  }

  lemma FirstWords()
    ensures |Padded(ALPHABETICAL)| == 128 && FirstBlock(INITIAL, BlockWords(Padded(ALPHABETICAL)[..64]))
  {
    hide Padded, BigEndian, Byte;
    AlphabeticalPadded();
    Letters();
    FourLetters();
  }

  lemma SecondWords(h: Words)
    requires h == Words(0x85E6_55D6, 0x417A_1795, 0x3363_376A, 0x624C_DE5C,
                        0x76E0_9589, 0xCAC5_F811, 0xCC4B_32C1, 0xF20E_533A)
    ensures |Padded(ALPHABETICAL)| == 128 && SecondBlock(h, BlockWords(Padded(ALPHABETICAL)[64..]))
  {
    hide Padded, BigEndian, Byte;
    AlphabeticalPadded();
    FourLetters();
  }

  lemma FirstHash(m: seq<bv32>)
    requires FirstBlock(INITIAL, m)
    ensures AddWords(INITIAL, Rounds(INITIAL, m, 64)) == Words(0x85E6_55D6, 0x417A_1795, 0x3363_376A, 0x624C_DE5C,
                                                               0x76E0_9589, 0xCAC5_F811, 0xCC4B_32C1, 0xF20E_533A)
  {
    hide Rounds;
    First64(INITIAL, m);
  }

  lemma SecondHash(h: Words, m: seq<bv32>)
    requires SecondBlock(h, m)
    ensures AddWords(h, Rounds(h, m, 64)) == Words(0x248D_6A61, 0xD206_38B8, 0xE5C0_2693, 0x0C3E_6039,
                                                   0xA33C_E459, 0x64FF_2167, 0xF6EC_EDD4, 0x19DB_06C1)
  {
    hide Rounds;
    Second64(h, m);
  }

  lemma AlphabeticalBytes()
    ensures WordBytes(0x248D_6A61) == [0x24, 0x8D, 0x6A, 0x61] && WordBytes(0xD206_38B8) == [0xD2, 0x06, 0x38, 0xB8]
    ensures WordBytes(0xE5C0_2693) == [0xE5, 0xC0, 0x26, 0x93] && WordBytes(0x0C3E_6039) == [0x0C, 0x3E, 0x60, 0x39]
    ensures WordBytes(0xA33C_E459) == [0xA3, 0x3C, 0xE4, 0x59] && WordBytes(0x64FF_2167) == [0x64, 0xFF, 0x21, 0x67]
    ensures WordBytes(0xF6EC_EDD4) == [0xF6, 0xEC, 0xED, 0xD4] && WordBytes(0x19DB_06C1) == [0x19, 0xDB, 0x06, 0xC1]
  {
  }

  /** Appendix B.2. */
  lemma AlphabeticalDigest()
    ensures Sha256(ALPHABETICAL) == [0x24, 0x8D, 0x6A, 0x61, 0xD2, 0x06, 0x38, 0xB8, 0xE5, 0xC0, 0x26, 0x93, 0x0C, 0x3E, 0x60, 0x39,
                                     0xA3, 0x3C, 0xE4, 0x59, 0x64, 0xFF, 0x21, 0x67, 0xF6, 0xEC, 0xED, 0xD4, 0x19, 0xDB, 0x06, 0xC1]
  {
    hide Padded, BlockWords, Rounds, Chain, WordBytes, AddWords, FirstBlock, SecondBlock;
    FirstWords();
    var p := Padded(ALPHABETICAL);
    TwoBlocks(p);
    FirstHash(BlockWords(p[..64]));
    var h := Compress(INITIAL, p[..64]);
    SecondWords(h);
    SecondHash(h, BlockWords(p[64..]));
    AlphabeticalBytes();
  }
}
