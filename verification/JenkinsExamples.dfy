/** The values that the author of lookup3 gives for one sentence under three seeds. */
module JenkinsExamples {
  import opened Words32
  import opened Jenkins

  /** Four score and seven years ago */
  ghost predicate FourScore(key: seq<bv8>) {
    && |key| == 30
    && key[0] == 0x46 && key[1] == 0x6F && key[2] == 0x75 && key[3] == 0x72 && key[4] == 0x20 && key[5] == 0x73
    && key[6] == 0x63 && key[7] == 0x6F && key[8] == 0x72 && key[9] == 0x65 && key[10] == 0x20 && key[11] == 0x61
    && key[12] == 0x6E && key[13] == 0x64 && key[14] == 0x20 && key[15] == 0x73 && key[16] == 0x65 && key[17] == 0x76
    && key[18] == 0x65 && key[19] == 0x6E && key[20] == 0x20 && key[21] == 0x79 && key[22] == 0x65 && key[23] == 0x61
    && key[24] == 0x72 && key[25] == 0x73 && key[26] == 0x20 && key[27] == 0x61 && key[28] == 0x67 && key[29] == 0x6F
  }

  lemma Letters()
    ensures LittleEndian(0x46, 0x6F, 0x75, 0x72) == 0x7275_6F46
    ensures LittleEndian(0x20, 0x73, 0x63, 0x6F) == 0x6F63_7320
    ensures LittleEndian(0x72, 0x65, 0x20, 0x61) == 0x6120_6572
    ensures LittleEndian(0x6E, 0x64, 0x20, 0x73) == 0x7320_646E
    ensures LittleEndian(0x65, 0x76, 0x65, 0x6E) == 0x6E65_7665
    ensures LittleEndian(0x20, 0x79, 0x65, 0x61) == 0x6165_7920
    ensures LittleEndian(0x72, 0x73, 0x20, 0x61) == 0x6120_7372
    ensures LittleEndian(0x67, 0x6F, 0x00, 0x00) == 0x0000_6F67
    ensures LittleEndian(0x00, 0x00, 0x00, 0x00) == 0x0000_0000
  {
  }

  lemma Words(key: seq<bv8>)
    requires FourScore(key)
    ensures var b := key[0..12]; PaddedWord(b, 0) == 0x7275_6F46 && PaddedWord(b, 1) == 0x6F63_7320 && PaddedWord(b, 2) == 0x6120_6572
    ensures var b := key[12..24]; PaddedWord(b, 0) == 0x7320_646E && PaddedWord(b, 1) == 0x6E65_7665 && PaddedWord(b, 2) == 0x6165_7920
    ensures var b := key[24..30]; PaddedWord(b, 0) == 0x6120_7372 && PaddedWord(b, 1) == 0x0000_6F67 && PaddedWord(b, 2) == 0x0000_0000
  {
    hide LittleEndian;
    Letters();
  }

  /** Two blocks are mixed in, and the third is the last. */
  lemma ThreeBlocks(s: Abc, key: seq<bv8>)
    requires |key| == 30
    ensures Hashed(s, key) == Final(AddWords(Mix(AddWords(Mix(AddWords(s, key[0..12])), key[12..24])), key[24..30]))
  {
    hide Final, Mix, AddWords;
    var rest := key[12..];
    assert key[..12] == key[0..12] && rest[..12] == key[12..24] && rest[12..] == key[24..30];
    var s2 := Mix(AddWords(s, key[0..12]));
    assert Hashed(s, key) == Hashed(s2, rest);
    assert Hashed(s2, rest) == Hashed(Mix(AddWords(s2, key[12..24])), key[24..30]);
  }

  lemma Length()
    ensures Truncated(30) == 30
  {
    assert Truncated(10) == 10;
    assert Truncated(20) == 20;
  }

  lemma MixedUnseeded()
    ensures Mix(Abc(0x5123_2E53, 0x4E11_322D, 0x3FCE_247F)) == Abc(0xF859_AD7A, 0x04BC_57AE, 0x40DD_DD7E)
    ensures Mix(Abc(0x6B7A_11E8, 0x7321_CE13, 0xA243_569E)) == Abc(0x336A_DED2, 0x059F_2642, 0xBD02_EBD5)
    ensures Final(Abc(0x948B_5244, 0x059F_95A9, 0xBD02_EBD5)) == Abc(0x9A83_7816, 0xCE72_26E6, 0x1777_0551)
  {
  }

  lemma MixedSecondSeed()
    ensures Mix(Abc(0x5123_2E53, 0x4E11_322D, 0x3FCE_2480)) == Abc(0x5880_BF0F, 0x0507_C285, 0x2E1A_FADD)
    ensures Mix(Abc(0xCBA1_237D, 0x736D_38EA, 0x8F80_73FD)) == Abc(0xF0A9_5C6C, 0x6EA7_2B3E, 0x3272_97D5)
    ensures Final(Abc(0x51C9_CFDE, 0x6EA7_9AA5, 0x3272_97D5)) == Abc(0x6CD4_0950, 0xBD37_1DE4, 0xE360_7CAE)
  {
  }

  lemma MixedFirstSeed()
    ensures Mix(Abc(0x5123_2E54, 0x4E11_322E, 0x3FCE_2480)) == Abc(0x9FB9_ADE6, 0x8921_1BA9, 0x3FFF_F143)
    ensures Mix(Abc(0x12DA_1254, 0xF786_920E, 0xA165_6A63)) == Abc(0xD680_42AD, 0x488E_0A5D, 0xAB16_E7B2)
    ensures Final(Abc(0x37A0_B61F, 0x488E_79C4, 0xAB16_E7B2)) == Abc(0x1336_F927, 0x6CBE_A4B3, 0xCD62_8161)
  {
  }

  lemma Unseeded(key: seq<bv8>)
    requires FourScore(key)
    ensures var s := Hashed(Start(30, 0, 0), key); s.c == 0x1777_0551 && s.b == 0xCE72_26E6
    ensures Hash(key, 0) == 0x1777_0551
  {
    hide LittleEndian, PaddedWord, Mix, Final, Hashed, Truncated;
    Length();
    Words(key);
    ThreeBlocks(Start(30, 0, 0), key);
    MixedUnseeded();
  }

  lemma SecondSeed(key: seq<bv8>)
    requires FourScore(key)
    ensures var s := Hashed(Start(30, 0, 1), key); s.c == 0xE360_7CAE && s.b == 0xBD37_1DE4
  {
    hide LittleEndian, PaddedWord, Mix, Final, Hashed, Truncated;
    Length();
    Words(key);
    ThreeBlocks(Start(30, 0, 1), key);
    MixedSecondSeed();
  }

  lemma FirstSeed(key: seq<bv8>)
    requires FourScore(key)
    ensures var s := Hashed(Start(30, 1, 0), key); s.c == 0xCD62_8161 && s.b == 0x6CBE_A4B3
    ensures Hash(key, 1) == 0xCD62_8161
  {
    hide LittleEndian, PaddedWord, Mix, Final, Hashed, Truncated;
    Length();
    Words(key);
    ThreeBlocks(Start(30, 1, 0), key);
    MixedFirstSeed();
  }
}
