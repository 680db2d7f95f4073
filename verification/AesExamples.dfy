/** The worked examples of FIPS 197: the key expansions of appendix A and the cipher of appendix B. */
module AesExamples {
  import opened AesCircuits
  import A = Aes
  import F = Fips197
  import I = AesInverse
  import L = AesLanes
  import S = AesSlices

  // ---------------------------------------------------------------- key expansion

  predicate Words(key: seq<bv32>, i: nat, a: bv32, b: bv32, c: bv32, d: bv32)
    requires |key| > 0
  {
    F.KeyWord(key, i) == a && F.KeyWord(key, i + 1) == b && F.KeyWord(key, i + 2) == c && F.KeyWord(key, i + 3) == d
  }

  /** What the first word of a group is XORed with. */
  lemma GroupWord(d: bv32, j: nat, s: bv32, t: bv32)
    requires j < 10 && A.SeWord(F.RotWord(d)) == s && t == F.XorWord(s, A.RC[j])
    ensures F.XorWord(F.SubWord(F.RotWord(d)), F.Rcon(j)) == t
  {
    hide A.SeWord, F.SubWord, F.RotWord, F.XorWord, F.Word, F.ByteOf, F.Power;
    A.SeWordIsSubWord(F.RotWord(d));
    A.RoundConstants(j);
  }

  lemma FirstOfGroup(key: seq<bv32>, i: nat, j: nat, a: bv32, d: bv32, t: bv32)
    requires 0 < |key| <= i && i % |key| == 0 && F.GroupNumber(i, |key|) == j
    requires F.KeyWord(key, i - |key|) == a && F.KeyWord(key, i - 1) == d
    requires F.XorWord(F.SubWord(F.RotWord(d)), F.Rcon(j)) == t
    ensures F.KeyWord(key, i) == F.XorWord(a, t)
  {
    hide F.SubWord, F.RotWord, F.XorWord, F.Rcon;
  }

  lemma NextOfGroup(key: seq<bv32>, i: nat, a: bv32, d: bv32)
    requires 0 < |key| < i && i % |key| != 0 && (|key| > 6 ==> i % |key| != 4)
    requires F.KeyWord(key, i - |key|) == a && F.KeyWord(key, i - 1) == d
    ensures F.KeyWord(key, i) == F.XorWord(a, d)
  {
  }

  /** The additional substitution in the middle of a group of eight. */
  lemma MiddleOfGroup(key: seq<bv32>, i: nat, a: bv32, d: bv32, s: bv32)
    requires |key| == 8 && i > 8 && i % 8 == 4
    requires F.KeyWord(key, i - 8) == a && F.KeyWord(key, i - 1) == d && A.SeWord(d) == s
    ensures F.KeyWord(key, i) == F.XorWord(a, s)
  {
    hide A.SeWord, F.SubWord;
    A.SeWordIsSubWord(d);
  }

  /** A whole group of four. */
  lemma NextFour(key: seq<bv32>, i: nat, j: nat, a: bv32, b: bv32, c: bv32, d: bv32, t: bv32)
    requires |key| == 4 <= i && i % 4 == 0 && F.GroupNumber(i, 4) == j < 10 && Words(key, i - 4, a, b, c, d)
    requires t == F.XorWord(A.SeWord(F.RotWord(d)), A.RC[j])
    ensures var w := F.XorWord(a, t);
            Words(key, i, w, F.XorWord(b, w), F.XorWord(c, F.XorWord(b, w)), F.XorWord(d, F.XorWord(c, F.XorWord(b, w))))
  {
    hide A.SeWord, F.RotWord, F.KeyWord, F.SubWord, F.Rcon, F.XorWord;
    var w := F.XorWord(a, t);
    GroupWord(d, j, A.SeWord(F.RotWord(d)), t);
    FirstOfGroup(key, i, j, a, d, t);
    NextOfGroup(key, i + 1, b, w);
    NextOfGroup(key, i + 2, c, F.XorWord(b, w));
    NextOfGroup(key, i + 3, d, F.XorWord(c, F.XorWord(b, w)));
    XorTurns(b, w);
    XorTurns(c, F.XorWord(b, w));
  }

  lemma XorTurns(a: bv32, b: bv32)
    ensures F.XorWord(a, b) == F.XorWord(b, a)
  {
  }

  // Appendix A.3: a key of eight words.

  const KEY256: seq<bv32> := [0x603d_eb10, 0x15ca_71be, 0x2b73_aef0, 0x857d_7781, 0x1f35_2c07, 0x3b61_08d7, 0x2d98_10a3, 0x0914_dff4]

  lemma LongGroup0()
    ensures Words(KEY256, 0, 0x603d_eb10, 0x15ca_71be, 0x2b73_aef0, 0x857d_7781)
    ensures Words(KEY256, 4, 0x1f35_2c07, 0x3b61_08d7, 0x2d98_10a3, 0x0914_dff4)
  {
  }

  lemma LongSubstitution1()
    ensures A.SeWord(F.RotWord(0x0914_dff4)) == 0xfa9e_bf01
  {
  }

  lemma LongMiddle1()
    ensures A.SeWord(0x2067_fcde) == 0xb785_b01d
  {
  }

  lemma LongGroup1()
    ensures Words(KEY256, 8, 0x9ba3_5411, 0x8e69_25af, 0xa51a_8b5f, 0x2067_fcde)
    ensures Words(KEY256, 12, 0xa8b0_9c1a, 0x93d1_94cd, 0xbe49_846e, 0xb75d_5b9a)
  {
    hide A.SeWord, F.RotWord, F.KeyWord, F.SubWord, F.Rcon;
    LongGroup0();
    LongSubstitution1();
    GroupWord(0x0914_dff4, 0, 0xfa9e_bf01, 0xfb9e_bf01);
    FirstOfGroup(KEY256, 8, 0, 0x603d_eb10, 0x0914_dff4, 0xfb9e_bf01);
    NextOfGroup(KEY256, 9, 0x15ca_71be, 0x9ba3_5411);
    NextOfGroup(KEY256, 10, 0x2b73_aef0, 0x8e69_25af);
    NextOfGroup(KEY256, 11, 0x857d_7781, 0xa51a_8b5f);
    LongMiddle1();
    MiddleOfGroup(KEY256, 12, 0x1f35_2c07, 0x2067_fcde, 0xb785_b01d);
    NextOfGroup(KEY256, 13, 0x3b61_08d7, 0xa8b0_9c1a);
    NextOfGroup(KEY256, 14, 0x2d98_10a3, 0x93d1_94cd);
    NextOfGroup(KEY256, 15, 0x0914_dff4, 0xbe49_846e);
  }

  lemma LongSubstitution2()
    ensures A.SeWord(F.RotWord(0xb75d_5b9a)) == 0x4c39_b8a9
  {
  }

  lemma LongMiddle2()
    ensures A.SeWord(0xde8e_be96) == 0x1d19_ae90
  {
  }

  lemma LongGroup2()
    ensures Words(KEY256, 16, 0xd59a_ecb8, 0x5bf3_c917, 0xfee9_4248, 0xde8e_be96)
    ensures Words(KEY256, 20, 0xb5a9_328a, 0x2678_a647, 0x9831_2229, 0x2f6c_79b3)
  {
    hide A.SeWord, F.RotWord, F.KeyWord, F.SubWord, F.Rcon;
    LongGroup1();
    LongSubstitution2();
    GroupWord(0xb75d_5b9a, 1, 0x4c39_b8a9, 0x4e39_b8a9);
    FirstOfGroup(KEY256, 16, 1, 0x9ba3_5411, 0xb75d_5b9a, 0x4e39_b8a9);
    NextOfGroup(KEY256, 17, 0x8e69_25af, 0xd59a_ecb8);
    NextOfGroup(KEY256, 18, 0xa51a_8b5f, 0x5bf3_c917);
    NextOfGroup(KEY256, 19, 0x2067_fcde, 0xfee9_4248);
    LongMiddle2();
    MiddleOfGroup(KEY256, 20, 0xa8b0_9c1a, 0xde8e_be96, 0x1d19_ae90);
    NextOfGroup(KEY256, 21, 0x93d1_94cd, 0xb5a9_328a);
    NextOfGroup(KEY256, 22, 0xbe49_846e, 0x2678_a647);
    NextOfGroup(KEY256, 23, 0xb75d_5b9a, 0x9831_2229);
  }

  // Appendix A.2: a key of six words.

  const KEY192: seq<bv32> := [0x8e73_b0f7, 0xda0e_6452, 0xc810_f32b, 0x8090_79e5, 0x62f8_ead2, 0x522c_6b7b]

  lemma MiddleGroup0()
    ensures Words(KEY192, 0, 0x8e73_b0f7, 0xda0e_6452, 0xc810_f32b, 0x8090_79e5)
    ensures Words(KEY192, 2, 0xc810_f32b, 0x8090_79e5, 0x62f8_ead2, 0x522c_6b7b)
  {
  }

  lemma MiddleSubstitution1()
    ensures A.SeWord(F.RotWord(0x522c_6b7b)) == 0x717f_2100
  {
  }

  lemma MiddleGroup1()
    ensures Words(KEY192, 6, 0xfe0c_91f7, 0x2402_f5a5, 0xec12_068e, 0x6c82_7f6b)
    ensures Words(KEY192, 8, 0xec12_068e, 0x6c82_7f6b, 0x0e7a_95b9, 0x5c56_fec2)
  {
    hide A.SeWord, F.RotWord, F.KeyWord, F.SubWord, F.Rcon;
    MiddleGroup0();
    MiddleSubstitution1();
    GroupWord(0x522c_6b7b, 0, 0x717f_2100, 0x707f_2100);
    FirstOfGroup(KEY192, 6, 0, 0x8e73_b0f7, 0x522c_6b7b, 0x707f_2100);
    NextOfGroup(KEY192, 7, 0xda0e_6452, 0xfe0c_91f7);
    NextOfGroup(KEY192, 8, 0xc810_f32b, 0x2402_f5a5);
    NextOfGroup(KEY192, 9, 0x8090_79e5, 0xec12_068e);
    NextOfGroup(KEY192, 10, 0x62f8_ead2, 0x6c82_7f6b);
    NextOfGroup(KEY192, 11, 0x522c_6b7b, 0x0e7a_95b9);
  }

  lemma MiddleSubstitution2()
    ensures A.SeWord(F.RotWord(0x5c56_fec2)) == 0xb1bb_254a
  {
  }

  lemma MiddleGroup2()
    ensures Words(KEY192, 12, 0x4db7_b4bd, 0x69b5_4118, 0x85a7_4796, 0xe925_38fd)
    ensures Words(KEY192, 14, 0x85a7_4796, 0xe925_38fd, 0xe75f_ad44, 0xbb09_5386)
  {
    hide A.SeWord, F.RotWord, F.KeyWord, F.SubWord, F.Rcon;
    MiddleGroup1();
    MiddleSubstitution2();
    GroupWord(0x5c56_fec2, 1, 0xb1bb_254a, 0xb3bb_254a);
    FirstOfGroup(KEY192, 12, 1, 0xfe0c_91f7, 0x5c56_fec2, 0xb3bb_254a);
    NextOfGroup(KEY192, 13, 0x2402_f5a5, 0x4db7_b4bd);
    NextOfGroup(KEY192, 14, 0xec12_068e, 0x69b5_4118);
    NextOfGroup(KEY192, 15, 0x6c82_7f6b, 0x85a7_4796);
    NextOfGroup(KEY192, 16, 0x0e7a_95b9, 0xe925_38fd);
    NextOfGroup(KEY192, 17, 0x5c56_fec2, 0xe75f_ad44);
  }

  // Appendix A.1: a key of four words, all of its expansion.

  const KEY128: seq<bv32> := [0x2b7e_1516, 0x28ae_d2a6, 0xabf7_1588, 0x09cf_4f3c]

  lemma ShortGroup0()
    ensures Words(KEY128, 0, 0x2b7e_1516, 0x28ae_d2a6, 0xabf7_1588, 0x09cf_4f3c)
  {
  }

  lemma ShortGroup1()
    ensures Words(KEY128, 4, 0xa0fa_fe17, 0x8854_2cb1, 0x23a3_3939, 0x2a6c_7605)
  {
    hide F.KeyWord;
    ShortGroup0();
    NextFour(KEY128, 4, 0, 0x2b7e_1516, 0x28ae_d2a6, 0xabf7_1588, 0x09cf_4f3c, 0x8b84_eb01);
  }

  lemma ShortGroup2()
    ensures Words(KEY128, 8, 0xf2c2_95f2, 0x7a96_b943, 0x5935_807a, 0x7359_f67f)
  {
    hide F.KeyWord;
    ShortGroup1();
    NextFour(KEY128, 8, 1, 0xa0fa_fe17, 0x8854_2cb1, 0x23a3_3939, 0x2a6c_7605, 0x5238_6be5);
  }

  lemma ShortGroup3()
    ensures Words(KEY128, 12, 0x3d80_477d, 0x4716_fe3e, 0x1e23_7e44, 0x6d7a_883b)
  {
    hide F.KeyWord;
    ShortGroup2();
    NextFour(KEY128, 12, 2, 0xf2c2_95f2, 0x7a96_b943, 0x5935_807a, 0x7359_f67f, 0xcf42_d28f);
  }

  lemma ShortGroup4()
    ensures Words(KEY128, 16, 0xef44_a541, 0xa852_5b7f, 0xb671_253b, 0xdb0b_ad00)
  {
    hide F.KeyWord;
    ShortGroup3();
    NextFour(KEY128, 16, 3, 0x3d80_477d, 0x4716_fe3e, 0x1e23_7e44, 0x6d7a_883b, 0xd2c4_e23c);
  }

  lemma ShortGroup5()
    ensures Words(KEY128, 20, 0xd4d1_c6f8, 0x7c83_9d87, 0xcaf2_b8bc, 0x11f9_15bc)
  {
    hide F.KeyWord;
    ShortGroup4();
    NextFour(KEY128, 20, 4, 0xef44_a541, 0xa852_5b7f, 0xb671_253b, 0xdb0b_ad00, 0x3b95_63b9);
  }

  lemma ShortGroup6()
    ensures Words(KEY128, 24, 0x6d88_a37a, 0x110b_3efd, 0xdbf9_8641, 0xca00_93fd)
  {
    hide F.KeyWord;
    ShortGroup5();
    NextFour(KEY128, 24, 5, 0xd4d1_c6f8, 0x7c83_9d87, 0xcaf2_b8bc, 0x11f9_15bc, 0xb959_6582);
  }

  lemma ShortGroup7()
    ensures Words(KEY128, 28, 0x4e54_f70e, 0x5f5f_c9f3, 0x84a6_4fb2, 0x4ea6_dc4f)
  {
    hide F.KeyWord;
    ShortGroup6();
    NextFour(KEY128, 28, 6, 0x6d88_a37a, 0x110b_3efd, 0xdbf9_8641, 0xca00_93fd, 0x23dc_5474);
  }

  lemma ShortGroup8()
    ensures Words(KEY128, 32, 0xead2_7321, 0xb58d_bad2, 0x312b_f560, 0x7f8d_292f)
  {
    hide F.KeyWord;
    ShortGroup7();
    NextFour(KEY128, 32, 7, 0x4e54_f70e, 0x5f5f_c9f3, 0x84a6_4fb2, 0x4ea6_dc4f, 0xa486_842f);
  }

  lemma ShortGroup9()
    ensures Words(KEY128, 36, 0xac77_66f3, 0x19fa_dc21, 0x28d1_2941, 0x575c_006e)
  {
    hide F.KeyWord;
    ShortGroup8();
    NextFour(KEY128, 36, 8, 0xead2_7321, 0xb58d_bad2, 0x312b_f560, 0x7f8d_292f, 0x46a5_15d2);
  }

  lemma ShortGroup10()
    ensures Words(KEY128, 40, 0xd014_f9a8, 0xc9ee_2589, 0xe13f_0cc8, 0xb663_0ca6)
  {
    hide F.KeyWord;
    ShortGroup9();
    NextFour(KEY128, 40, 9, 0xac77_66f3, 0x19fa_dc21, 0x28d1_2941, 0x575c_006e, 0x7c63_9f5b);
  }

  // ---------------------------------------------------------------- the cipher, appendix B

  const KEY: seq<bv8> := [0x2b, 0x7e, 0x15, 0x16, 0x28, 0xae, 0xd2, 0xa6, 0xab, 0xf7, 0x15, 0x88, 0x09, 0xcf, 0x4f, 0x3c]

  const PLAIN: seq<bv8> := [0x32, 0x43, 0xf6, 0xa8, 0x88, 0x5a, 0x30, 0x8d, 0x31, 0x31, 0x98, 0xa2, 0xe0, 0x37, 0x07, 0x34]

  // The slices before each round; the second block of the batch is empty.
  const STATE_0: S.Words := Slices(0x7277_e486, 0x107b_d500, 0x5ede_c0e5, 0xa0da_0e89, 0xbf9d_31f3, 0x00ef_2b8d, 0x2a2f_c5ec, 0x9b83_ab40)

  const STATE_1: S.Words := Slices(0x8cc9_2585, 0x693c_b8b9, 0xe014_edc8, 0x0fe9_d881, 0x6ef8_ae5c, 0x8bc0_ca0e, 0x3770_afed, 0x2762_ca7d)

  const STATE_2: S.Words := Slices(0xaae5_4971, 0x5661_f466, 0xd112_4047, 0x0975_8036, 0x99c7_a258, 0x0cc5_9c42, 0xaaba_f7f4, 0x42cb_c8ca)

  const STATE_3: S.Words := Slices(0x1a25_6196, 0xfebf_9b96, 0x45ab_2fb7, 0x1853_7525, 0xa7d1_d1e0, 0x7ada_cbd0, 0x5432_889d, 0x6f78_6c54)

  const STATE_4: S.Words := Slices(0xf6bf_1fcd, 0xed4e_cfe8, 0x8174_fd8b, 0x2fb2_be2e, 0x6f18_9f8e, 0x1a0b_be01, 0x01cb_de09, 0x3567_ea1b)

  const STATE_5: S.Words := Slices(0xcc78_3f49, 0xf122_d1cf, 0xa112_8968, 0xbd5f_1eac, 0x3122_e45b, 0x331a_dbd0, 0x0046_ae65, 0xd81d_bac5)

  const STATE_6: S.Words := Slices(0x3611_5623, 0x3f7d_2845, 0xff2c_ed7b, 0x5712_6fc1, 0x738e_9469, 0xdfad_cdd6, 0x8598_f283, 0x564b_5afd)

  const STATE_7: S.Words := Slices(0x2839_4487, 0x9cea_c82d, 0x3a22_07a2, 0xd503_6ccc, 0xda54_625a, 0x061b_5a75, 0xba0a_8a44, 0x6dcf_25ea)

  const STATE_8: S.Words := Slices(0x9090_3bb0, 0xa66e_8896, 0xa70a_50e0, 0x003e_fe82, 0x8b21_a96e, 0x7c7c_8e72, 0x839c_4202, 0x38e4_487b)

  const STATE_9: S.Words := Slices(0xa73a_8078, 0xc39c_9f34, 0x8762_c32c, 0x5903_ef97, 0xff46_4581, 0x0244_0ee1, 0xb351_b4be, 0xf73f_2825)

  const RESULT: S.Words := Slices(0x3925_841d, 0x02dc_09fb, 0xdc11_8597, 0x196a_0b32, 0x7df7_6b0c, 0x1ab8_99b3, 0x3e42_f047, 0xb91b_546f)

  lemma Begin()
    ensures A.Load(PLAIN) == Slices(0x3243_f6a8, 0x885a_308d, 0x3131_98a2, 0xe037_0734, 0, 0, 0, 0)
    ensures S.Transpose(S.Plus(Slices(0x3243_f6a8, 0x885a_308d, 0x3131_98a2, 0xe037_0734, 0, 0, 0, 0), S.Doubled(0x2b7e_1516, 0x28ae_d2a6, 0xabf7_1588, 0x09cf_4f3c))) == STATE_0
  {
  }

  lemma Round1()
    ensures S.Plus(S.MixColumns(S.ShiftRows(Sbox(WORDS, STATE_0))), S.KsExpand(0xa0fa_fe17, 0x8854_2cb1, 0x23a3_3939, 0x2a6c_7605)) == STATE_1
  {
  }

  lemma Round2()
    ensures S.Plus(S.MixColumns(S.ShiftRows(Sbox(WORDS, STATE_1))), S.KsExpand(0xf2c2_95f2, 0x7a96_b943, 0x5935_807a, 0x7359_f67f)) == STATE_2
  {
  }

  lemma Round3()
    ensures S.Plus(S.MixColumns(S.ShiftRows(Sbox(WORDS, STATE_2))), S.KsExpand(0x3d80_477d, 0x4716_fe3e, 0x1e23_7e44, 0x6d7a_883b)) == STATE_3
  {
  }

  lemma Round4()
    ensures S.Plus(S.MixColumns(S.ShiftRows(Sbox(WORDS, STATE_3))), S.KsExpand(0xef44_a541, 0xa852_5b7f, 0xb671_253b, 0xdb0b_ad00)) == STATE_4
  {
  }

  lemma Round5()
    ensures S.Plus(S.MixColumns(S.ShiftRows(Sbox(WORDS, STATE_4))), S.KsExpand(0xd4d1_c6f8, 0x7c83_9d87, 0xcaf2_b8bc, 0x11f9_15bc)) == STATE_5
  {
  }

  lemma Round6()
    ensures S.Plus(S.MixColumns(S.ShiftRows(Sbox(WORDS, STATE_5))), S.KsExpand(0x6d88_a37a, 0x110b_3efd, 0xdbf9_8641, 0xca00_93fd)) == STATE_6
  {
  }

  lemma Round7()
    ensures S.Plus(S.MixColumns(S.ShiftRows(Sbox(WORDS, STATE_6))), S.KsExpand(0x4e54_f70e, 0x5f5f_c9f3, 0x84a6_4fb2, 0x4ea6_dc4f)) == STATE_7
  {
  }

  lemma Round8()
    ensures S.Plus(S.MixColumns(S.ShiftRows(Sbox(WORDS, STATE_7))), S.KsExpand(0xead2_7321, 0xb58d_bad2, 0x312b_f560, 0x7f8d_292f)) == STATE_8
  {
  }

  lemma Round9()
    ensures S.Plus(S.MixColumns(S.ShiftRows(Sbox(WORDS, STATE_8))), S.KsExpand(0xac77_66f3, 0x19fa_dc21, 0x28d1_2941, 0x575c_006e)) == STATE_9
  {
  }

  lemma End()
    ensures S.Plus(S.Transpose(S.ShiftRows(Sbox(WORDS, STATE_9))), S.Doubled(0xd014_f9a8, 0xc9ee_2589, 0xe13f_0cc8, 0xb663_0ca6)) == RESULT
  {
  }

  lemma Stored()
    ensures A.Store([0x3925_841d, 0x02dc_09fb, 0xdc11_8597, 0x196a_0b32]) == [0x39, 0x25, 0x84, 0x1d, 0x02, 0xdc, 0x09, 0xfb, 0xdc, 0x11, 0x85, 0x97, 0x19, 0x6a, 0x0b, 0x32]
  {
  }

  lemma KeyLoaded()
    ensures A.KeyWordsOf(KEY) == KEY128
  {
  }

  /** The cipher of appendix B, from the key bytes and the plaintext bytes to the ciphertext bytes. */
  lemma CipherExample()
    ensures A.CipherBlock(F.KeyExpansion(A.KeyWordsOf(KEY)), PLAIN) == [0x39, 0x25, 0x84, 0x1d, 0x02, 0xdc, 0x09, 0xfb, 0xdc, 0x11, 0x85, 0x97, 0x19, 0x6a, 0x0b, 0x32]
  {
    hide A.Load, A.Store, A.LoadWord, A.KeyWordsOf, F.KeyWord, F.Rounds, F.Cipher, F.Columns, I.StateOf, I.BytesOf, L.Lane, Sbox,
      S.Transpose, S.Plus, S.Doubled, S.KsExpand, S.MixColumns, S.ShiftRows;
    KeyLoaded();
    var ek := F.KeyExpansion(KEY128);
    var s := I.StateOf(PLAIN);
    Begin();
    A.LoadColumns(PLAIN, false);
    assert A.Part(PLAIN, false) == PLAIN;
    ShortGroup0();
    A.FirstStep(ek, 9, A.Load(PLAIN), false);
    ShortGroup1();
    Round1();
    A.Step(ek, 9, 0, s, STATE_0, false);
    ShortGroup2();
    Round2();
    A.Step(ek, 9, 1, s, STATE_1, false);
    ShortGroup3();
    Round3();
    A.Step(ek, 9, 2, s, STATE_2, false);
    ShortGroup4();
    Round4();
    A.Step(ek, 9, 3, s, STATE_3, false);
    ShortGroup5();
    Round5();
    A.Step(ek, 9, 4, s, STATE_4, false);
    ShortGroup6();
    Round6();
    A.Step(ek, 9, 5, s, STATE_5, false);
    ShortGroup7();
    Round7();
    A.Step(ek, 9, 6, s, STATE_6, false);
    ShortGroup8();
    Round8();
    A.Step(ek, 9, 7, s, STATE_7, false);
    ShortGroup9();
    Round9();
    A.Step(ek, 9, 8, s, STATE_8, false);
    ShortGroup10();
    End();
    A.LastStep(ek, 9, s, STATE_9, false);
    A.StoreIsBytesOf(L.Half(RESULT, false));
    Stored();
  }
}
