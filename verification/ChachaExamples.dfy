/** The worked examples of RFC 8439 and of the XChaCha20 draft, from the key and nonce bytes on. */
module ChachaExamples {
  import opened ChachaBlocks
  import opened ChachaStream
  import opened OctetStrings
  import opened Words

  /** Section 2.1.1. */
  lemma QuarterRoundExample()
    ensures QuarterRound(0x1111_1111, 0x0102_0304, 0x9b8d_6f43, 0x0123_4567)
         == Quad(0xea2a_92f4, 0xcb1c_f8ce, 0x4581_472e, 0x5881_c4bb)
  {
  }

  const KEY: seq<byte> := [0, 1, 2, 3, 4, 5, 6, 7, 8, 9, 10, 11, 12, 13, 14, 15,
                           16, 17, 18, 19, 20, 21, 22, 23, 24, 25, 26, 27, 28, 29, 30, 31]

  lemma LoadKey0()
    ensures Load(0, 1, 2, 3) == 0x0302_0100
    ensures Load(4, 5, 6, 7) == 0x0706_0504
  {
  }

  lemma LoadKey1()
    ensures Load(8, 9, 10, 11) == 0x0b0a_0908
    ensures Load(12, 13, 14, 15) == 0x0f0e_0d0c
  {
  }

  lemma LoadKey2()
    ensures Load(16, 17, 18, 19) == 0x1312_1110
    ensures Load(20, 21, 22, 23) == 0x1716_1514
  {
  }

  lemma LoadKey3()
    ensures Load(24, 25, 26, 27) == 0x1b1a_1918
    ensures Load(28, 29, 30, 31) == 0x1f1e_1d1c
  {
  }

  lemma KeyWords()
    ensures LoadWord(KEY, 0) == 0x0302_0100
    ensures LoadWord(KEY, 1) == 0x0706_0504
    ensures LoadWord(KEY, 2) == 0x0b0a_0908
    ensures LoadWord(KEY, 3) == 0x0f0e_0d0c
    ensures LoadWord(KEY, 4) == 0x1312_1110
    ensures LoadWord(KEY, 5) == 0x1716_1514
    ensures LoadWord(KEY, 6) == 0x1b1a_1918
    ensures LoadWord(KEY, 7) == 0x1f1e_1d1c
  {
    hide Load;
    LoadKey0();
    LoadKey1();
    LoadKey2();
    LoadKey3();
  }


  // ---------------------------------------------------------------- section 2.3.2

  const NONCE: seq<byte> := [0, 0, 0, 9, 0, 0, 0, 0x4a, 0, 0, 0, 0]

  // The words before the rounds, and after each double round.
  const BLOCK_0: Matrix := Matrix(
      0x6170_7865, 0x3320_646e, 0x7962_2d32, 0x6b20_6574, 0x0302_0100, 0x0706_0504, 0x0b0a_0908, 0x0f0e_0d0c,
      0x1312_1110, 0x1716_1514, 0x1b1a_1918, 0x1f1e_1d1c, 0x0000_0001, 0x0900_0000, 0x4a00_0000, 0x0000_0000)

  const BLOCK_1: Matrix := Matrix(
      0xcd52_e917, 0x85ab_03b4, 0xb345_7395, 0xf96d_e7dd, 0xc4b7_cd22, 0x5c2e_187a, 0xc95e_b461, 0x316c_801a,
      0x7bf7_d740, 0x7edd_d644, 0xf1a1_bdf5, 0x7612_46ca, 0x6b0d_58a3, 0x6798_471a, 0xd737_f167, 0xf173_888d)

  const BLOCK_2: Matrix := Matrix(
      0xcf1a_7584, 0x0489_27ec, 0x5405_1fda, 0xc244_ff28, 0x901d_2f40, 0x7974_b81c, 0x378d_cfb4, 0xcd47_fd0e,
      0x2daf_b216, 0x27c8_9cd6, 0xcd3c_9aa0, 0x79fc_89c7, 0x10ae_f18d, 0x1621_8765, 0x68f7_6705, 0x04d6_ee22)

  const BLOCK_3: Matrix := Matrix(
      0x03a1_4032, 0x66b1_5927, 0x9d6b_6b42, 0xb84c_4109, 0xa714_3ae0, 0xa09b_33dd, 0xa5da_af88, 0x2fd9_1a73,
      0xc90c_6b18, 0x5a20_2413, 0xc20e_01b6, 0x72cd_6b74, 0xba35_d777, 0xb360_f1bf, 0x8178_315b, 0x2cd1_1b1a)

  const BLOCK_4: Matrix := Matrix(
      0x9a2d_3589, 0x0b23_fc4e, 0x40af_3b6b, 0xceea_8144, 0x0a1b_ffc6, 0x5e59_93f7, 0x9904_c2e7, 0x0d33_4718,
      0xe46c_6354, 0xc950_3229, 0x04fe_f5aa, 0xf893_3f72, 0x2687_d476, 0x54e6_5231, 0x3594_ffc5, 0x2b3b_b2ca)

  const BLOCK_5: Matrix := Matrix(
      0xc533_18c5, 0xca32_5d96, 0x7e7d_11cb, 0x3404_e2ca, 0x26d7_cf73, 0x6088_d379, 0xc0f0_e9bd, 0xe310_cdb9,
      0xae2c_a8db, 0x42f6_7c72, 0x7166_9aca, 0x975c_171d, 0x9e5e_c228, 0x7d85_a9f3, 0x201d_0756, 0x63fa_6953)

  const BLOCK_6: Matrix := Matrix(
      0x04a3_131a, 0x6617_6309, 0x0415_bab1, 0x61b8_80a2, 0x36cc_86c7, 0xbf8a_4465, 0xf77d_d720, 0xfc0b_dc90,
      0x07d1_3aca, 0xeb0b_e9af, 0x6159_9491, 0x9185_12dc, 0x33b6_686d, 0x795c_c671, 0xc004_9972, 0xa0a8_1bde)

  const BLOCK_7: Matrix := Matrix(
      0x9b70_f51f, 0x7ea8_ac11, 0x21e5_4da9, 0xca39_3b2f, 0x93b0_8686, 0x6a4c_50ae, 0x1921_2a5a, 0x9b03_2958,
      0xd839_165e, 0x4c06_e28a, 0xd3fd_e99e, 0x26ac_c13d, 0xa609_f555, 0x2c24_6549, 0x9515_1853, 0x2c84_7a0d)

  const BLOCK_8: Matrix := Matrix(
      0xca5c_85dd, 0x93a4_f90e, 0xd9f0_df58, 0x26dd_82dd, 0x9825_63f8, 0x712a_a9ff, 0x279a_61e8, 0x970f_72bd,
      0x1c25_931a, 0x5180_bb10, 0x779c_27e7, 0x5407_7e08, 0xa9b7_51fb, 0x382f_3ce2, 0x8db1_757d, 0xcc38_080b)

  const BLOCK_9: Matrix := Matrix(
      0xb6b8_7de6, 0x9a01_6148, 0x9385_9815, 0x4915_e6cc, 0xdc33_c122, 0x98e1_8fa3, 0x5ffb_e8fc, 0xf715_4b8b,
      0x28c1_fcb3, 0xc4b3_8f9d, 0x83e2_f5d7, 0x7d24_b98b, 0x2107_8b22, 0xb193_e7a3, 0xb2f4_9389, 0x6cde_6026)

  const BLOCK_10: Matrix := Matrix(
      0x8377_78ab, 0xe238_d763, 0xa67a_e21e, 0x5950_bb2f, 0xc4f2_d0c7, 0xfc62_bb2f, 0x8fa0_18fc, 0x3f5e_c7b7,
      0x3352_71c2, 0xf294_89f3, 0xeabd_a8fc, 0x82e4_6ebd, 0xd19c_12b4, 0xb04e_16de, 0x9e83_d0cb, 0x4e3c_50a2)

  lemma BlockTo1()
    ensures Diagonals(Columns(BLOCK_0)) == BLOCK_1
  {
  }

  lemma BlockTo2()
    ensures Diagonals(Columns(BLOCK_1)) == BLOCK_2
  {
  }

  lemma BlockTo3()
    ensures Diagonals(Columns(BLOCK_2)) == BLOCK_3
  {
  }

  lemma BlockTo4()
    ensures Diagonals(Columns(BLOCK_3)) == BLOCK_4
  {
  }

  lemma BlockTo5()
    ensures Diagonals(Columns(BLOCK_4)) == BLOCK_5
  {
  }

  lemma BlockTo6()
    ensures Diagonals(Columns(BLOCK_5)) == BLOCK_6
  {
  }

  lemma BlockTo7()
    ensures Diagonals(Columns(BLOCK_6)) == BLOCK_7
  {
  }

  lemma BlockTo8()
    ensures Diagonals(Columns(BLOCK_7)) == BLOCK_8
  {
  }

  lemma BlockTo9()
    ensures Diagonals(Columns(BLOCK_8)) == BLOCK_9
  {
  }

  lemma BlockTo10()
    ensures Diagonals(Columns(BLOCK_9)) == BLOCK_10
  {
  }

  lemma BlockRounds()
    ensures DoubleRounds(BLOCK_0, 10) == BLOCK_10
  {
    hide Columns, Diagonals;
    BlockTo1();
    BlockTo2();
    BlockTo3();
    BlockTo4();
    BlockTo5();
    BlockTo6();
    BlockTo7();
    BlockTo8();
    BlockTo9();
    BlockTo10();
    assert DoubleRounds(BLOCK_0, 1) == BLOCK_1;
    assert DoubleRounds(BLOCK_0, 2) == BLOCK_2;
    assert DoubleRounds(BLOCK_0, 3) == BLOCK_3;
    assert DoubleRounds(BLOCK_0, 4) == BLOCK_4;
    assert DoubleRounds(BLOCK_0, 5) == BLOCK_5;
    assert DoubleRounds(BLOCK_0, 6) == BLOCK_6;
    assert DoubleRounds(BLOCK_0, 7) == BLOCK_7;
    assert DoubleRounds(BLOCK_0, 8) == BLOCK_8;
    assert DoubleRounds(BLOCK_0, 9) == BLOCK_9;
  }

  const OUTPUT: Matrix := Matrix(
      0xe4e7_f110, 0x1559_3bd1, 0x1fdd_0f50, 0xc471_20a3, 0xc7f4_d1c7, 0x0368_c033, 0x9aaa_2204, 0x4e6c_d4c3,
      0x4664_82d2, 0x09aa_9f07, 0x05d7_c214, 0xa202_8bd9, 0xd19c_12b5, 0xb94e_16de, 0xe883_d0cb, 0x4e3c_50a2)

  const BYTES: seq<byte> :=
    [0x10, 0xf1, 0xe7, 0xe4] + [0xd1, 0x3b, 0x59, 0x15] + [0x50, 0x0f, 0xdd, 0x1f] + [0xa3, 0x20, 0x71, 0xc4]
    + [0xc7, 0xd1, 0xf4, 0xc7] + [0x33, 0xc0, 0x68, 0x03] + [0x04, 0x22, 0xaa, 0x9a] + [0xc3, 0xd4, 0x6c, 0x4e]
    + [0xd2, 0x82, 0x64, 0x46] + [0x07, 0x9f, 0xaa, 0x09] + [0x14, 0xc2, 0xd7, 0x05] + [0xd9, 0x8b, 0x02, 0xa2]
    + [0xb5, 0x12, 0x9c, 0xd1] + [0xde, 0x16, 0x4e, 0xb9] + [0xcb, 0xd0, 0x83, 0xe8] + [0xa2, 0x50, 0x3c, 0x4e]

  lemma NonceWords()
    ensures Load32(NONCE, 0) == 0x0900_0000 && LoadWord(NONCE, 1) == 0x4a00_0000 && LoadWord(NONCE, 2) == 0
    ensures Bits(0x0900_0000) == 0x0900_0000 && Bits(1) == 1
  {
  }

  lemma InputWords()
    ensures Words16(Ahead(StartState(KEY, NONCE, 20), 1)) == BLOCK_0
  {
    hide LoadWord, Load32, Bits;
    KeyWords();
    NonceWords();
    var s := StartState(KEY, NONCE, 20);
    assert Ahead(s, 1) == s.(x12 := 1, x13 := 0x0900_0000);
  }

  lemma OutputWords()
    ensures Sum(BLOCK_10, BLOCK_0) == OUTPUT
  {
  }

  lemma Output0()
    ensures Store(0xe4e7_f110) == [0x10, 0xf1, 0xe7, 0xe4]
    ensures Store(0x1559_3bd1) == [0xd1, 0x3b, 0x59, 0x15]
    ensures Store(0x1fdd_0f50) == [0x50, 0x0f, 0xdd, 0x1f]
    ensures Store(0xc471_20a3) == [0xa3, 0x20, 0x71, 0xc4]
  {
  }

  lemma Output1()
    ensures Store(0xc7f4_d1c7) == [0xc7, 0xd1, 0xf4, 0xc7]
    ensures Store(0x0368_c033) == [0x33, 0xc0, 0x68, 0x03]
    ensures Store(0x9aaa_2204) == [0x04, 0x22, 0xaa, 0x9a]
    ensures Store(0x4e6c_d4c3) == [0xc3, 0xd4, 0x6c, 0x4e]
  {
  }

  lemma Output2()
    ensures Store(0x4664_82d2) == [0xd2, 0x82, 0x64, 0x46]
    ensures Store(0x09aa_9f07) == [0x07, 0x9f, 0xaa, 0x09]
    ensures Store(0x05d7_c214) == [0x14, 0xc2, 0xd7, 0x05]
    ensures Store(0xa202_8bd9) == [0xd9, 0x8b, 0x02, 0xa2]
  {
  }

  lemma Output3()
    ensures Store(0xd19c_12b5) == [0xb5, 0x12, 0x9c, 0xd1]
    ensures Store(0xb94e_16de) == [0xde, 0x16, 0x4e, 0xb9]
    ensures Store(0xe883_d0cb) == [0xcb, 0xd0, 0x83, 0xe8]
    ensures Store(0x4e3c_50a2) == [0xa2, 0x50, 0x3c, 0x4e]
  {
  }

  lemma OutputBytes()
    ensures Serialize(OUTPUT) == BYTES
  {
    hide Store;
    Output0();
    Output1();
    Output2();
    Output3();
  }

  /** Block 1 of the stream of that key and nonce, byte by byte. */
  lemma BlockExample()
    ensures Block(Ahead(StartState(KEY, NONCE, 20), 1), 20) == BYTES
  {
    hide StartState, Ahead, Words16, DoubleRounds, Sum, Serialize;
    InputWords();
    BlockRounds();
    OutputWords();
    OutputBytes();
  }

  // ---------------------------------------------------------------- HChaCha20, section 2.2.1 of the XChaCha20 draft

  /** The sixteen bytes of that section, then eight more. */
  const LONG_NONCE: seq<byte> := [0, 0, 0, 9, 0, 0, 0, 0x4a, 0, 0, 0, 0, 0x31, 0x41, 0x59, 0x27, 1, 2, 3, 4, 5, 6, 7, 8]

  const KEY_0: Matrix := Matrix(
      0x6170_7865, 0x3320_646e, 0x7962_2d32, 0x6b20_6574, 0x0302_0100, 0x0706_0504, 0x0b0a_0908, 0x0f0e_0d0c,
      0x1312_1110, 0x1716_1514, 0x1b1a_1918, 0x1f1e_1d1c, 0x0900_0000, 0x4a00_0000, 0x0000_0000, 0x2759_4131)

  const KEY_1: Matrix := Matrix(
      0x7bc4_34f3, 0x6a04_5b3d, 0xa9b6_a717, 0xe973_01f1, 0x61ba_01e7, 0x8d24_5f4b, 0x3370_8154, 0xd31e_1023,
      0x3af1_8a5b, 0xb644_b533, 0xfd66_db41, 0x51e9_ad3a, 0xc424_874b, 0x61d3_6895, 0xe9ff_651a, 0x923c_81f0)

  const KEY_2: Matrix := Matrix(
      0x8e19_d568, 0x4f94_b2fa, 0xe2e6_b081, 0xe347_1ee3, 0x5d8d_c91e, 0xe484_3060, 0x7c53_2d54, 0x9ad4_2044,
      0x0b30_ba63, 0x4f1b_068a, 0x83ad_7706, 0xc3e0_9f4c, 0xa664_c0c1, 0x3292_fc5b, 0xa73c_703f, 0x7137_a6f4)

  const KEY_3: Matrix := Matrix(
      0x9f53_c98b, 0x8737_2c3c, 0x8995_494b, 0x2939_b691, 0xaa53_ec91, 0xa64c_d8c6, 0x591b_eafb, 0x1a9d_bfe2,
      0x0c5e_96dd, 0x153f_5501, 0x83e5_0579, 0xad69_4245, 0x82fb_0b27, 0x9479_489b, 0x3ef1_765e, 0xff75_2502)

  const KEY_4: Matrix := Matrix(
      0x7b89_3f75, 0xfcb3_9b21, 0x0797_b1bf, 0x5f9e_c3b3, 0x4e0f_0bd5, 0xafa7_7b58, 0xea55_62e0, 0xd7ac_0abe,
      0x6990_c3af, 0x435a_b730, 0xd68d_7249, 0x1669_6500, 0xb016_2333, 0x553c_cfa7, 0x13cb_e911, 0xdbba_b6cc)

  const KEY_5: Matrix := Matrix(
      0xd1de_186c, 0xb0c7_b93c, 0xd078_df04, 0x660e_0112, 0x67e3_6bdb, 0xac30_ed15, 0xbd9e_d3dd, 0x7851_b2cd,
      0xab33_732a, 0xba25_d2cf, 0x4ed7_a584, 0x5bd1_985c, 0xf316_8d27, 0x8d87_591b, 0x8c80_db2f, 0x4436_7d8c)

  const KEY_6: Matrix := Matrix(
      0x44ac_8600, 0xe23f_5411, 0x5ae8_0570, 0x5d4f_85b8, 0x2de2_36d4, 0xfddd_6beb, 0x0e3b_8a87, 0x8c65_a958,
      0x8018_e660, 0xe591_c0ff, 0x33de_c291, 0xf507_052f, 0x4ecc_c9aa, 0x48e8_1158, 0x4590_2c7f, 0xfed5_2426)

  const KEY_7: Matrix := Matrix(
      0x82f3_2a6d, 0x8e36_7c9d, 0x12b1_7440, 0x1bda_71e1, 0x9375_cc72, 0xc4a0_c4c8, 0xd199_bb4b, 0x2c03_5ec8,
      0x6a84_44e0, 0xd4b8_31be, 0xade4_e9ca, 0xe44d_4801, 0xa6ce_c396, 0x6cf9_7b4d, 0xfd6c_3bb3, 0xa748_58b5)

  const KEY_8: Matrix := Matrix(
      0x4d7f_6f44, 0xe8db_7660, 0x2268_596b, 0x1952_22b4, 0x6452_0ce3, 0x2d3d_17fc, 0x0aa8_fb53, 0x375e_b422,
      0xc0d0_af92, 0x1224_4acd, 0x5a53_4192, 0x6abb_8c14, 0x0a2b_cb7c, 0x7e65_7143, 0x89b8_18ce, 0xaf9b_6644)

  const KEY_9: Matrix := Matrix(
      0x2d02_a54c, 0x6fdd_5da4, 0x517a_3ba9, 0x4048_cdf3, 0x2735_a16f, 0xfdf9_71a2, 0x454a_57d9, 0xf188_6447,
      0xc7a7_fbc9, 0x6f10_8d65, 0x8ffa_82c8, 0xc826_7115, 0x18bb_420c, 0x2d4e_065f, 0x16d4_618a, 0xc7f6_1ba4)

  const KEY_10: Matrix := Matrix(
      0x423b_4182, 0xfe7b_b227, 0x5042_0ed3, 0x737d_878a, 0x0aa7_6448, 0x7954_cdf3, 0x846a_cd37, 0x7b3c_58ad,
      0x77e3_5583, 0x83e7_7c12, 0xe007_6a2d, 0xbc6c_d0e5, 0xd5e4_f9a0, 0x53a8_748a, 0x13c4_2ec1, 0xdcec_d326)

  lemma KeyTo1()
    ensures Diagonals(Columns(KEY_0)) == KEY_1
  {
  }

  lemma KeyTo2()
    ensures Diagonals(Columns(KEY_1)) == KEY_2
  {
  }

  lemma KeyTo3()
    ensures Diagonals(Columns(KEY_2)) == KEY_3
  {
  }

  lemma KeyTo4()
    ensures Diagonals(Columns(KEY_3)) == KEY_4
  {
  }

  lemma KeyTo5()
    ensures Diagonals(Columns(KEY_4)) == KEY_5
  {
  }

  lemma KeyTo6()
    ensures Diagonals(Columns(KEY_5)) == KEY_6
  {
  }

  lemma KeyTo7()
    ensures Diagonals(Columns(KEY_6)) == KEY_7
  {
  }

  lemma KeyTo8()
    ensures Diagonals(Columns(KEY_7)) == KEY_8
  {
  }

  lemma KeyTo9()
    ensures Diagonals(Columns(KEY_8)) == KEY_9
  {
  }

  lemma KeyTo10()
    ensures Diagonals(Columns(KEY_9)) == KEY_10
  {
  }

  lemma KeyRounds()
    ensures DoubleRounds(KEY_0, 10) == KEY_10
  {
    hide Columns, Diagonals;
    KeyTo1();
    KeyTo2();
    KeyTo3();
    KeyTo4();
    KeyTo5();
    KeyTo6();
    KeyTo7();
    KeyTo8();
    KeyTo9();
    KeyTo10();
    assert DoubleRounds(KEY_0, 1) == KEY_1;
    assert DoubleRounds(KEY_0, 2) == KEY_2;
    assert DoubleRounds(KEY_0, 3) == KEY_3;
    assert DoubleRounds(KEY_0, 4) == KEY_4;
    assert DoubleRounds(KEY_0, 5) == KEY_5;
    assert DoubleRounds(KEY_0, 6) == KEY_6;
    assert DoubleRounds(KEY_0, 7) == KEY_7;
    assert DoubleRounds(KEY_0, 8) == KEY_8;
    assert DoubleRounds(KEY_0, 9) == KEY_9;
  }

  lemma LongNonceWords()
    ensures Load32(LONG_NONCE, 0) == 0x0900_0000 && Load32(LONG_NONCE, 1) == 0x4a00_0000
    ensures Bits(0x0900_0000) == 0x0900_0000 && Bits(0x4a00_0000) == 0x4a00_0000
  {
  }

  lemma LongNonceLoads()
    ensures Load(0, 0, 0, 0) == 0 && Load(0x31, 0x41, 0x59, 0x27) == 0x2759_4131
  {
  }

  /** The derived key words, and the counter at zero behind them. */
  lemma DerivedKeyExample()
    ensures var s := StartState(KEY, LONG_NONCE, 20);
            && s.x04 == 0x423b_4182 && s.x05 == 0xfe7b_b227 && s.x06 == 0x5042_0ed3 && s.x07 == 0x737d_878a
            && s.x08 == 0xd5e4_f9a0 && s.x09 == 0x53a8_748a && s.x10 == 0x13c4_2ec1 && s.x11 == 0xdcec_d326
            && s.x12 == 0 && s.x13 == 0 && s.x14 == LoadWord(LONG_NONCE, 4) && s.x15 == LoadWord(LONG_NONCE, 5)
  {
    hide Load, Load32, Bits, DoubleRounds;
    KeyWords();
    LongNonceWords();
    LongNonceLoads();
    KeyRounds();
    var s := KeyState(KEY).(x12 := 0x0900_0000, x13 := 0x4a00_0000, x14 := 0, x15 := 0x2759_4131);
    assert Words16(s) == KEY_0;
    assert StartState(KEY, LONG_NONCE, 20) == HChacha(s, 20).(x14 := LoadWord(LONG_NONCE, 4), x15 := LoadWord(LONG_NONCE, 5));
  }
}
