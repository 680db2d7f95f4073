/** A worked example of GCM: test case 2 of the GCM specification, its products, its hash and its tag. */
module GhashExamples {
  import opened Gf128
  import opened GhashMac
  import O = OctetStrings
  import W = Words

  // ---------------------------------------------------------------- the product, sixteen bits at a time

  /** The sum so far, the other factor by a power of x, and the bits that are still to come. */
  datatype Run = Run(z: Block, v: Block, w: bv64)

  function One(s: Run): Run { Run(Xor(s.z, Gate(Top(s.w), s.v)), MulX(s.v), Left1(s.w)) }

  function Four(s: Run): Run { One(One(One(One(s)))) }

  function Sixteen(s: Run): Run { Four(Four(Four(Four(s)))) }

  function Many(s: Run, n: nat): Run
    decreases n
  {
    if n == 0 then s else Many(One(s), n - 1)
  }

  lemma ManyFour(s: Run, n: nat)
    requires n >= 4
    ensures Many(s, n) == Many(Four(s), n - 4)
  {
    hide One;
    assert Many(s, n) == Many(One(s), n - 1);
    assert Many(One(s), n - 1) == Many(One(One(s)), n - 2);
    assert Many(One(One(s)), n - 2) == Many(One(One(One(s))), n - 3);
  }

  lemma ManySixteen(s: Run, n: nat)
    requires n >= 16
    ensures Many(s, n) == Many(Sixteen(s), n - 16)
  {
    hide Four, Many;
    ManyFour(s, n);
    ManyFour(Four(s), n - 4);
    ManyFour(Four(Four(s)), n - 8);
    ManyFour(Four(Four(Four(s))), n - 12);
  }

  /** The run over the bits of a word adds up the product. */
  lemma {:induction false} RunIsDot(s: Run, n: nat)
    ensures Many(s, n).z == Xor(s.z, Dot(WordBits(s.w, n), s.v)) && Many(s, n).v == MulXN(s.v, n)
    decreases n
  {
    hide Xor, MulX, Top, Left1;
    var d := Dot(WordBits(s.w, n), s.v);
    if n == 0 {
      XorAlgebra(s.z, ZERO, ZERO, ZERO);
    } else {
      RunIsDot(One(s), n - 1);
      assert WordBits(s.w, n)[1..] == WordBits(Left1(s.w), n - 1);
      XorAlgebra(s.z, Gate(Top(s.w), s.v), Dot(WordBits(Left1(s.w), n - 1), MulX(s.v)), ZERO);
    }
  }

  lemma RunIsMul(a: Block, h: Block)
    ensures var s := Many(Run(ZERO, h, a.hi), 64);
            Many(Run(s.z, s.v, a.lo), 64).z == Mul(a, h)
  {
    hide Xor, MulX, Top, Left1, Dot, WordBits, Many, MulXN;
    var s := Many(Run(ZERO, h, a.hi), 64);
    RunIsDot(Run(ZERO, h, a.hi), 64);
    RunIsDot(Run(s.z, s.v, a.lo), 64);
    DotConcat(WordBits(a.hi, 64), WordBits(a.lo, 64), h);
    XorAlgebra(Dot(WordBits(a.hi, 64), h), ZERO, ZERO, ZERO);
  }

  // ---------------------------------------------------------------- test case 2

  /** The hash key: the zero block under the zero key. */
  const H: Block := Block(0x66e9_4bd4_ef8a_2c3b, 0x884c_fa59_ca34_2b2e)

  lemma ManyNone(s: Run)
    ensures Many(s, 0) == s
  {
  }

  lemma First0()
    ensures Sixteen(Run(Block(0x0000_0000_0000_0000, 0x0000_0000_0000_0000), Block(0x66e9_4bd4_ef8a_2c3b, 0x884c_fa59_ca34_2b2e), 0x0388_dace_60b6_a392))
         == Run(Block(0x5b6f_3067_93c0_4e66, 0x6101_6228_28ea_2f93), Block(0x3424_bae9_4bd4_ef8a, 0x2c3b_884c_fa59_ca34), 0xdace_60b6_a392_0000)
  {
  }

  lemma First1()
    ensures Sixteen(Run(Block(0x5b6f_3067_93c0_4e66, 0x6101_6228_28ea_2f93), Block(0x3424_bae9_4bd4_ef8a, 0x2c3b_884c_fa59_ca34), 0xdace_60b6_a392_0000))
         == Run(Block(0xde8f_fcf9_6a83_a4bc, 0xe132_3d28_4184_296a), Block(0x9c37_5c24_bae9_4bd4, 0xef8a_2c3b_884c_fa59), 0x60b6_a392_0000_0000)
  {
  }

  lemma First2()
    ensures Sixteen(Run(Block(0xde8f_fcf9_6a83_a4bc, 0xe132_3d28_4184_296a), Block(0x9c37_5c24_bae9_4bd4, 0xef8a_2c3b_884c_fa59), 0x60b6_a392_0000_0000))
         == Run(Block(0xe811_30e5_21f9_617c, 0x87a8_fba0_0498_5fdf), Block(0xb817_ee37_5c24_bae9, 0x4bd4_ef8a_2c3b_884c), 0xa392_0000_0000_0000)
  {
  }

  lemma First3()
    ensures Sixteen(Run(Block(0xe811_30e5_21f9_617c, 0x87a8_fba0_0498_5fdf), Block(0xb817_ee37_5c24_bae9, 0x4bd4_ef8a_2c3b_884c), 0xa392_0000_0000_0000))
         == Run(Block(0xe563_c077_5076_fe0e, 0xb6f6_5488_5a04_a0a6), Block(0xef69_2017_ee37_5c24, 0xbae9_4bd4_ef8a_2c3b), 0x0000_0000_0000_0000)
  {
  }

  lemma First4()
    ensures Sixteen(Run(Block(0xe563_c077_5076_fe0e, 0xb6f6_5488_5a04_a0a6), Block(0xef69_2017_ee37_5c24, 0xbae9_4bd4_ef8a_2c3b), 0xf328_c2b9_71b2_fe78))
         == Run(Block(0x0825_a676_3bf0_eddf, 0xf877_a247_d64c_72c8), Block(0x3170_d969_2017_ee37, 0x5c24_bae9_4bd4_ef8a), 0xc2b9_71b2_fe78_0000)
  {
  }

  lemma First5()
    ensures Sixteen(Run(Block(0x0825_a676_3bf0_eddf, 0xf877_a247_d64c_72c8), Block(0x3170_d969_2017_ee37, 0x5c24_bae9_4bd4_ef8a), 0xc2b9_71b2_fe78_0000))
         == Run(Block(0xd8ef_4fd6_1560_faf2, 0x944a_0430_482b_c897), Block(0xa272_a570_d969_2017, 0xee37_5c24_bae9_4bd4), 0x71b2_fe78_0000_0000)
  {
  }

  lemma First6()
    ensures Sixteen(Run(Block(0xd8ef_4fd6_1560_faf2, 0x944a_0430_482b_c897), Block(0xa272_a570_d969_2017, 0xee37_5c24_bae9_4bd4), 0x71b2_fe78_0000_0000))
         == Run(Block(0xd1e9_8c44_a226_af56, 0xda71_3caa_3c5c_21f0), Block(0x7c5c_0a72_a570_d969, 0x2017_ee37_5c24_bae9), 0xfe78_0000_0000_0000)
  {
  }

  lemma First7()
    ensures Sixteen(Run(Block(0xd1e9_8c44_a226_af56, 0xda71_3caa_3c5c_21f0), Block(0x7c5c_0a72_a570_d969, 0x2017_ee37_5c24_bae9), 0xfe78_0000_0000_0000))
         == Run(Block(0x5e2e_c746_9170_6288, 0x2c85_b068_5353_deb7), Block(0xc852_6e5c_0a72_a570, 0xd969_2017_ee37_5c24), 0x0000_0000_0000_0000)
  {
  }

  lemma First()
    ensures Mul(Block(0x0388_dace_60b6_a392, 0xf328_c2b9_71b2_fe78), H) == Block(0x5e2e_c746_9170_6288, 0x2c85_b068_5353_deb7)
  {
    hide Sixteen, Mul, Many;
    var a := Block(0x0388_dace_60b6_a392, 0xf328_c2b9_71b2_fe78);
    RunIsMul(a, H);
    First0();
    ManySixteen(Run(Block(0x0000_0000_0000_0000, 0x0000_0000_0000_0000), Block(0x66e9_4bd4_ef8a_2c3b, 0x884c_fa59_ca34_2b2e), 0x0388_dace_60b6_a392), 64);
    First1();
    ManySixteen(Run(Block(0x5b6f_3067_93c0_4e66, 0x6101_6228_28ea_2f93), Block(0x3424_bae9_4bd4_ef8a, 0x2c3b_884c_fa59_ca34), 0xdace_60b6_a392_0000), 48);
    First2();
    ManySixteen(Run(Block(0xde8f_fcf9_6a83_a4bc, 0xe132_3d28_4184_296a), Block(0x9c37_5c24_bae9_4bd4, 0xef8a_2c3b_884c_fa59), 0x60b6_a392_0000_0000), 32);
    First3();
    ManySixteen(Run(Block(0xe811_30e5_21f9_617c, 0x87a8_fba0_0498_5fdf), Block(0xb817_ee37_5c24_bae9, 0x4bd4_ef8a_2c3b_884c), 0xa392_0000_0000_0000), 16);
    ManyNone(Run(Block(0xe563_c077_5076_fe0e, 0xb6f6_5488_5a04_a0a6), Block(0xef69_2017_ee37_5c24, 0xbae9_4bd4_ef8a_2c3b), 0x0000_0000_0000_0000));
    First4();
    ManySixteen(Run(Block(0xe563_c077_5076_fe0e, 0xb6f6_5488_5a04_a0a6), Block(0xef69_2017_ee37_5c24, 0xbae9_4bd4_ef8a_2c3b), 0xf328_c2b9_71b2_fe78), 64);
    First5();
    ManySixteen(Run(Block(0x0825_a676_3bf0_eddf, 0xf877_a247_d64c_72c8), Block(0x3170_d969_2017_ee37, 0x5c24_bae9_4bd4_ef8a), 0xc2b9_71b2_fe78_0000), 48);
    First6();
    ManySixteen(Run(Block(0xd8ef_4fd6_1560_faf2, 0x944a_0430_482b_c897), Block(0xa272_a570_d969_2017, 0xee37_5c24_bae9_4bd4), 0x71b2_fe78_0000_0000), 32);
    First7();
    ManySixteen(Run(Block(0xd1e9_8c44_a226_af56, 0xda71_3caa_3c5c_21f0), Block(0x7c5c_0a72_a570_d969, 0x2017_ee37_5c24_bae9), 0xfe78_0000_0000_0000), 16);
    ManyNone(Run(Block(0x5e2e_c746_9170_6288, 0x2c85_b068_5353_deb7), Block(0xc852_6e5c_0a72_a570, 0xd969_2017_ee37_5c24), 0x0000_0000_0000_0000));
  }

  lemma Second0()
    ensures Sixteen(Run(Block(0x0000_0000_0000_0000, 0x0000_0000_0000_0000), Block(0x66e9_4bd4_ef8a_2c3b, 0x884c_fa59_ca34_2b2e), 0x5e2e_c746_9170_6288))
         == Run(Block(0x7469_df75_698f_50d8, 0x23a0_8d5c_e1c1_f48c), Block(0x3424_bae9_4bd4_ef8a, 0x2c3b_884c_fa59_ca34), 0xc746_9170_6288_0000)
  {
  }

  lemma Second1()
    ensures Sixteen(Run(Block(0x7469_df75_698f_50d8, 0x23a0_8d5c_e1c1_f48c), Block(0x3424_bae9_4bd4_ef8a, 0x2c3b_884c_fa59_ca34), 0xc746_9170_6288_0000))
         == Run(Block(0x03bf_454b_f21d_0e09, 0x7360_48b3_ee52_d603), Block(0x9c37_5c24_bae9_4bd4, 0xef8a_2c3b_884c_fa59), 0x9170_6288_0000_0000)
  {
  }

  lemma Second2()
    ensures Sixteen(Run(Block(0x03bf_454b_f21d_0e09, 0x7360_48b3_ee52_d603), Block(0x9c37_5c24_bae9_4bd4, 0xef8a_2c3b_884c_fa59), 0x9170_6288_0000_0000))
         == Run(Block(0xc763_ccc1_0938_2dee, 0xcd15_e38f_f450_1639), Block(0xb817_ee37_5c24_bae9, 0x4bd4_ef8a_2c3b_884c), 0x6288_0000_0000_0000)
  {
  }

  lemma Second3()
    ensures Sixteen(Run(Block(0xc763_ccc1_0938_2dee, 0xcd15_e38f_f450_1639), Block(0xb817_ee37_5c24_bae9, 0x4bd4_ef8a_2c3b_884c), 0x6288_0000_0000_0000))
         == Run(Block(0x0c5f_897f_797a_2a3a, 0xd8fa_95b7_337d_261d), Block(0xef69_2017_ee37_5c24, 0xbae9_4bd4_ef8a_2c3b), 0x0000_0000_0000_0000)
  {
  }

  lemma Second4()
    ensures Sixteen(Run(Block(0x0c5f_897f_797a_2a3a, 0xd8fa_95b7_337d_261d), Block(0xef69_2017_ee37_5c24, 0xbae9_4bd4_ef8a_2c3b), 0x2c85_b068_5353_de37))
         == Run(Block(0xeae6_0ac0_141b_a898, 0xe5ef_5272_fcfa_77d8), Block(0x3170_d969_2017_ee37, 0x5c24_bae9_4bd4_ef8a), 0xb068_5353_de37_0000)
  {
  }

  lemma Second5()
    ensures Sixteen(Run(Block(0xeae6_0ac0_141b_a898, 0xe5ef_5272_fcfa_77d8), Block(0x3170_d969_2017_ee37, 0x5c24_bae9_4bd4_ef8a), 0xb068_5353_de37_0000))
         == Run(Block(0xc6b5_4d89_2041_4f96, 0xf04a_8844_acc2_9c43), Block(0xa272_a570_d969_2017, 0xee37_5c24_bae9_4bd4), 0x5353_de37_0000_0000)
  {
  }

  lemma Second6()
    ensures Sixteen(Run(Block(0xc6b5_4d89_2041_4f96, 0xf04a_8844_acc2_9c43), Block(0xa272_a570_d969_2017, 0xee37_5c24_bae9_4bd4), 0x5353_de37_0000_0000))
         == Run(Block(0xecb3_2e69_bc5a_c39d, 0x4389_c7ec_e364_d090), Block(0x7c5c_0a72_a570_d969, 0x2017_ee37_5c24_bae9), 0xde37_0000_0000_0000)
  {
  }

  lemma Second7()
    ensures Sixteen(Run(Block(0xecb3_2e69_bc5a_c39d, 0x4389_c7ec_e364_d090), Block(0x7c5c_0a72_a570_d969, 0x2017_ee37_5c24_bae9), 0xde37_0000_0000_0000))
         == Run(Block(0xf38c_bb1a_d692_23dc, 0xc345_7ae5_b6b0_f885), Block(0xc852_6e5c_0a72_a570, 0xd969_2017_ee37_5c24), 0x0000_0000_0000_0000)
  {
  }

  lemma Second()
    ensures Mul(Block(0x5e2e_c746_9170_6288, 0x2c85_b068_5353_de37), H) == Block(0xf38c_bb1a_d692_23dc, 0xc345_7ae5_b6b0_f885)
  {
    hide Sixteen, Mul, Many;
    var a := Block(0x5e2e_c746_9170_6288, 0x2c85_b068_5353_de37);
    RunIsMul(a, H);
    Second0();
    ManySixteen(Run(Block(0x0000_0000_0000_0000, 0x0000_0000_0000_0000), Block(0x66e9_4bd4_ef8a_2c3b, 0x884c_fa59_ca34_2b2e), 0x5e2e_c746_9170_6288), 64);
    Second1();
    ManySixteen(Run(Block(0x7469_df75_698f_50d8, 0x23a0_8d5c_e1c1_f48c), Block(0x3424_bae9_4bd4_ef8a, 0x2c3b_884c_fa59_ca34), 0xc746_9170_6288_0000), 48);
    Second2();
    ManySixteen(Run(Block(0x03bf_454b_f21d_0e09, 0x7360_48b3_ee52_d603), Block(0x9c37_5c24_bae9_4bd4, 0xef8a_2c3b_884c_fa59), 0x9170_6288_0000_0000), 32);
    Second3();
    ManySixteen(Run(Block(0xc763_ccc1_0938_2dee, 0xcd15_e38f_f450_1639), Block(0xb817_ee37_5c24_bae9, 0x4bd4_ef8a_2c3b_884c), 0x6288_0000_0000_0000), 16);
    ManyNone(Run(Block(0x0c5f_897f_797a_2a3a, 0xd8fa_95b7_337d_261d), Block(0xef69_2017_ee37_5c24, 0xbae9_4bd4_ef8a_2c3b), 0x0000_0000_0000_0000));
    Second4();
    ManySixteen(Run(Block(0x0c5f_897f_797a_2a3a, 0xd8fa_95b7_337d_261d), Block(0xef69_2017_ee37_5c24, 0xbae9_4bd4_ef8a_2c3b), 0x2c85_b068_5353_de37), 64);
    Second5();
    ManySixteen(Run(Block(0xeae6_0ac0_141b_a898, 0xe5ef_5272_fcfa_77d8), Block(0x3170_d969_2017_ee37, 0x5c24_bae9_4bd4_ef8a), 0xb068_5353_de37_0000), 48);
    Second6();
    ManySixteen(Run(Block(0xc6b5_4d89_2041_4f96, 0xf04a_8844_acc2_9c43), Block(0xa272_a570_d969_2017, 0xee37_5c24_bae9_4bd4), 0x5353_de37_0000_0000), 32);
    Second7();
    ManySixteen(Run(Block(0xecb3_2e69_bc5a_c39d, 0x4389_c7ec_e364_d090), Block(0x7c5c_0a72_a570_d969, 0x2017_ee37_5c24_bae9), 0xde37_0000_0000_0000), 16);
    ManyNone(Run(Block(0xf38c_bb1a_d692_23dc, 0xc345_7ae5_b6b0_f885), Block(0xc852_6e5c_0a72_a570, 0xd969_2017_ee37_5c24), 0x0000_0000_0000_0000));
  }

  const TEXT: seq<bv8> := [0x03, 0x88, 0xda, 0xce, 0x60, 0xb6, 0xa3, 0x92, 0xf3, 0x28, 0xc2, 0xb9, 0x71, 0xb2, 0xfe, 0x78]

  /** The enciphered counter block. */
  const MASK: seq<bv8> := [0x58, 0xe2, 0xfc, 0xce, 0xfa, 0x7e, 0x30, 0x61, 0x36, 0x7f, 0x1d, 0x57, 0xa4, 0xe7, 0x45, 0x5a]

  lemma TextBlock()
    ensures Padded([]) == [] && Padded(TEXT) == [Block(0x0388_dace_60b6_a392, 0xf328_c2b9_71b2_fe78)]
  {
    assert TEXT[..16] == TEXT && TEXT[16..] == [];
  }

  lemma LastBlock()
    ensures LengthBlock(0, 16) == Block(0x0000_0000_0000_0000, 0x0000_0000_0000_0080)
  {
    hide LengthBlock, BlockOf, BytesOf, W.BeBytes;
    LengthBytes(0, 16);
    LengthNumbers();
    BlockRoundTrip(LengthBlock(0, 16));
    LengthOctets();
  }

  lemma LengthNumbers()
    ensures W.BeBytes(0, 8) == [0, 0, 0, 0, 0, 0, 0, 0] && W.BeBytes(128, 8) == [0, 0, 0, 0, 0, 0, 0, 128]
  {
    assert W.BeBytes(0, 4) == [0, 0, 0, 0];
    assert W.BeBytes(0, 7) == [0, 0, 0, 0, 0, 0, 0];
  }

  lemma LengthOctets()
    ensures BlockOf(O.Octets([0, 0, 0, 0, 0, 0, 0, 0]) + O.Octets([0, 0, 0, 0, 0, 0, 0, 128])) == Block(0x0000_0000_0000_0000, 0x0000_0000_0000_0080)
  {
    var s := O.Octets([0, 0, 0, 0, 0, 0, 0, 0]) + O.Octets([0, 0, 0, 0, 0, 0, 0, 128]);
    assert s[..8] == [0, 0, 0, 0, 0, 0, 0, 0] && s[8..] == [0, 0, 0, 0, 0, 0, 0, 128];
  }

  lemma HashExample()
    ensures Ghash(H, ZERO, [Block(0x0388_dace_60b6_a392, 0xf328_c2b9_71b2_fe78), Block(0x0000_0000_0000_0000, 0x0000_0000_0000_0080)]) == Block(0xf38c_bb1a_d692_23dc, 0xc345_7ae5_b6b0_f885)
  {
    hide Mul;
    First();
    Second();
    var blocks := [Block(0x0388_dace_60b6_a392, 0xf328_c2b9_71b2_fe78), Block(0x0000_0000_0000_0000, 0x0000_0000_0000_0080)];
    assert blocks[..1] == [Block(0x0388_dace_60b6_a392, 0xf328_c2b9_71b2_fe78)] && blocks[..1][..0] == [];
    assert Ghash(H, ZERO, blocks[..1]) == Block(0x5e2e_c746_9170_6288, 0x2c85_b068_5353_deb7);
  }

  /** The tag. */
  lemma TagExample()
    ensures GcmTag(H, MASK, [], TEXT) == [0xab, 0x6e, 0x47, 0xd4, 0x2c, 0xec, 0x13, 0xbd, 0xf5, 0x3a, 0x67, 0xb2, 0x12, 0x57, 0xbd, 0xdf]
  {
    hide Ghash, Padded, LengthBlock, BytesOf;
    TextBlock();
    LastBlock();
    HashExample();
    assert [] + [Block(0x0388_dace_60b6_a392, 0xf328_c2b9_71b2_fe78)] + [Block(0x0000_0000_0000_0000, 0x0000_0000_0000_0080)] == [Block(0x0388_dace_60b6_a392, 0xf328_c2b9_71b2_fe78), Block(0x0000_0000_0000_0000, 0x0000_0000_0000_0080)];
    HashBytes();
  }

  lemma HashBytes()
    ensures BytesOf(Block(0xf38c_bb1a_d692_23dc, 0xc345_7ae5_b6b0_f885)) == [0xf3, 0x8c, 0xbb, 0x1a, 0xd6, 0x92, 0x23, 0xdc, 0xc3, 0x45, 0x7a, 0xe5, 0xb6, 0xb0, 0xf8, 0x85]
  {
  }
}
