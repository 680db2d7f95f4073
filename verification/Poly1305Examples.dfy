/** What clamping does byte by byte, and the worked example of section 2.5.2 of RFC 8439. */
module Poly1305Examples {
  import opened Poly1305Limbs
  import opened Poly1305Mac
  import opened Words

  // ---------------------------------------------------------------- clamping

  lemma Digits8(x: nat)
    ensures Low(x, 8) == x % 256 && Shr(x, 8) == x / 256
  {
    SplitDigits(x, 8);
    assert Pow2(8) == 256;
    hide Low, Shr, Pow2;
    DivUnique(x, 256, Shr(x, 8), Low(x, 8));
  }

  lemma AndBytes(x: nat, y: nat)
    ensures And(x, y) == And(x % 256, y % 256) + 256 * And(x / 256, y / 256)
  {
    assert Pow2(8) == 256;
    hide And, Pow2, Low, Shr;
    Digits8(x);
    Digits8(y);
    AndLow(x, y, 8);
    AndShr(x, y, 8);
    SplitDigits(And(x, y), 8);
  }

  function Masked(s: seq<byte>, mask: seq<byte>): (r: seq<byte>)
    requires |s| == |mask|
    ensures |r| == |s|
  {
    seq<byte>(|s|, i requires 0 <= i < |s| => MaskedByte(s[i], mask[i]))
  }

  function MaskedByte(a: byte, b: byte): byte {
    AndBound(a, b);
    And(a, b)
  }

  /** A mask acts on every byte by itself. */
  lemma {:induction false} MaskedValue(s: seq<byte>, mask: seq<byte>)
    requires |s| == |mask|
    ensures And(LeValue(s), LeValue(mask)) == LeValue(Masked(s, mask))
  {
    hide And;
    if |s| == 0 {
      AndZero(0);
    } else {
      MaskedValue(s[1..], mask[1..]);
      assert Masked(s, mask)[1..] == Masked(s[1..], mask[1..]);
      AndBytes(LeValue(s), LeValue(mask));
    }
  }

  lemma {:induction false} AndOnes(x: nat, k: nat)
    ensures And(x, Pow2(k) - 1) == x % Pow2(k)
  {
    hide And;
    if k == 0 {
      AndZero(x);
    } else {
      AndOnes(x / 2, k - 1);
      AndUnfold(x, Pow2(k) - 1);
      HalfMod(x, Pow2(k - 1));
    }
  }

  lemma HalfMod(x: nat, p: nat)
    requires p > 0
    ensures x % (2 * p) == 2 * (x / 2 % p) + x % 2
  {
    var q, r := x / 2 / p, x / 2 % p;
    assert x / 2 == q * p + r;
    assert 2 * (q * p) == q * (2 * p);
    DivUnique(x, 2 * p, q, 2 * r + x % 2);
  }

  lemma SmallPowers()
    ensures Pow2(8) == 256 && Pow2(4) == 16 && Pow2(6) == 64
  {
    assert Pow2(6) == 64;
  }

  lemma ByteMasks(b: byte)
    ensures MaskedByte(b, 0xFF) == b && MaskedByte(b, 0x0F) == b % 16 && MaskedByte(b, 0xFC) == b - b % 4
  {
    hide And, Pow2;
    SmallPowers();
    AndOnes(b, 8);
    AndOnes(b, 4);
    AndOnes(b / 4, 6);
    AndUnfold(b, 0xFC);
    AndUnfold(b / 2, 0x7E);
  }

  /** The mask, byte by byte. */
  const MASK: seq<byte> := [0xFF, 0xFF, 0xFF, 0x0F, 0xFC, 0xFF, 0xFF, 0x0F, 0xFC, 0xFF, 0xFF, 0x0F, 0xFC, 0xFF, 0xFF, 0x0F]

  /** Clamping as section 2.5 words it: the top four bits of bytes 3, 7, 11 and 15 and the bottom two bits of
      bytes 4, 8 and 12 are cleared. */
  function Clamped(s: seq<byte>): (r: seq<byte>)
    requires |s| == 16
    ensures |r| == 16
  {
    [s[0], s[1], s[2], s[3] % 16,
     s[4] - s[4] % 4, s[5], s[6], s[7] % 16,
     s[8] - s[8] % 4, s[9], s[10], s[11] % 16,
     s[12] - s[12] % 4, s[13], s[14], s[15] % 16]
  }

  lemma MaskClamps(s: seq<byte>)
    requires |s| == 16
    ensures Masked(s, MASK) == Clamped(s)
  {
    hide MaskedByte;
    forall i | 0 <= i < 16 ensures Masked(s, MASK)[i] == Clamped(s)[i] {
      ByteMasks(s[i]);
      MaskAt(i);
    }
  }

  lemma MaskAt(i: nat)
    requires i < 16
    ensures MASK[i] == if i % 4 == 3 then 0x0F else if i % 4 == 0 && i > 0 then 0xFC else 0xFF
  {
  }

  lemma ClampingByBytes(key: seq<byte>)
    requires |key| == 32
    ensures RfcR(key) == LeValue(Clamped(key[..16]))
  {
    hide And, LeValue, Masked, Clamped;
    MaskedValue(key[..16], MASK);
    MaskClamps(key[..16]);
    MaskNumber();
  }

  // ---------------------------------------------------------------- the number of sixteen bytes

  lemma FourBytes(a: byte, b: byte, c: byte, d: byte)
    ensures LeValue([a, b, c, d]) == a as int + 0x100 * b + 0x1_0000 * c + 0x100_0000 * d
  {
    var s := [a, b, c, d];
    assert s[1..] == [b, c, d] && s[1..][1..] == [c, d] && s[1..][1..][1..] == [d] && s[1..][1..][1..][1..] == [];
    assert LeValue([d]) == d;
    assert LeValue([c, d]) == c + 256 * LeValue([d]);
    assert LeValue([b, c, d]) == b + 256 * LeValue([c, d]);
  }

  lemma SixteenBytes(b0: byte, b1: byte, b2: byte, b3: byte, b4: byte, b5: byte, b6: byte, b7: byte, b8: byte, b9: byte, b10: byte, b11: byte, b12: byte, b13: byte, b14: byte, b15: byte)
    ensures LeValue([b0, b1, b2, b3, b4, b5, b6, b7, b8, b9, b10, b11, b12, b13, b14, b15])
         == b0 as int + 0x100 * b1 + 0x0001_0000 * b2 + 0x0100_0000 * b3 + 0x0001_0000_0000 * b4 + 0x0100_0000_0000 * b5 + 0x0001_0000_0000_0000 * b6 + 0x0100_0000_0000_0000 * b7 + 0x0001_0000_0000_0000_0000 * b8 + 0x0100_0000_0000_0000_0000 * b9 + 0x0001_0000_0000_0000_0000_0000 * b10 + 0x0100_0000_0000_0000_0000_0000 * b11 + 0x0001_0000_0000_0000_0000_0000_0000 * b12 + 0x0100_0000_0000_0000_0000_0000_0000 * b13 + 0x0001_0000_0000_0000_0000_0000_0000_0000 * b14 + 0x0100_0000_0000_0000_0000_0000_0000_0000 * b15
  {
    hide LeValue;
    FourBytes(b0, b1, b2, b3);
    FourBytes(b4, b5, b6, b7);
    FourBytes(b8, b9, b10, b11);
    FourBytes(b12, b13, b14, b15);
    var p, q, r, s := [b0, b1, b2, b3], [b4, b5, b6, b7], [b8, b9, b10, b11], [b12, b13, b14, b15];
    assert [b0, b1, b2, b3, b4, b5, b6, b7, b8, b9, b10, b11, b12, b13, b14, b15] == p + (q + (r + s));
    FourWords(p, q, r, s);
  }

  lemma FourWords(p: seq<byte>, q: seq<byte>, r: seq<byte>, s: seq<byte>)
    requires |p| == |q| == |r| == |s| == 4
    ensures LeValue(p + (q + (r + s)))
         == LeValue(p) + 0x1_0000_0000 * LeValue(q) + 0x1_0000_0000_0000_0000 * LeValue(r) + 0x1_0000_0000_0000_0000_0000_0000 * LeValue(s)
  {
    hide LeValue;
    FourThen(p, q + (r + s));
    FourThen(q, r + s);
    FourThen(r, s);
  }

  lemma FourThen(p: seq<byte>, t: seq<byte>)
    requires |p| == 4
    ensures LeValue(p + t) == LeValue(p) + 0x1_0000_0000 * LeValue(t)
  {
    var k := Pow256(|p|);
    assert k == 0x1_0000_0000;
    hide LeValue, Pow256;
    LeValueConcat(p, t);
    assert k * LeValue(t) == 0x1_0000_0000 * LeValue(t);
  }

  lemma MaskNumber()
    ensures LeValue(MASK) == CLAMP
  {
    hide LeValue;
    SixteenBytes(0xFF, 0xFF, 0xFF, 0x0F, 0xFC, 0xFF, 0xFF, 0x0F, 0xFC, 0xFF, 0xFF, 0x0F, 0xFC, 0xFF, 0xFF, 0x0F);
  }

  // ---------------------------------------------------------------- section 2.5.2

  const KEY: seq<byte> :=
    [0x85, 0xd6, 0xbe, 0x78, 0x57, 0x55, 0x6d, 0x33, 0x7f, 0x44, 0x52, 0xfe, 0x42, 0xd5, 0x06, 0xa8,
     0x01, 0x03, 0x80, 0x8a, 0xfb, 0x0d, 0xb2, 0xfd, 0x4a, 0xbf, 0xf6, 0xaf, 0x41, 0x49, 0xf5, 0x1b]

  /** "Cryptographic Forum Research Group" */
  const MESSAGE: seq<byte> :=
    [0x43, 0x72, 0x79, 0x70, 0x74, 0x6f, 0x67, 0x72, 0x61, 0x70, 0x68, 0x69, 0x63, 0x20, 0x46, 0x6f,
     0x72, 0x75, 0x6d, 0x20, 0x52, 0x65, 0x73, 0x65, 0x61, 0x72, 0x63, 0x68, 0x20, 0x47, 0x72, 0x6f,
     0x75, 0x70]

  const TAG: seq<byte> :=
    [0xa8, 0x06, 0x1d, 0xc1, 0x30, 0x51, 0x36, 0xc6, 0xc2, 0x2b, 0x8b, 0xaf, 0x0c, 0x01, 0x27, 0xa9]

  lemma KeyHalf()
    ensures KEY[..16] == [0x85, 0xd6, 0xbe, 0x78, 0x57, 0x55, 0x6d, 0x33, 0x7f, 0x44, 0x52, 0xfe, 0x42, 0xd5, 0x06, 0xa8]
  {
  }

  lemma ClampedHalf()
    ensures Clamped([0x85, 0xd6, 0xbe, 0x78, 0x57, 0x55, 0x6d, 0x33, 0x7f, 0x44, 0x52, 0xfe, 0x42, 0xd5, 0x06, 0xa8])
         == [0x85, 0xd6, 0xbe, 0x08, 0x54, 0x55, 0x6d, 0x03, 0x7c, 0x44, 0x52, 0x0e, 0x40, 0xd5, 0x06, 0x08]
  {
  }

  lemma ClampedKey()
    ensures RfcR(KEY) == 0x0806_d540_0e52_447c_036d_5554_08be_d685
  {
    hide LeValue, Clamped, RfcR;
    ClampingByBytes(KEY);
    KeyHalf();
    ClampedHalf();
    SixteenBytes(0x85, 0xd6, 0xbe, 0x08, 0x54, 0x55, 0x6d, 0x03, 0x7c, 0x44, 0x52, 0x0e, 0x40, 0xd5, 0x06, 0x08);
  }

  lemma SecondHalf()
    ensures RfcS(KEY) == 0x1bf5_4941_aff6_bf4a_fdb2_0dfb_8a80_0301
  {
    hide LeValue;
    assert KEY[16..] == [0x01, 0x03, 0x80, 0x8a, 0xfb, 0x0d, 0xb2, 0xfd, 0x4a, 0xbf, 0xf6, 0xaf, 0x41, 0x49, 0xf5, 0x1b];
    SixteenBytes(0x01, 0x03, 0x80, 0x8a, 0xfb, 0x0d, 0xb2, 0xfd, 0x4a, 0xbf, 0xf6, 0xaf, 0x41, 0x49, 0xf5, 0x1b);
  }

  lemma Piece0()
    ensures LeValue([0x43, 0x72, 0x79, 0x70, 0x74, 0x6f, 0x67, 0x72, 0x61, 0x70, 0x68, 0x69, 0x63, 0x20, 0x46, 0x6f] + [1]) == 0x0001_6f46_2063_6968_7061_7267_6f74_7079_7243
  {
    SixteenBytes(0x43, 0x72, 0x79, 0x70, 0x74, 0x6f, 0x67, 0x72, 0x61, 0x70, 0x68, 0x69, 0x63, 0x20, 0x46, 0x6f);
    AppendOne([0x43, 0x72, 0x79, 0x70, 0x74, 0x6f, 0x67, 0x72, 0x61, 0x70, 0x68, 0x69, 0x63, 0x20, 0x46, 0x6f]);
    hide LeValue;
  }

  lemma Piece1()
    ensures LeValue([0x72, 0x75, 0x6d, 0x20, 0x52, 0x65, 0x73, 0x65, 0x61, 0x72, 0x63, 0x68, 0x20, 0x47, 0x72, 0x6f] + [1]) == 0x0001_6f72_4720_6863_7261_6573_6552_206d_7572
  {
    SixteenBytes(0x72, 0x75, 0x6d, 0x20, 0x52, 0x65, 0x73, 0x65, 0x61, 0x72, 0x63, 0x68, 0x20, 0x47, 0x72, 0x6f);
    AppendOne([0x72, 0x75, 0x6d, 0x20, 0x52, 0x65, 0x73, 0x65, 0x61, 0x72, 0x63, 0x68, 0x20, 0x47, 0x72, 0x6f]);
    hide LeValue;
  }

  lemma Piece2()
    ensures LeValue([0x75, 0x70] + [1]) == 0x0001_7075
  {
    assert [0x75, 0x70] + [1] == [0x75, 0x70, 1];
    assert [0x75, 0x70, 1][1..] == [0x70, 1] && [0x70, 1][1..] == [1] && [1][1..] == [];
  }

  lemma Accumulated()
    ensures AddTimes(0, 0x0001_6f46_2063_6968_7061_7267_6f74_7079_7243, 0x0806_d540_0e52_447c_036d_5554_08be_d685) == 0x0002_c88c_7784_9d64_ae91_47dd_eb88_e69c_83fc
    ensures AddTimes(0x0002_c88c_7784_9d64_ae91_47dd_eb88_e69c_83fc, 0x0001_6f72_4720_6863_7261_6573_6552_206d_7572, 0x0806_d540_0e52_447c_036d_5554_08be_d685) == 0x0002_d8ad_af23_b033_7fa7_cccf_b4ea_344b_30de
    ensures AddTimes(0x0002_d8ad_af23_b033_7fa7_cccf_b4ea_344b_30de, 0x0001_7075, 0x0806_d540_0e52_447c_036d_5554_08be_d685) == 0x0002_8d31_b7ca_ff94_6c77_c884_4335_369d_03a7
  {
  }

  lemma Pieces()
    ensures MESSAGE[..16] == [0x43, 0x72, 0x79, 0x70, 0x74, 0x6f, 0x67, 0x72, 0x61, 0x70, 0x68, 0x69, 0x63, 0x20, 0x46, 0x6f]
    ensures MESSAGE[16..][..16] == [0x72, 0x75, 0x6d, 0x20, 0x52, 0x65, 0x73, 0x65, 0x61, 0x72, 0x63, 0x68, 0x20, 0x47, 0x72, 0x6f]
    ensures MESSAGE[16..][16..] == [0x75, 0x70]
  {
  }

  lemma AccumulatorExample()
    ensures RfcPolynomial(0, 0x0806_d540_0e52_447c_036d_5554_08be_d685, MESSAGE) == 0x0002_8d31_b7ca_ff94_6c77_c884_4335_369d_03a7
  {
    hide LeValue, AddTimes;
    Pieces();
    Piece0();
    Piece1();
    Piece2();
    Accumulated();
    var rest := MESSAGE[16..];
    assert rest[16..][..2] == rest[16..] && rest[16..][2..] == [];
    assert RfcPolynomial(0x0002_d8ad_af23_b033_7fa7_cccf_b4ea_344b_30de, 0x0806_d540_0e52_447c_036d_5554_08be_d685, rest[16..]) == 0x0002_8d31_b7ca_ff94_6c77_c884_4335_369d_03a7;
    assert RfcPolynomial(0x0002_c88c_7784_9d64_ae91_47dd_eb88_e69c_83fc, 0x0806_d540_0e52_447c_036d_5554_08be_d685, rest) == 0x0002_8d31_b7ca_ff94_6c77_c884_4335_369d_03a7;
  }

  lemma TagBytes()
    ensures LeBytes(0xa927_010c_af8b_2bc2_c636_5130_c11d_06a8, 16) == TAG
  {
    hide LeValue, LeBytes;
    SixteenBytes(0xa8, 0x06, 0x1d, 0xc1, 0x30, 0x51, 0x36, 0xc6, 0xc2, 0x2b, 0x8b, 0xaf, 0x0c, 0x01, 0x27, 0xa9);
    LeBytesOfValue(TAG);
  }

  /** The tag of that key and message. */
  lemma TagExample()
    ensures RfcTag(KEY, MESSAGE) == TAG
  {
    hide LeBytes, RfcPolynomial, RfcR, RfcS;
    ClampedKey();
    SecondHalf();
    AccumulatorExample();
    TagBytes();
  }

  /** The code's tag is the same one here. */
  lemma StreamTagExample()
    ensures StreamTag(KEY, MESSAGE) == TAG
  {
    hide LeBytes, RfcPolynomial, RfcR, RfcS, StreamTag, RfcTag;
    ClampedKey();
    AccumulatorExample();
    TagExample();
    StreamTagIsRfcTag(KEY, MESSAGE);
  }
}
