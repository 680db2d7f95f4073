/** Poly1305 over a stream of pieces, and the message authentication code of section 2.5.1 of
    RFC 8439 as an independent definition. */
module Poly1305Mac {
  import opened Words
  import opened Poly1305Limbs
  import opened Wrappers

  const CLAMP: nat := 0x0FFF_FFFC_0FFF_FFFC_0FFF_FFFC_0FFF_FFFF

  // ---------------------------------------------------------------- reference definition

  /** The polynomial of section 2.5.1 of RFC 8439: every piece of up to 16 bytes gets a one
      appended, is added and multiplied by r modulo P. */
  function RfcPolynomial(acc: nat, r: nat, msg: seq<byte>): nat
    decreases |msg|
  {
    if |msg| == 0 then acc
    else
      var k := Min(16, |msg|);
      RfcPolynomial(AddTimes(acc, LeValue(msg[..k] + [1]), r), r, msg[k..])
  }

  /** (acc + v) * r modulo P. */
  function AddTimes(acc: nat, v: nat, r: nat): (x: nat)
    ensures x < P
  {
    ((acc + v) * r) % P
  }

  function RfcR(key: seq<byte>): nat
    requires |key| == 32
  {
    And(LeValue(key[..16]), CLAMP)
  }

  function RfcS(key: seq<byte>): nat
    requires |key| == 32
  {
    LeValue(key[16..])
  }

  /** The accumulator after the whole message. */
  function RfcAccumulator(key: seq<byte>, msg: seq<byte>): nat
    requires |key| == 32
  {
    RfcPolynomial(0, RfcR(key), msg)
  }

  function RfcTag(key: seq<byte>, msg: seq<byte>): seq<byte>
    requires |key| == 32
  {
    LeBytes((RfcAccumulator(key, msg) + RfcS(key)) % S128, 16)
  }

  // ---------------------------------------------------------------- whole blocks

  function BlockValue(block: seq<byte>, isFinal: bool): nat {
    LeValue(block) + (if isFinal then 0 else S128)
  }

  /** The accumulator modulo P after some whole blocks. */
  function Absorb(acc: nat, r: nat, data: seq<byte>, isFinal: bool): (x: nat)
    requires |data| % 16 == 0
    ensures x < P
    decreases |data|
  {
    if |data| == 0 then acc % P
    else
      var k := |data| - 16;
      AddTimes(Absorb(acc, r, data[..k], isFinal), BlockValue(data[k..], isFinal), r)
  }

  lemma AbsorbOne(acc: nat, r: nat, data: seq<byte>, block: seq<byte>, isFinal: bool)
    requires |data| % 16 == 0 && |block| == 16
    ensures |data + block| % 16 == 0
    ensures Absorb(acc, r, data + block, isFinal) == AddTimes(Absorb(acc, r, data, isFinal), BlockValue(block, isFinal), r)
  {
    hide AddTimes, BlockValue;
    var all := data + block;
    assert all[..|all| - 16] == data && all[|all| - 16..] == block;
  }

  lemma {:induction false} AbsorbConcat(acc: nat, r: nat, a: seq<byte>, b: seq<byte>, isFinal: bool)
    requires |a| % 16 == 0 && |b| % 16 == 0 && |a + b| % 16 == 0
    ensures Absorb(Absorb(acc, r, a, isFinal), r, b, isFinal) == Absorb(acc, r, a + b, isFinal)
    decreases |b|
  {
    hide Absorb, AddTimes, BlockValue;
    if |b| == 0 {
      assert a + b == a && b == [];
      AbsorbBelow(acc, r, a, isFinal);
    } else {
      var k := |b| - 16;
      var c, d := b[..k], b[k..];
      AbsorbConcat(acc, r, a, c, isFinal);
      assert b == c + d && a + b == (a + c) + d;
      AbsorbOne(acc, r, a + c, d, isFinal);
      AbsorbOne(Absorb(acc, r, a, isFinal), r, c, d, isFinal);
    }
  }

  lemma AbsorbBelow(acc: nat, r: nat, a: seq<byte>, isFinal: bool)
    requires |a| % 16 == 0
    ensures Absorb(Absorb(acc, r, a, isFinal), r, [], isFinal) == Absorb(acc, r, a, isFinal)
  {
    hide AddTimes, BlockValue;
  }

  /** On whole blocks the reference and the block-by-block accumulator agree. */
  lemma {:induction false} RfcOnBlocks(acc: nat, r: nat, data: seq<byte>, rest: seq<byte>)
    requires |data| % 16 == 0 && acc < P
    ensures RfcPolynomial(acc, r, data + rest) == RfcPolynomial(Absorb(acc, r, data, false), r, rest)
    decreases |data|
  {
    hide AddTimes;
    if |data| == 0 {
      assert data + rest == rest;
    } else {
      var k := |data| - 16;
      assert data + rest == data[..k] + (data[k..] + rest);
      RfcOnBlocks(acc, r, data[..k], data[k..] + rest);
      assert (data[k..] + rest)[..16] == data[k..];
      assert (data[k..] + rest)[16..] == rest;
      AppendOne(data[k..]);
    }
  }

  lemma AppendOne(bs: seq<byte>)
    ensures LeValue(bs + [1]) == LeValue(bs) + Pow256(|bs|)
    ensures Pow256(16) == S128
  {
    hide LeValue, Pow256;
    OneByte();
    LeValueConcat(bs, [1]);
    Pow256Sixteen();
  }

  lemma OneByte()
    ensures LeValue([1]) == 1
  {
    assert [1][1..] == [];
  }

  lemma Pow256Sixteen()
    ensures Pow256(8) == TWO64 && Pow256(16) == S128
  {
    assert Pow256(8) == TWO64;
    Pow256Add(8, 8);
  }

  /** Zero bytes at the end add nothing. */
  lemma {:induction false} PadZeros(bs: seq<byte>, n: nat)
    ensures LeValue(bs + seq(n, _ => 0)) == LeValue(bs)
  {
    var zeros: seq<byte> := seq(n, _ => 0);
    LeValueConcat(bs, zeros);
    ZerosValue(n);
  }

  lemma {:induction false} ZerosValue(n: nat)
    ensures LeValue(seq(n, _ => 0)) == 0
  {
    if n == 0 {
    } else {
      var zeros: seq<byte> := seq(n, _ => 0);
      ZerosValue(n - 1);
      assert zeros[1..] == seq(n - 1, _ => 0);
    }
  }

  // ---------------------------------------------------------------- loading

  function Load64(bs: seq<byte>): u64
    requires |bs| == 8
  {
    LeValueBound(bs);
    assert Pow256(8) == TWO64;
    LeValue(bs)
  }

  lemma LoadBlock(bs: seq<byte>)
    requires |bs| == 16
    ensures LeValue(bs) == Load64(bs[..8]) + TWO64 * Load64(bs[8..])
  {
    assert bs == bs[..8] + bs[8..];
    LeValueConcat(bs[..8], bs[8..]);
    Pow256Sixteen();
  }

  function BlockLimbs(block: seq<byte>, isFinal: bool): Limbs
    requires |block| == 16
  {
    Split(Load64(block[..8]), Load64(block[8..]), if isFinal then 0 else S40)
  }

  lemma BlockLimbsValue(block: seq<byte>, isFinal: bool)
    requires |block| == 16
    ensures var m := BlockLimbs(block, isFinal);
            && Value(m) == BlockValue(block, isFinal)
            && m.l0 < S44 && m.l1 < S44 && m.l2 < 2 * S40
  {
    SplitValue(Load64(block[..8]), Load64(block[8..]), if isFinal then 0 else S40);
    LoadBlock(block);
  }

  /** The clamped multiplier in limbs. */
  function ClampedLimbs(t0: u64, t1: u64): Limbs {
    AndBound(t0, 0xFFC_0FFF_FFFF);
    AndBound(Or(t0 / S44, U64(t1 * S20)), 0xFFF_FFC0_FFFF);
    AndBound(t1 / S24, 0xF_FFFF_FC0F);
    Limbs(And(t0, 0xFFC_0FFF_FFFF),
          And(Or(t0 / S44, U64(t1 * S20)), 0xFFF_FFC0_FFFF),
          And(t1 / S24, 0xF_FFFF_FC0F))
  }

  lemma Digits44(x: nat)
    ensures Low(x, 44) == x % S44 && Shr(x, 44) == x / S44
  {
    PowersOfTwo();
    SplitDigits(x, 44);
    hide Low, Shr, Pow2;
    DivUnique(x, S44, Shr(x, 44), Low(x, 44));
  }

  lemma AndParts(x: nat, y: nat)
    ensures And(x, y) == And(x % S44, y % S44) + S44 * And(x / S44, y / S44)
  {
    PowersOfTwo();
    hide And, Pow2, Low, Shr;
    Digits44(x);
    Digits44(y);
    AndLow(x, y, 44);
    AndShr(x, y, 44);
    SplitDigits(And(x, y), 44);
  }

  /** A mask below 2^44 sees only the low 44 bits. */
  lemma ClampLimb(x: nat, mask: nat)
    requires mask < S44
    ensures And(x, mask) == And(x % S44, mask)
  {
    AndParts(x, mask);
    AndZero(x / S44);
  }

  /** The three limb masks are the clamp mask of RFC 8439 cut at bits 44 and 88. */
  lemma ClampedValue(t0: u64, t1: u64)
    ensures Value(ClampedLimbs(t0, t1)) == And(t0 + TWO64 * t1, CLAMP)
    ensures Multiplier(ClampedLimbs(t0, t1))
  {
    PowersOfTwo();
    hide And, Or, Pow2;
    AndBound(t0, 0xFFC_0FFF_FFFF);
    AndBound(Or(t0 / S44, U64(t1 * S20)), 0xFFF_FFC0_FFFF);
    AndBound(t1 / S24, 0xF_FFFF_FC0F);
    SplitMiddle(t0, t1);
    ClampLimb(t0, 0xFFC_0FFF_FFFF);
    ClampLimb(Or(t0 / S44, U64(t1 * S20)), 0xFFF_FFC0_FFFF);
    var x := t0 + TWO64 * t1;
    AndParts(x, CLAMP);
    AndParts(x / S44, CLAMP / S44);
    ClampParts();
    NumberParts(t0, t1);
  }

  lemma ClampParts()
    ensures CLAMP % S44 == 0xFFC_0FFF_FFFF && CLAMP / S44 % S44 == 0xFFF_FFC0_FFFF && CLAMP / S44 / S44 == 0xF_FFFF_FC0F
  {
  }

  lemma NumberParts(t0: u64, t1: u64)
    ensures var x := t0 + TWO64 * t1;
            && x % S44 == t0 % S44 && x / S44 == t0 / S44 + S20 * t1
            && x / S44 % S44 == t0 / S44 + (t1 % S24) * S20 && x / S44 / S44 == t1 / S24
  {
    var x := t0 + TWO64 * t1;
    assert x % S44 == t0 % S44;
    assert x / S44 == t0 / S44 + S20 * t1;
  }

  // ---------------------------------------------------------------- the state vector

  /** The parts of the eight-word state: multiplier, accumulator, pad. */
  function RLimbs(x: seq<u64>): Limbs requires |x| == 8 { Limbs(x[0], x[1], x[2]) }

  function HLimbs(x: seq<u64>): Limbs requires |x| == 8 { Limbs(x[3], x[4], x[5]) }

  function Pad(x: seq<u64>): nat requires |x| == 8 { x[6] + TWO64 * x[7] }

  /** A state that has absorbed `acc` modulo P under the given key. */
  ghost predicate StateFor(x: seq<u64>, key: seq<byte>, acc: nat) {
    && |x| == 8 && |key| == 32
    && Multiplier(RLimbs(x)) && Value(RLimbs(x)) == RfcR(key)
    && Pad(x) == RfcS(key)
    && Bounded(HLimbs(x)) && Value(HLimbs(x)) % P == acc
  }

  method Poly1305Init(x: array<u64>, key: seq<byte>)
    requires x.Length == 8 && |key| == 32
    modifies x
    ensures StateFor(x[..], key, 0)
  {
    hide ClampedLimbs, RfcR, RfcS, Load64, Multiplier;
    var t0, t1 := Load64(key[0..8]), Load64(key[8..16]);
    var r := ClampedLimbs(t0, t1);
    x[0], x[1], x[2] := r.l0, r.l1, r.l2;
    x[3], x[4], x[5] := 0, 0, 0;
    x[6], x[7] := Load64(key[16..24]), Load64(key[24..32]);
    KeyWords(key);
    assert x[..] == [r.l0, r.l1, r.l2, 0, 0, 0, x[6], x[7]];
  }

  lemma KeyWords(key: seq<byte>)
    requires |key| == 32
    ensures var r := ClampedLimbs(Load64(key[0..8]), Load64(key[8..16]));
            Multiplier(r) && Value(r) == RfcR(key)
    ensures Load64(key[16..24]) + TWO64 * Load64(key[24..32]) == RfcS(key)
  {
    hide ClampedLimbs, And;
    ClampedValue(Load64(key[0..8]), Load64(key[8..16]));
    LoadBlock(key[..16]);
    LoadBlock(key[16..]);
    assert key[..16][..8] == key[0..8] && key[..16][8..] == key[8..16];
    assert key[16..][..8] == key[16..24] && key[16..][8..] == key[24..32];
  }

  method Poly1305Blocks(x: array<u64>, m: seq<byte>, blocks: nat, isFinal: bool, ghost key: seq<byte>, ghost acc: nat)
    requires |key| == 32 && |m| == 16 * blocks && |m| % 16 == 0
    requires StateFor(x[..], key, acc)
    modifies x
    ensures StateFor(x[..], key, Absorb(acc, RfcR(key), m, isFinal))
  {
    var r := Limbs(x[0], x[1], x[2]);
    var h := Limbs(x[3], x[4], x[5]);
    hide BlockStep, BlockLimbs, Absorb, Value, RfcR;
    ghost var done: seq<byte> := [];
    AbsorbNothing(Value(h), acc, RfcR(key), isFinal);
    for i := 0 to blocks
      invariant x[..] == old(x[..])
      invariant done == m[..16 * i] && |done| % 16 == 0
      invariant Bounded(h) && Value(h) % P == Absorb(acc, RfcR(key), done, isFinal)
    {
      var block := m[16 * i..16 * i + 16];
      BlockIteration(h, r, done, block, isFinal, acc);
      var limbs := BlockLimbs(block, isFinal);
      h := BlockStep(h, r, limbs);
      done := done + block;
    }
    assert done == m;
    x[3], x[4], x[5] := h.l0, h.l1, h.l2;
  }

  lemma AbsorbNothing(h: nat, acc: nat, r: nat, isFinal: bool)
    requires h % P == acc
    ensures h % P == Absorb(acc, r, [], isFinal)
  {
    DivUnique(acc, P, 0, acc);
  }

  /** One turn of the block loop. */
  lemma BlockIteration(h: Limbs, r: Limbs, done: seq<byte>, block: seq<byte>, isFinal: bool, acc: nat)
    requires |done| % 16 == 0 && |block| == 16 && Bounded(h) && Multiplier(r)
    requires Value(h) % P == Absorb(acc, Value(r), done, isFinal)
    ensures Bounded(BlockStep(h, r, BlockLimbs(block, isFinal)))
    ensures |done + block| % 16 == 0
    ensures Value(BlockStep(h, r, BlockLimbs(block, isFinal))) % P == Absorb(acc, Value(r), done + block, isFinal)
  {
    hide BlockStep, BlockLimbs, Value, AddTimes;
    var limbs := BlockLimbs(block, isFinal);
    BlockLimbsValue(block, isFinal);
    BlockStepValue(h, r, limbs);
    var next := done + block;
    assert next[..|done|] == done && next[|done|..] == block;
    StepModulo(Value(h), Absorb(acc, Value(r), done, isFinal), Value(limbs), Value(r));
  }

  /** Only the residue of the accumulator matters for a step. */
  lemma StepModulo(h: nat, acc: nat, v: nat, r: nat)
    requires h % P == acc
    ensures ((h + v) * r) % P == AddTimes(acc, v, r)
  {
    var q := h / P;
    assert h == P * q + acc;
    assert (h + v) * r == (acc + v) * r + P * (q * r);
    ModShift((acc + v) * r, q * r);
  }

  // ---------------------------------------------------------------- the tag

  /** The tag the code produces from the final accumulator. */
  function CodeTag(acc: nat, s: nat): nat { (Selected(acc) + s) % S128 }

  /** The two representatives of a residue below 2^130 give the same tag. */
  lemma SelectedResidue(v: nat, acc: nat)
    requires v < S130 && v % P == acc
    ensures Selected(v) % S130 == Selected(acc) % S130
  {
    if v >= P {
      DivUnique(v, P, 1, v - P);
      assert v % S88 >= S88 - 5 by {
        DivUnique(v, S88, S42 - 1, v - S88 * (S42 - 1));
      }
    }
  }

  method Poly1305Finish(x: array<u64>, ghost key: seq<byte>, ghost acc: nat) returns (mac: seq<byte>)
    requires StateFor(x[..], key, acc)
    modifies x
    ensures mac == LeBytes(CodeTag(acc, RfcS(key)), 16)
    ensures forall k :: 0 <= k < 8 ==> x[k] == 0
  {
    hide FullCarry, Select, AddPad, Pack, LeBytes, CodeTag, RfcR, RfcS, Value;
    var h := FullCarry(Limbs(x[3], x[4], x[5]));
    var g := Select(h);
    var f := AddPad(g, x[6], x[7]);
    var (w0, w1) := Pack(f);
    mac := LeBytes(w0, 8) + LeBytes(w1, 8);
    TagOfState(x[..], key, acc);
    for i := 0 to x.Length
      invariant forall k :: 0 <= k < i ==> x[k] == 0
    {
      x[i] := 0;
    }
  }

  lemma TagOfState(x: seq<u64>, key: seq<byte>, acc: nat)
    requires StateFor(x, key, acc)
    ensures var w := Pack(AddPad(Select(FullCarry(HLimbs(x))), x[6], x[7]));
            LeBytes(w.0, 8) + LeBytes(w.1, 8) == LeBytes(CodeTag(acc, RfcS(key)), 16)
  {
    hide FullCarry, Select, AddPad, Pack, Value, LeBytes, RfcR, RfcS;
    var h := FullCarry(HLimbs(x));
    var g := Select(h);
    var f := AddPad(g, x[6], x[7]);
    FullCarryValue(HLimbs(x));
    CanonicalBound(h);
    SelectValue(h);
    AddPadValue(g, x[6], x[7]);
    PackValue(f);
    SelectedResidue(Value(h), acc);
    TagWords(Value(g), acc, Value(f), Pad(x), Pack(f).0, Pack(f).1);
  }

  lemma CanonicalBound(h: Limbs)
    requires Canonical(h)
    ensures Value(h) < S130
  {
  }

  lemma TagWords(g: nat, acc: nat, f: nat, s: nat, w0: u64, w1: u64)
    requires g % S130 == Selected(acc) % S130 && Selected(acc) >= 0
    requires f == (g + s) % S130 && w0 + TWO64 * w1 == f % S128
    ensures LeBytes(w0, 8) + LeBytes(w1, 8) == LeBytes(CodeTag(acc, s), 16)
  {
    var q := g / S130 - Selected(acc) / S130;
    assert g == Selected(acc) + S130 * q;
    var q' := (g + s) / S130;
    assert f == Selected(acc) + s + S128 * (4 * q - 4 * q');
    DivUnique(f, S128, (Selected(acc) + s) / S128 + 4 * q - 4 * q', (Selected(acc) + s) % S128);
    JoinWords(w0, w1);
  }

  lemma JoinWords(w0: u64, w1: u64)
    ensures LeBytes(w0, 8) + LeBytes(w1, 8) == LeBytes(w0 + TWO64 * w1, 16)
  {
    Pow256Sixteen();
    hide LeBytes, LeValue, Pow256;
    var bs := LeBytes(w0, 8) + LeBytes(w1, 8);
    LeValueConcat(LeBytes(w0, 8), LeBytes(w1, 8));
    LeValueOfBytes(w0, 8);
    LeValueOfBytes(w1, 8);
    LeBytesOfValue(bs);
  }

  /** The tag of a message under a one-time key, as the code computes it. */
  function StreamTag(key: seq<byte>, msg: seq<byte>): seq<byte>
    requires |key| == 32
  {
    LeBytes(CodeTag(RfcAccumulator(key, msg), RfcS(key)), 16)
  }

  /** The code's tag is the tag of RFC 8439 exactly when the low 88 bits of the final
      accumulator are not among their five largest values: the mask of poly1305_finish is taken
      from the carry out of the middle limb instead of from the comparison with the prime. */
  lemma StreamTagIsRfcTag(key: seq<byte>, msg: seq<byte>)
    requires |key| == 32
    ensures StreamTag(key, msg) == RfcTag(key, msg) <==> RfcAccumulator(key, msg) % S88 < S88 - 5
  {
    Pow256Sixteen();
    hide LeBytes, Pow256, RfcAccumulator, RfcS;
    var acc, s := RfcAccumulator(key, msg), RfcS(key);
    LeValueOfBytes(CodeTag(acc, s), 16);
    LeValueOfBytes((acc + s) % S128, 16);
    if acc % S88 >= S88 - 5 {
      OffByFive(acc + s);
    }
  }

  lemma OffByFive(x: nat)
    ensures (x + 5) % S128 != x % S128
  {
  }

  /** A key and a message for which the two tags differ: r = 1, s = 0 and the one block whose
      first eleven bytes spell 2^88 - 5. */
  lemma StreamTagCounterexample() returns (key: seq<byte>, msg: seq<byte>)
    ensures |key| == 32 && |msg| == 16
    ensures StreamTag(key, msg) != RfcTag(key, msg)
  {
    hide LeBytes, RfcPolynomial, RfcR, RfcS, StreamTag, RfcTag;
    key := [1] + seq(31, _ => 0);
    msg := LeBytes(S88 - 5, 16);
    ShortKey(key);
    OneBlock(msg);
    StreamTagIsRfcTag(key, msg);
    assert RfcAccumulator(key, msg) == S88 - 5 + S128;
    DivUnique(S88 - 5 + S128, S88, S40, S88 - 5);
  }

  lemma ShortKey(key: seq<byte>)
    requires key == [1] + seq(31, _ => 0)
    ensures RfcR(key) == 1
  {
    assert key[..16] == [1] + seq(15, _ => 0);
    PadZeros([1], 15);
    assert LeValue([1]) == 1;
    RIsOne();
  }

  lemma OneBlock(msg: seq<byte>)
    requires msg == LeBytes(S88 - 5, 16)
    ensures RfcPolynomial(0, 1, msg) == S88 - 5 + S128
  {
    Pow256Sixteen();
    LeValueOfBytes(S88 - 5, 16);
    AppendOne(msg);
    hide LeBytes, LeValue, Pow256;
    assert msg[..16] == msg && msg[16..] == [];
    assert RfcPolynomial(AddTimes(0, LeValue(msg + [1]), 1), 1, []) == AddTimes(0, LeValue(msg + [1]), 1);
  }

  lemma RIsOne()
    ensures And(1, CLAMP) == 1
  {
    AndUnfold(1, CLAMP);
    AndZero(CLAMP / 2);
  }
}
