/** GHASH with carry-less multiplication: vectors of four 32-bit lanes, one-block and four-block
    multiplication, delayed reduction. */
module GhashClmul {
  import opened Gf128

  // ---------------------------------------------------------------- vector operations

  // A vector of four 32-bit lanes is the block it holds: lanes 3 and 2 are `hi`, lanes 1 and 0
  // are `lo`.  L<n> and R<n> shift every lane of a word by n bits.

  function L1(w: bv64): bv64 { (w << 1) & 0xFFFFFFFE_FFFFFFFE }
  function L25(w: bv64): bv64 { (w << 25) & 0xFE000000_FE000000 }
  function L30(w: bv64): bv64 { (w << 30) & 0xC0000000_C0000000 }
  function L31(w: bv64): bv64 { (w << 31) & 0x80000000_80000000 }
  function R1(w: bv64): bv64 { (w >> 1) & 0x7FFFFFFF_7FFFFFFF }
  function R2(w: bv64): bv64 { (w >> 2) & 0x3FFFFFFF_3FFFFFFF }
  function R7(w: bv64): bv64 { (w >> 7) & 0x01FFFFFF_01FFFFFF }
  function R31(w: bv64): bv64 { (w >> 31) & 0x00000001_00000001 }

  /** The low lane of hi above the high lane of lo. */
  function Lanes(hi: bv64, lo: bv64): bv64 { (hi << 32) | (lo >> 32) }
  function OrW(a: bv64, b: bv64): bv64 { a | b }

  function LanesLeft1(v: Block): Block { Block(L1(v.hi), L1(v.lo)) }
  function LanesLeft25(v: Block): Block { Block(L25(v.hi), L25(v.lo)) }
  function LanesLeft30(v: Block): Block { Block(L30(v.hi), L30(v.lo)) }
  function LanesLeft31(v: Block): Block { Block(L31(v.hi), L31(v.lo)) }
  function LanesRight1(v: Block): Block { Block(R1(v.hi), R1(v.lo)) }
  function LanesRight2(v: Block): Block { Block(R2(v.hi), R2(v.lo)) }
  function LanesRight7(v: Block): Block { Block(R7(v.hi), R7(v.lo)) }
  function LanesRight31(v: Block): Block { Block(R31(v.hi), R31(v.lo)) }
  function ElemsLeft1(v: Block): Block { Block(Lanes(v.hi, v.lo), Lanes(v.lo, 0)) }
  function ElemsLeft2(v: Block): Block { Block(v.lo, 0) }
  function ElemsLeft3(v: Block): Block { Block(Lanes(v.lo, 0), 0) }
  function ElemsRight1(v: Block): Block { Block(Lanes(0, v.hi), Lanes(v.hi, v.lo)) }
  function ElemsRight2(v: Block): Block { Block(0, v.hi) }
  function ElemsRight3(v: Block): Block { Block(0, Lanes(0, v.hi)) }
  function Or(a: Block, b: Block): Block { Block(OrW(a.hi, b.hi), OrW(a.lo, b.lo)) }

  /** The 256-bit product b0:b1 shifted left by one bit. */
  function Double(b0: Block, b1: Block): (Block, Block) {
    var x0 := LanesRight31(b1);
    var x1 := LanesLeft1(b1);
    var x2 := LanesRight31(b0);
    var x3 := LanesLeft1(b0);
    var x3 := Or(x3, ElemsRight3(x0));
    var x3 := Or(x3, ElemsLeft1(x2));
    var x1 := Or(x1, ElemsLeft1(x0));
    (x3, x1)
  }

  /** Reduction of a 256-bit carry-less product b0:b1. */
  function GcmReduce(b0: Block, b1: Block): Block {
    var (x3, x1) := Double(b0, b1);
    var x0 := Xor(Xor(LanesLeft31(x1), LanesLeft30(x1)), LanesLeft25(x1));
    var x1 := Xor(x1, ElemsLeft3(x0));
    var x0 := Xor(Xor(x1, x3), ElemsRight1(x0));
    Xor(x0, Xor(Xor(LanesRight7(x1), LanesRight2(x1)), LanesRight1(x1)))
  }

  // ---------------------------------------------------------------- the doubled product

  function LeftFrom(hi: bv64, lo: bv64): bv64 { (hi << 1) | (lo >> 63) }

  /** 128-bit shift left; the top bit is lost. */
  function Shl1(a: Block): Block { Block(LeftFrom(a.hi, a.lo), Left1(a.lo)) }

  const LAST: Block := Block(0, 1)
  const R: Block := Block(0xE100_0000_0000_0000, 0)

  lemma WordDouble(b1: bv64, b0: bv64)
    ensures OrW(L1(b1), Lanes(R31(b1), R31(b0))) == LeftFrom(b1, b0)
    ensures OrW(OrW(L1(b1), 0), Lanes(R31(b1), R31(b0))) == LeftFrom(b1, b0)
    ensures OrW(L1(b0), Lanes(R31(b0), 0)) == Left1(b0)
  {
  }

  lemma RawDoubleCarry(b2: bv64, b1: bv64)
    ensures (((b2 << 1) & 0xFFFFFFFE_FFFFFFFE) | (((b1 >> 31) & 0x00000001_00000001) >> 32))
            | (((b2 >> 31) & 0x00000001_00000001) << 32) == (b2 << 1) | (b1 >> 63)
  {
  }

  lemma WordDoubleCarry(b2: bv64, b1: bv64)
    ensures OrW(OrW(L1(b2), Lanes(0, R31(b1))), Lanes(R31(b2), 0)) == LeftFrom(b2, b1)
  {
    RawDoubleCarry(b2, b1);
    assert Lanes(0, R31(b1)) == ((b1 >> 31) & 0x00000001_00000001) >> 32;
    assert Lanes(R31(b2), 0) == ((b2 >> 31) & 0x00000001_00000001) << 32;
    hide Lanes;
  }

  function TopBit(w: bv64): bv64 { w >> 63 }

  lemma WordTopBit(w: bv64)
    ensures TopBit(w) == if Top(w) then 1 else 0
  {
  }

  lemma RawCarry(hi: bv64, lo: bv64)
    ensures (hi << 1) | (lo >> 63) == (hi << 1) ^ (lo >> 63)
  {
  }

  lemma WordCarry(hi: bv64, lo: bv64)
    ensures LeftFrom(hi, lo) == XorW(Left1(hi), if Top(lo) then 1 else 0)
  {
    RawCarry(hi, lo);
    WordTopBit(lo);
    assert LeftFrom(hi, lo) == XorW(Left1(hi), TopBit(lo));
    hide Top;
  }

  /** The first half of the reduction as two 128-bit shifts and a carry. */
  lemma DoubleValue(b0: Block, b1: Block)
    ensures Double(b0, b1) == (Xor(Shl1(b0), Gate(Top(b1.hi), LAST)), Shl1(b1))
  {
    WordDouble(b1.hi, b1.lo);
    WordDouble(b0.hi, b0.lo);
    WordDoubleCarry(b0.lo, b1.hi);
    WordCarry(b0.lo, b1.hi);
    WordXor(LeftFrom(b0.hi, b0.lo), 0, 0, 0);
    WordXor(Left1(b0.lo), 0, 0, 0);
    WordZeroLanes(R31(b1.hi));
    hide OrW, L1, R31, LeftFrom, Left1, Top, XorW;
    assert ElemsRight3(LanesRight31(b1)) == Block(0, Lanes(0, R31(b1.hi)));
  }

  lemma WordZeroLanes(w: bv64)
    ensures Lanes(0, 0) == 0
  {
  }

  /** The second half, on the low 128 bits: fold the three low shifts into the top, then add the
      right shifts by 1, 2 and 7. */
  function FoldTop(v: Block): Block { Block(XorW(v.hi, Spill(v.lo)), v.lo) }

  function Spill(w: bv64): bv64 { XorW(XorW(Lanes(L31(w), 0), Lanes(L30(w), 0)), Lanes(L25(w), 0)) }

  function Right2(w: bv64): bv64 { w >> 2 }
  function Right7(w: bv64): bv64 { w >> 7 }
  function Into2(hi: bv64, lo: bv64): bv64 { (lo >> 2) | (hi << 62) }
  function Into7(hi: bv64, lo: bv64): bv64 { (lo >> 7) | (hi << 57) }
  function Shr2(a: Block): Block { Block(Right2(a.hi), Into2(a.hi, a.lo)) }
  function Shr7(a: Block): Block { Block(Right7(a.hi), Into7(a.hi, a.lo)) }

  function Spread(v: Block): Block {
    Xor(Xor(v, Shr1(v)), Xor(Shr2(v), Shr7(v)))
  }

  lemma WordFold(hi: bv64, lo: bv64, t: bv64)
    requires t & 0x01FF_FFFF_FFFF_FFFF == 0
    ensures Lanes(0, L31(XorW(hi, t))) == Lanes(0, L31(hi)) && Lanes(L31(XorW(hi, t)), L31(lo)) == Lanes(L31(hi), L31(lo))
    ensures Lanes(0, L30(XorW(hi, t))) == Lanes(0, L30(hi)) && Lanes(L30(XorW(hi, t)), L30(lo)) == Lanes(L30(hi), L30(lo))
    ensures Lanes(0, L25(XorW(hi, t))) == Lanes(0, L25(hi)) && Lanes(L25(XorW(hi, t)), L25(lo)) == Lanes(L25(hi), L25(lo))
  {
  }

  lemma WordSpill(lo: bv64)
    ensures Spill(lo) & 0x01FF_FFFF_FFFF_FFFF == 0
  {
  }

  lemma WordLanesXor(a: bv64, b: bv64, c: bv64, d: bv64)
    ensures Lanes(XorW(a, b), XorW(c, d)) == XorW(Lanes(a, c), Lanes(b, d))
  {
  }

  /** A lane shift together with the bits that cross the lanes is a 128-bit shift. */
  lemma WordCross1(hi: bv64, lo: bv64)
    ensures XorW(R1(hi), Lanes(0, L31(hi))) == Right1(hi)
    ensures XorW(R1(lo), Lanes(L31(hi), L31(lo))) == RightInto(hi, lo)
  {
  }

  lemma WordCross2(hi: bv64, lo: bv64)
    ensures XorW(R2(hi), Lanes(0, L30(hi))) == Right2(hi)
    ensures XorW(R2(lo), Lanes(L30(hi), L30(lo))) == Into2(hi, lo)
  {
  }

  lemma WordCross7(hi: bv64, lo: bv64)
    ensures XorW(R7(hi), Lanes(0, L25(hi))) == Right7(hi)
    ensures XorW(R7(lo), Lanes(L25(hi), L25(lo))) == Into7(hi, lo)
  {
  }

  /** The bits that cross lanes, after the fold: the fold does not touch them. */
  lemma CrossLanes(v: Block)
    ensures var f := FoldTop(v);
            && Xor(LanesRight1(f), ElemsRight1(LanesLeft31(v))) == Shr1(f)
            && Xor(LanesRight2(f), ElemsRight1(LanesLeft30(v))) == Shr2(f)
            && Xor(LanesRight7(f), ElemsRight1(LanesLeft25(v))) == Shr7(f)
  {
    WordSpill(v.lo);
    WordFold(v.hi, v.lo, Spill(v.lo));
    var f := FoldTop(v);
    WordCross1(f.hi, f.lo);
    WordCross2(f.hi, f.lo);
    WordCross7(f.hi, f.lo);
    hide Spill, XorW, Lanes, L31, L30, L25, R1, R2, R7, Right1, Right2, Right7, RightInto, Into2, Into7;
  }

  lemma ElemsRight1Xor(a: Block, b: Block)
    ensures ElemsRight1(Xor(a, b)) == Xor(ElemsRight1(a), ElemsRight1(b))
  {
    WordLanesXor(0, 0, a.hi, b.hi);
    WordLanesXor(a.hi, b.hi, a.lo, b.lo);
    WordXor(0, 0, 0, 0);
    hide XorW, Lanes;
  }

  lemma ElemsLeft3Fold(v: Block)
    ensures Xor(v, ElemsLeft3(Xor(Xor(LanesLeft31(v), LanesLeft30(v)), LanesLeft25(v)))) == FoldTop(v)
  {
    WordLanesXor(XorW(L31(v.lo), L30(v.lo)), L25(v.lo), 0, 0);
    WordLanesXor(L31(v.lo), L30(v.lo), 0, 0);
    WordXor(0, 0, 0, 0);
    WordXor(v.lo, 0, 0, 0);
    hide XorW, Lanes, L31, L30, L25;
  }

  lemma Gather(f: Block, d: Block, e1: Block, e2: Block, e7: Block, s1: Block, s2: Block, s7: Block)
    ensures Xor(Xor(Xor(f, d), Xor(Xor(e1, e2), e7)), Xor(Xor(s7, s2), s1))
         == Xor(d, Xor(Xor(f, Xor(s1, e1)), Xor(Xor(s2, e2), Xor(s7, e7))))
  {
    GatherWord(f.hi, d.hi, e1.hi, e2.hi, e7.hi, s1.hi, s2.hi, s7.hi);
    GatherWord(f.lo, d.lo, e1.lo, e2.lo, e7.lo, s1.lo, s2.lo, s7.lo);
    hide XorW;
  }

  lemma GatherWord(f: bv64, d: bv64, e1: bv64, e2: bv64, e7: bv64, s1: bv64, s2: bv64, s7: bv64)
    ensures XorW(XorW(XorW(f, d), XorW(XorW(e1, e2), e7)), XorW(XorW(s7, s2), s1))
         == XorW(d, XorW(XorW(f, XorW(s1, e1)), XorW(XorW(s2, e2), XorW(s7, e7))))
  {
    hide XorW;
    var p1, p2, p7 := XorW(s1, e1), XorW(s2, e2), XorW(s7, e7);
    var e, t := XorW(XorW(e1, e2), e7), XorW(XorW(s7, s2), s1);
    assert t == XorW(XorW(s1, s2), s7) by {
      WordXor(s7, s2, s1, 0);
      WordXor(XorW(s7, s2), s1, 0, 0);
      WordXor(s1, s2, s7, 0);
      WordXor(s2, s7, 0, 0);
    }
    assert XorW(e, t) == XorW(XorW(p1, p2), p7) by {
      WordXor(XorW(e1, e2), e7, XorW(s1, s2), s7);
      WordXor(e1, e2, s1, s2);
      WordXor(e1, s1, 0, 0);
      WordXor(e2, s2, 0, 0);
      WordXor(e7, s7, 0, 0);
    }
    assert XorW(e, t) == XorW(p1, XorW(p2, p7)) by {
      WordXor(p1, p2, p7, 0);
    }
    WordXor(XorW(f, d), e, t, 0);
    WordXor(f, d, 0, 0);
    WordXor(d, f, XorW(p1, XorW(p2, p7)), 0);
    WordXor(f, p1, XorW(p2, p7), 0);
  }

  /** The code's reduction is: double, then fold and spread. */
  lemma ReduceParts(b0: Block, b1: Block)
    ensures GcmReduce(b0, b1) == Xor(Double(b0, b1).0, Spread(FoldTop(Double(b0, b1).1)))
  {
    var (d, v) := Double(b0, b1);
    var f := FoldTop(v);
    ElemsLeft3Fold(v);
    ElemsRight1Xor(Xor(LanesLeft31(v), LanesLeft30(v)), LanesLeft25(v));
    ElemsRight1Xor(LanesLeft31(v), LanesLeft30(v));
    CrossLanes(v);
    Gather(f, d, ElemsRight1(LanesLeft31(v)), ElemsRight1(LanesLeft30(v)), ElemsRight1(LanesLeft25(v)), LanesRight1(f), LanesRight2(f), LanesRight7(f));
    hide Xor, Double, FoldTop, ElemsLeft3, ElemsRight1, LanesLeft31, LanesLeft30, LanesLeft25, LanesRight1, LanesRight2, LanesRight7, Shr1, Shr2, Shr7;
  }

  // ---------------------------------------------------------------- the reduction is linear

  lemma WordLane31Xor(a: bv64, b: bv64) ensures L31(XorW(a, b)) == XorW(L31(a), L31(b)) { }

  lemma WordLane30Xor(a: bv64, b: bv64) ensures L30(XorW(a, b)) == XorW(L30(a), L30(b)) { }

  lemma WordLane25Xor(a: bv64, b: bv64) ensures L25(XorW(a, b)) == XorW(L25(a), L25(b)) { }

  lemma SpillXor(a: bv64, b: bv64)
    ensures Spill(XorW(a, b)) == XorW(Spill(a), Spill(b))
  {
    hide XorW, Lanes, L31, L30, L25;
    WordLane31Xor(a, b);
    WordLane30Xor(a, b);
    WordLane25Xor(a, b);
    WordLanesXor(L31(a), L31(b), 0, 0);
    WordLanesXor(L30(a), L30(b), 0, 0);
    WordLanesXor(L25(a), L25(b), 0, 0);
    WordXor(0, 0, 0, 0);
    WordXor(Lanes(L31(a), 0), Lanes(L31(b), 0), Lanes(L30(a), 0), Lanes(L30(b), 0));
    WordXor(XorW(Lanes(L31(a), 0), Lanes(L30(a), 0)), XorW(Lanes(L31(b), 0), Lanes(L30(b), 0)),
            Lanes(L25(a), 0), Lanes(L25(b), 0));
  }

  lemma FoldTopXor(a: Block, b: Block)
    ensures FoldTop(Xor(a, b)) == Xor(FoldTop(a), FoldTop(b))
  {
    hide XorW, Spill;
    SpillXor(a.lo, b.lo);
    WordXor(a.hi, b.hi, Spill(a.lo), Spill(b.lo));
  }

  lemma WordRightXor(ah: bv64, al: bv64, bh: bv64, bl: bv64)
    ensures Right2(XorW(ah, bh)) == XorW(Right2(ah), Right2(bh))
    ensures Right7(XorW(ah, bh)) == XorW(Right7(ah), Right7(bh))
  {
  }

  lemma WordIntoXor(ah: bv64, al: bv64, bh: bv64, bl: bv64)
    ensures Into2(XorW(ah, bh), XorW(al, bl)) == XorW(Into2(ah, al), Into2(bh, bl))
    ensures Into7(XorW(ah, bh), XorW(al, bl)) == XorW(Into7(ah, al), Into7(bh, bl))
  {
  }

  lemma SpreadXor(a: Block, b: Block)
    ensures Spread(Xor(a, b)) == Xor(Spread(a), Spread(b))
  {
    Shr1Xor(a, b);
    Shr27Xor(a, b);
    hide Xor, Shr1, Shr2, Shr7;
    XorAlgebra(a, b, Shr1(a), Shr1(b));
    XorAlgebra(Shr2(a), Shr2(b), Shr7(a), Shr7(b));
    XorAlgebra(Xor(a, Shr1(a)), Xor(b, Shr1(b)), Xor(Shr2(a), Shr7(a)), Xor(Shr2(b), Shr7(b)));
  }

  lemma Shr27Xor(a: Block, b: Block)
    ensures Shr2(Xor(a, b)) == Xor(Shr2(a), Shr2(b)) && Shr7(Xor(a, b)) == Xor(Shr7(a), Shr7(b))
  {
    WordRightXor(a.hi, a.lo, b.hi, b.lo);
    WordIntoXor(a.hi, a.lo, b.hi, b.lo);
    hide XorW, Right2, Right7, Into2, Into7;
  }

  lemma WordLeftXor(ah: bv64, al: bv64, bh: bv64, bl: bv64)
    ensures LeftFrom(XorW(ah, bh), XorW(al, bl)) == XorW(LeftFrom(ah, al), LeftFrom(bh, bl))
  {
  }

  lemma Shl1Xor(a: Block, b: Block)
    ensures Shl1(Xor(a, b)) == Xor(Shl1(a), Shl1(b))
  {
    WordLeftXor(a.hi, a.lo, b.hi, b.lo);
    WordShiftXor(a.lo, b.lo);
    hide XorW, LeftFrom, Left1;
  }

  lemma DoubleXor(a0: Block, a1: Block, b0: Block, b1: Block)
    ensures var (x, y, z) := (Double(Xor(a0, b0), Xor(a1, b1)), Double(a0, a1), Double(b0, b1));
            x.0 == Xor(y.0, z.0) && x.1 == Xor(y.1, z.1)
  {
    DoubleValue(a0, a1);
    DoubleValue(b0, b1);
    DoubleValue(Xor(a0, b0), Xor(a1, b1));
    Shl1Xor(a0, b0);
    Shl1Xor(a1, b1);
    WordEnds(a1.hi, b1.hi);
    hide XorW, Shl1, Top, Double;
    var g, h := Gate(Top(a1.hi), LAST), Gate(Top(b1.hi), LAST);
    XorAlgebra(LAST, ZERO, ZERO, ZERO);
    XorAlgebra(ZERO, ZERO, ZERO, ZERO);
    XorAlgebra(Shl1(a0), Shl1(b0), g, h);
  }

  lemma ReduceXor(a0: Block, a1: Block, b0: Block, b1: Block)
    ensures GcmReduce(Xor(a0, b0), Xor(a1, b1)) == Xor(GcmReduce(a0, a1), GcmReduce(b0, b1))
  {
    ReduceParts(a0, a1);
    ReduceParts(b0, b1);
    ReduceParts(Xor(a0, b0), Xor(a1, b1));
    DoubleXor(a0, a1, b0, b1);
    hide GcmReduce, Double, FoldTop, Spread, Xor;
    var a, b := Double(a0, a1), Double(b0, b1);
    FoldTopXor(a.1, b.1);
    SpreadXor(FoldTop(a.1), FoldTop(b.1));
    XorAlgebra(a.0, b.0, Spread(FoldTop(a.1)), Spread(FoldTop(b.1)));
  }

  // ---------------------------------------------------------------- the reduction and x

  lemma WordUp(hi: bv64, lo: bv64)
    ensures RightInto(LeftFrom(hi, lo), Left1(lo)) == lo
    ensures !Bottom(Left1(lo))
  {
  }

  lemma WordUpTop(hi: bv64, lo: bv64)
    ensures Right1(LeftFrom(hi, lo)) == XorW(hi, if Top(hi) then 0x8000_0000_0000_0000 else 0)
  {
    assert hi & 0x8000_0000_0000_0000 == if Top(hi) then 0x8000_0000_0000_0000 else 0;
    assert Right1(LeftFrom(hi, lo)) == XorW(hi, hi & 0x8000_0000_0000_0000);
    hide XorW, Right1, LeftFrom, Top;
  }

  /** Shifting up and down again loses the top bit. */
  lemma UpDown(v: Block)
    ensures Shr1(Shl1(v)) == Xor(v, Gate(Top(v.hi), ONE)) && !Bottom(Shl1(v).lo)
  {
    WordUp(v.hi, v.lo);
    WordUpTop(v.hi, v.lo);
    WordXor(v.lo, 0, 0, 0);
    WordXor(v.hi, 0, 0, 0);
    hide XorW, LeftFrom, Left1, Right1, RightInto, Top, Bottom;
  }

  // Written out, the two sides are the same word.

  lemma WordRight2(hi: bv64)
    ensures Right1(Right2(hi)) == Right2(Right1(hi))
  {
    assert Right1(hi >> 2) == Right2(hi >> 1);
  }

  lemma WordRight7(hi: bv64)
    ensures Right1(Right7(hi)) == Right7(Right1(hi))
  {
    assert Right1(hi >> 7) == Right7(hi >> 1);
  }

  lemma WrittenRight1(w: bv64) ensures Right1(w) == w >> 1 { }

  lemma WrittenRight2(w: bv64) ensures Right2(w) == w >> 2 { }

  lemma WrittenRight7(w: bv64) ensures Right7(w) == w >> 7 { }

  lemma WrittenCarry1(hi: bv64, lo: bv64) ensures RightInto(hi, lo) == (lo >> 1) | (hi << 63) { }

  lemma WrittenCarry2(hi: bv64, lo: bv64) ensures Into2(hi, lo) == (lo >> 2) | (hi << 62) { }

  lemma WrittenCarry7(hi: bv64, lo: bv64) ensures Into7(hi, lo) == (lo >> 7) | (hi << 57) { }

  lemma WrittenInto2(hi: bv64, lo: bv64)
    ensures RightInto(hi >> 2, (lo >> 2) | (hi << 62)) == Into2(hi >> 1, (lo >> 1) | (hi << 63))
  {
  }

  lemma WrittenInto7(hi: bv64, lo: bv64)
    ensures RightInto(hi >> 7, (lo >> 7) | (hi << 57)) == Into7(hi >> 1, (lo >> 1) | (hi << 63))
  {
  }

  lemma WordInto2(hi: bv64, lo: bv64)
    ensures RightInto(Right2(hi), Into2(hi, lo)) == Into2(Right1(hi), RightInto(hi, lo))
  {
    hide Right1, Right2, Right7, RightInto, Into2, Into7;
    WrittenRight1(hi);
    WrittenRight2(hi);
    WrittenCarry1(hi, lo);
    WrittenCarry2(hi, lo);
    WrittenInto2(hi, lo);
  }

  lemma WordInto7(hi: bv64, lo: bv64)
    ensures RightInto(Right7(hi), Into7(hi, lo)) == Into7(Right1(hi), RightInto(hi, lo))
  {
    hide Right1, Right2, Right7, RightInto, Into2, Into7;
    WrittenRight1(hi);
    WrittenRight7(hi);
    WrittenCarry1(hi, lo);
    WrittenCarry7(hi, lo);
    WrittenInto7(hi, lo);
  }

  lemma SpreadShr1(v: Block)
    ensures Shr1(Spread(v)) == Spread(Shr1(v))
  {
    WordRight2(v.hi);
    WordRight7(v.hi);
    WordInto2(v.hi, v.lo);
    WordInto7(v.hi, v.lo);
    assert Shr1(Shr2(v)) == Shr2(Shr1(v)) && Shr1(Shr7(v)) == Shr7(Shr1(v)) by {
      hide Right1, Right2, Right7, RightInto, Into2, Into7;
    }
    hide Xor, Shr1, Shr2, Shr7;
    Shr1Xor(v, Shr1(v));
    Shr1Xor(Shr2(v), Shr7(v));
    Shr1Xor(Xor(v, Shr1(v)), Xor(Shr2(v), Shr7(v)));
  }

  /** The reduction polynomial is the spread of 1. */
  lemma SpreadOne()
    ensures Spread(ONE) == R && Spread(ZERO) == ZERO
  {
  }

  function Bit(w: bv64, m: bv64): bool { w & m != 0 }

  lemma WordBottoms(a: bv64, h1: bv64, h2: bv64, h7: bv64)
    ensures Bottom(Left1(a)) == false
    ensures Bottom(RightInto(h1, Left1(a))) == Bit(a, 1)
    ensures Bottom(Into2(h2, Left1(a))) == Bit(a, 2)
    ensures Bottom(Into7(h7, Left1(a))) == Bit(a, 64)
  {
  }

  lemma SpreadBottom(v: Block)
    ensures Bottom(Spread(Shl1(v)).lo) == ((Bit(v.lo, 1) != Bit(v.lo, 2)) != Bit(v.lo, 64))
  {
    var u := Shl1(v);
    WordBottoms(v.lo, u.hi, u.hi, u.hi);
    WordEnds(u.lo, RightInto(u.hi, u.lo));
    WordEnds(Into2(u.hi, u.lo), Into7(u.hi, u.lo));
    WordEnds(XorW(u.lo, RightInto(u.hi, u.lo)), XorW(Into2(u.hi, u.lo), Into7(u.hi, u.lo)));
    hide XorW, Bottom, RightInto, Into2, Into7, Left1, LeftFrom, Bit;
  }

  lemma WordSpillTop(w: bv64)
    ensures Top(Spill(w)) == ((Bit(w, 1) != Bit(w, 2)) != Bit(w, 64))
  {
  }

  lemma WordSpillLeft(w: bv64)
    ensures Left1(Lanes(L31(w), 0)) == Lanes(L31(Left1(w)), 0)
    ensures Left1(Lanes(L30(w), 0)) == Lanes(L30(Left1(w)), 0)
    ensures Left1(Lanes(L25(w), 0)) == Lanes(L25(Left1(w)), 0)
  {
  }

  lemma SpillLeft(w: bv64)
    ensures Left1(Spill(w)) == Spill(Left1(w))
  {
    WordSpillLeft(w);
    hide XorW, Lanes, L31, L30, L25, Left1;
    var a, b, c := Lanes(L31(w), 0), Lanes(L30(w), 0), Lanes(L25(w), 0);
    WordShiftXor(a, b);
    WordShiftXor(XorW(a, b), c);
  }

  lemma FoldTopShl1(v: Block)
    ensures FoldTop(Shl1(v)) == Shl1(FoldTop(v))
  {
    SpillLeft(v.lo);
    WordLeftXor(v.hi, v.lo, Spill(v.lo), 0);
    WordLeftZero(Spill(v.lo));
    WordXor(v.lo, 0, 0, 0);
    hide XorW, LeftFrom, Left1, Spill;
  }

  lemma WordLeftZero(w: bv64)
    ensures LeftFrom(w, 0) == Left1(w)
  {
  }

  lemma FoldTopBottom(v: Block)
    ensures Top(FoldTop(v).hi) == (Top(v.hi) != Bottom(Spread(Shl1(FoldTop(v))).lo))
  {
    var f := FoldTop(v);
    SpreadBottom(f);
    WordSpillTop(v.lo);
    WordEnds(v.hi, Spill(v.lo));
    hide XorW, Spread, Shl1, Top, Bottom, Spill, Bit;
  }

  lemma SpreadShl1(f: Block)
    ensures Shr1(Spread(Shl1(f))) == Xor(Spread(f), Gate(Top(f.hi), R))
  {
    SpreadShr1(Shl1(f));
    UpDown(f);
    SpreadOne();
    hide Xor, Shr1, Shl1, Spread, Top;
    SpreadXor(f, Gate(Top(f.hi), ONE));
  }

  /** Multiplying the folded and spread part by x undoes a shift, up to the bit that left it. */
  lemma SpreadStep(v: Block)
    ensures Xor(MulX(Spread(FoldTop(Shl1(v)))), Gate(Top(v.hi), R)) == Spread(FoldTop(v))
  {
    hide Xor, Shr1, Shl1, Spread, FoldTop, Top, Bottom;
    var f := FoldTop(v);
    FoldTopShl1(v);
    FoldTopBottom(v);
    SpreadShl1(f);
    var s, p, q, t := Spread(f), Gate(Top(f.hi), R), Gate(Bottom(Spread(Shl1(f)).lo), R), Gate(Top(v.hi), R);
    assert MulX(Spread(Shl1(f))) == Xor(Xor(s, p), q);
    XorAlgebra(R, ZERO, ZERO, ZERO);
    XorAlgebra(ZERO, R, ZERO, ZERO);
    XorAlgebra(s, p, q, ZERO);
    XorAlgebra(s, Xor(p, q), t, ZERO);
    XorAlgebra(s, ZERO, ZERO, ZERO);
    assert Xor(Xor(p, q), t) == ZERO;
  }

  /** Shifting a 256-bit product up and multiplying its reduction by x changes nothing, as long as
      the second highest bit is clear. */
  lemma ReduceStep(b0: Block, b1: Block)
    requires !Top(Double(b0, b1).0.hi)
    ensures MulX(GcmReduce(Double(b0, b1).0, Double(b0, b1).1)) == GcmReduce(b0, b1)
  {
    var (d, v) := Double(b0, b1);
    ReduceParts(b0, b1);
    ReduceParts(d, v);
    DoubleValue(d, v);
    UpDown(d);
    hide Xor, Shr1, Shl1, Spread, FoldTop, Top, Bottom, Double, GcmReduce;
    var g := Spread(FoldTop(Shl1(v)));
    var t := Gate(Top(v.hi), LAST);
    assert GcmReduce(d, v) == Xor(Xor(Shl1(d), t), g);
    MulXXor(Xor(Shl1(d), t), g);
    MulXXor(Shl1(d), t);
    XorAlgebra(d, ZERO, ZERO, ZERO);
    assert MulX(Shl1(d)) == d;
    MulXLast();
    MulXZero();
    assert MulX(t) == Gate(Top(v.hi), R);
    SpreadStep(v);
    XorAlgebra(d, Gate(Top(v.hi), R), MulX(g), ZERO);
    XorAlgebra(Gate(Top(v.hi), R), MulX(g), ZERO, ZERO);
  }

  lemma MulXLast()
    ensures MulX(LAST) == R
  {
  }

  /** A block times x^127, as a product, reduces to the block. */
  lemma ReduceBase(h: Block)
    ensures GcmReduce(Shr1(h), Block(h.lo << 63, 0)) == h
  {
    ReduceParts(Shr1(h), Block(h.lo << 63, 0));
    DoubleValue(Shr1(h), Block(h.lo << 63, 0));
    WordBase(h.hi, h.lo);
    SpreadOne();
    assert FoldTop(ZERO) == ZERO;
    hide XorW, LeftFrom, Left1, Right1, RightInto, Spread, FoldTop, Top, GcmReduce, Double;
    WordXor(h.hi, 0, 0, 0);
    WordXor(h.lo, 0, 0, 0);
  }

  lemma WordBase(hi: bv64, lo: bv64)
    ensures LeftFrom(Right1(hi), RightInto(hi, lo)) == hi
    ensures XorW(Left1(RightInto(hi, lo)), if Top(lo << 63) then 1 else 0) == lo
    ensures LeftFrom(lo << 63, 0) == 0 && Left1(0) == 0
  {
  }

  lemma WordInjective(ah: bv64, al: bv64, bh: bv64, bl: bv64)
    requires Right1(ah) == Right1(bh) && RightInto(ah, al) == RightInto(bh, bl) && Bottom(al) == Bottom(bl)
    ensures ah == bh && al == bl
  {
  }

  lemma WordRightTop(w: bv64)
    ensures !Top(Right1(w)) && Top(0xE100_0000_0000_0000) && !Top(0)
  {
  }

  /** The bit that leaves is still visible in the result. */
  lemma MulXTop(a: Block)
    ensures Top(MulX(a).hi) == Bottom(a.lo)
  {
    WordRightTop(a.hi);
    WordEnds(Right1(a.hi), Gate(Bottom(a.lo), R).hi);
    hide XorW, Right1, RightInto, Bottom, Top;
  }

  /** Multiplication by x is injective. */
  lemma MulXInjective(a: Block, b: Block)
    requires MulX(a) == MulX(b)
    ensures a == b
  {
    hide Xor, MulX, Shr1, Top, Bottom;
    MulXTop(a);
    MulXTop(b);
    MulXUnfold(a);
    MulXUnfold(b);
    XorCancelBlock(Shr1(a), Shr1(b), Gate(Bottom(a.lo), R));
    Shr1Injective(a, b);
  }

  lemma MulXUnfold(a: Block)
    ensures MulX(a) == Xor(Shr1(a), Gate(Bottom(a.lo), R))
  {
    hide Xor, Shr1, Bottom;
  }

  lemma Shr1Injective(a: Block, b: Block)
    requires Shr1(a) == Shr1(b) && Bottom(a.lo) == Bottom(b.lo)
    ensures a == b
  {
    hide Bottom, Right1, RightInto;
    WordInjective(a.hi, a.lo, b.hi, b.lo);
  }

  lemma XorCancelBlock(a: Block, b: Block, c: Block)
    requires Xor(a, c) == Xor(b, c)
    ensures a == b
  {
    hide Xor;
    XorAlgebra(a, c, c, ZERO);
    XorAlgebra(b, c, c, ZERO);
    XorAlgebra(c, ZERO, ZERO, ZERO);
    XorAlgebra(a, ZERO, ZERO, ZERO);
    XorAlgebra(b, ZERO, ZERO, ZERO);
  }

  // ---------------------------------------------------------------- carry-less multiplication

  /** The carry-less product of h with the polynomial whose leading coefficient comes first. */
  function ClmulBits(h: bv64, s: seq<bool>): Block
    decreases |s|
  {
    if |s| == 0 then ZERO
    else Xor(Shl1(ClmulBits(h, s[..|s| - 1])), Gate(s[|s| - 1], Block(0, h)))
  }

  /** The 64x64 -> 128 bit carry-less multiplication of two words. */
  function Clmul(h: bv64, x: bv64): Block { ClmulBits(h, WordBits(x, 64)) }

  /** The n lowest bits set. */
  function Ones(n: nat): bv64
    decreases n
  {
    if n == 0 then 0 else Left1(Ones(n - 1)) | 1
  }

  predicate Within(w: bv64, m: bv64) { w & !m == 0 }

  lemma WordWithin(hi: bv64, lo: bv64, m: bv64)
    requires Within(hi, m)
    ensures Within(LeftFrom(hi, lo), Left1(m) | 1)
  {
  }

  lemma WithinTransitive(a: bv64, b: bv64, c: bv64)
    requires Within(a, b) && Within(b, c)
    ensures Within(a, c)
  {
  }

  lemma {:induction false} OnesGrow(n: nat)
    ensures Within(Ones(n), Ones(n + 1))
  {
    if n == 0 {
    } else {
      OnesGrow(n - 1);
      WordGrow(Ones(n - 1), Ones(n));
    }
  }

  lemma WordGrow(a: bv64, b: bv64)
    requires Within(a, b)
    ensures Within(Left1(a) | 1, Left1(b) | 1)
  {
  }

  lemma {:induction false} OnesWithin(m: nat, n: nat)
    requires m <= n
    ensures Within(Ones(m), Ones(n))
    decreases n - m
  {
    if m == n {
      assert Ones(m) & !Ones(m) == 0;
    } else {
      hide Within, Ones;
      OnesGrow(m);
      OnesWithin(m + 1, n);
      WithinTransitive(Ones(m), Ones(m + 1), Ones(n));
    }
  }

  lemma OnesFour(n: nat, v: bv64)
    requires Ones(n) == v
    ensures Ones(n + 4) == (v << 4) | 0xF
  {
    WordFour(v);
    hide Left1;
    assert Ones(n + 1) == Left1(v) | 1;
    assert Ones(n + 2) == Left1(Left1(v) | 1) | 1;
    assert Ones(n + 3) == Left1(Left1(Left1(v) | 1) | 1) | 1;
  }

  lemma WordFour(v: bv64)
    ensures Left1(Left1(Left1(Left1(v) | 1) | 1) | 1) | 1 == (v << 4) | 0xF
  {
  }

  lemma OnesSixtyTwo()
    ensures Ones(62) == 0x3FFF_FFFF_FFFF_FFFF
  {
    assert Ones(2) == 3;
    hide Ones;
    OnesFour(2, 0x3);
    OnesFour(6, 0x3F);
    OnesFour(10, 0x3FF);
    OnesFour(14, 0x3FFF);
    OnesFour(18, 0x3_FFFF);
    OnesFour(22, 0x3F_FFFF);
    OnesFour(26, 0x3FF_FFFF);
    OnesFour(30, 0x3FFF_FFFF);
    OnesFour(34, 0x3_FFFF_FFFF);
    OnesFour(38, 0x3F_FFFF_FFFF);
    OnesFour(42, 0x3FF_FFFF_FFFF);
    OnesFour(46, 0x3FFF_FFFF_FFFF);
    OnesFour(50, 0x3_FFFF_FFFF_FFFF);
    OnesFour(54, 0x3F_FFFF_FFFF_FFFF);
    OnesFour(58, 0x3FF_FFFF_FFFF_FFFF);
  }

  /** The product has no more bits than the factors allow. */
  lemma {:induction false} ClmulWithin(h: bv64, s: seq<bool>)
    ensures Within(ClmulBits(h, s).hi, Ones(if |s| == 0 then 0 else |s| - 1))
    decreases |s|
  {
    hide Shl1, XorW;
    if |s| == 0 {
    } else {
      var t := s[..|s| - 1];
      var c := ClmulBits(h, t);
      ClmulWithin(h, t);
      WordXor(Shl1(c).hi, 0, 0, 0);
      assert ClmulBits(h, s).hi == Shl1(c).hi;
      if |t| == 0 {
        assert Shl1(ZERO).hi == 0 by { ShlZero(); }
      } else {
        Shl1Within(c, Ones(|t| - 1));
      }
    }
  }

  lemma ShlZero()
    ensures Shl1(ZERO) == ZERO
  {
  }

  lemma Shl1Within(c: Block, m: bv64)
    requires Within(c.hi, m)
    ensures Within(Shl1(c).hi, Left1(m) | 1)
  {
    WordWithin(c.hi, c.lo, m);
    hide Within, LeftFrom, Left1;
  }

  /** Up to 63 bits, the two highest bits of the product are clear. */
  lemma ClmulClear(h: bv64, s: seq<bool>, lo: bv64)
    requires |s| <= 63
    ensures !Top(ClmulBits(h, s).hi) && !Top(LeftFrom(ClmulBits(h, s).hi, lo))
  {
    hide ClmulBits, Ones, Within, Top, LeftFrom;
    ClmulWithin(h, s);
    var n := if |s| == 0 then 0 else |s| - 1;
    OnesWithin(n, 62);
    OnesSixtyTwo();
    WithinTransitive(ClmulBits(h, s).hi, Ones(n), Ones(62));
    WordClear(ClmulBits(h, s).hi, lo);
  }

  lemma WordClear(w: bv64, lo: bv64)
    requires Within(w, 0x3FFF_FFFF_FFFF_FFFF)
    ensures !Top(w) && !Top(LeftFrom(w, lo))
  {
  }

  // ---------------------------------------------------------------- a block times a word

  /** h times a word of bits that stands in the high half. */
  function ProductHigh(h: Block, s: seq<bool>): (Block, Block) {
    var (x, y) := (ClmulBits(h.hi, s), ClmulBits(h.lo, s));
    (Xor(x, Block(0, y.hi)), Block(y.lo, 0))
  }

  /** h times a word of bits that stands in the low half. */
  function ProductLow(h: Block, s: seq<bool>): (Block, Block) {
    var (x, y) := (ClmulBits(h.hi, s), ClmulBits(h.lo, s));
    (Block(0, x.hi), Xor(Block(x.lo, 0), y))
  }

  lemma ClmulStep(h: bv64, s: seq<bool>, b: bool)
    ensures var (c, d) := (ClmulBits(h, s), ClmulBits(h, s + [b]));
            d.hi == LeftFrom(c.hi, c.lo) && d.lo == XorW(Left1(c.lo), if b then h else 0)
  {
    assert (s + [b])[..|s|] == s;
    hide XorW, LeftFrom, Left1;
    var c := ClmulBits(h, s);
    WordXor(LeftFrom(c.hi, c.lo), 0, 0, 0);
  }

  lemma WordNoCarry(w: bv64)
    requires !Top(w)
    ensures LeftFrom(0, w) == 0
  {
  }

  lemma WordAdd(a: bv64, b: bv64, c: bv64, d: bv64)
    ensures XorW(XorW(a, b), XorW(c, d)) == XorW(XorW(XorW(a, c), d), b)
    ensures XorW(XorW(a, b), XorW(c, d)) == XorW(XorW(XorW(a, c), b), d)
    ensures XorW(0, a) == a && XorW(a, 0) == a
  {
    hide XorW;
    WordXor(a, b, c, d);
    WordXor(XorW(a, c), b, d, 0);
    WordXor(b, d, 0, 0);
    WordXor(XorW(a, c), d, b, 0);
    WordXor(a, 0, 0, 0);
    WordXor(0, a, 0, 0);
  }

  /** Shifting a product up, with y small enough not to run into x. */
  lemma DoubleHigh(x: Block, y: Block)
    requires !Top(y.hi)
    ensures Double(Xor(x, Block(0, y.hi)), Block(y.lo, 0))
         == (Block(LeftFrom(x.hi, x.lo), XorW(Left1(x.lo), LeftFrom(y.hi, y.lo))), Block(Left1(y.lo), 0))
  {
    hide XorW, LeftFrom, Left1, Top, Double;
    DoubleValue(Xor(x, Block(0, y.hi)), Block(y.lo, 0));
    Shl1Xor(x, Block(0, y.hi));
    WordNoCarry(y.hi);
    WordCarry(y.hi, y.lo);
    WordLeftZero(y.lo);
    WordZero();
    var c: bv64 := if Top(y.lo) then 1 else 0;
    WordXor(Left1(x.lo), Left1(y.hi), c, 0);
    WordXor(LeftFrom(x.hi, x.lo), 0, 0, 0);
  }

  lemma DoubleLow(x: Block, y: Block)
    requires !Top(x.hi) && !Top(y.hi)
    ensures Double(Block(0, x.hi), Xor(Block(x.lo, 0), y))
         == (Block(0, LeftFrom(x.hi, x.lo)), Block(XorW(Left1(x.lo), LeftFrom(y.hi, y.lo)), Left1(y.lo)))
  {
    hide XorW, LeftFrom, Left1, Top, Double;
    DoubleValue(Block(0, x.hi), Xor(Block(x.lo, 0), y));
    Shl1Xor(Block(x.lo, 0), y);
    WordNoCarry(x.hi);
    WordCarry(x.hi, x.lo);
    WordEnds(x.lo, y.hi);
    WordLeftZero(x.lo);
    WordZero();
    WordXor(0, x.lo, 0, 0);
    WordXor(x.lo, 0, 0, 0);
    WordXor(0, Left1(y.lo), 0, 0);
    WordXor(Left1(y.lo), 0, 0, 0);
    WordXor(0, 0, 0, 0);
  }

  /** One more bit of the multiplier: shift, and add h if the bit is set. */
  lemma ProductHighStep(h: Block, s: seq<bool>, b: bool)
    requires |s| <= 63
    ensures var (p, q) := (ProductHigh(h, s), ProductHigh(h, s + [b]));
            && q.0 == Xor(Double(p.0, p.1).0, Gate(b, Block(0, h.hi)))
            && q.1 == Xor(Double(p.0, p.1).1, Gate(b, Block(h.lo, 0)))
  {
    var (x, y) := (ClmulBits(h.hi, s), ClmulBits(h.lo, s));
    ClmulStep(h.hi, s, b);
    ClmulStep(h.lo, s, b);
    ClmulClear(h.lo, s, 0);
    hide XorW, LeftFrom, Left1, Top, Double, ClmulBits;
    DoubleHigh(x, y);
    var g: bv64 := if b then h.hi else 0;
    WordAdd(Left1(x.lo), g, LeftFrom(y.hi, y.lo), 0);
    WordAdd(XorW(Left1(x.lo), LeftFrom(y.hi, y.lo)), g, 0, 0);
    WordAdd(XorW(Left1(x.lo), g), 0, 0, 0);
    WordAdd(LeftFrom(x.hi, x.lo), 0, 0, 0);
    WordAdd(0, 0, 0, 0);
  }

  lemma ProductLowStep(h: Block, s: seq<bool>, b: bool)
    requires |s| <= 63
    ensures var (p, q) := (ProductLow(h, s), ProductLow(h, s + [b]));
            && q.0 == Xor(Double(p.0, p.1).0, Gate(b, ZERO))
            && q.1 == Xor(Double(p.0, p.1).1, Gate(b, h))
  {
    var (x, y) := (ClmulBits(h.hi, s), ClmulBits(h.lo, s));
    ClmulStep(h.hi, s, b);
    ClmulStep(h.lo, s, b);
    ClmulClear(h.hi, s, 0);
    ClmulClear(h.lo, s, 0);
    hide XorW, LeftFrom, Left1, Top, Double, ClmulBits;
    DoubleLow(x, y);
    var g, k: bv64 := if b then h.hi else 0, if b then h.lo else 0;
    WordAdd(Left1(x.lo), g, LeftFrom(y.hi, y.lo), 0);
    WordAdd(LeftFrom(x.hi, x.lo), 0, 0, 0);
    WordAdd(LeftFrom(y.hi, y.lo), 0, 0, 0);
    WordAdd(XorW(Left1(x.lo), LeftFrom(y.hi, y.lo)), g, 0, 0);
    WordAdd(XorW(Left1(x.lo), g), LeftFrom(y.hi, y.lo), 0, 0);
    WordAdd(XorW(Left1(y.lo), k), 0, 0, 0);
    WordAdd(0, 0, 0, 0);
  }

  /** The reduced products, and the reduced h they are made of. */
  function ReducedHigh(h: Block, s: seq<bool>): Block { GcmReduce(ProductHigh(h, s).0, ProductHigh(h, s).1) }

  function ReducedLow(h: Block, s: seq<bool>): Block { GcmReduce(ProductLow(h, s).0, ProductLow(h, s).1) }

  function High(h: Block): Block { GcmReduce(Block(0, h.hi), Block(h.lo, 0)) }

  function Low(h: Block): Block { GcmReduce(ZERO, h) }

  lemma ReduceZero()
    ensures GcmReduce(ZERO, ZERO) == ZERO
  {
    hide GcmReduce, Xor;
    ReduceXor(ZERO, ZERO, ZERO, ZERO);
    XorAlgebra(GcmReduce(ZERO, ZERO), ZERO, ZERO, ZERO);
    XorAlgebra(ZERO, ZERO, ZERO, ZERO);
  }

  lemma ReducedHighStep(h: Block, s: seq<bool>, b: bool)
    requires |s| <= 63
    ensures MulX(Xor(ReducedHigh(h, s + [b]), Gate(b, High(h)))) == ReducedHigh(h, s)
  {
    var p := ProductHigh(h, s);
    var d := Double(p.0, p.1);
    ProductHighStep(h, s, b);
    ProductHighTop(h, s);
    hide GcmReduce, Xor, Double, ProductHigh, MulX;
    ReduceStep(p.0, p.1);
    ReduceZero();
    ReduceXor(d.0, d.1, Gate(b, Block(0, h.hi)), Gate(b, Block(h.lo, 0)));
    XorTwice(GcmReduce(d.0, d.1), Gate(b, High(h)));
  }

  lemma XorTwice(a: Block, b: Block)
    ensures Xor(Xor(a, b), b) == a
  {
    hide Xor;
    XorAlgebra(a, b, b, ZERO);
    XorAlgebra(b, ZERO, ZERO, ZERO);
    XorAlgebra(a, ZERO, ZERO, ZERO);
  }

  lemma ProductHighTop(h: Block, s: seq<bool>)
    requires |s| <= 63
    ensures !Top(Double(ProductHigh(h, s).0, ProductHigh(h, s).1).0.hi)
  {
    var (x, y) := (ClmulBits(h.hi, s), ClmulBits(h.lo, s));
    var p := ProductHigh(h, s);
    DoubleValue(p.0, p.1);
    ClmulClear(h.hi, s, XorW(x.lo, y.hi));
    hide XorW, LeftFrom, Left1, Top, Double, ClmulBits;
    WordAdd(x.hi, 0, 0, 0);
    WordAdd(LeftFrom(x.hi, XorW(x.lo, y.hi)), 0, 0, 0);
  }

  lemma ProductLowTop(h: Block, s: seq<bool>)
    requires |s| <= 63
    ensures !Top(Double(ProductLow(h, s).0, ProductLow(h, s).1).0.hi)
  {
    var x := ClmulBits(h.hi, s);
    var p := ProductLow(h, s);
    DoubleValue(p.0, p.1);
    ClmulClear(h.hi, s, 0);
    WordNoCarry(x.hi);
    WordZero();
    hide XorW, LeftFrom, Left1, Top, Double, ClmulBits;
    WordAdd(0, 0, 0, 0);
  }

  lemma ReducedLowStep(h: Block, s: seq<bool>, b: bool)
    requires |s| <= 63
    ensures MulX(Xor(ReducedLow(h, s + [b]), Gate(b, Low(h)))) == ReducedLow(h, s)
  {
    var p := ProductLow(h, s);
    var d := Double(p.0, p.1);
    ProductLowStep(h, s, b);
    ProductLowTop(h, s);
    hide GcmReduce, Xor, Double, ProductLow, MulX;
    ReduceStep(p.0, p.1);
    ReduceZero();
    ReduceXor(d.0, d.1, Gate(b, ZERO), Gate(b, h));
    XorTwice(GcmReduce(d.0, d.1), Gate(b, Low(h)));
  }

  // ---------------------------------------------------------------- where a lone h lands

  /** The bits 1 0 0 ... 0 with k zeros. */
  function Lead(k: nat): (s: seq<bool>)
    ensures |s| == k + 1
  {
    if k == 0 then [true] else Lead(k - 1) + [false]
  }

  function ShlN(a: Block, n: nat): Block
    decreases n
  {
    if n == 0 then a else Shl1(ShlN(a, n - 1))
  }

  lemma {:induction false} ClmulLead(w: bv64, k: nat)
    ensures ClmulBits(w, Lead(k)) == ShlN(Block(0, w), k)
  {
    hide Shl1, Xor;
    XorAlgebra(Block(0, w), ZERO, ZERO, ZERO);
    if k == 0 {
      assert Lead(0)[..0] == [];
      ShlZero();
    } else {
      ClmulLead(w, k - 1);
      assert Lead(k)[..k] == Lead(k - 1);
      XorAlgebra(ShlN(Block(0, w), k), ZERO, ZERO, ZERO);
    }
  }

  lemma {:induction false} ShlNAdd(a: Block, m: nat, n: nat)
    ensures ShlN(a, m + n) == ShlN(ShlN(a, m), n)
    decreases n
  {
    hide Shl1;
    if n == 0 {
    } else {
      ShlNAdd(a, m, n - 1);
    }
  }

  function From2(hi: bv64, lo: bv64): bv64 { (hi << 2) | (lo >> 62) }
  function From4(hi: bv64, lo: bv64): bv64 { (hi << 4) | (lo >> 60) }
  function From8(hi: bv64, lo: bv64): bv64 { (hi << 8) | (lo >> 56) }
  function From16(hi: bv64, lo: bv64): bv64 { (hi << 16) | (lo >> 48) }

  // One shift amount each: together they are too much for the solver.
  lemma WordFrom2(hi: bv64, lo: bv64) ensures LeftFrom(LeftFrom(hi, lo), Left1(lo)) == From2(hi, lo) { }

  lemma WordFrom4(hi: bv64, lo: bv64) ensures From2(From2(hi, lo), Left2(lo)) == From4(hi, lo) { }

  lemma WordFrom8(hi: bv64, lo: bv64) ensures From4(From4(hi, lo), Left4(lo)) == From8(hi, lo) { }

  lemma WordFrom16(hi: bv64, lo: bv64) ensures From8(From8(hi, lo), Left8(lo)) == From16(hi, lo) { }

  function Left2(w: bv64): bv64 { w << 2 }
  function Left8(w: bv64): bv64 { w << 8 }

  lemma WordTwice1(w: bv64) ensures Left1(Left1(w)) == Left2(w) { }

  lemma WordTwice2(w: bv64) ensures Left2(Left2(w)) == Left4(w) { }

  lemma WordTwice4(w: bv64) ensures Left4(Left4(w)) == Left8(w) { }

  lemma WordTwice8(w: bv64) ensures Left8(Left8(w)) == Left16(w) { }

  lemma ShlBy2(a: Block)
    ensures ShlN(a, 2) == Block(From2(a.hi, a.lo), Left2(a.lo))
  {
    hide LeftFrom, Left1, Left2, From2;
    WordFrom2(a.hi, a.lo);
    WordTwice1(a.lo);
    assert ShlN(a, 1) == Shl1(a);
  }

  lemma ShlBy4(a: Block)
    ensures ShlN(a, 4) == Block(From4(a.hi, a.lo), Left4(a.lo))
  {
    hide From2, From4, Left2, Left4, ShlN;
    WordFrom4(a.hi, a.lo);
    WordTwice2(a.lo);
    ShlBy2(a);
    ShlBy2(ShlN(a, 2));
    ShlNAdd(a, 2, 2);
  }

  lemma ShlBy8(a: Block)
    ensures ShlN(a, 8) == Block(From8(a.hi, a.lo), Left8(a.lo))
  {
    hide From4, From8, Left4, Left8, ShlN;
    WordFrom8(a.hi, a.lo);
    WordTwice4(a.lo);
    ShlBy4(a);
    ShlBy4(ShlN(a, 4));
    ShlNAdd(a, 4, 4);
  }

  lemma ShlBy16(a: Block)
    ensures ShlN(a, 16) == Block(From16(a.hi, a.lo), Left16(a.lo))
  {
    hide From8, From16, Left8, Left16, ShlN;
    WordFrom16(a.hi, a.lo);
    WordTwice8(a.lo);
    ShlBy8(a);
    ShlBy8(ShlN(a, 8));
    ShlNAdd(a, 8, 8);
  }

  /** A word that has climbed n places from the low half into the high half. */
  function Climb48(w: bv64): Block { Block(w >> 16, w << 48) }
  function Climb56(w: bv64): Block { Block(w >> 8, w << 56) }
  function Climb60(w: bv64): Block { Block(w >> 4, w << 60) }
  function Climb62(w: bv64): Block { Block(w >> 2, w << 62) }
  function Climb63(w: bv64): Block { Block(w >> 1, w << 63) }
  function Climb16(w: bv64): Block { Block(w >> 48, w << 16) }
  function Climb32(w: bv64): Block { Block(w >> 32, w << 32) }

  lemma To16(w: bv64) ensures Block(From16(0, w), Left16(w)) == Climb16(w) { }

  lemma To32(w: bv64) ensures Block(From16(Climb16(w).hi, Climb16(w).lo), Left16(Climb16(w).lo)) == Climb32(w) { }

  lemma To48(w: bv64) ensures Block(From16(Climb32(w).hi, Climb32(w).lo), Left16(Climb32(w).lo)) == Climb48(w) { }

  lemma To56(w: bv64) ensures Block(From8(Climb48(w).hi, Climb48(w).lo), Left8(Climb48(w).lo)) == Climb56(w) { }

  lemma To60(w: bv64) ensures Block(From4(Climb56(w).hi, Climb56(w).lo), Left4(Climb56(w).lo)) == Climb60(w) { }

  lemma To62(w: bv64) ensures Block(From2(Climb60(w).hi, Climb60(w).lo), Left2(Climb60(w).lo)) == Climb62(w) { }

  lemma To63(w: bv64) ensures Shl1(Climb62(w)) == Climb63(w) { }

  lemma ShlBy63(w: bv64)
    ensures ShlN(Block(0, w), 63) == Climb63(w)
  {
    var a := Block(0, w);
    assert ShlN(a, 63) == Shl1(ShlN(a, 62)) by {
      hide Shl1;
    }
    hide ShlN, Shl1, From16, From8, From4, From2, Left16, Left8, Left4, Left2;
    hide Climb16, Climb32, Climb48, Climb56, Climb60, Climb62, Climb63;
    To16(w);
    To32(w);
    To48(w);
    To56(w);
    To60(w);
    To62(w);
    To63(w);
    ShlBy16(a);
    ShlBy16(Climb16(w));
    ShlBy16(Climb32(w));
    ShlBy8(Climb48(w));
    ShlBy4(Climb56(w));
    ShlBy2(Climb60(w));
    ShlNAdd(a, 16, 16);
    ShlNAdd(a, 32, 16);
    ShlNAdd(a, 48, 8);
    ShlNAdd(a, 56, 4);
    ShlNAdd(a, 60, 2);
  }

  lemma ClmulOfLead(w: bv64)
    ensures ClmulBits(w, Lead(63)) == Climb63(w)
  {
    hide ClmulBits, ShlN, Lead, Climb63;
    ClmulLead(w, 63);
    ShlBy63(w);
  }

  lemma ProductHighOf(h: Block, x: Block, y: Block)
    requires x == Climb63(h.hi) && y == Climb63(h.lo)
    ensures Xor(x, Block(0, y.hi)) == Shr1(h) && Block(y.lo, 0) == Block(h.lo << 63, 0)
  {
    WordMeet(h.hi, h.lo);
    hide XorW, RightInto, Right1;
    WordXor(x.hi, 0, 0, 0);
  }

  /** h in the leading position reduces to h itself. */
  lemma LeadHigh(h: Block)
    ensures ReducedHigh(h, Lead(63)) == h
  {
    hide GcmReduce, ClmulBits, Lead, Xor, Shr1, Climb63;
    ClmulOfLead(h.hi);
    ClmulOfLead(h.lo);
    ProductHighOf(h, ClmulBits(h.hi, Lead(63)), ClmulBits(h.lo, Lead(63)));
    ReduceBase(h);
  }

  lemma WordMeet(hi: bv64, lo: bv64)
    ensures XorW(hi << 63, lo >> 1) == RightInto(hi, lo) && Right1(hi) == hi >> 1
  {
  }

  lemma LeadLowDouble(h: Block)
    ensures var p := ProductLow(h, Lead(63)); Double(p.0, p.1) == (Block(0, h.hi), Block(h.lo, 0))
  {
    hide Double, ClmulBits, Lead, XorW, LeftFrom, Left1, Top, Climb63;
    ClmulOfLead(h.hi);
    ClmulOfLead(h.lo);
    WordTurn(h.hi);
    WordTurn(h.lo);
    DoubleLow(Climb63(h.hi), Climb63(h.lo));
    WordAdd(h.lo, 0, 0, 0);
  }

  lemma WordTurn(w: bv64)
    ensures var c := Climb63(w); !Top(c.hi) && LeftFrom(c.hi, c.lo) == w && Left1(c.lo) == 0
  {
  }

  lemma LeadLow(h: Block)
    ensures ReducedLow(h, Lead(63)) == MulX(High(h))
  {
    LeadLowDouble(h);
    var p := ProductLow(h, Lead(63));
    assert !Top(0) by {
      WordZero();
    }
    hide GcmReduce, Double, ProductLow, MulX, Top;
    ReduceStep(p.0, p.1);
  }

  // ---------------------------------------------------------------- powers of x

  lemma {:induction false} MulXNAdd(a: Block, m: nat, n: nat)
    ensures MulXN(a, m + n) == MulXN(MulXN(a, m), n)
    decreases m
  {
    hide MulX;
    if m == 0 {
    } else {
      MulXNAdd(MulX(a), m - 1, n);
    }
  }

  lemma {:induction false} MulXNXor(a: Block, b: Block, n: nat)
    ensures MulXN(Xor(a, b), n) == Xor(MulXN(a, n), MulXN(b, n))
    decreases n
  {
    hide MulX, Xor;
    if n == 0 {
    } else {
      MulXXor(a, b);
      MulXNXor(MulX(a), MulX(b), n - 1);
    }
  }

  lemma {:induction false} MulXNZero(n: nat)
    ensures MulXN(ZERO, n) == ZERO
  {
    hide MulX;
    MulXZero();
    if n == 0 {
    } else {
      MulXNZero(n - 1);
    }
  }

  lemma MulXNLast(a: Block, n: nat)
    ensures MulXN(a, n + 1) == MulX(MulXN(a, n))
  {
    hide MulX;
    MulXNAdd(a, n, 1);
  }

  lemma {:induction false} DotMulXN(s: seq<bool>, v: Block, n: nat)
    ensures Dot(s, MulXN(v, n)) == MulXN(Dot(s, v), n)
    decreases n
  {
    hide MulX, Dot;
    if n == 0 {
    } else {
      DotMulX(s, v);
      DotMulXN(s, MulX(v), n - 1);
    }
  }

  lemma {:induction false} ReducedLeads(h: Block, k: nat)
    requires k <= 63
    ensures High(h) == MulXN(ReducedHigh(h, Lead(k)), k)
    ensures Low(h) == MulXN(ReducedLow(h, Lead(k)), k)
  {
    hide MulX, Xor, ReducedHigh, ReducedLow, High, Low;
    if k == 0 {
      ReducedHighStep(h, [], true);
      ReducedLowStep(h, [], true);
      assert [] + [true] == Lead(0);
      ReducedEmpty(h);
      OnlyZero(ReducedHigh(h, Lead(0)), High(h));
      OnlyZero(ReducedLow(h, Lead(0)), Low(h));
    } else {
      ReducedLeads(h, k - 1);
      var s := Lead(k - 1);
      ReducedHighStep(h, s, false);
      ReducedLowStep(h, s, false);
      XorAlgebra(ReducedHigh(h, Lead(k)), ZERO, ZERO, ZERO);
      XorAlgebra(ReducedLow(h, Lead(k)), ZERO, ZERO, ZERO);
    }
  }

  lemma OnlyZero(a: Block, b: Block)
    requires MulX(Xor(a, b)) == ZERO
    ensures a == b
  {
    hide MulX, Xor;
    MulXZero();
    MulXInjective(Xor(a, b), ZERO);
    XorTwice(a, b);
    XorAlgebra(b, ZERO, ZERO, ZERO);
  }

  lemma ReducedEmpty(h: Block)
    ensures ReducedHigh(h, []) == ZERO && ReducedLow(h, []) == ZERO
  {
    hide GcmReduce;
    ReduceZero();
    assert ProductHigh(h, []) == (ZERO, ZERO) && ProductLow(h, []) == (ZERO, ZERO);
  }

  lemma Positions(h: Block)
    ensures High(h) == MulXN(h, 63) && Low(h) == MulXN(h, 127)
  {
    hide MulX, MulXN, ReducedHigh, ReducedLow, High, Low;
    ReducedLeads(h, 63);
    LeadHigh(h);
    LeadLow(h);
    MulXNLast(h, 63);
    MulXNAdd(h, 64, 63);
  }

  // ---------------------------------------------------------------- products are field products

  /** The product by a word of n bits, reduced, is the field product times x^(64 - n). */
  lemma {:induction false} ReducedHighValue(h: Block, s: seq<bool>)
    requires |s| <= 64
    ensures ReducedHigh(h, s) == MulXN(Dot(s, h), 64 - |s|)
    decreases |s|
  {
    hide MulX, MulXN, Xor, ReducedHigh, High, Dot;
    if |s| == 0 {
      ReducedEmpty(h);
      MulXNZero(64);
      assert Dot(s, h) == ZERO by { DotEmpty(h); }
    } else {
      var t, b := s[..|s| - 1], s[|s| - 1];
      var n := |t|;
      assert s == t + [b];
      ReducedHighValue(h, t);
      ReducedHighStep(h, t, b);
      Positions(h);
      AppendBit(h, t, b, ReducedHigh(h, s), High(h), 63 - n);
    }
  }

  lemma DotEmpty(h: Block)
    ensures Dot([], h) == ZERO
  {
  }

  /** The induction step shared by both halves. */
  lemma AppendBit(h: Block, t: seq<bool>, b: bool, r: Block, p: Block, k: nat)
    requires p == MulXN(h, |t| + k)
    requires MulX(Xor(r, Gate(b, p))) == MulXN(Dot(t, h), k + 1)
    ensures r == MulXN(Dot(t + [b], h), k)
  {
    hide MulX, MulXN, Xor, Dot;
    var d := Dot(t, h);
    MulXNLast(d, k);
    MulXInjective(Xor(r, Gate(b, p)), MulXN(d, k));
    XorTwice(r, Gate(b, p));
    DotConcat(t, [b], h);
    DotSingle(b, MulXN(h, |t|));
    MulXNXor(d, Gate(b, MulXN(h, |t|)), k);
    MulXNAdd(h, |t|, k);
    MulXNZero(k);
  }

  lemma DotSingle(b: bool, v: Block)
    ensures Dot([b], v) == Gate(b, v)
  {
    hide Xor, MulX;
    assert [b][1..] == [];
    XorAlgebra(v, ZERO, ZERO, ZERO);
    XorAlgebra(ZERO, ZERO, ZERO, ZERO);
  }

  lemma {:induction false} ReducedLowValue(h: Block, s: seq<bool>)
    requires |s| <= 64
    ensures ReducedLow(h, s) == MulXN(Dot(s, h), 128 - |s|)
    decreases |s|
  {
    hide MulX, MulXN, Xor, ReducedLow, Low, Dot;
    if |s| == 0 {
      ReducedEmpty(h);
      MulXNZero(128);
      assert Dot(s, h) == ZERO by { DotEmpty(h); }
    } else {
      var t, b := s[..|s| - 1], s[|s| - 1];
      assert s == t + [b];
      ReducedLowValue(h, t);
      ReducedLowStep(h, t, b);
      Positions(h);
      AppendBit(h, t, b, ReducedLow(h, s), Low(h), 127 - |t|);
    }
  }

  // ---------------------------------------------------------------- block multiplication

  /** One block: four carry-less products, combined and reduced. */
  function GcmMultiply(h: Block, x: Block): Block {
    var t0 := Clmul(h.hi, x.hi);
    var t1 := Clmul(h.hi, x.lo);
    var t2 := Clmul(h.lo, x.hi);
    var t3 := Clmul(h.lo, x.lo);
    var t1 := Xor(t1, t2);
    GcmReduce(Xor(t0, ElemsRight2(t1)), Xor(t3, ElemsLeft2(t1)))
  }

  /** The code's one-block multiplication is multiplication in the field. */
  lemma GcmMultiplyIsMul(h: Block, x: Block)
    ensures GcmMultiply(h, x) == Mul(x, h)
  {
    var s, t := WordBits(x.hi, 64), WordBits(x.lo, 64);
    hide GcmReduce, ClmulBits, WordBits, Dot, MulXN;
    var p, q := ProductHigh(h, s), ProductLow(h, t);
    ReducedHighValue(h, s);
    ReducedLowValue(h, t);
    assert MulXN(Dot(s, h), 0) == Dot(s, h) by { MulXNNone(Dot(s, h)); }
    DotConcat(s, t, h);
    DotMulXN(t, h, 64);
    ReduceXor(p.0, p.1, q.0, q.1);
    JoinProducts(ClmulBits(h.hi, s), ClmulBits(h.lo, s), ClmulBits(h.hi, t), ClmulBits(h.lo, t));
  }

  lemma MulXNNone(a: Block)
    ensures MulXN(a, 0) == a
  {
  }

  /** The two word products, added up, are the four products the code combines. */
  lemma JoinProducts(t0: Block, t2: Block, t1: Block, t3: Block)
    ensures Xor(Xor(t0, Block(0, t2.hi)), Block(0, t1.hi)) == Xor(t0, ElemsRight2(Xor(t1, t2)))
    ensures Xor(Block(t2.lo, 0), Xor(Block(t1.lo, 0), t3)) == Xor(t3, ElemsLeft2(Xor(t1, t2)))
  {
    hide XorW;
    WordXor(t0.hi, 0, 0, 0);
    WordXor(t0.lo, t2.hi, t1.hi, 0);
    WordXor(t1.hi, t2.hi, 0, 0);
    WordXor(t2.lo, t1.lo, t3.hi, 0);
    WordXor(t1.lo, t2.lo, 0, 0);
    WordXor(t3.hi, XorW(t1.lo, t2.lo), 0, 0);
    WordXor(0, t3.lo, 0, 0);
    WordXor(t3.lo, 0, 0, 0);
    WordXor(0, 0, 0, 0);
    WordXor(XorW(t0.lo, t2.hi), t1.hi, 0, 0);
  }

  // ---------------------------------------------------------------- four blocks at once

  /** H1 * X1 + ... + H4 * X4 by Karatsuba, with one reduction at the end. */
  function GcmMultiply4(h1: Block, h2: Block, h3: Block, h4: Block,
                        x1: Block, x2: Block, x3: Block, x4: Block): Block
  {
    var lo := Xor(Xor(Clmul(h1.lo, x1.lo), Clmul(h2.lo, x2.lo)), Xor(Clmul(h3.lo, x3.lo), Clmul(h4.lo, x4.lo)));
    var hi := Xor(Xor(Clmul(h1.hi, x1.hi), Clmul(h2.hi, x2.hi)), Xor(Clmul(h3.hi, x3.hi), Clmul(h4.hi, x4.hi)));
    var t := Xor(ZERO, Middle(h1, x1));
    var t := Xor(t, Middle(h2, x2));
    var t := Xor(t, Middle(h3, x3));
    var t := Xor(t, Middle(h4, x4));
    var t := Xor(t, lo);
    var t := Xor(t, hi);
    GcmReduce(Xor(hi, ElemsRight2(t)), Xor(lo, ElemsLeft2(t)))
  }

  function Middle(h: Block, x: Block): Block {
    Clmul(Xor(h, ElemsRight2(h)).lo, Xor(x, ElemsRight2(x)).lo)
  }

  lemma {:induction false} ClmulBitsXorLeft(a: bv64, b: bv64, s: seq<bool>)
    ensures ClmulBits(XorW(a, b), s) == Xor(ClmulBits(a, s), ClmulBits(b, s))
    decreases |s|
  {
    hide Xor, XorW, Shl1;
    XorAlgebra(ZERO, ZERO, ZERO, ZERO);
    if |s| == 0 {
    } else {
      var t, g := s[..|s| - 1], s[|s| - 1];
      ClmulBitsXorLeft(a, b, t);
      Shl1Xor(ClmulBits(a, t), ClmulBits(b, t));
      PlaceXor(a, b);
      XorAlgebra(Shl1(ClmulBits(a, t)), Shl1(ClmulBits(b, t)), Gate(g, Block(0, a)), Gate(g, Block(0, b)));
    }
  }

  lemma PlaceXor(a: bv64, b: bv64)
    ensures Block(0, XorW(a, b)) == Xor(Block(0, a), Block(0, b))
  {
    hide XorW;
    WordXor(0, 0, 0, 0);
  }

  /** Bit by bit, w is the sum of a and b. */
  predicate Adds(s: seq<bool>, t: seq<bool>, u: seq<bool>) {
    |s| == |t| == |u| && forall i :: 0 <= i < |s| ==> u[i] == (s[i] != t[i])
  }

  lemma {:induction false} WordBitsAdd(a: bv64, b: bv64, n: nat)
    ensures Adds(WordBits(a, n), WordBits(b, n), WordBits(XorW(a, b), n))
    decreases n
  {
    hide XorW, Top, Left1;
    if n == 0 {
    } else {
      WordEnds(a, b);
      WordShiftXor(a, b);
      WordBitsAdd(Left1(a), Left1(b), n - 1);
    }
  }

  lemma {:induction false} ClmulBitsAdd(h: bv64, s: seq<bool>, t: seq<bool>, u: seq<bool>)
    requires Adds(s, t, u)
    ensures ClmulBits(h, u) == Xor(ClmulBits(h, s), ClmulBits(h, t))
    decreases |s|
  {
    hide Xor, Shl1;
    XorAlgebra(ZERO, ZERO, ZERO, ZERO);
    if |s| == 0 {
    } else {
      var n := |s| - 1;
      ClmulBitsAdd(h, s[..n], t[..n], u[..n]);
      Shl1Xor(ClmulBits(h, s[..n]), ClmulBits(h, t[..n]));
      XorAlgebra(Block(0, h), ZERO, ZERO, ZERO);
      XorAlgebra(Shl1(ClmulBits(h, s[..n])), Shl1(ClmulBits(h, t[..n])), Gate(s[n], Block(0, h)), Gate(t[n], Block(0, h)));
    }
  }

  lemma ClmulXor(a: bv64, b: bv64, x: bv64, y: bv64)
    ensures Clmul(XorW(a, b), x) == Xor(Clmul(a, x), Clmul(b, x))
    ensures Clmul(a, XorW(x, y)) == Xor(Clmul(a, x), Clmul(a, y))
  {
    hide ClmulBits, WordBits, XorW, Xor;
    ClmulBitsXorLeft(a, b, WordBits(x, 64));
    WordBitsAdd(x, y, 64);
    ClmulBitsAdd(a, WordBits(x, 64), WordBits(y, 64), WordBits(XorW(x, y), 64));
  }

  /** The Karatsuba middle term carries all four products. */
  lemma MiddleValue(h: Block, x: Block)
    ensures Middle(h, x) == Xor(Xor(Clmul(h.hi, x.lo), Clmul(h.lo, x.hi)), Xor(Clmul(h.lo, x.lo), Clmul(h.hi, x.hi)))
  {
    assert Middle(h, x) == Clmul(XorW(h.lo, h.hi), XorW(x.lo, x.hi)) by {
      hide XorW, Clmul;
    }
    hide Clmul, XorW, Middle, Xor;
    ClmulXor(h.lo, h.hi, XorW(x.lo, x.hi), 0);
    ClmulXor(h.lo, 0, x.lo, x.hi);
    ClmulXor(h.hi, 0, x.lo, x.hi);
    var (a, b, c, d) := (Clmul(h.lo, x.lo), Clmul(h.lo, x.hi), Clmul(h.hi, x.lo), Clmul(h.hi, x.hi));
    XorAlgebra(a, b, c, d);
    XorAlgebra(Xor(a, c), Xor(b, d), ZERO, ZERO);
    XorAlgebra(b, d, a, c);
    XorAlgebra(b, d, c, a);
    XorAlgebra(a, c, ZERO, ZERO);
    XorAlgebra(b, c, d, a);
    XorAlgebra(c, b, ZERO, ZERO);
    XorAlgebra(d, a, ZERO, ZERO);
  }

  /** High product, low product and middle terms of one block, before the reduction. */
  datatype Product = Product(hi: Block, lo: Block, mid: Block)

  function Parts(h: Block, x: Block): Product {
    Product(Clmul(h.hi, x.hi), Clmul(h.lo, x.lo), Xor(Clmul(h.hi, x.lo), Clmul(h.lo, x.hi)))
  }

  function Sum(p: Product, q: Product): Product { Product(Xor(p.hi, q.hi), Xor(p.lo, q.lo), Xor(p.mid, q.mid)) }

  function Reduced(p: Product): Block {
    GcmReduce(Xor(p.hi, ElemsRight2(p.mid)), Xor(p.lo, ElemsLeft2(p.mid)))
  }

  lemma Elems2Xor(a: Block, b: Block)
    ensures ElemsRight2(Xor(a, b)) == Xor(ElemsRight2(a), ElemsRight2(b))
    ensures ElemsLeft2(Xor(a, b)) == Xor(ElemsLeft2(a), ElemsLeft2(b))
  {
    hide XorW;
    WordXor(0, 0, 0, 0);
  }

  lemma ReducedSum(p: Product, q: Product)
    ensures Reduced(Sum(p, q)) == Xor(Reduced(p), Reduced(q))
  {
    hide Xor, GcmReduce, ElemsRight2, ElemsLeft2;
    Elems2Xor(p.mid, q.mid);
    XorAlgebra(p.hi, ElemsRight2(p.mid), q.hi, ElemsRight2(q.mid));
    XorAlgebra(p.lo, ElemsLeft2(p.mid), q.lo, ElemsLeft2(q.mid));
    ReduceXor(Xor(p.hi, ElemsRight2(p.mid)), Xor(p.lo, ElemsLeft2(p.mid)),
              Xor(q.hi, ElemsRight2(q.mid)), Xor(q.lo, ElemsLeft2(q.mid)));
  }

  lemma Karatsuba(h: Block, x: Block)
    ensures var p := Parts(h, x); Middle(h, x) == Xor(p.mid, Xor(p.lo, p.hi))
  {
    hide Xor, Clmul, Middle;
    MiddleValue(h, x);
  }

  /** Two middle terms together. */
  lemma KaratsubaPair(p: Product, q: Product)
    ensures var r := Sum(p, q);
            Xor(Xor(p.mid, Xor(p.lo, p.hi)), Xor(q.mid, Xor(q.lo, q.hi))) == Xor(r.mid, Xor(r.lo, r.hi))
  {
    hide Xor;
    XorAlgebra(p.mid, Xor(p.lo, p.hi), q.mid, Xor(q.lo, q.hi));
    XorAlgebra(p.lo, p.hi, q.lo, q.hi);
  }

  lemma KaratsubaEnd(m: Block, lo: Block, hi: Block)
    ensures Xor(Xor(Xor(m, Xor(lo, hi)), lo), hi) == m
  {
    hide Xor;
    var c := Xor(lo, hi);
    XorAlgebra(Xor(m, c), lo, hi, ZERO);
    XorTwice(m, c);
  }

  lemma XorChain(a: Block, b: Block, c: Block, d: Block)
    ensures Xor(Xor(Xor(Xor(ZERO, a), b), c), d) == Xor(Xor(a, b), Xor(c, d))
  {
    hide Xor;
    XorAlgebra(a, ZERO, ZERO, ZERO);
    XorAlgebra(Xor(a, b), c, d, ZERO);
  }

  /** Four blocks with one reduction: the sum of the four field products. */
  lemma GcmMultiply4IsSum(h1: Block, h2: Block, h3: Block, h4: Block, x1: Block, x2: Block, x3: Block, x4: Block)
    ensures GcmMultiply4(h1, h2, h3, h4, x1, x2, x3, x4)
         == Xor(Xor(Mul(x1, h1), Mul(x2, h2)), Xor(Mul(x3, h3), Mul(x4, h4)))
  {
    var (p1, p2, p3, p4) := (Parts(h1, x1), Parts(h2, x2), Parts(h3, x3), Parts(h4, x4));
    GcmMultiplyIsMul(h1, x1);
    GcmMultiplyIsMul(h2, x2);
    GcmMultiplyIsMul(h3, x3);
    GcmMultiplyIsMul(h4, x4);
    hide Xor, Clmul, GcmReduce, Middle, Mul, ElemsRight2, ElemsLeft2;
    Karatsuba(h1, x1);
    Karatsuba(h2, x2);
    Karatsuba(h3, x3);
    Karatsuba(h4, x4);
    ReducedSum(p1, p2);
    ReducedSum(p3, p4);
    ReducedSum(Sum(p1, p2), Sum(p3, p4));
    XorChain(Middle(h1, x1), Middle(h2, x2), Middle(h3, x3), Middle(h4, x4));
    KaratsubaPair(p1, p2);
    KaratsubaPair(p3, p4);
    KaratsubaPair(Sum(p1, p2), Sum(p3, p4));
    var r := Sum(Sum(p1, p2), Sum(p3, p4));
    KaratsubaEnd(r.mid, r.lo, r.hi);
  }

  // ---------------------------------------------------------------- the loop

  /** Horner's rule with the powers of h written out. */
  lemma HornerFour(h: Block, a: Block, m0: Block, m1: Block, m2: Block, m3: Block)
    ensures Xor(Xor(Mul(m3, h), Mul(m2, Mul(h, h))), Xor(Mul(m1, Mul(Mul(h, h), h)), Mul(Xor(a, m0), Mul(Mul(h, h), Mul(h, h)))))
         == Ghash(h, a, [m0, m1, m2, m3])
  {
    hide Xor, Mul, Ghash;
    var h2, b := Mul(h, h), Xor(a, m0);
    GhashFour(h, a, m0, m1, m2, m3);
    var (b4, c3, d2, e1) := (Mul(b, Mul(h2, h2)), Mul(m1, Mul(h2, h)), Mul(m2, h2), Mul(m3, h));
    HornerThree(h, b, m1, m2);
    var p, q := Xor(Mul(b, h2), Mul(m1, h)), Xor(Xor(Mul(b, Mul(h2, h)), Mul(m1, h2)), Mul(m2, h));
    MulXor(q, m3, h);
    MulXor(Xor(Mul(b, Mul(h2, h)), Mul(m1, h2)), Mul(m2, h), h);
    MulXor(Mul(b, Mul(h2, h)), Mul(m1, h2), h);
    MulAssociates(m2, h, h);
    MulAssociates(m1, h2, h);
    MulAssociates(b, Mul(h2, h), h);
    MulAssociates(h2, h, h);
    assert Mul(Xor(q, m3), h) == Xor(Xor(Xor(b4, c3), d2), e1);
    XorAlgebra(Xor(b4, c3), d2, e1, ZERO);
    XorAlgebra(e1, d2, ZERO, ZERO);
    XorAlgebra(c3, b4, ZERO, ZERO);
    XorAlgebra(Xor(e1, d2), Xor(c3, b4), ZERO, ZERO);
  }

  lemma HornerThree(h: Block, b: Block, m1: Block, m2: Block)
    ensures Mul(Xor(Mul(Xor(Mul(b, h), m1), h), m2), h)
         == Xor(Xor(Mul(b, Mul(Mul(h, h), h)), Mul(m1, Mul(h, h))), Mul(m2, h))
  {
    hide Xor, Mul;
    var h2 := Mul(h, h);
    MulXor(Mul(b, h), m1, h);
    MulAssociates(b, h, h);
    var p := Xor(Mul(b, h2), Mul(m1, h));
    MulXor(p, m2, h);
    MulXor(Mul(b, h2), Mul(m1, h), h);
    MulAssociates(m1, h, h);
    MulAssociates(b, h2, h);
  }

  lemma GhashFour(h: Block, a: Block, m0: Block, m1: Block, m2: Block, m3: Block)
    ensures Ghash(h, a, [m0, m1, m2, m3])
         == Mul(Xor(Mul(Xor(Mul(Xor(Mul(Xor(a, m0), h), m1), h), m2), h), m3), h)
  {
    hide Mul, Xor, Ghash;
    GhashNone(h, a);
    GhashStep(h, a, [], m0);
    GhashStep(h, a, [m0], m1);
    GhashStep(h, a, [m0, m1], m2);
    GhashStep(h, a, [m0, m1, m2], m3);
    assert [] + [m0] == [m0] && [m0] + [m1] == [m0, m1];
    assert [m0, m1] + [m2] == [m0, m1, m2] && [m0, m1, m2] + [m3] == [m0, m1, m2, m3];
  }

  /** The block stored as two little-endian words at index 2 * i. */
  function Stored(words: seq<bv64>, i: nat): Block
    requires 2 * i + 1 < |words|
  {
    Block(words[2 * i + 1], words[2 * i])
  }

  predicate HoldsPowers(h: Block, words: seq<bv64>) {
    && |words| == 8
    && Stored(words, 0) == h
    && Stored(words, 1) == Mul(h, h)
    && Stored(words, 2) == Mul(Mul(h, h), h)
    && Stored(words, 3) == Mul(Mul(h, h), Mul(h, h))
  }

  method GhashPrecompute(h: Block, hPow: array<bv64>)
    requires hPow.Length == 8
    modifies hPow
    ensures HoldsPowers(h, hPow[..])
  {
    hide Mul, GcmMultiply;
    var h2 := GcmMultiply(h, h);
    GcmMultiplyIsMul(h, h);
    var h3 := GcmMultiply(h, h2);
    GcmMultiplyIsMul(h, h2);
    var h4 := GcmMultiply(h2, h2);
    GcmMultiplyIsMul(h2, h2);
    Store(hPow, 0, h);
    Store(hPow, 1, h2);
    Store(hPow, 2, h3);
    Store(hPow, 3, h4);
  }

  method Store(words: array<bv64>, i: nat, b: Block)
    requires 2 * i + 1 < words.Length
    modifies words
    ensures words[..] == old(words[..])[2 * i := b.lo][2 * i + 1 := b.hi]
  {
    words[2 * i] := b.lo;
    words[2 * i + 1] := b.hi;
  }

  /** Four blocks at a time while there are four, then one at a time: always Horner's rule. */
  method GhashMultiply(x: Block, hPow: array<bv64>, input: seq<Block>, ghost h: Block) returns (a: Block)
    requires HoldsPowers(h, hPow[..])
    ensures a == Ghash(h, x, input)
  {
    hide Mul, Xor, Ghash, GcmMultiply, GcmMultiply4;
    var h1 := Block(hPow[1], hPow[0]);
    assert h1 == h;
    a := x;
    GhashNone(h, x);
    var pos, blocks := 0, |input|;
    if blocks >= 4 {
      var h2 := Block(hPow[3], hPow[2]);
      var h3 := Block(hPow[5], hPow[4]);
      var h4 := Block(hPow[7], hPow[6]);
      assert h2 == Mul(h, h) && h3 == Mul(h2, h) && h4 == Mul(h2, h2);
      while blocks >= 4
        invariant pos + blocks == |input|
        invariant a == Ghash(h, x, input[..pos])
      {
        var m0, m1, m2, m3 := input[pos], input[pos + 1], input[pos + 2], input[pos + 3];
        GhashMore(h, x, input[..pos], [m0, m1, m2, m3]);
        HornerFour(h, a, m0, m1, m2, m3);
        assert input[..pos + 4] == input[..pos] + [m0, m1, m2, m3];
        a := Xor(a, m0);
        GcmMultiply4IsSum(h1, h2, h3, h4, m3, m2, m1, a);
        a := GcmMultiply4(h1, h2, h3, h4, m3, m2, m1, a);
        pos := pos + 4;
        blocks := blocks - 4;
      }
    }
    var i := 0;
    while i != blocks
      invariant i <= blocks && pos + blocks == |input|
      invariant a == Ghash(h, x, input[..pos + i])
    {
      var m := input[pos + i];
      GhashStep(h, x, input[..pos + i], m);
      assert input[..pos + i + 1] == input[..pos + i] + [m];
      a := Xor(a, m);
      GcmMultiplyIsMul(h1, a);
      a := GcmMultiply(h1, a);
      i := i + 1;
    }
    assert input[..pos + i] == input;
  }
}
