/** The field GF(2^128) of GCM.

    A block is the two big-endian 64-bit words of its 16 bytes, so the coefficient of x^0 is the
    top bit of `hi` and the coefficient of x^127 is the bottom bit of `lo`.  The product is the
    bit-serial one of section 6.3 of NIST SP 800-38D; everything the two implementations rely on
    is proved of it here. */
module Gf128 {
  datatype Block = Block(hi: bv64, lo: bv64)

  const ZERO: Block := Block(0, 0)

  /** The polynomial 1. */
  const ONE: Block := Block(0x8000_0000_0000_0000, 0)

  // The word operations have names so that proofs about blocks need not look at bits.
  function XorW(a: bv64, b: bv64): bv64 { a ^ b }
  function Right1(a: bv64): bv64 { a >> 1 }
  function Left1(a: bv64): bv64 { a << 1 }
  function RightInto(hi: bv64, lo: bv64): bv64 { (lo >> 1) | (hi << 63) }
  predicate Top(w: bv64) { w & 0x8000_0000_0000_0000 != 0 }
  predicate Bottom(w: bv64) { w & 1 != 0 }

  function Xor(a: Block, b: Block): Block { Block(XorW(a.hi, b.hi), XorW(a.lo, b.lo)) }

  /** a or zero. */
  function Gate(b: bool, a: Block): Block { if b then a else ZERO }

  function Shr1(a: Block): Block { Block(Right1(a.hi), RightInto(a.hi, a.lo)) }

  /** Multiplication by x: shift towards higher powers and reduce by R = 11100001 || 0^120. */
  function MulX(a: Block): Block {
    Xor(Shr1(a), Gate(Bottom(a.lo), Block(0xE100_0000_0000_0000, 0)))
  }

  function MulXN(a: Block, n: nat): Block
    decreases n
  {
    if n == 0 then a else MulXN(MulX(a), n - 1)
  }

  /** The n leading bits of a word, first bit first. */
  function WordBits(w: bv64, n: nat): (s: seq<bool>)
    ensures |s| == n
    decreases n
  {
    if n == 0 then [] else [Top(w)] + WordBits(Left1(w), n - 1)
  }

  function Bits(a: Block): seq<bool> { WordBits(a.hi, 64) + WordBits(a.lo, 64) }

  /** Algorithm 1 of section 6.3: run over the bits of one factor while the other is repeatedly
      multiplied by x. */
  function Dot(s: seq<bool>, v: Block): Block {
    if |s| == 0 then ZERO else Xor(Gate(s[0], v), Dot(s[1..], MulX(v)))
  }

  function Mul(a: Block, b: Block): Block { Dot(Bits(a), b) }

  // ---------------------------------------------------------------- words

  lemma RawXor(a: bv64, b: bv64, c: bv64, d: bv64)
    ensures (a ^ b) ^ (c ^ d) == (a ^ c) ^ (b ^ d)
    ensures a ^ (b ^ c) == (a ^ b) ^ c
    ensures a ^ b == b ^ a
    ensures a ^ 0 == a && a ^ a == 0
  {
  }

  lemma WordXor(a: bv64, b: bv64, c: bv64, d: bv64)
    ensures XorW(XorW(a, b), XorW(c, d)) == XorW(XorW(a, c), XorW(b, d))
    ensures XorW(a, XorW(b, c)) == XorW(XorW(a, b), c)
    ensures XorW(a, b) == XorW(b, a)
    ensures XorW(a, 0) == a && XorW(a, a) == 0
  {
    RawXor(a, b, c, d);
  }

  lemma RawShifts(ah: bv64, al: bv64, bh: bv64, bl: bv64)
    ensures (ah ^ bh) >> 1 == (ah >> 1) ^ (bh >> 1)
    ensures (ah ^ bh) << 1 == (ah << 1) ^ (bh << 1)
    ensures ((al ^ bl) >> 1) | ((ah ^ bh) << 63) == ((al >> 1) | (ah << 63)) ^ ((bl >> 1) | (bh << 63))
  {
  }

  lemma WordShiftXor(a: bv64, b: bv64)
    ensures Right1(XorW(a, b)) == XorW(Right1(a), Right1(b))
    ensures Left1(XorW(a, b)) == XorW(Left1(a), Left1(b))
  {
    RawShifts(a, 0, b, 0);
  }

  lemma WordRightIntoXor(ah: bv64, al: bv64, bh: bv64, bl: bv64)
    ensures RightInto(XorW(ah, bh), XorW(al, bl)) == XorW(RightInto(ah, al), RightInto(bh, bl))
  {
    RawShifts(ah, al, bh, bl);
  }

  lemma WordEnds(a: bv64, b: bv64)
    ensures Top(XorW(a, b)) == (Top(a) != Top(b))
    ensures Bottom(XorW(a, b)) == (Bottom(a) != Bottom(b))
  {
  }

  lemma WordZero()
    ensures !Top(0) && !Bottom(0) && Right1(0) == 0 && Left1(0) == 0 && RightInto(0, 0) == 0
  {
  }

  // ---------------------------------------------------------------- linearity

  lemma XorAlgebra(a: Block, b: Block, c: Block, d: Block)
    ensures Xor(Xor(a, b), Xor(c, d)) == Xor(Xor(a, c), Xor(b, d))
    ensures Xor(a, Xor(b, c)) == Xor(Xor(a, b), c)
    ensures Xor(a, b) == Xor(b, a)
    ensures Xor(a, ZERO) == a && Xor(ZERO, a) == a && Xor(a, a) == ZERO
  {
    hide XorW;
    WordXor(a.hi, b.hi, c.hi, d.hi);
    WordXor(a.lo, b.lo, c.lo, d.lo);
    WordXor(a.hi, 0, 0, 0);
    WordXor(a.lo, 0, 0, 0);
  }

  lemma Shr1Xor(a: Block, b: Block)
    ensures Shr1(Xor(a, b)) == Xor(Shr1(a), Shr1(b))
  {
    hide XorW, Right1, RightInto;
    WordShiftXor(a.hi, b.hi);
    WordRightIntoXor(a.hi, a.lo, b.hi, b.lo);
  }

  lemma MulXXor(a: Block, b: Block)
    ensures MulX(Xor(a, b)) == Xor(MulX(a), MulX(b))
  {
    hide XorW, Right1, RightInto, Bottom;
    Shr1Xor(a, b);
    WordEnds(a.lo, b.lo);
    var r := Block(0xE100_0000_0000_0000, 0);
    XorAlgebra(r, ZERO, ZERO, ZERO);
    XorAlgebra(Shr1(a), Shr1(b), Gate(Bottom(a.lo), r), Gate(Bottom(b.lo), r));
  }

  lemma MulXZero()
    ensures MulX(ZERO) == ZERO
  {
    hide XorW, Right1, RightInto, Bottom;
    WordZero();
    XorAlgebra(ZERO, ZERO, ZERO, ZERO);
  }

  lemma {:induction false} DotXor(s: seq<bool>, a: Block, b: Block)
    ensures Dot(s, Xor(a, b)) == Xor(Dot(s, a), Dot(s, b))
  {
    hide Xor, MulX;
    XorAlgebra(ZERO, ZERO, ZERO, ZERO);
    if |s| == 0 {
    } else {
      MulXXor(a, b);
      DotXor(s[1..], MulX(a), MulX(b));
      XorAlgebra(Gate(s[0], a), Gate(s[0], b), Dot(s[1..], MulX(a)), Dot(s[1..], MulX(b)));
    }
  }

  /** The product commutes with multiplication by x. */
  lemma {:induction false} DotMulX(s: seq<bool>, v: Block)
    ensures Dot(s, MulX(v)) == MulX(Dot(s, v))
  {
    hide Xor, MulX;
    MulXZero();
    if |s| == 0 {
    } else {
      DotMulX(s[1..], MulX(v));
      MulXXor(Gate(s[0], v), Dot(s[1..], MulX(v)));
    }
  }

  lemma {:induction false} DotZero(s: seq<bool>)
    ensures Dot(s, ZERO) == ZERO
  {
    hide Xor, MulX;
    MulXZero();
    XorAlgebra(ZERO, ZERO, ZERO, ZERO);
    if |s| == 0 {
    } else {
      DotZero(s[1..]);
    }
  }

  /** Two such products can be taken in either order. */
  lemma {:induction false} DotCommute(s: seq<bool>, t: seq<bool>, v: Block)
    ensures Dot(s, Dot(t, v)) == Dot(t, Dot(s, v))
  {
    hide Xor, MulX;
    if |s| == 0 {
      DotZero(t);
    } else {
      var w := MulX(v);
      DotMulX(t, v);
      DotCommute(s[1..], t, w);
      DotXor(t, Gate(s[0], v), Dot(s[1..], w));
      DotZero(t);
    }
  }

  lemma {:induction false} DotConcat(s: seq<bool>, t: seq<bool>, v: Block)
    ensures Dot(s + t, v) == Xor(Dot(s, v), Dot(t, MulXN(v, |s|)))
  {
    hide Xor, MulX;
    if |s| == 0 {
      assert s + t == t;
      XorAlgebra(Dot(t, v), ZERO, ZERO, ZERO);
    } else {
      assert (s + t)[1..] == s[1..] + t;
      DotConcat(s[1..], t, MulX(v));
      XorAlgebra(Gate(s[0], v), Dot(s[1..], MulX(v)), Dot(t, MulXN(v, |s|)), ZERO);
    }
  }

  /** The product is linear in the factor whose bits are read, too. */
  lemma {:induction false} WordBitsXor(a: bv64, b: bv64, n: nat, v: Block)
    ensures Dot(WordBits(XorW(a, b), n), v) == Xor(Dot(WordBits(a, n), v), Dot(WordBits(b, n), v))
    decreases n
  {
    hide Xor, XorW, Left1, Top, MulX;
    XorAlgebra(ZERO, ZERO, ZERO, ZERO);
    XorAlgebra(v, ZERO, ZERO, ZERO);
    if n == 0 {
    } else {
      WordEnds(a, b);
      WordShiftXor(a, b);
      WordBitsXor(Left1(a), Left1(b), n - 1, MulX(v));
      XorAlgebra(Gate(Top(a), v), Gate(Top(b), v),
                 Dot(WordBits(Left1(a), n - 1), MulX(v)), Dot(WordBits(Left1(b), n - 1), MulX(v)));
    }
  }

  lemma MulXor(a: Block, b: Block, v: Block)
    ensures Mul(Xor(a, b), v) == Xor(Mul(a, v), Mul(b, v))
    ensures Mul(v, Xor(a, b)) == Xor(Mul(v, a), Mul(v, b))
  {
    hide Dot, WordBits, MulXN, XorW;
    var w := MulXN(v, 64);
    DotConcat(WordBits(XorW(a.hi, b.hi), 64), WordBits(XorW(a.lo, b.lo), 64), v);
    DotConcat(WordBits(a.hi, 64), WordBits(a.lo, 64), v);
    DotConcat(WordBits(b.hi, 64), WordBits(b.lo, 64), v);
    WordBitsXor(a.hi, b.hi, 64, v);
    WordBitsXor(a.lo, b.lo, 64, w);
    XorAlgebra(Dot(WordBits(a.hi, 64), v), Dot(WordBits(b.hi, 64), v),
               Dot(WordBits(a.lo, 64), w), Dot(WordBits(b.lo, 64), w));
    DotXor(Bits(v), a, b);
  }

  // ---------------------------------------------------------------- the polynomial 1 is neutral

  function ShrN(a: Block, n: nat): Block
    decreases n
  {
    if n == 0 then a else ShrN(Shr1(a), n - 1)
  }

  function LeftN(w: bv64, n: nat): bv64
    decreases n
  {
    if n == 0 then w else LeftN(Left1(w), n - 1)
  }

  lemma {:induction false} ShrNAdd(a: Block, m: nat, n: nat)
    ensures ShrN(a, m + n) == ShrN(ShrN(a, m), n)
    decreases m
  {
    hide Shr1;
    if m == 0 {
    } else {
      ShrNAdd(Shr1(a), m - 1, n);
    }
  }

  lemma {:induction false} LeftNAdd(w: bv64, m: nat, n: nat)
    ensures LeftN(w, m + n) == LeftN(LeftN(w, m), n)
    decreases m
  {
    hide Left1;
    if m == 0 {
    } else {
      LeftNAdd(Left1(w), m - 1, n);
    }
  }

  lemma {:induction false} ShrNXor(a: Block, b: Block, n: nat)
    ensures ShrN(Xor(a, b), n) == Xor(ShrN(a, n), ShrN(b, n))
    decreases n
  {
    hide Xor, Shr1;
    if n == 0 {
    } else {
      Shr1Xor(a, b);
      ShrNXor(Shr1(a), Shr1(b), n - 1);
    }
  }

  function Left4(w: bv64): bv64 { w << 4 }
  function Left16(w: bv64): bv64 { w << 16 }

  lemma RawLeft(w: bv64)
    ensures (((w << 1) << 1) << 1) << 1 == w << 4
    ensures (((w << 4) << 4) << 4) << 4 == w << 16
    ensures (((w << 16) << 16) << 16) << 16 == 0
  {
  }

  lemma LeftSteps(w: bv64)
    ensures Left1(Left1(Left1(Left1(w)))) == Left4(w)
    ensures Left4(Left4(Left4(Left4(w)))) == Left16(w)
    ensures Left16(Left16(Left16(Left16(w)))) == 0
  {
    RawLeft(w);
  }

  lemma LeftBy4(w: bv64)
    ensures LeftN(w, 4) == Left4(w)
  {
    LeftSteps(w);
    hide Left1, Left4;
  }

  lemma LeftBy16(w: bv64)
    ensures LeftN(w, 16) == Left16(w)
  {
    LeftSteps(w);
    hide LeftN, Left4, Left16;
    LeftQuadruple(w, 4);
    LeftBy4(w);
    LeftBy4(Left4(w));
    LeftBy4(Left4(Left4(w)));
    LeftBy4(Left4(Left4(Left4(w))));
  }

  lemma LeftQuadruple(w: bv64, n: nat)
    ensures LeftN(w, 4 * n) == LeftN(LeftN(LeftN(LeftN(w, n), n), n), n)
  {
    hide LeftN;
    LeftNAdd(w, n, n);
    LeftNAdd(w, 2 * n, n);
    LeftNAdd(w, 3 * n, n);
  }

  /** A word is shifted out completely after 64 steps. */
  lemma LeftOut(w: bv64)
    ensures LeftN(w, 64) == 0
  {
    LeftSteps(w);
    hide LeftN, Left16;
    LeftQuadruple(w, 16);
    LeftBy16(w);
    LeftBy16(Left16(w));
    LeftBy16(Left16(Left16(w)));
    LeftBy16(Left16(Left16(Left16(w))));
  }

  function Shr8(a: Block): Block { Shr1(Shr1(Shr1(Shr1(Shr1(Shr1(Shr1(Shr1(a)))))))) }

  lemma OneStep(a: Block, n: nat)
    ensures ShrN(a, 0) == a && ShrN(a, n + 1) == ShrN(Shr1(a), n)
  {
    hide Shr1;
  }

  lemma EightSteps(a: Block, n: nat)
    ensures ShrN(a, n + 8) == ShrN(Shr8(a), n)
  {
    hide Shr1, ShrN;
    var b := Shr1(Shr1(Shr1(Shr1(a))));
    OneStep(a, n + 7);
    OneStep(Shr1(a), n + 6);
    OneStep(Shr1(Shr1(a)), n + 5);
    OneStep(Shr1(Shr1(Shr1(a))), n + 4);
    OneStep(b, n + 3);
    OneStep(Shr1(b), n + 2);
    OneStep(Shr1(Shr1(b)), n + 1);
    OneStep(Shr1(Shr1(Shr1(b))), n);
  }

  /** The single 1 moves right. */
  lemma OneInHigh()
    ensures ShrN(ONE, 64) == Block(0, 0x8000_0000_0000_0000)
  {
    assert Shr8(Block(0x8000_0000_0000_0000, 0)) == Block(0x80_0000_0000_0000, 0);
    assert Shr8(Block(0x80_0000_0000_0000, 0)) == Block(0x8000_0000_0000, 0);
    assert Shr8(Block(0x8000_0000_0000, 0)) == Block(0x80_0000_0000, 0);
    assert Shr8(Block(0x80_0000_0000, 0)) == Block(0x8000_0000, 0);
    assert Shr8(Block(0x8000_0000, 0)) == Block(0x80_0000, 0);
    assert Shr8(Block(0x80_0000, 0)) == Block(0x8000, 0);
    assert Shr8(Block(0x8000, 0)) == Block(0x80, 0);
    assert Shr8(Block(0x80, 0)) == Block(0, 0x8000_0000_0000_0000);
    hide ShrN, Shr8;
    EightSteps(Block(0x8000_0000_0000_0000, 0), 56);
    EightSteps(Block(0x80_0000_0000_0000, 0), 48);
    EightSteps(Block(0x8000_0000_0000, 0), 40);
    EightSteps(Block(0x80_0000_0000, 0), 32);
    EightSteps(Block(0x8000_0000, 0), 24);
    EightSteps(Block(0x80_0000, 0), 16);
    EightSteps(Block(0x8000, 0), 8);
    EightSteps(Block(0x80, 0), 0);
    OneStep(Block(0, 0x8000_0000_0000_0000), 0);
  }

  lemma OneInLow()
    ensures ShrN(Block(0, 0x8000_0000_0000_0000), 63) == Block(0, 1)
  {
    assert Shr8(Block(0, 0x8000_0000_0000_0000)) == Block(0, 0x80_0000_0000_0000);
    assert Shr8(Block(0, 0x80_0000_0000_0000)) == Block(0, 0x8000_0000_0000);
    assert Shr8(Block(0, 0x8000_0000_0000)) == Block(0, 0x80_0000_0000);
    assert Shr8(Block(0, 0x80_0000_0000)) == Block(0, 0x8000_0000);
    assert Shr8(Block(0, 0x8000_0000)) == Block(0, 0x80_0000);
    assert Shr8(Block(0, 0x80_0000)) == Block(0, 0x8000);
    assert Shr8(Block(0, 0x8000)) == Block(0, 0x80);
    assert Shr1(Block(0, 0x80)) == Block(0, 0x40) && Shr1(Block(0, 0x40)) == Block(0, 0x20) && Shr1(Block(0, 0x20)) == Block(0, 0x10);
    assert Shr1(Block(0, 0x10)) == Block(0, 8) && Shr1(Block(0, 8)) == Block(0, 4) && Shr1(Block(0, 4)) == Block(0, 2);
    assert Shr1(Block(0, 2)) == Block(0, 1);
    hide ShrN, Shr8, Shr1;
    EightSteps(Block(0, 0x8000_0000_0000_0000), 55);
    EightSteps(Block(0, 0x80_0000_0000_0000), 47);
    EightSteps(Block(0, 0x8000_0000_0000), 39);
    EightSteps(Block(0, 0x80_0000_0000), 31);
    EightSteps(Block(0, 0x8000_0000), 23);
    EightSteps(Block(0, 0x80_0000), 15);
    EightSteps(Block(0, 0x8000), 7);
    OneStep(Block(0, 0x80), 6);
    OneStep(Block(0, 0x40), 5);
    OneStep(Block(0, 0x20), 4);
    OneStep(Block(0, 0x10), 3);
    OneStep(Block(0, 8), 2);
    OneStep(Block(0, 4), 1);
    OneStep(Block(0, 2), 0);
    OneStep(Block(0, 1), 0);
  }

  /** At most one bit set. */
  predicate OneHot(a: Block) {
    (a.lo == 0 && a.hi & (a.hi - 1) == 0) || (a.hi == 0 && a.lo & (a.lo - 1) == 0)
  }

  lemma OneHotShr(a: Block)
    requires OneHot(a)
    ensures OneHot(Shr1(a))
  {
  }

  lemma OneHotEnds(a: Block)
    requires OneHot(a)
    ensures Bottom(a.lo) ==> Shr1(a) == ZERO
  {
  }

  lemma {:induction false} ShrNZero(n: nat)
    ensures ShrN(ZERO, n) == ZERO
  {
    if n == 0 {
    } else {
      ShrNZero(n - 1);
    }
  }

  /** As long as the bit has not reached the end, multiplying by x only moves it. */
  lemma OneNotBottom(a: Block, n: nat)
    requires OneHot(a) && n > 0 && ShrN(a, n) == Block(0, 1)
    ensures MulX(a) == Shr1(a) && OneHot(Shr1(a)) && ShrN(Shr1(a), n - 1) == Block(0, 1)
  {
    OneHotShr(a);
    OneHotEnds(a);
    hide XorW, Shr1, Bottom, OneHot;
    ShrNZero(n - 1);
    XorAlgebra(Shr1(a), ZERO, ZERO, ZERO);
  }

  /** A word in the high or in the low half. */
  function Place(low: bool, w: bv64): Block { if low then Block(0, w) else Block(w, 0) }

  function HighBit(b: bool): bv64 { if b then 0x8000_0000_0000_0000 else 0 }

  lemma WordSplit(w: bv64)
    ensures XorW(HighBit(Top(w)), Right1(Left1(w))) == w
    ensures RightInto(Left1(w), 0) == 0 && RightInto(0, Left1(w)) == Right1(Left1(w))
  {
  }

  /** A placed word is its top bit plus the shifted rest. */
  lemma PlaceStep(low: bool, w: bv64)
    ensures Place(low, w) == Xor(Gate(Top(w), Place(low, 0x8000_0000_0000_0000)), Shr1(Place(low, Left1(w))))
  {
    hide XorW, Right1, Left1, RightInto, Top;
    WordSplit(w);
    WordXor(0, 0, 0, 0);
    WordZero();
  }

  /** Reading the bits of a word against a moving 1 rebuilds the word; the part of it that has
      not been read yet is the last term. */
  lemma {:induction false} DotOne(low: bool, w: bv64, n: nat, r: nat, left: nat, v: Block)
    requires v == ShrN(Place(low, 0x8000_0000_0000_0000), r) && OneHot(v)
    requires ShrN(v, left) == Block(0, 1) && n <= left + 1
    ensures Dot(WordBits(w, n), v) == Xor(ShrN(Place(low, w), r), ShrN(Place(low, LeftN(w, n)), r + n))
    decreases n
  {
    hide Xor, Shr1, MulX, Top, Left1, OneHot, ShrN, Place;
    var here := ShrN(Place(low, w), r);
    if n == 0 {
      XorAlgebra(here, ZERO, ZERO, ZERO);
    } else {
      var p, rest := Place(low, 0x8000_0000_0000_0000), Place(low, Left1(w));
      PlaceStep(low, w);
      ShrNXor(Gate(Top(w), p), Shr1(rest), r);
      ShrNZero(r);
      ShrNUnfold(rest, r);
      var next, last := ShrN(rest, r + 1), ShrN(Place(low, LeftN(w, n)), r + n);
      XorAlgebra(Gate(Top(w), v), next, last, ZERO);
      XorAlgebra(next, ZERO, ZERO, ZERO);
      if n > 1 {
        OneNotBottom(v, left);
        ShrNAdd(p, r, 1);
        ShrNUnfold(v, 0);
        DotOne(low, Left1(w), n - 1, r + 1, left - 1, MulX(v));
      }
    }
  }

  lemma ShrNUnfold(a: Block, n: nat)
    ensures ShrN(Shr1(a), n) == ShrN(a, n + 1)
    ensures ShrN(a, 1) == Shr1(a) && ShrN(a, 0) == a
  {
  }

  lemma MulXNOfOne()
    ensures MulXN(ONE, 64) == Block(0, 0x8000_0000_0000_0000)
  {
    OneInHigh();
    OneInLow();
    assert OneHot(ONE);
    hide ShrN, OneHot;
    ShrNAdd(ONE, 64, 63);
    MulXNIsShift(ONE, 64, 127);
  }

  lemma {:induction false} MulXNIsShift(a: Block, n: nat, left: nat)
    requires OneHot(a) && ShrN(a, left) == Block(0, 1) && n <= left
    ensures MulXN(a, n) == ShrN(a, n)
    decreases n
  {
    hide OneHot, MulX;
    if n == 0 {
    } else {
      OneNotBottom(a, left);
      MulXNIsShift(Shr1(a), n - 1, left - 1);
    }
  }

  /** 1 is neutral. */
  lemma MulOne(a: Block)
    ensures Mul(a, ONE) == a
  {
    hide Dot, WordBits, MulXN, Place, Xor;
    DotConcat(WordBits(a.hi, 64), WordBits(a.lo, 64), ONE);
    MulXNOfOne();
    DotHigh(a.hi);
    DotLow(a.lo);
    JoinHalves(a);
  }

  lemma DotHigh(w: bv64)
    ensures Dot(WordBits(w, 64), ONE) == Xor(Place(false, w), ZERO)
  {
    OneInHigh();
    OneInLow();
    LeftOut(w);
    assert OneHot(ONE);
    hide ShrN, LeftN, OneHot, Dot, WordBits, Xor;
    ShrNAdd(ONE, 64, 63);
    ShrNUnfold(ONE, 0);
    DotOne(false, w, 64, 0, 127, ONE);
    ShrNZero(64);
    ShrNUnfold(Place(false, w), 0);
  }

  lemma DotLow(w: bv64)
    ensures Dot(WordBits(w, 64), Block(0, 0x8000_0000_0000_0000)) == Xor(Place(true, w), ZERO)
  {
    OneInLow();
    LeftOut(w);
    var half := Block(0, 0x8000_0000_0000_0000);
    assert OneHot(half);
    hide ShrN, LeftN, OneHot, Dot, WordBits, Xor;
    ShrNUnfold(half, 0);
    DotOne(true, w, 64, 0, 63, half);
    ShrNZero(64);
    ShrNUnfold(Place(true, w), 0);
  }

  lemma JoinHalves(a: Block)
    ensures Xor(Xor(Place(false, a.hi), ZERO), Xor(Place(true, a.lo), ZERO)) == a
  {
    hide XorW;
    WordXor(a.hi, 0, 0, 0);
    WordXor(a.lo, 0, 0, 0);
    WordXor(0, a.lo, 0, 0);
    WordXor(0, 0, 0, 0);
  }

  /** Multiplication is commutative. */
  lemma MulCommutes(a: Block, b: Block)
    ensures Mul(a, b) == Mul(b, a)
  {
    MulOne(a);
    MulOne(b);
    hide Dot, Bits;
    DotCommute(Bits(a), Bits(b), ONE);
  }

  /** Multiplication is associative. */
  lemma MulAssociates(a: Block, b: Block, c: Block)
    ensures Mul(Mul(a, b), c) == Mul(a, Mul(b, c))
  {
    hide Dot, Bits;
    MulCommutes(Mul(a, b), c);
    DotCommute(Bits(c), Bits(a), b);
    MulCommutes(c, b);
  }

  // ---------------------------------------------------------------- GHASH

  /** The GHASH function of section 6.4 of NIST SP 800-38D, continued from the value x. */
  function Ghash(h: Block, x: Block, blocks: seq<Block>): Block {
    if |blocks| == 0 then x
    else Mul(Xor(Ghash(h, x, blocks[..|blocks| - 1]), blocks[|blocks| - 1]), h)
  }

  lemma GhashNone(h: Block, x: Block)
    ensures Ghash(h, x, []) == x
  {
  }

  lemma GhashStep(h: Block, x: Block, s: seq<Block>, b: Block)
    ensures Ghash(h, x, s + [b]) == Mul(Xor(Ghash(h, x, s), b), h)
  {
    hide Mul, Xor;
    assert (s + [b])[..|s|] == s;
  }

  /** Hashing in two goes is hashing the concatenation. */
  lemma {:induction false} GhashMore(h: Block, x: Block, s: seq<Block>, t: seq<Block>)
    ensures Ghash(h, x, s + t) == Ghash(h, Ghash(h, x, s), t)
    decreases |t|
  {
    hide Mul, Xor;
    if |t| == 0 {
      assert s + t == s;
    } else {
      var n := |t| - 1;
      assert s + t == (s + t[..n]) + [t[n]];
      GhashStep(h, x, s + t[..n], t[n]);
      GhashMore(h, x, s, t[..n]);
    }
  }
}
