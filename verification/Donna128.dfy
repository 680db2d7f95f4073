/** The 128-bit integer pair that Poly1305 uses for its limb products. */
module Donna128 {
  import opened Words

  datatype Donna = Donna(l: u64, h: u64)

  /** The number a pair stands for. */
  function Val(x: Donna): nat { x.l + TWO64 * x.h }

  /** 64x64 -> 128 bit multiplication from four 32x32 -> 64 bit products. */
  function Mul64(a: u64, b: u64): Donna {
    var aHi, aLo := a / 0x1_0000_0000, a % 0x1_0000_0000;
    var bHi, bLo := b / 0x1_0000_0000, b % 0x1_0000_0000;
    var x0 := U64(aHi * bHi);
    var x1 := U64(aLo * bHi);
    var x2 := U64(aHi * bLo);
    var x3 := U64(aLo * bLo);
    Combined(x0, x1, x2, x3)
  }

  function Combined(x0: nat, x1: nat, x2: nat, x3: nat): Donna {
    var middle := U64(x2 + x3 / 0x1_0000_0000 + x1 % 0x1_0000_0000);
    Donna(U64(middle * 0x1_0000_0000 + x3 % 0x1_0000_0000),
          U64(x0 + middle / 0x1_0000_0000 + x1 / 0x1_0000_0000))
  }

  /** Addition with the carry recovered from the wrapped low word. */
  function Add(x: Donna, y: Donna): Donna {
    var l := U64(x.l + y.l);
    var h := U64(x.h + y.h);
    var carry := if l < y.l then 1 else 0;
    Donna(l, U64(h + carry))
  }

  function AddWord(x: Donna, y: u64): Donna {
    var l := U64(x.l + y);
    var carry := if l < y then 1 else 0;
    Donna(l, U64(x.h + carry))
  }

  /** Right shift by 0 < shift < 64. */
  function ShiftRight(x: Donna, shift: nat): Donna
    requires 0 < shift < 64
  {
    var carry := U64(x.h * Pow2(64 - shift));
    Donna(U64(Or(x.l / Pow2(shift), carry)), x.h / Pow2(shift))
  }

  function CarryShift(x: Donna, shift: nat): u64
    requires 0 < shift < 64
  {
    ShiftRight(x, shift).l
  }

  // ---------------------------------------------------------------- properties

  lemma ProductMono(a: nat, c: nat, b: nat)
    requires a <= c
    ensures 0 <= a * b <= c * b
  {
    assert (c - a) * b >= 0;
  }

  lemma HalfProduct(a: nat, b: nat)
    requires a < 0x1_0000_0000 && b < 0x1_0000_0000
    ensures 0 <= a * b <= 0xFFFF_FFFE_0000_0001
  {
    ProductMono(a, 0xFFFF_FFFF, b);
  }

  lemma Distribute(aHi: nat, aLo: nat, bHi: nat, bLo: nat, k: nat)
    ensures (aHi * k + aLo) * (bHi * k + bLo)
         == aHi * bHi * (k * k) + (aHi * bLo + aLo * bHi) * k + aLo * bLo
  {
    var b := bHi * k + bLo;
    assert (aHi * k + aLo) * b == aHi * k * b + aLo * b;
    assert aHi * k * b == aHi * bHi * (k * k) + aHi * bLo * k by {
      assert aHi * k * b == aHi * k * (bHi * k) + aHi * k * bLo;
      assert aHi * k * (bHi * k) == aHi * bHi * (k * k);
      assert aHi * k * bLo == aHi * bLo * k;
    }
    assert aLo * b == aLo * bHi * k + aLo * bLo;
    assert (aHi * bLo + aLo * bHi) * k == aHi * bLo * k + aLo * bHi * k;
  }

  /** The four partial products recombine without any wrap-around. */
  lemma Recombine(x0: nat, x1: nat, x2: nat, x3: nat)
    requires x0 <= 0xFFFF_FFFE_0000_0001 && x1 <= 0xFFFF_FFFE_0000_0001
    requires x2 <= 0xFFFF_FFFE_0000_0001 && x3 <= 0xFFFF_FFFE_0000_0001
    ensures Val(Combined(x0, x1, x2, x3)) == x0 * TWO64 + (x2 + x1) * 0x1_0000_0000 + x3
  {
    var middle := x2 + x3 / 0x1_0000_0000 + x1 % 0x1_0000_0000;
    assert middle < TWO64 && U64(middle) == middle;
    LowWord(middle, x3 % 0x1_0000_0000);
    var high := x0 + middle / 0x1_0000_0000 + x1 / 0x1_0000_0000;
    assert high < TWO64 && U64(high) == high;
  }

  lemma LowWord(middle: nat, low: nat)
    requires low < 0x1_0000_0000
    ensures U64(middle * 0x1_0000_0000 + low) == (middle % 0x1_0000_0000) * 0x1_0000_0000 + low
  {
    DivUnique(middle * 0x1_0000_0000 + low, TWO64, middle / 0x1_0000_0000,
              (middle % 0x1_0000_0000) * 0x1_0000_0000 + low);
  }

  /** The schoolbook multiplication is the product. */
  lemma Mul64Exact(a: u64, b: u64)
    ensures Val(Mul64(a, b)) == a * b
  {
    hide Val, Combined, U64;
    var aHi, aLo := a / 0x1_0000_0000, a % 0x1_0000_0000;
    var bHi, bLo := b / 0x1_0000_0000, b % 0x1_0000_0000;
    HalfProduct(aHi, bHi);
    HalfProduct(aLo, bHi);
    HalfProduct(aHi, bLo);
    HalfProduct(aLo, bLo);
    WordsOfHalves(aHi * bHi, aLo * bHi, aHi * bLo, aLo * bLo);
    Recombine(aHi * bHi, aLo * bHi, aHi * bLo, aLo * bLo);
    Distribute(aHi, aLo, bHi, bLo, 0x1_0000_0000);
  }

  lemma WordsOfHalves(x0: nat, x1: nat, x2: nat, x3: nat)
    requires x0 < TWO64 && x1 < TWO64 && x2 < TWO64 && x3 < TWO64
    ensures U64(x0) == x0 && U64(x1) == x1 && U64(x2) == x2 && U64(x3) == x3
  {
  }

  lemma AddExact(x: Donna, y: Donna)
    requires Val(x) + Val(y) < TWO64 * TWO64
    ensures Val(Add(x, y)) == Val(x) + Val(y)
  {
    CarryOut(x.l, y.l);
    var carry := if U64(x.l + y.l) < y.l then 1 else 0;
    hide U64;
    assert x.h + y.h + carry < TWO64;
    WordFits(x.h + y.h);
    WordFits(x.h + y.h + carry);
  }

  lemma WordFits(x: nat)
    requires x < TWO64
    ensures U64(x) == x
  {
  }

  /** The wrapped sum is below a summand exactly when a carry was lost. */
  lemma CarryOut(a: u64, b: u64)
    ensures U64(a + b) + (if U64(a + b) < b then TWO64 else 0) == a + b
  {
  }

  lemma AddWordExact(x: Donna, y: u64)
    requires Val(x) + y < TWO64 * TWO64
    ensures Val(AddWord(x, y)) == Val(x) + y
  {
    CarryOut(x.l, y);
    var carry := if U64(x.l + y) < y then 1 else 0;
    hide U64;
    assert x.h + carry < TWO64;
    WordFits(x.h + carry);
  }

  /** The carry is the whole quotient whenever it fits one word. */
  lemma CarryShiftExact(x: Donna, shift: nat, p: nat, q: nat)
    requires 0 < shift < 64 && p == Pow2(shift) && q == Pow2(64 - shift) && p * q == TWO64
    requires x.h < p
    ensures CarryShift(x, shift) == Val(x) / p
  {
    hide CarryShift, Pow2;
    var lo, r, hi := x.l / p, x.l % p, x.h * q;
    assert x.l == lo * p + r;
    SplitProduct(lo, p, q, r);
    ProductBound(x.h, p, q, lo);
    MultipleMod(x.h, q);
    CarryShiftSum(x, shift, lo, hi);
    Regroup(lo, x.h, p, q, r);
    DivUnique(Val(x), p, lo + hi, r);
  }

  /** The two parts of a shifted pair do not overlap. */
  lemma CarryShiftSum(x: Donna, shift: nat, lo: nat, hi: nat)
    requires 0 < shift < 64
    requires lo == x.l / Pow2(shift) && lo < Pow2(64 - shift)
    requires hi == x.h * Pow2(64 - shift) && hi % Pow2(64 - shift) == 0
    requires lo + hi < TWO64
    ensures CarryShift(x, shift) == lo + hi
  {
    hide Or, Pow2;
    OrDisjoint(lo, hi, 64 - shift);
  }

  lemma Regroup(lo: nat, h: nat, p: nat, q: nat, r: nat)
    requires p * q == TWO64
    ensures (lo + h * q) * p + r == lo * p + r + TWO64 * h
  {
    assert h * q * p == h * (p * q);
    assert (lo + h * q) * p == lo * p + h * q * p;
  }

  lemma SplitProduct(lo: nat, p: nat, q: nat, r: nat)
    requires p > 0 && lo * p + r < p * q
    ensures lo < q
  {
    assert lo >= q ==> lo * p >= q * p;
  }

  lemma ProductBound(h: nat, p: nat, q: nat, lo: nat)
    requires h < p && lo < q
    ensures h * q < p * q && lo + h * q < p * q
  {
    assert (h + 1) * q <= p * q;
  }
}
