/** Poly1305 arithmetic on 44/44/42-bit limbs: one block step, the final carry, the final
    selection and the addition of the pad, each as the statement sequence of poly1305.cpp, and
    what each computes modulo 2^130 - 5. */
module Poly1305Limbs {
  import opened Words
  import opened Donna128

  const P: int := 0x3_FFFF_FFFF_FFFF_FFFF_FFFF_FFFF_FFFF_FFFB
  const S20: int := 0x10_0000
  const S24: int := 0x100_0000
  const S40: int := 0x100_0000_0000
  const S42: int := 0x400_0000_0000
  const S44: int := 0x1000_0000_0000
  const S88: int := 0x100_0000_0000_0000_0000_0000
  const S128: int := 0x1_0000_0000_0000_0000_0000_0000_0000_0000
  const S130: int := 0x4_0000_0000_0000_0000_0000_0000_0000_0000

  datatype Limbs = Limbs(l0: u64, l1: u64, l2: u64)

  function Value(x: Limbs): nat { x.l0 + S44 * x.l1 + S88 * x.l2 }

  /** What the accumulator satisfies between blocks. */
  predicate Bounded(h: Limbs) { h.l0 < S44 && h.l1 < S44 + 1024 && h.l2 < S42 }

  /** What the clamped multiplier satisfies. */
  predicate Multiplier(r: Limbs) { r.l0 < S44 && r.l1 < S44 && r.l2 < 0x10_0000_0000 }

  /** The limbs of a 128-bit number given as two words, with the top bit of the block on request. */
  function Split(t0: u64, t1: u64, hibit: u64): Limbs {
    Limbs(t0 % S44,
          Or(t0 / S44, U64(t1 * S20)) % S44,
          U64(Or(t1 / S24 % S42, hibit)))
  }

  lemma PowersOfTwo()
    ensures Pow2(20) == S20 && Pow2(24) == S24 && Pow2(22) == 0x40_0000 && Pow2(40) == S40 && Pow2(42) == S42 && Pow2(44) == S44
  {
    assert Pow2(10) == 1024;
    Pow2Add(10, 10);
    Pow2Add(20, 20);
    Pow2Add(2, 40);
    Pow2Add(4, 40);
    Pow2Add(2, 20);
    Pow2Add(4, 20);
  }

  lemma SplitMiddle(t0: u64, t1: u64)
    ensures Or(t0 / S44, U64(t1 * S20)) % S44 == t0 / S44 + (t1 % S24) * S20
  {
    PowersOfTwo();
    hide Or, Pow2;
    var hi := (t1 % S44) * S20;
    DivUnique(t1 * S20, TWO64, t1 / S44, hi);
    MultipleMod(t1 % S44, S20);
    OrDisjoint(t0 / S44, hi, 20);
    DivUnique(t0 / S44 + hi, S44, t1 % S44 / S24, t0 / S44 + (t1 % S24) * S20);
  }

  lemma SplitTop(t1: u64, hibit: u64)
    requires hibit == 0 || hibit == S40
    ensures U64(Or(t1 / S24 % S42, hibit)) == t1 / S24 + hibit
  {
    PowersOfTwo();
    hide Or, Pow2;
    OrDisjoint(t1 / S24, hibit, 40);
  }

  /** Splitting a block into limbs loses nothing. */
  lemma SplitValue(t0: u64, t1: u64, hibit: u64)
    requires hibit == 0 || hibit == S40
    ensures Value(Split(t0, t1, hibit)) == t0 + TWO64 * t1 + S88 * hibit
    ensures Split(t0, t1, hibit).l0 < S44 && Split(t0, t1, hibit).l1 < S44
    ensures Split(t0, t1, hibit).l2 < 2 * S40
  {
    hide Or;
    SplitMiddle(t0, t1);
    SplitTop(t1, hibit);
  }

  // ---------------------------------------------------------------- one block

  /** The three product sums with their carries, in 128-bit pairs. */
  datatype Products = Products(d0: Donna, d1: Donna, d2: Donna, c0: u64, c1: u64, c2: u64)

  function Multiply(h: Limbs, r: Limbs): Products {
    var s1 := U64(r.l1 * 20);
    var s2 := U64(r.l2 * 20);
    var d0 := Add(Add(Mul64(h.l0, r.l0), Mul64(h.l1, s2)), Mul64(h.l2, s1));
    var c0 := CarryShift(d0, 44);
    var d1 := AddWord(Add(Add(Mul64(h.l0, r.l1), Mul64(h.l1, r.l0)), Mul64(h.l2, s2)), c0);
    var c1 := CarryShift(d1, 44);
    var d2 := AddWord(Add(Add(Mul64(h.l0, r.l2), Mul64(h.l1, r.l1)), Mul64(h.l2, r.l0)), c1);
    var c2 := CarryShift(d2, 42);
    Products(d0, d1, d2, c0, c1, c2)
  }

  /** Drop the carried bits; the carry out of the top limb re-enters at the bottom times five. */
  function Reduce(p: Products): Limbs {
    var h0 := U64(p.d0.l % S44 + U64(p.c2 * 5));
    Limbs(h0 % S44, U64(p.d1.l % S44 + h0 / S44), p.d2.l % S42)
  }

  /** Add the block to the accumulator and multiply by r, leaving the limbs partly carried. */
  function BlockStep(h: Limbs, r: Limbs, m: Limbs): Limbs {
    Reduce(Multiply(Feed(h, m), r))
  }

  function Feed(h: Limbs, m: Limbs): Limbs {
    Limbs(U64(h.l0 + m.l0), U64(h.l1 + m.l1), U64(h.l2 + m.l2))
  }

  lemma ProductBound(a: nat, b: nat, c: nat, d: nat)
    requires a <= c && b <= d
    ensures 0 <= a * b <= c * d
  {
    ProductMono(a, c, b);
    ProductMono(b, d, c);
    assert b * c == c * b && d * c == c * d;
  }

  /** The sum of three word products and a carry is exact below 2^106. */
  lemma SumExact(a0: u64, b0: u64, a1: u64, b1: u64, a2: u64, b2: u64, c: u64, bound: nat)
    requires a0 * b0 + a1 * b1 + a2 * b2 + c < bound <= S88 * S20 / 4
    ensures Val(AddWord(Add(Add(Mul64(a0, b0), Mul64(a1, b1)), Mul64(a2, b2)), c)) == a0 * b0 + a1 * b1 + a2 * b2 + c
    ensures Val(Add(Add(Mul64(a0, b0), Mul64(a1, b1)), Mul64(a2, b2))) == a0 * b0 + a1 * b1 + a2 * b2
  {
    Mul64Exact(a0, b0);
    Mul64Exact(a1, b1);
    Mul64Exact(a2, b2);
    hide Mul64, Add, AddWord;
    var p0, p1, p2 := Mul64(a0, b0), Mul64(a1, b1), Mul64(a2, b2);
    AddExact(p0, p1);
    AddExact(Add(p0, p1), p2);
    AddWordExact(Add(Add(p0, p1), p2), c);
  }

  lemma Carry44(x: Donna)
    requires Val(x) < S88 * S20
    ensures Val(x) == x.l % S44 + S44 * CarryShift(x, 44)
  {
    PowersOfTwo();
    hide CarryShift, Pow2;
    CarryShiftExact(x, 44, S44, S20);
    assert Val(x) % S44 == x.l % S44;
  }

  lemma Carry42(x: Donna)
    requires Val(x) < S88 * S20 / 4
    ensures Val(x) == x.l % S42 + S42 * CarryShift(x, 42)
  {
    PowersOfTwo();
    hide CarryShift, Pow2;
    CarryShiftExact(x, 42, S42, 0x40_0000);
    assert Val(x) % S42 == x.l % S42;
  }

  /** What the accumulator satisfies after a block has been added. */
  predicate Fed(a: Limbs) { a.l0 < 2 * S44 && a.l1 < 2 * S44 + 1024 && a.l2 < 2 * S42 }

  /** The product sums, as numbers. */
  function Sum0(a: Limbs, r: Limbs): int { a.l0 * r.l0 + a.l1 * (20 * r.l2) + a.l2 * (20 * r.l1) }

  function Sum1(a: Limbs, r: Limbs): int { a.l0 * r.l1 + a.l1 * r.l0 + a.l2 * (20 * r.l2) }

  function Sum2(a: Limbs, r: Limbs): int { a.l0 * r.l2 + a.l1 * r.l1 + a.l2 * r.l0 }

  lemma SumBounds(a: Limbs, r: Limbs)
    requires Fed(a) && Multiplier(r)
    ensures 0 <= Sum0(a, r) < 64 * S88 && 0 <= Sum1(a, r) < 64 * S88 && 0 <= Sum2(a, r) < 8 * S88
  {
    ProductBound(a.l0, r.l0, 2 * S44, S44);
    ProductBound(a.l1, 20 * r.l2, 3 * S44, 20 * 0x10_0000_0000);
    ProductBound(a.l2, 20 * r.l1, 2 * S42, 20 * S44);
    ProductBound(a.l0, r.l1, 2 * S44, S44);
    ProductBound(a.l1, r.l0, 3 * S44, S44);
    ProductBound(a.l2, 20 * r.l2, 2 * S42, 20 * 0x10_0000_0000);
    ProductBound(a.l0, r.l2, 2 * S44, 0x10_0000_0000);
    ProductBound(a.l1, r.l1, 3 * S44, S44);
    ProductBound(a.l2, r.l0, 2 * S42, S44);
  }

  lemma CarryBound(d: Donna, c: u64, sum: nat)
    requires Val(d) == sum < 65 * S88 && c == CarryShift(d, 44)
    ensures sum == d.l % S44 + S44 * c && c < 65 * S44
  {
    Carry44(d);
  }

  lemma Exact0(a: Limbs, r: Limbs)
    requires Fed(a) && Multiplier(r) && Sum0(a, r) < 64 * S88
    ensures Val(Multiply(a, r).d0) == Sum0(a, r)
  {
    hide Mul64, Add, AddWord, CarryShift, Val;
    var s1, s2 := U64(r.l1 * 20), U64(r.l2 * 20);
    assert s1 == 20 * r.l1 && s2 == 20 * r.l2;
    SumExact(a.l0, r.l0, a.l1, s2, a.l2, s1, 0, 64 * S88);
  }

  lemma Exact1(a: Limbs, r: Limbs, c0: u64)
    requires Fed(a) && Multiplier(r) && Sum1(a, r) + c0 < 65 * S88 && c0 == Multiply(a, r).c0
    ensures Val(Multiply(a, r).d1) == Sum1(a, r) + c0
  {
    hide Mul64, Add, AddWord, CarryShift, Val;
    var s2 := U64(r.l2 * 20);
    assert s2 == 20 * r.l2;
    SumExact(a.l0, r.l1, a.l1, r.l0, a.l2, s2, c0, 65 * S88);
  }

  lemma Exact2(a: Limbs, r: Limbs, c1: u64)
    requires Fed(a) && Multiplier(r) && Sum2(a, r) + c1 < 9 * S88 && c1 == Multiply(a, r).c1
    ensures Val(Multiply(a, r).d2) == Sum2(a, r) + c1
  {
    hide Mul64, Add, AddWord, CarryShift, Val;
    SumExact(a.l0, r.l2, a.l1, r.l1, a.l2, r.l0, c1, 9 * S88);
  }

  lemma Carries(a: Limbs, r: Limbs)
    ensures var p := Multiply(a, r);
            p.c0 == CarryShift(p.d0, 44) && p.c1 == CarryShift(p.d1, 44) && p.c2 == CarryShift(p.d2, 42)
  {
    hide Mul64, Add, AddWord, CarryShift;
  }

  /** Every product sum and carry of a block step is exact: nothing wraps or is truncated. */
  lemma MultiplyExact(a: Limbs, r: Limbs)
    requires Fed(a) && Multiplier(r)
    ensures var p := Multiply(a, r);
            && Sum0(a, r) == p.d0.l % S44 + S44 * p.c0
            && Sum1(a, r) + p.c0 == p.d1.l % S44 + S44 * p.c1
            && Sum2(a, r) + p.c1 == p.d2.l % S42 + S42 * p.c2
            && p.c2 < 10 * (S88 / S42)
  {
    hide Multiply, Sum0, Sum1, Sum2, CarryShift;
    SumBounds(a, r);
    Carries(a, r);
    var p := Multiply(a, r);
    Exact0(a, r);
    CarryBound(p.d0, p.c0, Sum0(a, r));
    Exact1(a, r, p.c0);
    CarryBound(p.d1, p.c1, Sum1(a, r) + p.c0);
    Exact2(a, r, p.c1);
    Carry42(p.d2);
  }

  /** The limb products are the product of the values, up to a multiple of the prime:
      2^132 is 20 modulo 2^130 - 5. */
  lemma ProductOfValues(a: Limbs, r: Limbs)
    ensures Value(a) * Value(r)
         == Sum0(a, r) + S44 * Sum1(a, r) + S88 * Sum2(a, r)
            + 4 * P * ((a.l1 * r.l2 + a.l2 * r.l1) + S44 * (a.l2 * r.l2))
  {
    var x00, x01, x02 := a.l0 * r.l0, a.l0 * r.l1, a.l0 * r.l2;
    var x10, x11, x12 := a.l1 * r.l0, a.l1 * r.l1, a.l1 * r.l2;
    var x20, x21, x22 := a.l2 * r.l0, a.l2 * r.l1, a.l2 * r.l2;
    Row(a.l0, r);
    Row(a.l1, r);
    Row(a.l2, r);
    assert Value(a) * Value(r) == a.l0 * Value(r) + S44 * (a.l1 * Value(r)) + S88 * (a.l2 * Value(r));
    assert a.l1 * (20 * r.l2) == 20 * x12 && a.l2 * (20 * r.l1) == 20 * x21 && a.l2 * (20 * r.l2) == 20 * x22;
  }

  lemma Row(x: nat, r: Limbs)
    ensures x * Value(r) == x * r.l0 + S44 * (x * r.l1) + S88 * (x * r.l2)
  {
    assert x * (S44 * r.l1) == S44 * (x * r.l1);
    assert x * (S88 * r.l2) == S88 * (x * r.l2);
  }

  // ---------------------------------------------------------------- the block step modulo P

  /** A block step keeps the limbs bounded and multiplies the fed accumulator by r modulo P. */
  lemma BlockStepValue(h: Limbs, r: Limbs, m: Limbs)
    requires Bounded(h) && Multiplier(r) && m.l0 < S44 && m.l1 < S44 && m.l2 < 2 * S40
    ensures Bounded(BlockStep(h, r, m))
    ensures Value(BlockStep(h, r, m)) % P == ((Value(h) + Value(m)) * Value(r)) % P
  {
    FeedValue(h, m);
    hide Multiply, Reduce, Value;
    var a := Feed(h, m);
    ReduceValue(a, r);
  }

  /** Adding a block to a bounded accumulator does not wrap. */
  lemma FeedValue(h: Limbs, m: Limbs)
    requires Bounded(h) && m.l0 < S44 && m.l1 < S44 && m.l2 < 2 * S40
    ensures Fed(Feed(h, m)) && Value(Feed(h, m)) == Value(h) + Value(m)
  {
  }

  lemma ReduceValue(a: Limbs, r: Limbs)
    requires Fed(a) && Multiplier(r)
    ensures Bounded(Reduce(Multiply(a, r)))
    ensures Value(Reduce(Multiply(a, r))) % P == (Value(a) * Value(r)) % P
  {
    hide Multiply, Sum0, Sum1, Sum2;
    var p := Multiply(a, r);
    MultiplyExact(a, r);
    FoldTop(p.d0.l % S44, p.d1.l % S44, p.d2.l % S42, p.c2);
    ProductOfValues(a, r);
    var k := (a.l1 * r.l2 + a.l2 * r.l1) + S44 * (a.l2 * r.l2);
    Congruent(Value(Reduce(p)), p.c2, Sum0(a, r) + S44 * Sum1(a, r) + S88 * Sum2(a, r), k, Value(a) * Value(r));
  }

  lemma Congruent(x: int, c: int, s: int, k: int, y: int)
    requires x + P * c == s && y == s + 4 * P * k
    ensures x % P == y % P
  {
    ModShift(x, 4 * k + c);
  }

  /** The carry out of the top limb re-enters at the bottom times five. */
  lemma FoldTop(x0: nat, x1: nat, x2: nat, c2: u64)
    requires x0 < S44 && x1 < S44 && x2 < S42 && c2 < 10 * (S88 / S42)
    ensures var h0 := U64(x0 + U64(c2 * 5));
            var h := Limbs(h0 % S44, U64(x1 + h0 / S44), x2);
            Bounded(h) && Value(h) + P * c2 == x0 + S44 * x1 + S88 * x2 + S88 * S42 * c2
  {
  }

  lemma ModShift(x: int, k: int)
    ensures (x + P * k) % P == x % P
  {
    DivUnique(x + P * k, P, x / P + k, x % P);
  }

  // ---------------------------------------------------------------- the final reduction

  /** One carry pass over the accumulator. */
  function CarryPass(h: Limbs): Limbs {
    var h2 := U64(h.l2 + h.l1 / S44);
    var h0 := U64(h.l0 + h2 / S42 * 5);
    Limbs(h0 % S44, U64(h.l1 % S44 + h0 / S44), h2 % S42)
  }

  function FullCarry(h: Limbs): Limbs { CarryPass(CarryPass(h)) }

  /** h + 5 - 2^130 in limbs, with the carry out of the middle limb. */
  function MinusP(h: Limbs): (Limbs, u64) {
    var g0 := U64(h.l0 + 5);
    var c0 := g0 / S44;
    var g1 := U64(h.l1 + c0);
    var c1 := g1 / S44;
    (Limbs(g0 % S44, g1 % S44, U64(U64(h.l2 + c1) - S42)), c1)
  }

  /** The mask selects h + 5 - 2^130 whenever the carry out of the middle limb is set. */
  function Select(h: Limbs): Limbs {
    var (g, c) := MinusP(h);
    if c != 0 then g else h
  }

  /** h + pad, carried and cut to 130 bits. */
  function AddPad(h: Limbs, t0: u64, t1: u64): Limbs {
    var h0 := U64(h.l0 + t0 % S44);
    var c0 := h0 / S44;
    var h1 := U64(h.l1 + U64(Or(t0 / S44, U64(t1 * S20)) % S44 + c0));
    var c1 := h1 / S44;
    var h2 := U64(h.l2 + U64(t1 / S24 % S42 + c1));
    Limbs(h0 % S44, h1 % S44, h2 % S42)
  }

  /** The two output words. */
  function Pack(h: Limbs): (u64, u64) {
    (U64(Or(h.l0, U64(h.l1 * S44))), U64(Or(h.l1 / S20, U64(h.l2 * S24))))
  }

  /** Fully carried limbs. */
  predicate Canonical(h: Limbs) { h.l0 < S44 && h.l1 < S44 && h.l2 < S42 }

  lemma Fits(x: int)
    requires 0 <= x < TWO64
    ensures U64(x) == x
  {
  }

  /** The pass without truncation, for sums that fit. */
  lemma CarryPassExact(h: Limbs, h2: nat, h0: nat)
    requires h2 == h.l2 + h.l1 / S44 && h0 == h.l0 + h2 / S42 * 5
    requires h2 < TWO64 && h0 < TWO64
    ensures CarryPass(h) == Limbs(h0 % S44, h.l1 % S44 + h0 / S44, h2 % S42)
  {
    Fits(h2);
    Fits(h0);
    Fits(h.l1 % S44 + h0 / S44);
  }

  /** A first pass leaves at most one bit above the middle limb, and then only with the top limb
      empty. */
  lemma CarryPassValue(h: Limbs)
    requires Bounded(h)
    ensures var g := CarryPass(h);
            && g.l0 < S44 && g.l2 < S42
            && (g.l1 < S44 || (g.l1 == S44 && g.l0 < 5 && g.l2 == 0))
            && Value(g) == Value(h) - P * ((h.l2 + h.l1 / S44) / S42)
  {
    OneCarry(h.l1, S44);
    var h2 := h.l2 + h.l1 / S44;
    OneCarry(h2, S42);
    var h0 := h.l0 + h2 / S42 * 5;
    OneCarry(h0, S44);
    CarryPassExact(h, h2, h0);
    hide CarryPass;
    Digits(h.l1, S44, h.l1 / S44, h.l1 % S44);
    Digits(h2, S42, h2 / S42, h2 % S42);
    Digits(h0, S44, h0 / S44, h0 % S44);
  }

  lemma Digits(x: nat, s: nat, q: nat, r: nat)
    requires s > 0 && q == x / s && r == x % s
    ensures x == s * q + r
  {
  }

  lemma OneCarry(x: nat, s: nat)
    requires 0 < s && x < 2 * s
    ensures if x < s then x / s == 0 && x % s == x else x / s == 1 && x % s == x - s
  {
    DivUnique(x, s, if x < s then 0 else 1, if x < s then x else x - s);
  }

  lemma SecondPassValue(h: Limbs)
    requires h.l0 < S44 && h.l2 < S42 && (h.l1 < S44 || (h.l1 == S44 && h.l0 < 5 && h.l2 == 0))
    ensures Canonical(CarryPass(h)) && Value(CarryPass(h)) == Value(h)
  {
    OneCarry(h.l1, S44);
    var h2 := h.l2 + h.l1 / S44;
    OneCarry(h2, S42);
    OneCarry(h.l0, S44);
    assert U64(h2) == h2 && U64(h.l0) == h.l0;
    assert U64(h.l1 % S44) == h.l1 % S44;
  }

  lemma FullCarryValue(h: Limbs)
    requires Bounded(h)
    ensures Canonical(FullCarry(h)) && Value(FullCarry(h)) % P == Value(h) % P
  {
    CarryPassValue(h);
    SecondPassValue(CarryPass(h));
    ModShift(Value(h), -((h.l2 + h.l1 / S44) / S42));
  }

  /** What the selection leaves, as a number modulo 2^130. */
  function Selected(v: int): int {
    if v % S88 < S88 - 5 then v else v + 5
  }

  lemma MinusPValue(h: Limbs)
    requires Canonical(h)
    ensures var (g, c) := MinusP(h);
            && g.l0 < S44 && g.l1 < S44
            && (c != 0 <==> h.l0 + S44 * h.l1 >= S88 - 5)
            && (c != 0 ==> g.l0 + S44 * g.l1 + S88 == h.l0 + S44 * h.l1 + 5)
            && (c != 0 ==> g.l2 == U64(h.l2 + 1 - S42))
  {
    OneCarry(h.l0 + 5, S44);
    OneCarry(h.l1 + (h.l0 + 5) / S44, S44);
    assert U64(h.l0 + 5) == h.l0 + 5;
    assert U64(h.l1 + (h.l0 + 5) / S44) == h.l1 + (h.l0 + 5) / S44;
    assert U64(h.l2 + 1) == h.l2 + 1;
  }

  lemma Wrapped(x: int, y: int, d: int)
    requires y == U64(x - S42)
    ensures (S88 * y + d) % S130 == (S88 * x + d) % S130
  {
    var k := (y - x) / S42;
    assert y == x + S42 * k;
    assert S88 * y + d == S88 * x + d + S130 * k;
    DivUnique(S88 * y + d, S130, (S88 * x + d) / S130 + k, (S88 * x + d) % S130);
  }

  lemma SelectValue(h: Limbs)
    requires Canonical(h)
    ensures Select(h).l0 < S44 && Select(h).l1 < S44
    ensures Value(Select(h)) % S130 == Selected(Value(h)) % S130
  {
    MinusPValue(h);
    var low := h.l0 + S44 * h.l1;
    DivUnique(Value(h), S88, h.l2, low);
    hide MinusP;
    if MinusP(h).1 != 0 {
      Wrapped(h.l2 + 1, MinusP(h).0.l2, low + 5 - S88);
    }
  }

  lemma PadDigits(h: Limbs, m0: nat, m1: nat, m2: nat, h0: nat, h1: nat, h2: nat)
    requires h.l0 < S44 && h.l1 < S44 && m0 < S44 && m1 < S44 && m2 < S40
    requires h0 == U64(h.l0 + m0) && h1 == U64(h.l1 + U64(m1 + h0 / S44)) && h2 == U64(h.l2 + U64(m2 + h1 / S44))
    ensures Value(Limbs(h0 % S44, h1 % S44, h2 % S42)) == (Value(h) + m0 + S44 * m1 + S88 * m2) % S130
  {
    var x0 := h.l0 + m0;
    OneCarry(x0, S44);
    var x1 := h.l1 + m1 + x0 / S44;
    OneCarry(x1, S44);
    var x2 := h.l2 + m2 + x1 / S44;
    Fits(x0);
    Fits(m1 + x0 / S44);
    Fits(x1);
    Fits(m2 + x1 / S44);
    hide U64;
    assert h0 == x0 && h1 == x1 && h2 == U64(x2);
    TopDigit(x0 % S44 + S44 * (x1 % S44), x2);
    DigitSum(h, m0, m1, m2, x0 / S44, x0 % S44, x1 / S44, x1 % S44);
  }

  lemma DigitSum(h: Limbs, m0: nat, m1: nat, m2: nat, q0: nat, r0: nat, q1: nat, r1: nat)
    requires h.l0 + m0 == S44 * q0 + r0 && h.l1 + m1 + q0 == S44 * q1 + r1
    ensures r0 + S44 * r1 + S88 * (h.l2 + m2 + q1) == Value(h) + m0 + S44 * m1 + S88 * m2
  {
  }

  lemma TopDigit(low: nat, x2: nat)
    requires low < S88
    ensures low + S88 * (U64(x2) % S42) == (low + S88 * x2) % S130
  {
    assert U64(x2) % S42 == x2 % S42;
    DivUnique(low + S88 * x2, S130, x2 / S42, low + S88 * (x2 % S42));
  }

  lemma AddPadValue(h: Limbs, t0: u64, t1: u64)
    requires h.l0 < S44 && h.l1 < S44
    ensures Canonical(AddPad(h, t0, t1))
    ensures Value(AddPad(h, t0, t1)) == (Value(h) + t0 + TWO64 * t1) % S130
  {
    hide Or, U64, Value;
    SplitMiddle(t0, t1);
    var m0, m1, m2 := t0 % S44, Or(t0 / S44, U64(t1 * S20)) % S44, t1 / S24 % S42;
    var h0 := U64(h.l0 + m0);
    var h1 := U64(h.l1 + U64(m1 + h0 / S44));
    var h2 := U64(h.l2 + U64(m2 + h1 / S44));
    assert AddPad(h, t0, t1) == Limbs(h0 % S44, h1 % S44, h2 % S42);
    hide AddPad;
    TopOfPad(t1);
    PadDigits(h, m0, m1, m2, h0, h1, h2);
    PadValue(t0, t1, m1, m2);
  }

  lemma TopOfPad(t1: u64)
    ensures t1 / S24 % S42 < S40
  {
  }

  lemma PadValue(t0: u64, t1: u64, m1: nat, m2: nat)
    requires m1 == t0 / S44 + (t1 % S24) * S20 && m2 == t1 / S24 % S42
    ensures t0 % S44 + S44 * m1 + S88 * m2 == t0 + TWO64 * t1
  {
  }

  lemma PackValue(h: Limbs)
    requires Canonical(h)
    ensures Pack(h).0 + TWO64 * Pack(h).1 == Value(h) % S128
  {
    PowersOfTwo();
    hide Or, Pow2;
    var lo := (h.l1 % S20) * S44;
    DivUnique(h.l1 * S44, TWO64, h.l1 / S20, lo);
    MultipleMod(h.l1 % S20, S44);
    OrDisjoint(h.l0, lo, 44);
    var hi := (h.l2 % S40) * S24;
    DivUnique(h.l2 * S24, TWO64, h.l2 / S40, hi);
    MultipleMod(h.l2 % S40, S24);
    OrDisjoint(h.l1 / S20, hi, 24);
    DivUnique(Value(h), S128, h.l2 / S40, h.l0 + lo + TWO64 * (h.l1 / S20 + hi));
  }
}
