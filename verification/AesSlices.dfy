/** The linear layers of the bitsliced AES: bit transposition, row shifts and column mixing on two
    blocks in eight words. */
module AesSlices {
  import opened AesCircuits

  type Words = Slices<bv32>

  function Pick(b: Words, k: bv5): bv32 {
    if k == 0 then b.b0 else if k == 1 then b.b1 else if k == 2 then b.b2 else if k == 3 then b.b3
    else if k == 4 then b.b4 else if k == 5 then b.b5 else if k == 6 then b.b6 else b.b7
  }

  /** Slices with the same bits are the same. */
  lemma SameBits(a: Words, b: Words)
    requires forall k: bv5, m: bv5 :: k < 8 ==> Bit(Pick(a, k), m) == Bit(Pick(b, k), m)
    ensures a == b
  {
    hide Bit;
    PickLiterals(a);
    PickLiterals(b);
    hide Pick;
    Extensionality(Pick(a, 0), Pick(b, 0));
    Extensionality(Pick(a, 1), Pick(b, 1));
    Extensionality(Pick(a, 2), Pick(b, 2));
    Extensionality(Pick(a, 3), Pick(b, 3));
    Extensionality(Pick(a, 4), Pick(b, 4));
    Extensionality(Pick(a, 5), Pick(b, 5));
    Extensionality(Pick(a, 6), Pick(b, 6));
    Extensionality(Pick(a, 7), Pick(b, 7));
  }

  lemma PickLiterals(b: Words)
    ensures Pick(b, 0) == b.b0 && Pick(b, 1) == b.b1 && Pick(b, 2) == b.b2 && Pick(b, 3) == b.b3
    ensures Pick(b, 4) == b.b4 && Pick(b, 5) == b.b5 && Pick(b, 6) == b.b6 && Pick(b, 7) == b.b7
  {
  }

  // ---------------------------------------------------------------- delta swaps

  // swap_bits(x, y, mask, shift), as it leaves its first and its second argument.

  function SwapHigh(x: bv32, y: bv32, mask: bv32, shift: bv5): bv32 { x ^ ((((x >> shift) ^ y) & mask) << shift) }

  function SwapLow(x: bv32, y: bv32, mask: bv32, shift: bv5): bv32 { y ^ (((x >> shift) ^ y) & mask) }

  lemma SwapHigh1(x: bv32, y: bv32, m: bv5)
    ensures Bit(SwapHigh(x, y, 0x5555_5555, 1), m) == if m & 1 != 0 then Bit(y, m ^ 1) else Bit(x, m)
  {
  }

  lemma SwapLow1(x: bv32, y: bv32, m: bv5)
    ensures Bit(SwapLow(x, y, 0x5555_5555, 1), m) == if m & 1 != 0 then Bit(y, m) else Bit(x, m ^ 1)
  {
  }

  lemma SwapHigh2(x: bv32, y: bv32, m: bv5)
    ensures Bit(SwapHigh(x, y, 0x3333_3333, 2), m) == if m & 2 != 0 then Bit(y, m ^ 2) else Bit(x, m)
  {
  }

  lemma SwapLow2(x: bv32, y: bv32, m: bv5)
    ensures Bit(SwapLow(x, y, 0x3333_3333, 2), m) == if m & 2 != 0 then Bit(y, m) else Bit(x, m ^ 2)
  {
  }

  lemma SwapHigh4(x: bv32, y: bv32, m: bv5)
    ensures Bit(SwapHigh(x, y, 0x0F0F_0F0F, 4), m) == if m & 4 != 0 then Bit(y, m ^ 4) else Bit(x, m)
  {
  }

  lemma SwapLow4(x: bv32, y: bv32, m: bv5)
    ensures Bit(SwapLow(x, y, 0x0F0F_0F0F, 4), m) == if m & 4 != 0 then Bit(y, m) else Bit(x, m ^ 4)
  {
  }

  // ---------------------------------------------------------------- row shifts

  function PermuteStep(x: bv32, mask: bv32, shift: bv5): bv32 {
    var swap := ((x >> shift) ^ x) & mask;
    (x ^ swap) ^ (swap << shift)
  }

  lemma PermuteTwice2(x: bv32)
    ensures PermuteStep(PermuteStep(x, 0x0022_3311, 2), 0x0022_3311, 2) == x
  {
  }

  lemma PermuteTwice1(x: bv32)
    ensures PermuteStep(PermuteStep(x, 0x0055_0055, 1), 0x0055_0055, 1) == x
  {
  }

  function Moved(mask: bv32, shift: bv5, m: bv5): bv5 {
    if Bit(mask, m) then m + shift else if Bit(mask << shift, m) then m - shift else m
  }

  lemma PermuteBit2(x: bv32, m: bv5)
    ensures Bit(PermuteStep(x, 0x0022_3311, 2), m) == Bit(x, Moved(0x0022_3311, 2, m))
  {
  }

  lemma PermuteBit1(x: bv32, m: bv5)
    ensures Bit(PermuteStep(x, 0x0055_0055, 1), m) == Bit(x, Moved(0x0055_0055, 1, m))
  {
  }

  /** shift_rows on one word. */
  function Shift(x: bv32): bv32 { PermuteStep(PermuteStep(x, 0x0022_3311, 2), 0x0055_0055, 1) }

  function Unshift(x: bv32): bv32 { PermuteStep(PermuteStep(x, 0x0055_0055, 1), 0x0022_3311, 2) }

  function ShiftRows(b: Words): Words { Map(Shift, b) }

  function InvShiftRows(b: Words): Words { Map(Unshift, b) }

  lemma UnshiftShift(x: bv32)
    ensures Unshift(Shift(x)) == x
  {
    hide PermuteStep;
    PermuteTwice1(PermuteStep(x, 0x0022_3311, 2));
    PermuteTwice2(x);
  }

  lemma InvShiftRowsUndoes(b: Words)
    ensures InvShiftRows(ShiftRows(b)) == b
  {
    hide Shift, Unshift;
    UnshiftShift(b.b0);
    UnshiftShift(b.b1);
    UnshiftShift(b.b2);
    UnshiftShift(b.b3);
    UnshiftShift(b.b4);
    UnshiftShift(b.b5);
    UnshiftShift(b.b6);
    UnshiftShift(b.b7);
  }

  // On 64-bit machines two words are shifted at a time, packed into one.

  function PermuteStep64(x: bv64, mask: bv64, shift: bv6): bv64 {
    var swap := ((x >> shift) ^ x) & mask;
    (x ^ swap) ^ (swap << shift)
  }

  function Pair(a: bv32, b: bv32): bv64 { ((a as bv64) << 32) | (b as bv64) }

  function High(x: bv64): bv64 { x >> 32 }

  function Low(x: bv64): bv64 { x & 0xFFFF_FFFF }

  function Widened(a: bv32): bv64 { a as bv64 }

  lemma PairParts(a: bv32, b: bv32)
    ensures High(Pair(a, b)) == Widened(a) && Low(Pair(a, b)) == Widened(b)
  {
  }

  lemma PairOfParts(x: bv64, a: bv32, b: bv32)
    requires High(x) == Widened(a) && Low(x) == Widened(b)
    ensures x == Pair(a, b)
  {
  }

  lemma RawLow2(x: bv64)
    ensures PermuteStep64(x, 0x0022_3311_0022_3311, 2) & 0xFFFF_FFFF == PermuteStep64(x & 0xFFFF_FFFF, 0x0022_3311, 2)
  {
  }

  lemma RawHigh2(x: bv64)
    ensures PermuteStep64(x, 0x0022_3311_0022_3311, 2) >> 32 == PermuteStep64(x >> 32, 0x0022_3311, 2)
  {
  }

  lemma RawWidened2(a: bv32)
    ensures PermuteStep64(a as bv64, 0x0022_3311, 2) == PermuteStep(a, 0x0022_3311, 2) as bv64
  {
  }

  lemma StepParts2(x: bv64, a: bv32)
    ensures Low(PermuteStep64(x, 0x0022_3311_0022_3311, 2)) == PermuteStep64(Low(x), 0x0022_3311, 2)
    ensures High(PermuteStep64(x, 0x0022_3311_0022_3311, 2)) == PermuteStep64(High(x), 0x0022_3311, 2)
    ensures PermuteStep64(Widened(a), 0x0022_3311, 2) == Widened(PermuteStep(a, 0x0022_3311, 2))
  {
    hide PermuteStep64, PermuteStep;
    RawLow2(x);
    RawHigh2(x);
    RawWidened2(a);
  }

  lemma RawLow1(x: bv64)
    ensures PermuteStep64(x, 0x0055_0055_0055_0055, 1) & 0xFFFF_FFFF == PermuteStep64(x & 0xFFFF_FFFF, 0x0055_0055, 1)
  {
  }

  lemma RawHigh1(x: bv64)
    ensures PermuteStep64(x, 0x0055_0055_0055_0055, 1) >> 32 == PermuteStep64(x >> 32, 0x0055_0055, 1)
  {
  }

  lemma RawWidened1(a: bv32)
    ensures PermuteStep64(a as bv64, 0x0055_0055, 1) == PermuteStep(a, 0x0055_0055, 1) as bv64
  {
  }

  lemma StepParts1(x: bv64, a: bv32)
    ensures Low(PermuteStep64(x, 0x0055_0055_0055_0055, 1)) == PermuteStep64(Low(x), 0x0055_0055, 1)
    ensures High(PermuteStep64(x, 0x0055_0055_0055_0055, 1)) == PermuteStep64(High(x), 0x0055_0055, 1)
    ensures PermuteStep64(Widened(a), 0x0055_0055, 1) == Widened(PermuteStep(a, 0x0055_0055, 1))
  {
    hide PermuteStep64, PermuteStep;
    RawLow1(x);
    RawHigh1(x);
    RawWidened1(a);
  }

  lemma PairStep2(a: bv32, b: bv32)
    ensures PermuteStep64(Pair(a, b), 0x0022_3311_0022_3311, 2)
         == Pair(PermuteStep(a, 0x0022_3311, 2), PermuteStep(b, 0x0022_3311, 2))
  {
    hide PermuteStep64, PermuteStep, Pair, High, Low, Widened;
    PairParts(a, b);
    StepParts2(Pair(a, b), a);
    StepParts2(Pair(a, b), b);
    PairOfParts(PermuteStep64(Pair(a, b), 0x0022_3311_0022_3311, 2), PermuteStep(a, 0x0022_3311, 2), PermuteStep(b, 0x0022_3311, 2));
  }

  lemma PairStep1(a: bv32, b: bv32)
    ensures PermuteStep64(Pair(a, b), 0x0055_0055_0055_0055, 1)
         == Pair(PermuteStep(a, 0x0055_0055, 1), PermuteStep(b, 0x0055_0055, 1))
  {
    hide PermuteStep64, PermuteStep, Pair, High, Low, Widened;
    PairParts(a, b);
    StepParts1(Pair(a, b), a);
    StepParts1(Pair(a, b), b);
    PairOfParts(PermuteStep64(Pair(a, b), 0x0055_0055_0055_0055, 1), PermuteStep(a, 0x0055_0055, 1), PermuteStep(b, 0x0055_0055, 1));
  }

  /** shift_rows and inv_shift_rows on two words packed into one. */
  lemma ShiftTwoAtOnce(a: bv32, b: bv32)
    ensures PermuteStep64(PermuteStep64(Pair(a, b), 0x0022_3311_0022_3311, 2), 0x0055_0055_0055_0055, 1) == Pair(Shift(a), Shift(b))
    ensures PermuteStep64(PermuteStep64(Pair(a, b), 0x0055_0055_0055_0055, 1), 0x0022_3311_0022_3311, 2) == Pair(Unshift(a), Unshift(b))
  {
    hide PermuteStep64, PermuteStep, Pair, High, Low, Widened;
    PairStep2(a, b);
    PairStep1(PermuteStep(a, 0x0022_3311, 2), PermuteStep(b, 0x0022_3311, 2));
    PairStep1(a, b);
    PairStep2(PermuteStep(a, 0x0055_0055, 1), PermuteStep(b, 0x0055_0055, 1));
  }

  /** Where bit m of a shifted word comes from. */
  function Source(m: bv5): bv5 { Moved(0x0022_3311, 2, Moved(0x0055_0055, 1, m)) }

  lemma ShiftBit(x: bv32, m: bv5)
    ensures Bit(Shift(x), m) == Bit(x, Source(m))
  {
    hide Bit, PermuteStep, Moved;
    PermuteBit1(PermuteStep(x, 0x0022_3311, 2), m);
    PermuteBit2(x, Moved(0x0055_0055, 1, m));
  }

  /** The XOR gate of WORDS by name, so that proofs need not look at bits. */
  function Xor(a: bv32, b: bv32): bv32 { a ^ b }

  lemma XorBit(a: bv32, b: bv32, m: bv5)
    ensures Bit(Xor(a, b), m) == (Bit(a, m) != Bit(b, m))
  {
    hide Bit;
    BitXor(a, b, m);
  }

  lemma XorName(a: bv32, b: bv32) ensures WORDS.xor(a, b) == Xor(a, b) { }

  // ---------------------------------------------------------------- bit transposition

  const M1: bv32 := 0x5555_5555
  const M2: bv32 := 0x3333_3333
  const M4: bv32 := 0x0F0F_0F0F

  function Stage1(b: Words): Words {
    Slices(SwapLow(b.b1, b.b0, M1, 1), SwapHigh(b.b1, b.b0, M1, 1), SwapLow(b.b3, b.b2, M1, 1), SwapHigh(b.b3, b.b2, M1, 1),
           SwapLow(b.b5, b.b4, M1, 1), SwapHigh(b.b5, b.b4, M1, 1), SwapLow(b.b7, b.b6, M1, 1), SwapHigh(b.b7, b.b6, M1, 1))
  }

  function Stage2(b: Words): Words {
    Slices(SwapLow(b.b2, b.b0, M2, 2), SwapLow(b.b3, b.b1, M2, 2), SwapHigh(b.b2, b.b0, M2, 2), SwapHigh(b.b3, b.b1, M2, 2),
           SwapLow(b.b6, b.b4, M2, 2), SwapLow(b.b7, b.b5, M2, 2), SwapHigh(b.b6, b.b4, M2, 2), SwapHigh(b.b7, b.b5, M2, 2))
  }

  function Stage4(b: Words): Words {
    Slices(SwapLow(b.b4, b.b0, M4, 4), SwapLow(b.b5, b.b1, M4, 4), SwapLow(b.b6, b.b2, M4, 4), SwapLow(b.b7, b.b3, M4, 4),
           SwapHigh(b.b4, b.b0, M4, 4), SwapHigh(b.b5, b.b1, M4, 4), SwapHigh(b.b6, b.b2, M4, 4), SwapHigh(b.b7, b.b3, M4, 4))
  }

  /** bit_transpose. */
  function Transpose(b: Words): Words { Stage4(Stage2(Stage1(b))) }

  /** One stage exchanges one bit of the word number with one bit of the place in the byte. */
  lemma Stage1Bit(b: Words, k: bv5, m: bv5)
    requires k < 8
    ensures Bit(Pick(Stage1(b), k), m)
         == if (k & 1 != 0) == (m & 1 != 0) then Bit(Pick(b, k ^ 1), m ^ 1) else Bit(Pick(b, k), m)
  {
    SwapHigh1(b.b1, b.b0, m);
    SwapLow1(b.b1, b.b0, m);
    SwapHigh1(b.b3, b.b2, m);
    SwapLow1(b.b3, b.b2, m);
    SwapHigh1(b.b5, b.b4, m);
    SwapLow1(b.b5, b.b4, m);
    SwapHigh1(b.b7, b.b6, m);
    SwapLow1(b.b7, b.b6, m);
    hide Bit, SwapHigh, SwapLow;
  }

  lemma Stage2Bit(b: Words, k: bv5, m: bv5)
    requires k < 8
    ensures Bit(Pick(Stage2(b), k), m)
         == if (k & 2 != 0) == (m & 2 != 0) then Bit(Pick(b, k ^ 2), m ^ 2) else Bit(Pick(b, k), m)
  {
    SwapHigh2(b.b2, b.b0, m);
    SwapLow2(b.b2, b.b0, m);
    SwapHigh2(b.b3, b.b1, m);
    SwapLow2(b.b3, b.b1, m);
    SwapHigh2(b.b6, b.b4, m);
    SwapLow2(b.b6, b.b4, m);
    SwapHigh2(b.b7, b.b5, m);
    SwapLow2(b.b7, b.b5, m);
    hide Bit, SwapHigh, SwapLow;
  }

  lemma Stage4Bit(b: Words, k: bv5, m: bv5)
    requires k < 8
    ensures Bit(Pick(Stage4(b), k), m)
         == if (k & 4 != 0) == (m & 4 != 0) then Bit(Pick(b, k ^ 4), m ^ 4) else Bit(Pick(b, k), m)
  {
    SwapHigh4(b.b4, b.b0, m);
    SwapLow4(b.b4, b.b0, m);
    SwapHigh4(b.b5, b.b1, m);
    SwapLow4(b.b5, b.b1, m);
    SwapHigh4(b.b6, b.b2, m);
    SwapLow4(b.b6, b.b2, m);
    SwapHigh4(b.b7, b.b3, m);
    SwapLow4(b.b7, b.b3, m);
    hide Bit, SwapHigh, SwapLow;
  }

  /** All three stages together exchange the word number and the place in the byte, both counted
      from the other end. */
  lemma TransposeBit(b: Words, k: bv5, m: bv5)
    requires k < 8
    ensures Bit(Pick(Transpose(b), k), m) == Bit(Pick(b, 7 ^ (m & 7)), (m & 24) | (7 ^ k))
  {
    hide Bit, Pick, Stage1, Stage2, Stage4;
    var (k4, m4) := if (k & 4 != 0) == (m & 4 != 0) then (k ^ 4, m ^ 4) else (k, m);
    Stage4Bit(Stage2(Stage1(b)), k, m);
    var (k2, m2) := if (k4 & 2 != 0) == (m4 & 2 != 0) then (k4 ^ 2, m4 ^ 2) else (k4, m4);
    Stage2Bit(Stage1(b), k4, m4);
    var (k1, m1) := if (k2 & 1 != 0) == (m2 & 1 != 0) then (k2 ^ 1, m2 ^ 1) else (k2, m2);
    Stage1Bit(b, k2, m2);
    assert k1 == 7 ^ (m & 7) && m1 == (m & 24) | (7 ^ k);
  }

  /** Transposing twice changes nothing. */
  lemma TransposeTwice(b: Words)
    ensures Transpose(Transpose(b)) == b
  {
    hide Bit, Pick, Transpose;
    forall k: bv5, m: bv5 | k < 8 ensures Bit(Pick(Transpose(Transpose(b)), k), m) == Bit(Pick(b, k), m) {
      var k', m' := 7 ^ (m & 7), (m & 24) | (7 ^ k);
      assert k' < 8 && 7 ^ (m' & 7) == k && (m' & 24) | (7 ^ k') == m;
      TransposeBit(Transpose(b), k, m);
      TransposeBit(b, k', m');
    }
    SameBits(Transpose(Transpose(b)), b);
  }

  // ---------------------------------------------------------------- expanded round keys

  /** Four key words, twice. */
  function Doubled(k0: bv32, k1: bv32, k2: bv32, k3: bv32): Words { Slices(k0, k1, k2, k3, k0, k1, k2, k3) }

  /** ks_expand: the transposition of the doubled key, the first two stages done on one half only. */
  function KsExpand(k0: bv32, k1: bv32, k2: bv32, k3: bv32): Words {
    var a0, a1 := SwapLow(k1, k0, M1, 1), SwapHigh(k1, k0, M1, 1);
    var a2, a3 := SwapLow(k3, k2, M1, 1), SwapHigh(k3, k2, M1, 1);
    var b0, b2 := SwapLow(a2, a0, M2, 2), SwapHigh(a2, a0, M2, 2);
    var b1, b3 := SwapLow(a3, a1, M2, 2), SwapHigh(a3, a1, M2, 2);
    Slices(SwapLow(b0, b0, M4, 4), SwapLow(b1, b1, M4, 4), SwapLow(b2, b2, M4, 4), SwapLow(b3, b3, M4, 4),
           SwapHigh(b0, b0, M4, 4), SwapHigh(b1, b1, M4, 4), SwapHigh(b2, b2, M4, 4), SwapHigh(b3, b3, M4, 4))
  }

  lemma KsExpandIsTranspose(k0: bv32, k1: bv32, k2: bv32, k3: bv32)
    ensures KsExpand(k0, k1, k2, k3) == Transpose(Doubled(k0, k1, k2, k3))
  {
    hide SwapHigh, SwapLow;
  }

  // ---------------------------------------------------------------- column mixing

  function Rotr8(x: bv32): bv32 { (x >> 8) | (x << 24) }
  function Rotr16(x: bv32): bv32 { (x >> 16) | (x << 16) }
  function Rotr24(x: bv32): bv32 { (x >> 24) | (x << 8) }

  /** Multiplication of every byte by x, on slices. */
  function X2(b: Words): Words { Slices(b.b1, b.b2, b.b3, Xor(b.b4, b.b0), Xor(b.b5, b.b0), b.b6, Xor(b.b7, b.b0), b.b0) }

  /** mix_columns, one word of it. */
  function Mixed(b: bv32, x2: bv32): bv32 {
    var x3 := Xor(b, x2);
    Xor(Xor(Xor(x2, Rotr8(b)), Rotr16(b)), Rotr24(x3))
  }

  function MixColumns(b: Words): Words {
    var x := X2(b);
    Slices(Mixed(b.b0, x.b0), Mixed(b.b1, x.b1), Mixed(b.b2, x.b2), Mixed(b.b3, x.b3),
           Mixed(b.b4, x.b4), Mixed(b.b5, x.b5), Mixed(b.b6, x.b6), Mixed(b.b7, x.b7))
  }

  function Mixed5(b: bv32, x4: bv32): bv32 { Xor(Xor(x4, b), Rotr16(x4)) }

  /** Multiplication by the circulant (05, 00, 04, 00), then mix_columns. */
  function InvMixColumns(b: Words): Words {
    var x := Slices(b.b2, b.b3, Xor(b.b4, b.b0), Xor(Xor(b.b5, b.b0), b.b1), Xor(b.b6, b.b1), Xor(b.b7, b.b0), Xor(b.b0, b.b1), b.b1);
    MixColumns(Slices(Mixed5(b.b0, x.b0), Mixed5(b.b1, x.b1), Mixed5(b.b2, x.b2), Mixed5(b.b3, x.b3),
                      Mixed5(b.b4, x.b4), Mixed5(b.b5, x.b5), Mixed5(b.b6, x.b6), Mixed5(b.b7, x.b7)))
  }

  // The same in terms of sums, multiplication by x and rotation, which commute.

  function Plus(u: Words, v: Words): Words {
    Slices(Xor(u.b0, v.b0), Xor(u.b1, v.b1), Xor(u.b2, v.b2), Xor(u.b3, v.b3),
           Xor(u.b4, v.b4), Xor(u.b5, v.b5), Xor(u.b6, v.b6), Xor(u.b7, v.b7))
  }

  function Turn(u: Words): Words { Map(Rotr8, u) }

  lemma RawXor(a: bv32, b: bv32, c: bv32, d: bv32)
    ensures (a ^ b) ^ (c ^ d) == (a ^ c) ^ (b ^ d) && a ^ (b ^ c) == (a ^ b) ^ c && a ^ b == b ^ a && (a ^ b) ^ b == a
  {
  }

  lemma WordXor(a: bv32, b: bv32, c: bv32, d: bv32)
    ensures Xor(Xor(a, b), Xor(c, d)) == Xor(Xor(a, c), Xor(b, d)) && Xor(a, Xor(b, c)) == Xor(Xor(a, b), c)
    ensures Xor(a, b) == Xor(b, a) && Xor(Xor(a, b), b) == a
  {
    RawXor(a, b, c, d);
  }

  lemma PlusAlgebra(u: Words, v: Words, w: Words, t: Words)
    ensures Plus(Plus(u, v), Plus(w, t)) == Plus(Plus(u, w), Plus(v, t)) && Plus(u, Plus(v, w)) == Plus(Plus(u, v), w)
    ensures Plus(u, v) == Plus(v, u) && Plus(Plus(u, v), v) == u
  {
    hide Xor;
    WordXor(u.b0, v.b0, w.b0, t.b0);
    WordXor(u.b1, v.b1, w.b1, t.b1);
    WordXor(u.b2, v.b2, w.b2, t.b2);
    WordXor(u.b3, v.b3, w.b3, t.b3);
    WordXor(u.b4, v.b4, w.b4, t.b4);
    WordXor(u.b5, v.b5, w.b5, t.b5);
    WordXor(u.b6, v.b6, w.b6, t.b6);
    WordXor(u.b7, v.b7, w.b7, t.b7);
  }

  lemma RotrXor(a: bv32, b: bv32)
    ensures Rotr8(Xor(a, b)) == Xor(Rotr8(a), Rotr8(b))
  {
  }

  lemma RotrTwice(a: bv32)
    ensures Rotr8(Rotr8(a)) == Rotr16(a)
  {
  }

  lemma RotrThrice(a: bv32)
    ensures Rotr8(Rotr16(a)) == Rotr24(a)
  {
  }

  lemma RotrRound(a: bv32)
    ensures Rotr8(Rotr24(a)) == a
  {
  }

  lemma RotrLaws(a: bv32, b: bv32)
    ensures Rotr8(Xor(a, b)) == Xor(Rotr8(a), Rotr8(b))
    ensures Rotr8(Rotr8(a)) == Rotr16(a) && Rotr8(Rotr16(a)) == Rotr24(a) && Rotr8(Rotr24(a)) == a
  {
    hide Xor, Rotr8, Rotr16, Rotr24;
    RotrXor(a, b);
    RotrTwice(a);
    RotrThrice(a);
    RotrRound(a);
  }

  lemma TurnLinear(u: Words, v: Words)
    ensures Turn(Plus(u, v)) == Plus(Turn(u), Turn(v))
    ensures Turn(Turn(Turn(Turn(u)))) == u
    ensures Turn(X2(u)) == X2(Turn(u))
  {
    hide Xor, Rotr8, Rotr16, Rotr24;
    RotrLaws(u.b0, v.b0);
    RotrLaws(u.b1, v.b1);
    RotrLaws(u.b2, v.b2);
    RotrLaws(u.b3, v.b3);
    RotrLaws(u.b4, v.b4);
    RotrLaws(u.b5, v.b5);
    RotrLaws(u.b6, v.b6);
    RotrLaws(u.b7, v.b7);
    RotrLaws(u.b4, u.b0);
    RotrLaws(u.b5, u.b0);
    RotrLaws(u.b7, u.b0);
  }

  lemma X2Linear(u: Words, v: Words)
    ensures X2(Plus(u, v)) == Plus(X2(u), X2(v))
  {
    hide Xor;
    WordXor(u.b4, v.b4, u.b0, v.b0);
    WordXor(u.b5, v.b5, u.b0, v.b0);
    WordXor(u.b7, v.b7, u.b0, v.b0);
  }

  /** mix_columns as a polynomial in X2 and Turn. */
  lemma MixIsPolynomial(b: Words)
    ensures MixColumns(b) == Plus(Plus(Plus(X2(b), Turn(b)), Turn(Turn(b))), Turn(Turn(Turn(Plus(b, X2(b))))))
  {
    hide Xor, Rotr8, Rotr16, Rotr24;
    var x := X2(b);
    MixedWord(b.b0, x.b0);
    MixedWord(b.b1, x.b1);
    MixedWord(b.b2, x.b2);
    MixedWord(b.b3, x.b3);
    MixedWord(b.b4, x.b4);
    MixedWord(b.b5, x.b5);
    MixedWord(b.b6, x.b6);
    MixedWord(b.b7, x.b7);
  }

  lemma MixedWord(b: bv32, x: bv32)
    ensures Mixed(b, x) == Xor(Xor(Xor(x, Rotr8(b)), Rotr8(Rotr8(b))), Rotr8(Rotr8(Rotr8(Xor(b, x)))))
    ensures Mixed5(b, x) == Xor(Xor(x, b), Rotr8(Rotr8(x)))
  {
    hide Xor, Rotr8, Rotr16, Rotr24;
    RotrLaws(b, x);
    RotrLaws(x, b);
    RotrLaws(Xor(b, x), b);
  }

  /** Multiplication by the circulant (05, 00, 04, 00). */
  function Half(b: Words): Words { Plus(Plus(X2(X2(b)), b), Turn(Turn(X2(X2(b))))) }

  lemma InvMixIsMixOfHalf(b: Words)
    ensures InvMixColumns(b) == MixColumns(Half(b))
  {
    hide Xor, Rotr8, Rotr16, Rotr24;
    var x := X2(X2(b));
    MixedWord(b.b0, x.b0);
    MixedWord(b.b1, x.b1);
    MixedWord(b.b2, x.b2);
    MixedWord(b.b3, x.b3);
    MixedWord(b.b4, x.b4);
    MixedWord(b.b5, x.b5);
    MixedWord(b.b6, x.b6);
    MixedWord(b.b7, x.b7);
    WordXor(b.b4, b.b0, b.b1, b.b1);
    hide MixColumns;
  }

  // ---------------------------------------------------------------- the ring of column operators

  /** Polynomials in multiplication by x and in rotation. */
  datatype Op = One | X | T | Add(p: Op, q: Op) | Mul(p: Op, q: Op)

  function Apply(op: Op, b: Words): Words {
    match op
    case One => b
    case X => X2(b)
    case T => Turn(b)
    case Add(p, q) => Plus(Apply(p, b), Apply(q, b))
    case Mul(p, q) => Apply(p, Apply(q, b))
  }

  lemma {:induction false} ApplyLinear(op: Op, u: Words, v: Words)
    ensures Apply(op, Plus(u, v)) == Plus(Apply(op, u), Apply(op, v))
  {
    hide Plus, X2, Turn;
    match op
    case One =>
    case X => X2Linear(u, v);
    case T => TurnLinear(u, v);
    case Add(p, q) =>
      ApplyLinear(p, u, v);
      ApplyLinear(q, u, v);
      PlusAlgebra(Apply(p, u), Apply(p, v), Apply(q, u), Apply(q, v));
    case Mul(p, q) =>
      ApplyLinear(q, u, v);
      ApplyLinear(p, Apply(q, u), Apply(q, v));
  }

  /** Any two operators commute. */
  lemma {:induction false} ApplyCommutes(f: Op, g: Op, b: Words)
    ensures Apply(f, Apply(g, b)) == Apply(g, Apply(f, b))
    decreases f, g
  {
    hide Plus, X2, Turn;
    match f {
      case One =>
      case Add(p, q) =>
        ApplyCommutes(p, g, b);
        ApplyCommutes(q, g, b);
        ApplyLinear(g, Apply(p, b), Apply(q, b));
      case Mul(p, q) =>
        ApplyCommutes(q, g, b);
        ApplyCommutes(p, g, Apply(q, b));
      case X => XCommutes(g, b);
      case T => TCommutes(g, b);
    }
  }

  lemma {:induction false} XCommutes(g: Op, b: Words)
    ensures X2(Apply(g, b)) == Apply(g, X2(b))
  {
    hide Plus, X2, Turn;
    match g {
      case One =>
      case X =>
      case T => TurnLinear(b, b);
      case Add(p, q) =>
        XCommutes(p, b);
        XCommutes(q, b);
        X2Linear(Apply(p, b), Apply(q, b));
      case Mul(p, q) =>
        XCommutes(q, b);
        XCommutes(p, Apply(q, b));
    }
  }

  lemma {:induction false} TCommutes(g: Op, b: Words)
    ensures Turn(Apply(g, b)) == Apply(g, Turn(b))
  {
    hide Plus, X2, Turn;
    match g {
      case One =>
      case X => TurnLinear(b, b);
      case T =>
      case Add(p, q) =>
        TCommutes(p, b);
        TCommutes(q, b);
        TurnLinear(Apply(p, b), Apply(q, b));
      case Mul(p, q) =>
        TCommutes(q, b);
        TCommutes(p, Apply(q, b));
    }
  }

  /** The square of a sum is the sum of the squares. */
  lemma SquareOfSum(f: Op, g: Op, b: Words)
    ensures Apply(Add(f, g), Apply(Add(f, g), b)) == Plus(Apply(f, Apply(f, b)), Apply(g, Apply(g, b)))
  {
    var p, q, r := Apply(f, Apply(f, b)), Apply(f, Apply(g, b)), Apply(g, Apply(g, b));
    ApplyCommutes(f, g, b);
    ApplyLinear(f, Apply(f, b), Apply(g, b));
    ApplyLinear(g, Apply(f, b), Apply(g, b));
    hide Plus;
    assert Apply(Add(f, g), Apply(Add(f, g), b)) == Plus(Plus(p, q), Plus(q, r));
    PlusAlgebra(p, q, r, q);
    PlusAlgebra(q, r, p, q);
    PlusAlgebra(Plus(p, r), q, q, q);
  }

  const TT := Mul(T, T)
  const TTT := Mul(T, TT)
  const MIX := Add(Add(Add(X, T), TT), Mul(TTT, Add(One, X)))
  const XX := Mul(X, X)
  const HALF := Add(Add(XX, One), Mul(TT, XX))

  lemma FourTurns(b: Words)
    ensures Apply(TT, Apply(TT, b)) == b
    ensures Apply(TTT, Apply(TTT, b)) == Apply(TT, b)
  {
    hide X2, Turn, Plus;
    TurnLinear(b, b);
    TurnLinear(Turn(Turn(b)), b);
  }

  lemma Unfold(p: Op, q: Op, b: Words)
    ensures Apply(One, b) == b && Apply(X, b) == X2(b) && Apply(T, b) == Turn(b)
    ensures Apply(Add(p, q), b) == Plus(Apply(p, b), Apply(q, b))
    ensures Apply(Mul(p, q), b) == Apply(p, Apply(q, b))
  {
  }

  lemma UnfoldPowers(b: Words)
    ensures Apply(XX, b) == X2(X2(b)) && Apply(TT, b) == Turn(Turn(b)) && Apply(TTT, b) == Turn(Turn(Turn(b)))
  {
    hide Apply, X2, Turn, Plus;
    Unfold(X, X, b);
    Unfold(X, X, X2(b));
    Unfold(T, T, b);
    Unfold(T, T, Turn(b));
    Unfold(T, TT, b);
    Unfold(T, T, Turn(Turn(b)));
  }

  lemma ApplyMix(b: Words)
    ensures MixColumns(b) == Apply(MIX, b)
  {
    hide Apply, MixColumns, X2, Turn, Plus;
    MixIsPolynomial(b);
    Unfold(Add(Add(X, T), TT), Mul(TTT, Add(One, X)), b);
    Unfold(Add(X, T), TT, b);
    Unfold(X, T, b);
    Unfold(TTT, Add(One, X), b);
    Unfold(One, X, b);
    UnfoldPowers(b);
    UnfoldPowers(Plus(b, X2(b)));
  }

  lemma ApplyHalf(b: Words)
    ensures Half(b) == Apply(HALF, b)
  {
    hide Apply, X2, Turn, Plus;
    var c := Apply(XX, b);
    UnfoldPowers(b);
    UnfoldPowers(c);
    Unfold(Add(XX, One), Mul(TT, XX), b);
    Unfold(XX, One, b);
    Unfold(TT, XX, b);
  }

  /** The last term of MIX, squared. */
  lemma LastTermSquared(b: Words)
    ensures Apply(Mul(TTT, Add(One, X)), Apply(Mul(TTT, Add(One, X)), b)) == Plus(Apply(TT, b), Apply(TT, Apply(XX, b)))
  {
    var c := Apply(Add(One, X), b);
    ApplyCommutes(Add(One, X), TTT, c);
    FourTurns(Apply(Add(One, X), c));
    SquareOfSum(One, X, b);
    ApplyLinear(TT, b, Apply(XX, b));
    hide X2, Turn, Plus;
    Unfold(TTT, Add(One, X), b);
    Unfold(TTT, Add(One, X), Apply(TTT, c));
    Unfold(X, X, b);
    Unfold(One, X, b);
    hide Apply;
  }

  /** Mixing twice is multiplication by the circulant (05, 00, 04, 00). */
  lemma MixTwice(b: Words)
    ensures Apply(MIX, Apply(MIX, b)) == Apply(HALF, b)
  {
    hide X2, Turn, Plus;
    SquareOfSum(Add(Add(X, T), TT), Mul(TTT, Add(One, X)), b);
    SquareOfSum(Add(X, T), TT, b);
    SquareOfSum(X, T, b);
    LastTermSquared(b);
    FourTurns(b);
    MixTerms(Apply(XX, b), Apply(TT, b), b, Apply(TT, Apply(XX, b)));
    Unfold(X, X, b);
    Unfold(X, X, X2(b));
    Unfold(T, T, b);
    Unfold(T, T, Turn(b));
    UnfoldPowers(b);
    Unfold(Add(XX, One), Mul(TT, XX), b);
    Unfold(XX, One, b);
    Unfold(TT, XX, b);
    hide Apply;
  }

  lemma MixTerms(xx: Words, tt: Words, b: Words, ttxx: Words)
    ensures Plus(Plus(Plus(xx, tt), b), Plus(tt, ttxx)) == Plus(Plus(xx, b), ttxx)
  {
    hide Plus;
    PlusAlgebra(xx, tt, b, b);
    PlusAlgebra(tt, b, b, b);
    PlusAlgebra(xx, b, tt, tt);
    PlusAlgebra(Plus(xx, b), tt, tt, tt);
    PlusAlgebra(Plus(Plus(xx, b), tt), tt, ttxx, ttxx);
  }

  lemma HalfTwice(b: Words)
    ensures Apply(HALF, Apply(HALF, b)) == b
  {
    hide X2, Turn, Plus;
    var q := Apply(XX, Apply(XX, b));
    SquareOfSum(Add(XX, One), Mul(TT, XX), b);
    SquareOfSum(XX, One, b);
    ApplyCommutes(XX, TT, Apply(XX, b));
    FourTurns(q);
    PlusAlgebra(q, b, q, q);
    PlusAlgebra(b, q, q, q);
  }

  /** inv_mix_columns undoes mix_columns: the fourth power of mixing is the identity. */
  lemma InvMixUndoes(b: Words)
    ensures InvMixColumns(MixColumns(b)) == b
  {
    hide MixColumns, InvMixColumns, X2, Turn, Plus;
    var c := MixColumns(b);
    InvMixIsMixOfHalf(c);
    ApplyMix(b);
    ApplyMix(Half(c));
    ApplyHalf(c);
    hide Apply, Half;
    ApplyCommutes(MIX, HALF, c);
    MixTwice(b);
    HalfTwice(b);
  }

  /** Both are linear. */
  lemma MixLinear(u: Words, v: Words)
    ensures MixColumns(Plus(u, v)) == Plus(MixColumns(u), MixColumns(v))
    ensures InvMixColumns(Plus(u, v)) == Plus(InvMixColumns(u), InvMixColumns(v))
  {
    hide MixColumns, InvMixColumns, X2, Turn, Plus;
    ApplyMix(u);
    ApplyMix(v);
    ApplyMix(Plus(u, v));
    ApplyLinear(MIX, u, v);
    InvMixIsMixOfHalf(u);
    InvMixIsMixOfHalf(v);
    InvMixIsMixOfHalf(Plus(u, v));
    ApplyMix(Half(u));
    ApplyMix(Half(v));
    ApplyMix(Half(Plus(u, v)));
    ApplyHalf(u);
    ApplyHalf(v);
    ApplyHalf(Plus(u, v));
    ApplyLinear(HALF, u, v);
    ApplyLinear(MIX, Half(u), Half(v));
    hide Apply, Half;
  }

  // ---------------------------------------------------------------- round keys of the decryption

  /** xtime32: every byte times x. */
  function XTime(s: bv32): bv32 { ((s & 0x7F7F_7F7F) << 1) ^ (((s >> 7) & 0x0101_0101) * 0x1B) }

  /** InvMixColumn on one word of the key schedule. */
  function InvMixColumn(s1: bv32): bv32 {
    var s2 := XTime(s1);
    var s4 := XTime(s2);
    var s8 := XTime(s4);
    var s9 := Xor(s8, s1);
    var s11 := Xor(s9, s2);
    var s13 := Xor(s9, s4);
    var s14 := Xor(Xor(s8, s4), s2);
    Xor(Xor(Xor(s14, Rotr8(s9)), Rotr16(s13)), Rotr24(s11))
  }

  lemma TimesPoly(t: bv32)
    ensures (t & 0x0101_0101) * 0x1B
         == (t & 0x0101_0101) ^ ((t & 0x0101_0101) << 1) ^ ((t & 0x0101_0101) << 3) ^ ((t & 0x0101_0101) << 4)
  {
  }

  lemma XTimeBit(s: bv32, m: bv5)
    ensures Bit(XTime(s), m)
         == if m & 7 == 0 then Bit(s, m | 7)
            else if m & 7 == 1 || m & 7 == 3 || m & 7 == 4 then Bit(s, m - 1) != Bit(s, m | 7)
            else Bit(s, m - 1)
  {
    TimesPoly(s >> 7);
  }

  lemma RotrBit(s: bv32, m: bv5)
    ensures Bit(Rotr8(s), m) == Bit(s, m + 8)
  {
  }

  function At(u: Words, k: bv5, m: bv5): bool { Bit(Pick(u, k), m) }

  lemma PlusAt(k: bv5, m: bv5)
    ensures forall u, v :: At(Plus(u, v), k, m) == (At(u, k, m) != At(v, k, m))
  {
    hide Bit, Xor;
    forall u, v ensures At(Plus(u, v), k, m) == (At(u, k, m) != At(v, k, m)) {
      XorBit(Pick(u, k), Pick(v, k), m);
      assert Pick(Plus(u, v), k) == Xor(Pick(u, k), Pick(v, k));
    }
  }

  lemma SameAt(a: Words, b: Words)
    requires forall k: bv5, m: bv5 :: k < 8 ==> At(a, k, m) == At(b, k, m)
    ensures a == b
  {
    hide Bit, Pick;
    forall k: bv5, m: bv5 | k < 8 ensures Bit(Pick(a, k), m) == Bit(Pick(b, k), m) {
      assert At(a, k, m) == At(b, k, m);
    }
    SameBits(a, b);
  }

  /** Transposition, seen bit by bit. */
  lemma TransposeAt(u: Words, k: bv5, m: bv5)
    requires k < 8
    ensures At(Transpose(u), k, m) == At(u, 7 ^ (m & 7), (m & 24) | (7 ^ k))
  {
    hide Bit, Pick, Transpose;
    TransposeBit(u, k, m);
  }

  lemma TransposePlus(u: Words, v: Words)
    ensures Transpose(Plus(u, v)) == Plus(Transpose(u), Transpose(v))
  {
    hide At, Transpose, Plus;
    forall k: bv5, m: bv5 | k < 8 ensures At(Transpose(Plus(u, v)), k, m) == At(Plus(Transpose(u), Transpose(v)), k, m) {
      TransposeAt(Plus(u, v), k, m);
      TransposeAt(u, k, m);
      TransposeAt(v, k, m);
      PlusAt(k, m);
      PlusAt(7 ^ (m & 7), (m & 24) | (7 ^ k));
    }
    SameAt(Transpose(Plus(u, v)), Plus(Transpose(u), Transpose(v)));
  }

  lemma MapTurn(u: Words, k: bv5, m: bv5)
    requires k < 8
    ensures At(Turn(u), k, m) == At(u, k, m + 8)
  {
    hide Bit, Rotr8;
    RotrBit(Pick(u, k), m);
  }

  lemma TransposeTurn(u: Words)
    ensures Transpose(Turn(u)) == Turn(Transpose(u))
  {
    hide At, Transpose, Turn;
    forall k: bv5, m: bv5 | k < 8 ensures At(Transpose(Turn(u)), k, m) == At(Turn(Transpose(u)), k, m) {
      TransposeAt(Turn(u), k, m);
      TransposeAt(u, k, m + 8);
      MapTurn(u, 7 ^ (m & 7), (m & 24) | (7 ^ k));
      MapTurn(Transpose(u), k, m);
      assert (m + 8) & 7 == m & 7 && ((m + 8) & 24) | (7 ^ k) == ((m & 24) | (7 ^ k)) + 8;
    }
    SameAt(Transpose(Turn(u)), Turn(Transpose(u)));
  }

  lemma MapXTime(u: Words, k: bv5, m: bv5)
    requires k < 8
    ensures At(Map(XTime, u), k, m)
         == if m & 7 == 0 then At(u, k, m | 7)
            else if m & 7 == 1 || m & 7 == 3 || m & 7 == 4 then At(u, k, m - 1) != At(u, k, m | 7)
            else At(u, k, m - 1)
  {
    hide Bit, XTime;
    XTimeBit(Pick(u, k), m);
  }

  lemma X2At(v: Words, k: bv5, m: bv5)
    requires k < 8
    ensures At(X2(v), k, m)
         == if k == 7 then At(v, 0, m)
            else if k == 3 || k == 4 || k == 6 then At(v, k + 1, m) != At(v, 0, m)
            else At(v, k + 1, m)
  {
    hide Bit, Xor;
    XorBit(v.b4, v.b0, m);
    XorBit(v.b5, v.b0, m);
    XorBit(v.b7, v.b0, m);
  }

  lemma TransposeXTime(u: Words)
    ensures Transpose(Map(XTime, u)) == X2(Transpose(u))
  {
    hide At, Transpose, XTime, Map, X2;
    forall k: bv5, m: bv5 | k < 8 ensures At(Transpose(Map(XTime, u)), k, m) == At(X2(Transpose(u)), k, m) {
      var k', m' := 7 ^ (m & 7), (m & 24) | (7 ^ k);
      TransposeAt(Map(XTime, u), k, m);
      MapXTime(u, k', m');
      X2At(Transpose(u), k, m);
      TransposeAt(u, 0, m);
      assert (m & 24) | (7 ^ (0 as bv5)) == m' | 7;
      if k < 7 {
        TransposeAt(u, k + 1, m);
        assert (m & 24) | (7 ^ (k + 1)) == m' - 1;
      }
      assert m' & 7 == 7 ^ k;
    }
    SameAt(Transpose(Map(XTime, u)), X2(Transpose(u)));
  }

  /** InvMixColumn on every word, as sums. */
  lemma InvMixColumnSums(u: Words)
    ensures
      var x := Map(XTime, u);
      var q := Map(XTime, x);
      var y := Map(XTime, q);
      Map(InvMixColumn, u) == KeyMix(u, x, q, y)
  {
    hide XTime, Rotr8, Rotr16, Rotr24, Xor;
    KeyMixWord(u.b0);
    KeyMixWord(u.b1);
    KeyMixWord(u.b2);
    KeyMixWord(u.b3);
    KeyMixWord(u.b4);
    KeyMixWord(u.b5);
    KeyMixWord(u.b6);
    KeyMixWord(u.b7);
  }

  function KeyMix(v: Words, x: Words, q: Words, y: Words): Words {
    var s9 := Plus(y, v);
    Plus(Plus(Plus(Plus(Plus(y, q), x), Turn(s9)), Turn(Turn(Plus(s9, q)))), Turn(Turn(Turn(Plus(s9, x)))))
  }

  lemma KeyMixWord(s: bv32)
    ensures
      var s2 := XTime(s);
      var s4 := XTime(s2);
      var s8 := XTime(s4);
      var s9 := Xor(s8, s);
      InvMixColumn(s) == Xor(Xor(Xor(Xor(Xor(s8, s4), s2), Rotr8(s9)), Rotr8(Rotr8(Xor(s9, s4)))), Rotr8(Rotr8(Rotr8(Xor(s9, s2)))))
  {
    hide XTime, Rotr8, Rotr16, Rotr24, Xor;
    var s2 := XTime(s);
    var s9 := Xor(XTime(XTime(s2)), s);
    RotrLaws(Xor(s9, XTime(s2)), s);
    RotrLaws(Xor(s9, s2), s);
  }

  lemma KeyMixTransposes(v: Words, x: Words, q: Words, y: Words)
    ensures Transpose(KeyMix(v, x, q, y)) == KeyMix(Transpose(v), Transpose(x), Transpose(q), Transpose(y))
  {
    hide Transpose, Turn, Plus;
    var s9 := Plus(y, v);
    TransposePlus(y, v);
    TransposePlus(y, q);
    TransposePlus(Plus(y, q), x);
    TransposePlus(s9, q);
    TransposePlus(s9, x);
    TransposeTurn(s9);
    var c := Plus(s9, q);
    TransposeTurn(c);
    TransposeTurn(Turn(c));
    var d := Plus(s9, x);
    TransposeTurn(d);
    TransposeTurn(Turn(d));
    TransposeTurn(Turn(Turn(d)));
    var e := Plus(Plus(y, q), x);
    TransposePlus(e, Turn(s9));
    TransposePlus(Plus(e, Turn(s9)), Turn(Turn(c)));
    TransposePlus(Plus(Plus(e, Turn(s9)), Turn(Turn(c))), Turn(Turn(Turn(d))));
  }

  /** The word-wise polynomial of the key schedule is the composition inv_mix_columns uses. */
  lemma KeyMixIsInvMix(v: Words)
    ensures KeyMix(v, X2(v), X2(X2(v)), X2(X2(X2(v)))) == InvMixColumns(v)
  {
    hide X2, Turn, Plus, Xor, MixColumns, InvMixColumns;
    var x := X2(v);
    var q := X2(x);
    var y := X2(q);
    var w := Half(v);
    InvMixIsMixOfHalf(v);
    MixIsPolynomial(w);
    X2Linear(Plus(q, v), Turn(Turn(q)));
    X2Linear(q, v);
    TurnLinear(q, v);
    TurnLinear(Turn(q), v);
    assert X2(w) == Plus(Plus(y, x), Turn(Turn(y)));
    TurnSum(q, v, Turn(Turn(q)));
    TurnSum(y, x, Turn(Turn(y)));
    TurnLinear(w, X2(w));
    TurnLinear(Turn(w), Turn(X2(w)));
    TurnLinear(Turn(Turn(w)), Turn(Turn(X2(w))));
    TurnSums(y, v);
    TurnSum(y, v, q);
    TurnSum(y, v, x);
    hide Half;
    assert Turn(Turn(Turn(Turn(q)))) == q && Turn(Turn(Turn(Turn(y)))) == y by {
      TurnLinear(q, q);
      TurnLinear(y, y);
    }
    KeyTerms(v, q, x, y, Turn(q), Turn(v), Turn(Turn(Turn(q))), Turn(Turn(q)), Turn(Turn(v)), Turn(Turn(Turn(v))),
             Turn(Turn(y)), Turn(Turn(Turn(y))), Turn(Turn(Turn(x))), Turn(y));
  }

  lemma TurnSums(a: Words, b: Words)
    ensures Turn(Plus(a, b)) == Plus(Turn(a), Turn(b))
    ensures Turn(Turn(Plus(a, b))) == Plus(Turn(Turn(a)), Turn(Turn(b)))
    ensures Turn(Turn(Turn(Plus(a, b)))) == Plus(Turn(Turn(Turn(a))), Turn(Turn(Turn(b))))
  {
    hide Turn, Plus;
    TurnLinear(a, b);
    TurnLinear(Turn(a), Turn(b));
    TurnLinear(Turn(Turn(a)), Turn(Turn(b)));
  }

  lemma TurnSum(a: Words, b: Words, c: Words)
    ensures Turn(Plus(Plus(a, b), c)) == Plus(Plus(Turn(a), Turn(b)), Turn(c))
    ensures Turn(Turn(Plus(Plus(a, b), c))) == Plus(Plus(Turn(Turn(a)), Turn(Turn(b))), Turn(Turn(c)))
    ensures Turn(Turn(Turn(Plus(Plus(a, b), c))))
         == Plus(Plus(Turn(Turn(Turn(a))), Turn(Turn(Turn(b)))), Turn(Turn(Turn(c))))
  {
    hide Turn, Plus;
    TurnSums(a, b);
    TurnSums(Plus(a, b), c);
  }

  lemma KeyTerms(v: Words, q: Words, x: Words, y: Words, t1: Words, t2: Words, t3: Words, s1: Words, s2: Words, t4: Words,
                 c1: Words, u1: Words, u2: Words, u3: Words)
    ensures Plus(Plus(Plus(Plus(Plus(y, x), c1), Plus(Plus(t1, t2), t3)), Plus(Plus(s1, s2), q)),
                 Plus(Plus(Plus(t3, t4), t1), Plus(Plus(u1, u2), u3)))
         == Plus(Plus(Plus(Plus(Plus(y, q), x), Plus(u3, t2)), Plus(Plus(c1, s2), s1)), Plus(Plus(u1, t4), u2))
  {
    hide At, Plus;
    var l := Plus(Plus(Plus(Plus(Plus(y, x), c1), Plus(Plus(t1, t2), t3)), Plus(Plus(s1, s2), q)),
                  Plus(Plus(Plus(t3, t4), t1), Plus(Plus(u1, u2), u3)));
    var r := Plus(Plus(Plus(Plus(Plus(y, q), x), Plus(u3, t2)), Plus(Plus(c1, s2), s1)), Plus(Plus(u1, t4), u2));
    forall k: bv5, m: bv5 | k < 8 ensures At(l, k, m) == At(r, k, m) {
      PlusAt(k, m);
    }
    SameAt(l, r);
  }

  /** The round keys the key schedule prepares for decryption are those it prepares for encryption,
      sent through inv_mix_columns. */
  lemma DecryptionKeys(k0: bv32, k1: bv32, k2: bv32, k3: bv32)
    ensures KsExpand(InvMixColumn(k0), InvMixColumn(k1), InvMixColumn(k2), InvMixColumn(k3))
         == InvMixColumns(KsExpand(k0, k1, k2, k3))
  {
    hide KsExpand, InvMixColumn, InvMixColumns, Transpose, KeyMix, XTime, X2, Map;
    var u := Doubled(k0, k1, k2, k3);
    var v := Transpose(u);
    KsExpandIsTranspose(k0, k1, k2, k3);
    KsExpandIsTranspose(InvMixColumn(k0), InvMixColumn(k1), InvMixColumn(k2), InvMixColumn(k3));
    assert Map(InvMixColumn, u) == Doubled(InvMixColumn(k0), InvMixColumn(k1), InvMixColumn(k2), InvMixColumn(k3)) by {
      MapDoubled(k0, k1, k2, k3);
    }
    InvMixColumnSums(u);
    var x := Map(XTime, u);
    var q := Map(XTime, x);
    var y := Map(XTime, q);
    KeyMixTransposes(u, x, q, y);
    TransposeXTime(u);
    TransposeXTime(x);
    TransposeXTime(q);
    KeyMixIsInvMix(v);
  }

  lemma MapDoubled(k0: bv32, k1: bv32, k2: bv32, k3: bv32)
    ensures Map(InvMixColumn, Doubled(k0, k1, k2, k3))
         == Doubled(InvMixColumn(k0), InvMixColumn(k1), InvMixColumn(k2), InvMixColumn(k3))
  {
    hide InvMixColumn;
  }
}
