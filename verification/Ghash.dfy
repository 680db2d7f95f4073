/** The GHASH authenticator of GCM: key schedule with the interleaved table of multiples, the masked
    constant-time multiplication, padding, and the length block. */
module GhashMac {
  import opened Gf128
  import GhashClmul
  import O = OctetStrings
  import W = Words
  import opened Wrappers

  // ---------------------------------------------------------------- the table of multiples

  /** Multiples 1 to 64 and 65 to 128 of h (by powers of x), interleaved. */
  predicate HoldsMultiples(h: Block, hm: seq<bv64>) {
    && |hm| == 256
    && forall j :: 0 <= j < 64 ==>
         && Block(hm[4 * j], hm[4 * j + 1]) == MulXN(h, j)
         && Block(hm[4 * j + 2], hm[4 * j + 3]) == MulXN(h, 64 + j)
  }

  const R: bv64 := 0xE100_0000_0000_0000

  /** GCM's bit order is reversed, so the carry leaves at the bottom. */
  function Carry(h1: bv64): bv64 { R * (h1 & 1) }

  lemma WordCarry(h1: bv64)
    ensures Carry(h1) == if Bottom(h1) then R else 0
  {
    assert (h1 & 1) == 0 || (h1 & 1) == 1;
  }

  /** The branch-free step of the key schedule is multiplication by x. */
  lemma MulXWords(h: Block)
    ensures MulX(h) == Block(XorW(Right1(h.hi), Carry(h.lo)), RightInto(h.hi, h.lo))
  {
    hide XorW, Right1, RightInto, Bottom, Carry;
    WordCarry(h.lo);
    WordXor(RightInto(h.hi, h.lo), 0, 0, 0);
    WordXor(Right1(h.hi), 0, 0, 0);
  }

  /** The table entries that are filled after i rounds of the outer loop and j of the inner one. */
  predicate Filled(h: Block, hm: seq<bv64>, n: nat) {
    && |hm| == 256 && n <= 128
    && (forall j :: 0 <= j < 64 && j < n ==> Block(hm[4 * j], hm[4 * j + 1]) == MulXN(h, j))
    && (forall j :: 0 <= j < 64 && 64 + j < n ==> Block(hm[4 * j + 2], hm[4 * j + 3]) == MulXN(h, 64 + j))
  }

  lemma FilledStep(h: Block, hm: seq<bv64>, i: nat, j: nat, v: Block)
    requires i < 2 && j < 64 && Filled(h, hm, 64 * i + j) && v == MulXN(h, 64 * i + j)
    ensures Filled(h, hm[4 * j + 2 * i := v.hi][4 * j + 2 * i + 1 := v.lo], 64 * i + j + 1)
  {
    hide MulXN;
  }

  method BuildTable(h: Block, hm: array<bv64>)
    requires hm.Length == 256
    modifies hm
    ensures HoldsMultiples(h, hm[..])
  {
    hide MulX, MulXN, XorW, Right1, RightInto, Carry;
    var h0, h1 := h.hi, h.lo;
    GhashClmul.MulXNNone(h);
    for i := 0 to 2
      invariant Block(h0, h1) == MulXN(h, 64 * i)
      invariant Filled(h, hm[..], 64 * i)
    {
      for j := 0 to 64
        invariant Block(h0, h1) == MulXN(h, 64 * i + j)
        invariant Filled(h, hm[..], 64 * i + j)
      {
        hide Filled;
        FilledStep(h, hm[..], i, j, Block(h0, h1));
        hm[4 * j + 2 * i] := h0;
        hm[4 * j + 2 * i + 1] := h1;
        MulXWords(Block(h0, h1));
        GhashClmul.MulXNLast(h, 64 * i + j);
        var carry := Carry(h1);
        h1 := RightInto(h0, h1);
        h0 := XorW(Right1(h0), carry);
      }
    }
  }

  // ---------------------------------------------------------------- masked multiplication

  const ALL_BITS: bv64 := 0xFFFF_FFFF_FFFF_FFFF

  /** All ones if the top bit of w is set, else zero, without a branch. */
  function Mask(w: bv64): bv64 { (ALL_BITS + (w >> 63)) ^ ALL_BITS }

  function AndW(a: bv64, b: bv64): bv64 { a & b }

  lemma WordMask(w: bv64, m: bv64)
    ensures AndW(m, Mask(w)) == if Top(w) then m else 0
  {
  }

  function MaskBlock(b: Block, m: bv64): Block { Block(AndW(b.hi, m), AndW(b.lo, m)) }

  lemma MaskIsGate(b: Block, w: bv64)
    ensures MaskBlock(b, Mask(w)) == Gate(Top(w), b)
  {
    hide Mask, Top, AndW;
    WordMask(w, b.hi);
    WordMask(w, b.lo);
  }

  /** What is still missing from the product when i bits of both words have been used. */
  function Missing(x0: bv64, x1: bv64, h: Block, i: nat): Block
    requires i <= 64
  {
    Xor(Dot(WordBits(x0, 64 - i), MulXN(h, i)), Dot(WordBits(x1, 64 - i), MulXN(h, 64 + i)))
  }

  lemma MissingAll(x: Block, h: Block)
    ensures Missing(x.hi, x.lo, h, 0) == Mul(x, h)
  {
    hide Dot, MulXN, WordBits, Xor;
    GhashClmul.MulXNNone(h);
    DotConcat(WordBits(x.hi, 64), WordBits(x.lo, 64), h);
  }

  lemma MissingNone(x0: bv64, x1: bv64, h: Block)
    ensures Missing(x0, x1, h, 64) == ZERO
  {
    hide MulXN, Xor;
    XorAlgebra(ZERO, ZERO, ZERO, ZERO);
  }

  lemma DotFirst(w: bv64, n: nat, h: Block, k: nat)
    requires n > 0
    ensures Dot(WordBits(w, n), MulXN(h, k)) == Xor(Gate(Top(w), MulXN(h, k)), Dot(WordBits(Left1(w), n - 1), MulXN(h, k + 1)))
  {
    hide MulXN, Xor, MulX, Top, Left1;
    GhashClmul.MulXNLast(h, k);
    assert WordBits(w, n)[1..] == WordBits(Left1(w), n - 1);
  }

  lemma MissingStep(x0: bv64, x1: bv64, h: Block, i: nat, z: Block)
    requires i < 64
    ensures Xor(z, Missing(x0, x1, h, i))
         == Xor(Xor(Xor(z, Gate(Top(x0), MulXN(h, i))), Gate(Top(x1), MulXN(h, 64 + i))), Missing(Left1(x0), Left1(x1), h, i + 1))
  {
    hide MulXN, Xor, Dot, WordBits, Top, Left1;
    DotFirst(x0, 64 - i, h, i);
    DotFirst(x1, 64 - i, h, 64 + i);
    var (a, b) := (Gate(Top(x0), MulXN(h, i)), Gate(Top(x1), MulXN(h, 64 + i)));
    var (c, d) := (Dot(WordBits(Left1(x0), 63 - i), MulXN(h, i + 1)), Dot(WordBits(Left1(x1), 63 - i), MulXN(h, 65 + i)));
    XorAlgebra(a, c, b, d);
    XorAlgebra(z, Xor(a, b), Xor(c, d), ZERO);
    XorAlgebra(z, a, b, ZERO);
  }

  /** The masked loop over the table is GHASH. */
  method GhashMultiply(x: Block, hm: array<bv64>, input: seq<Block>, ghost h: Block) returns (r: Block)
    requires HoldsMultiples(h, hm[..])
    ensures r == Ghash(h, x, input)
  {
    hide Mul, MulXN, XorW, Ghash, Missing, Mask, Top, Left1;
    var x0, x1 := x.hi, x.lo;
    GhashNone(h, x);
    for b := 0 to |input|
      invariant Block(x0, x1) == Ghash(h, x, input[..b])
    {
      ghost var before := Block(x0, x1);
      x0 := XorW(x0, input[b].hi);
      x1 := XorW(x1, input[b].lo);
      assert Block(x0, x1) == Xor(before, input[b]);
      ghost var product := Mul(Block(x0, x1), h);
      MissingAll(Block(x0, x1), h);
      XorAlgebra(product, ZERO, ZERO, ZERO);
      var z0, z1 := 0, 0;
      for i := 0 to 64
        invariant Xor(Block(z0, z1), Missing(x0, x1, h, i)) == product
      {
        z0, z1, x0, x1 := Round(z0, z1, x0, x1, hm, i, h);
      }
      MissingNone(x0, x1, h);
      XorAlgebra(Block(z0, z1), ZERO, ZERO, ZERO);
      x0 := z0;
      x1 := z1;
      GhashStep(h, x, input[..b], input[b]);
      assert input[..b + 1] == input[..b] + [input[b]];
    }
    assert input[..|input|] == input;
    r := Block(x0, x1);
  }

  /** One bit of each word. */
  method Round(z0: bv64, z1: bv64, x0: bv64, x1: bv64, hm: array<bv64>, i: nat, ghost h: Block)
    returns (nz0: bv64, nz1: bv64, nx0: bv64, nx1: bv64)
    requires HoldsMultiples(h, hm[..]) && i < 64
    ensures Xor(Block(nz0, nz1), Missing(nx0, nx1, h, i + 1)) == Xor(Block(z0, z1), Missing(x0, x1, h, i))
  {
    hide Mul, MulXN, XorW, Missing, Mask, Top, Left1, AndW;
    var x0Mask := Mask(x0);
    var x1Mask := Mask(x1);
    ghost var a, b := MulXN(h, i), MulXN(h, 64 + i);
    assert a == Block(hm[4 * i], hm[4 * i + 1]) && b == Block(hm[4 * i + 2], hm[4 * i + 3]) by {
      assert hm[..][4 * i] == hm[4 * i] && hm[..][4 * i + 1] == hm[4 * i + 1];
      assert hm[..][4 * i + 2] == hm[4 * i + 2] && hm[..][4 * i + 3] == hm[4 * i + 3];
    }
    hide HoldsMultiples;
    MaskIsGate(a, x0);
    MaskIsGate(b, x1);
    MissingStep(x0, x1, h, i, Block(z0, z1));
    nx0 := Left1(x0);
    nx1 := Left1(x1);
    nz0 := XorW(z0, AndW(hm[4 * i], x0Mask));
    nz1 := XorW(z1, AndW(hm[4 * i + 1], x0Mask));
    nz0 := XorW(nz0, AndW(hm[4 * i + 2], x1Mask));
    nz1 := XorW(nz1, AndW(hm[4 * i + 3], x1Mask));
    assert Block(nz0, nz1) == Xor(Xor(Block(z0, z1), MaskBlock(a, x0Mask)), MaskBlock(b, x1Mask));
  }

  // ---------------------------------------------------------------- bytes and padding

  function BigEndian(s: seq<bv8>): bv64
    requires |s| == 8
  {
    (s[0] as bv64 << 56) | (s[1] as bv64 << 48) | (s[2] as bv64 << 40) | (s[3] as bv64 << 32)
    | (s[4] as bv64 << 24) | (s[5] as bv64 << 16) | (s[6] as bv64 << 8) | (s[7] as bv64)
  }

  function LowByte(w: bv64): bv8 { (w & 0xFF) as bv8 }

  function StoreBigEndian(w: bv64): (s: seq<bv8>)
    ensures |s| == 8
  {
    [LowByte(w >> 56), LowByte(w >> 48), LowByte(w >> 40), LowByte(w >> 32),
     LowByte(w >> 24), LowByte(w >> 16), LowByte(w >> 8), LowByte(w)]
  }

  lemma BigEndianRoundTrip(w: bv64)
    ensures BigEndian(StoreBigEndian(w)) == w
  {
  }

  function BlockOf(s: seq<bv8>): Block
    requires |s| == 16
  {
    Block(BigEndian(s[..8]), BigEndian(s[8..]))
  }

  function BytesOf(b: Block): (s: seq<bv8>)
    ensures |s| == 16
  {
    StoreBigEndian(b.hi) + StoreBigEndian(b.lo)
  }

  lemma BlockRoundTrip(b: Block)
    ensures BlockOf(BytesOf(b)) == b
  {
    hide BigEndian, StoreBigEndian;
    BigEndianRoundTrip(b.hi);
    BigEndianRoundTrip(b.lo);
    assert BytesOf(b)[..8] == StoreBigEndian(b.hi) && BytesOf(b)[8..] == StoreBigEndian(b.lo);
  }

  function Zeros(n: nat): (s: seq<bv8>)
    ensures |s| == n
  {
    seq(n, _ => 0)
  }

  /** The blocks of a byte string, the last one filled up with zeros. */
  function Padded(s: seq<bv8>): seq<Block> {
    if |s| == 0 then []
    else if |s| < 16 then [BlockOf(s + Zeros(16 - |s|))]
    else [BlockOf(s[..16])] + Padded(s[16..])
  }

  /** Cutting at a block boundary does not change the blocks. */
  lemma {:induction false} PaddedConcat(s: seq<bv8>, t: seq<bv8>)
    requires |s| % 16 == 0
    ensures Padded(s + t) == Padded(s) + Padded(t)
  {
    hide BlockOf, Zeros;
    if |s| == 0 {
      assert s + t == t;
    } else {
      var u := s[16..];
      assert (s + t)[..16] == s[..16] && (s + t)[16..] == u + t;
      PaddedConcat(u, t);
      assert Padded(s) == [BlockOf(s[..16])] + Padded(u);
    }
  }

  lemma PaddedShort(s: seq<bv8>)
    requires 0 < |s| < 16
    ensures Padded(s) == [BlockOf(s + Zeros(16 - |s|))]
  {
  }

  // ---------------------------------------------------------------- the tag

  const SIZE: nat := 0x1_0000_0000_0000_0000

  /** The k lowest binary digits of n as a machine word. */
  function WordOf(n: nat, k: nat): bv64 {
    if k == 0 then 0 else Digit(WordOf(n / 2, k - 1), n % 2 == 1)
  }

  /** A word with one more digit at the lower end. */
  function Digit(w: bv64, one: bool): bv64 { Left1(w) | (if one then 1 else 0) }

  /** The bit lengths of additional data and text, each in 64 bits. */
  function LengthBlock(adLen: nat, textLen: nat): Block {
    Block(WordOf(8 * adLen, 64), WordOf(8 * textLen, 64))
  }

  lemma {:induction false} WordOfSmall(n: nat, k: nat)
    requires k <= 63
    ensures !Top(WordOf(n, k))
  {
    WordOfWithin(n, k);
    GhashClmul.OnesWithin(k, 63);
    GhashClmul.OnesSixtyTwo();
    assert GhashClmul.Ones(63) == Left1(0x3FFF_FFFF_FFFF_FFFF) | 1 by {
      assert GhashClmul.Ones(63) == Left1(GhashClmul.Ones(62)) | 1;
    }
    hide WordOf, GhashClmul.Ones;
    NotTop(WordOf(n, k), GhashClmul.Ones(k));
  }

  lemma NotTop(w: bv64, m: bv64)
    requires GhashClmul.Within(w, m) && GhashClmul.Within(m, Left1(0x3FFF_FFFF_FFFF_FFFF) | 1)
    ensures !Top(w)
  {
  }

  lemma {:induction false} WordOfWithin(n: nat, k: nat)
    ensures GhashClmul.Within(WordOf(n, k), GhashClmul.Ones(k))
  {
    hide Digit, GhashClmul.Within, GhashClmul.Ones;
    if k == 0 {
      NoneWithin();
    } else {
      OnesDigit(k);
      WordOfWithin(n / 2, k - 1);
      DigitWithin(WordOf(n / 2, k - 1), GhashClmul.Ones(k - 1), n % 2 == 1);
    }
  }

  lemma NoneWithin()
    ensures GhashClmul.Within(0, GhashClmul.Ones(0))
  {
  }

  lemma OnesDigit(k: nat)
    requires k > 0
    ensures GhashClmul.Ones(k) == Digit(GhashClmul.Ones(k - 1), true)
  {
    hide Left1;
  }

  lemma DigitWithin(w: bv64, m: bv64, one: bool)
    requires GhashClmul.Within(w, m)
    ensures GhashClmul.Within(Digit(w, one), Digit(m, true))
  {
  }

  lemma WithoutDigit(w: bv64, one: bool)
    requires !Top(w)
    ensures Right1(Digit(w, one)) == w
  {
  }

  lemma LastDigit(w: bv64, one: bool)
    ensures Bottom(Digit(w, one)) == one
  {
  }

  /** Two numbers have the same k digits exactly when they are congruent modulo 2^k. */
  lemma {:induction false} WordOfEqual(m: nat, n: nat, k: nat)
    requires k <= 64
    ensures WordOf(m, k) == WordOf(n, k) <==> m % W.Pow2(k) == n % W.Pow2(k)
  {
    hide Digit, Top, Right1, Bottom;
    if k > 0 {
      WordOfEqual(m / 2, n / 2, k - 1);
      var v, w := WordOf(m / 2, k - 1), WordOf(n / 2, k - 1);
      WordOfSmall(m / 2, k - 1);
      WordOfSmall(n / 2, k - 1);
      WithoutDigit(v, m % 2 == 1);
      WithoutDigit(w, n % 2 == 1);
      LastDigit(v, m % 2 == 1);
      LastDigit(w, n % 2 == 1);
      ModTwice(m, W.Pow2(k - 1));
      ModTwice(n, W.Pow2(k - 1));
    }
  }

  lemma ModTwice(n: nat, p: nat)
    requires p > 0
    ensures n % (2 * p) == 2 * ((n / 2) % p) + n % 2
  {
    var q, r := (n / 2) / p, (n / 2) % p;
    assert n / 2 == q * p + r;
    assert 2 * (q * p) == q * (2 * p);
    W.DivUnique(n, 2 * p, q, 2 * r + n % 2);
  }

  lemma SizeIsPower()
    ensures W.Pow2(64) == SIZE && W.Pow2(61) == WRAP
  {
    SmallPowers();
    hide W.Pow2;
    W.Pow2Add(4, 4);
    W.Pow2Add(8, 8);
    W.Pow2Add(16, 16);
    W.Pow2Add(32, 32);
    W.Pow2Add(61, 3);
  }

  lemma SmallPowers()
    ensures W.Pow2(3) == 8 && W.Pow2(4) == 16
  {
  }

  // How a word is made up of bytes: the bytes of a block are its two numbers, each in network order.

  /** A word with one more byte at the lower end. */
  function Append(w: bv64, o: bv8): bv64 { (w << 8) | (o as bv64) }

  /** Four more digits. */
  function AppendNibble(w: bv64, h: bv8): bv64 { (w << 4) | (h as bv64) }

  /** Four digits at once. */
  function Digits4(w: bv64, p: bool, q: bool, r: bool, t: bool): bv64 { Digit(Digit(Digit(Digit(w, p), q), r), t) }

  lemma {:induction false} FourDigits(n: nat, k: nat)
    requires k >= 4
    ensures WordOf(n, k) == Digits4(WordOf(n / 16, k - 4), n / 8 % 2 == 1, n / 4 % 2 == 1, n / 2 % 2 == 1, n % 2 == 1)
  {
    hide Digit;
    assert n / 2 / 2 == n / 4 && n / 4 / 2 == n / 8 && n / 8 / 2 == n / 16;
    assert WordOf(n, k) == Digit(WordOf(n / 2, k - 1), n % 2 == 1);
    assert WordOf(n / 2, k - 1) == Digit(WordOf(n / 4, k - 2), n / 2 % 2 == 1);
    assert WordOf(n / 4, k - 2) == Digit(WordOf(n / 8, k - 3), n / 4 % 2 == 1);
    assert WordOf(n / 8, k - 3) == Digit(WordOf(n / 16, k - 4), n / 8 % 2 == 1);
  }

  lemma ByteOfNibbles(w: bv64, h: bv8, l: bv8)
    requires h < 16 && l < 16
    ensures AppendNibble(AppendNibble(w, h), l) == Append(w, O.Join(h, l))
  {
  }

  lemma EightDigits(n: nat, k: nat)
    requires k >= 8
    ensures WordOf(n, k) == Append(WordOf(n / 256, k - 8), O.Octet(n % 256))
  {
    hide WordOf, Digits4, Append, AppendNibble, O.Nibble, O.Join;
    var b := n % 256;
    FourDigits(n, k);
    FourDigits(n / 16, k - 4);
    TwoNibbles(n);
    NibbleDigitsOf(n, WordOf(n / 16, k - 4));
    NibbleDigitsOf(n / 16, WordOf(n / 256, k - 8));
    O.NibbleRange(b / 16);
    O.NibbleRange(b % 16);
    ByteOfNibbles(WordOf(n / 256, k - 8), O.Nibble(b / 16), O.Nibble(b % 16));
  }

  lemma TwoNibbles(n: nat)
    ensures n / 16 / 16 == n / 256 && n % 16 == n % 256 % 16 && n / 16 % 16 == n % 256 / 16
  {
    var q, b := n / 256, n % 256;
    assert n == 256 * q + b;
    assert n / 16 == 16 * q + b / 16;
  }

  lemma NibbleDigitsOf(n: nat, w: bv64)
    ensures Digits4(w, n / 8 % 2 == 1, n / 4 % 2 == 1, n / 2 % 2 == 1, n % 2 == 1) == AppendNibble(w, O.Nibble(n % 16))
  {
    hide Digits4, O.Nibble, AppendNibble;
    SameDigits(n / 16, n % 16);
    NibbleDigits(n % 16, w);
  }

  lemma SameDigits(q: nat, h: nat)
    requires h < 16
    ensures (16 * q + h) / 8 % 2 == h / 8 % 2 && (16 * q + h) / 4 % 2 == h / 4 % 2
    ensures (16 * q + h) / 2 % 2 == h / 2 % 2 && (16 * q + h) % 2 == h % 2
  {
    assert (16 * q + h) / 8 == 2 * q + h / 8 && (16 * q + h) / 4 == 4 * q + h / 4 && (16 * q + h) / 2 == 8 * q + h / 2;
  }

  lemma StoreAppends(a: bv8, b: bv8, c: bv8, d: bv8, e: bv8, f: bv8, g: bv8, h: bv8)
    ensures StoreBigEndian(Append(Append(Append(Append(Append(Append(Append(Append(0, a), b), c), d), e), f), g), h))
         == [a, b, c, d, e, f, g, h]
  {
  }

  lemma NibbleDigits(h: nat, w: bv64)
    requires h < 16
    ensures Digits4(w, h / 8 % 2 == 1, h / 4 % 2 == 1, h / 2 % 2 == 1, h % 2 == 1) == AppendNibble(w, O.Nibble(h))
  {
  }

  /** The word of some bytes, the highest first. */
  function Appended(s: seq<bv8>): bv64 {
    if |s| == 0 then 0 else Append(Appended(s[..|s| - 1]), s[|s| - 1])
  }

  lemma {:induction false} WordOfBytes(n: nat, k: nat)
    ensures WordOf(n, 8 * k) == Appended(O.Octets(W.BeBytes(n, k)))
    decreases k
  {
    hide Append, O.Octet, WordOf;
    if k > 0 {
      WordOfBytes(n / 256, k - 1);
      EightDigits(n, 8 * k);
      var s := O.Octets(W.BeBytes(n, k));
      assert s[..k - 1] == O.Octets(W.BeBytes(n / 256, k - 1)) && s[k - 1] == O.Octet(n % 256);
    } else {
      NoDigits(n);
    }
  }

  lemma NoDigits(n: nat)
    ensures WordOf(n, 0) == 0
  {
  }

  lemma AppendedEight(s: seq<bv8>)
    requires |s| == 8
    ensures StoreBigEndian(Appended(s)) == s
  {
    hide StoreBigEndian, Append;
    assert s[..1][..0] == [] && s[..2][..1] == s[..1] && s[..3][..2] == s[..2] && s[..4][..3] == s[..3];
    assert s[..5][..4] == s[..4] && s[..6][..5] == s[..5] && s[..7][..6] == s[..6];
    assert Appended(s[..1]) == Append(0, s[0]);
    assert Appended(s[..2]) == Append(Appended(s[..1]), s[1]);
    assert Appended(s[..3]) == Append(Appended(s[..2]), s[2]);
    assert Appended(s[..4]) == Append(Appended(s[..3]), s[3]);
    assert Appended(s[..5]) == Append(Appended(s[..4]), s[4]);
    assert Appended(s[..6]) == Append(Appended(s[..5]), s[5]);
    assert Appended(s[..7]) == Append(Appended(s[..6]), s[6]);
    StoreAppends(s[0], s[1], s[2], s[3], s[4], s[5], s[6], s[7]);
  }

  /** The bytes of the last block: the bit length of the additional data and that of the text, both in network
      order and modulo 2^64. */
  lemma LengthBytes(adLen: nat, textLen: nat)
    ensures BytesOf(LengthBlock(adLen, textLen)) == O.Octets(W.BeBytes(8 * adLen, 8)) + O.Octets(W.BeBytes(8 * textLen, 8))
    ensures W.BeValue(W.BeBytes(8 * adLen, 8)) == 8 * adLen % SIZE && W.BeValue(W.BeBytes(8 * textLen, 8)) == 8 * textLen % SIZE
  {
    hide WordOf, StoreBigEndian, W.BeBytes, W.BeValue;
    WordOfBytes(8 * adLen, 8);
    WordOfBytes(8 * textLen, 8);
    AppendedEight(O.Octets(W.BeBytes(8 * adLen, 8)));
    AppendedEight(O.Octets(W.BeBytes(8 * textLen, 8)));
    W.BeValueOfBytes(8 * adLen, 8);
    W.BeValueOfBytes(8 * textLen, 8);
    EightBytesPower();
  }

  lemma EightBytesPower()
    ensures W.Pow256(8) == SIZE
  {
    assert W.Pow256(4) == 0x1_0000_0000;
  }

  /** Lengths wrap at 2^61 bytes: that is when two length blocks are the same. */
  lemma LengthBlocksEqual(m: nat, n: nat, m': nat, n': nat)
    ensures LengthBlock(m, n) == LengthBlock(m', n') <==> m % WRAP == m' % WRAP && n % WRAP == n' % WRAP
  {
    hide WordOf, W.Pow2;
    SizeIsPower();
    WordOfEqual(8 * m, 8 * m', 64);
    WordOfEqual(8 * n, 8 * n', 64);
    BitLength(m);
    BitLength(n);
    BitLength(m');
    BitLength(n');
  }

  const WRAP: nat := 0x2000_0000_0000_0000

  lemma BitLength(n: nat)
    ensures (8 * n) % SIZE == 8 * (n % WRAP)
  {
    assert 8 * n == 8 * (n % WRAP) + SIZE * (n / WRAP);
  }

  /** A counter that has wrapped gives the same length block. */
  lemma LengthBlockWraps(adLen: nat, textLen: nat)
    ensures LengthBlock(adLen % SIZE, textLen % SIZE) == LengthBlock(adLen, textLen)
  {
    hide LengthBlock;
    ModMod(adLen);
    ModMod(textLen);
    LengthBlocksEqual(adLen % SIZE, textLen % SIZE, adLen, textLen);
  }

  lemma ModMod(n: nat)
    ensures (n % SIZE) % WRAP == n % WRAP
  {
    var q, r := n / SIZE, n % SIZE;
    W.DivUnique(n, WRAP, 8 * q + r / WRAP, r % WRAP);
  }

  function XorBytes(a: seq<bv8>, b: seq<bv8>): (r: seq<bv8>)
    requires |a| == |b|
    ensures |r| == |a|
  {
    seq(|a|, i requires 0 <= i < |a| => XorByte(a[i], b[i]))
  }

  function XorByte(a: bv8, b: bv8): bv8 { a ^ b }

  /** The hash of additional data and text, without the lengths. */
  function HashOf(h: Block, ad: seq<bv8>, text: seq<bv8>): Block { Ghash(h, ZERO, Padded(ad) + Padded(text)) }

  lemma HashOfFixed(h: Block, ad: seq<bv8>)
    ensures HashOf(h, ad, []) == Ghash(h, ZERO, Padded(ad))
  {
    hide Ghash;
    PaddedNone();
    assert Padded(ad) + [] == Padded(ad);
  }

  lemma HashOfNothing(h: Block)
    ensures HashOf(h, [], []) == ZERO
  {
    PaddedNone();
    GhashNone(h, ZERO);
  }

  lemma AdGrows(h: Block, ad: seq<bv8>, input: seq<bv8>)
    requires |ad| % 16 == 0
    ensures HashOf(h, ad + input, []) == Ghash(h, HashOf(h, ad, []), Padded(input))
  {
    hide Ghash, Padded, HashOf;
    HashOfFixed(h, ad);
    HashOfFixed(h, ad + input);
    PaddedConcat(ad, input);
    GhashMore(h, ZERO, Padded(ad), Padded(input));
  }

  lemma TextGrows(h: Block, ad: seq<bv8>, text: seq<bv8>, input: seq<bv8>)
    requires |text| % 16 == 0
    ensures HashOf(h, ad, text + input) == Ghash(h, HashOf(h, ad, text), Padded(input))
  {
    hide Ghash, Padded;
    PaddedConcat(text, input);
    assert Padded(ad) + Padded(text + input) == (Padded(ad) + Padded(text)) + Padded(input);
    GhashMore(h, ZERO, Padded(ad) + Padded(text), Padded(input));
  }

  /** A block-aligned part and the rest. */
  lemma PartsHash(h: Block, x: Block, whole: seq<bv8>, rest: seq<bv8>)
    requires |whole| % 16 == 0
    ensures Ghash(h, x, Padded(whole + rest)) == Ghash(h, Ghash(h, x, Padded(whole)), Padded(rest))
    ensures whole == [] ==> Ghash(h, x, Padded(whole)) == x
    ensures rest == [] ==> Ghash(h, x, Padded(whole + rest)) == Ghash(h, x, Padded(whole))
  {
    hide Ghash;
    PaddedConcat(whole, rest);
    GhashMore(h, x, Padded(whole), Padded(rest));
    GhashNone(h, x);
    GhashNone(h, Ghash(h, x, Padded(whole)));
    PaddedNone();
  }

  /** The GCM tag (section 7.1 of NIST SP 800-38D, steps 4 to 6), given the enciphered counter block. */
  function GcmTag(h: Block, mask: seq<bv8>, ad: seq<bv8>, text: seq<bv8>): seq<bv8>
    requires |mask| == 16
  {
    XorBytes(BytesOf(Ghash(h, ZERO, Padded(ad) + Padded(text) + [LengthBlock(|ad|, |text|)])), mask)
  }

  /** The tag with other lengths in its last block than those of the data. */
  function CountedTag(h: Block, mask: seq<bv8>, ad: seq<bv8>, text: seq<bv8>, adLen: nat, textLen: nat): (t: seq<bv8>)
    requires |mask| == 16
    ensures |t| == 16
  {
    XorBytes(BytesOf(Ghash(h, ZERO, Padded(ad) + Padded(text) + [LengthBlock(adLen, textLen)])), mask)
  }

  lemma CountedTagOfHash(h: Block, mask: seq<bv8>, ad: seq<bv8>, text: seq<bv8>, adLen: nat, textLen: nat)
    requires |mask| == 16
    ensures CountedTag(h, mask, ad, text, adLen, textLen)
         == XorBytes(BytesOf(Ghash(h, HashOf(h, ad, text), [LengthBlock(adLen, textLen)])), mask)
  {
    hide Ghash, BytesOf, LengthBlock, Padded, XorBytes;
    GhashMore(h, ZERO, Padded(ad) + Padded(text), [LengthBlock(adLen, textLen)]);
  }

  lemma MaskInjective(a: seq<bv8>, b: seq<bv8>, mask: seq<bv8>)
    requires |a| == |b| == |mask| && XorBytes(a, mask) == XorBytes(b, mask)
    ensures a == b
  {
    hide XorByte;
    forall i | 0 <= i < |a| ensures a[i] == b[i] {
      assert XorBytes(a, mask)[i] == XorByte(a[i], mask[i]) && XorBytes(b, mask)[i] == XorByte(b[i], mask[i]);
      XorByteInjective(a[i], b[i], mask[i]);
    }
  }

  lemma XorByteInjective(a: bv8, b: bv8, m: bv8)
    requires XorByte(a, m) == XorByte(b, m)
    ensures a == b
  {
  }

  /** Two tags that differ in the lengths only differ by a multiple of h. */
  lemma CountedTagsEqual(h: Block, mask: seq<bv8>, ad: seq<bv8>, text: seq<bv8>, m: nat, n: nat, m': nat, n': nat)
    requires |mask| == 16
    ensures CountedTag(h, mask, ad, text, m, n) == CountedTag(h, mask, ad, text, m', n')
       <==> Mul(Xor(LengthBlock(m, n), LengthBlock(m', n')), h) == ZERO
  {
    hide Ghash, Mul, BytesOf, BlockOf, LengthBlock, Padded, XorBytes, Xor;
    var s := Padded(ad) + Padded(text);
    var g, b, b' := Ghash(h, ZERO, s), LengthBlock(m, n), LengthBlock(m', n');
    GhashStep(h, ZERO, s, b);
    GhashStep(h, ZERO, s, b');
    var x, y := Mul(Xor(g, b), h), Mul(Xor(g, b'), h);
    MulXor(Xor(g, b), Xor(g, b'), h);
    SumZero(g, b, b');
    SumZero(x, y, y);
    BlockRoundTrip(x);
    BlockRoundTrip(y);
    if XorBytes(BytesOf(x), mask) == XorBytes(BytesOf(y), mask) {
      MaskInjective(BytesOf(x), BytesOf(y), mask);
    }
  }

  lemma SumZero(g: Block, b: Block, b': Block)
    ensures Xor(Xor(g, b), Xor(g, b')) == Xor(b, b')
    ensures Xor(g, b) == ZERO <==> g == b
  {
    hide Xor;
    XorAlgebra(g, b, g, b');
    XorAlgebra(Xor(b, b'), b, b, b);
    XorAlgebra(g, g, g, g);
    XorAlgebra(g, b, b, b);
    XorAlgebra(b, b, b, b);
  }

  /** The first bytes of the masked hash. */
  method MaskedWith(hash: seq<bv8>, nonce: seq<bv8>, size: nat) returns (mac: seq<bv8>)
    requires |hash| == |nonce| == 16 && size <= 16
    ensures mac == XorBytes(hash, nonce)[..size]
  {
    var i := 0;
    mac := [];
    while i != size
      invariant i <= size && |mac| == i
      invariant mac == XorBytes(hash, nonce)[..i]
    {
      mac := mac + [XorByte(hash[i], nonce[i])];
      i := i + 1;
    }
  }

  class GhashState {
    const clmul: bool
    const hm: array<bv64>
    const hPow: array<bv64>
    ghost const h: Block
    var hAd: Block
    var ghash: Option<Block>
    var nonce: seq<bv8>
    var adLen: nat
    var textLen: nat

    // Additional data set in advance, additional data and text of the current message, lengths of
    // additional data and text of earlier messages that are still counted, and whether every piece
    // except the last one of each kind was a whole number of blocks.
    ghost var fixedAd: seq<bv8>
    ghost var ad: seq<bv8>
    ghost var text: seq<bv8>
    ghost var stale: nat
    ghost var staleText: nat
    ghost var aligned: bool

    /** The tables are those of the key. */
    ghost predicate Keyed()
      reads hm, hPow
    {
      HoldsMultiples(h, hm[..]) && (clmul ==> GhashClmul.HoldsPowers(h, hPow[..]))
    }

    ghost predicate Valid()
      reads this, hm, hPow
    {
      && Keyed()
      && hAd == HashOf(h, fixedAd, [])
      && (ghash.Some? ==> |nonce| == 16)
      && fixedAd <= ad
      && adLen == (|ad| + stale) % SIZE
      && textLen == (|text| + staleText) % SIZE
      && (ghash.None? ==> ad == fixedAd && text == [] && staleText == 0)
      && (ghash.Some? && aligned ==> ghash.value == HashOf(h, ad, text))
    }

    /** key_schedule, from an explicit zero state. */
    constructor (key: seq<bv8>, hasClmul: bool)
      requires |key| == 16
      ensures Valid() && fresh(hm) && fresh(hPow)
      ensures h == BlockOf(key) && clmul == hasClmul
      ensures fixedAd == ad == text == [] && ghash == None && stale == 0
    {
      hide HoldsMultiples, GhashClmul.HoldsPowers, HashOf, BlockOf;
      var k := BlockOf(key);
      h := k;
      clmul := hasClmul;
      hm := new bv64[256];
      hPow := new bv64[8];
      hAd, ghash, nonce, adLen, textLen := ZERO, None, [], 0, 0;
      fixedAd, ad, text, stale, staleText, aligned := [], [], [], 0, 0, true;
      new;
      HashOfNothing(h);
      BuildTable(k, hm);
      if hasClmul {
        GhashClmul.GhashPrecompute(k, hPow);
      }
    }

    /** Dispatch on what the processor offers. */
    method Multiply(x: Block, input: seq<Block>) returns (r: Block)
      requires Keyed()
      ensures r == Ghash(h, x, input)
    {
      if clmul {
        r := GhashClmul.GhashMultiply(x, hPow, input, h);
      } else {
        r := GhashMultiply(x, hm, input, h);
      }
    }

    /** ghash_update: whole blocks, then the rest padded with zeros. */
    method Absorb(x: Block, input: seq<bv8>) returns (r: Block)
      requires Keyed()
      ensures r == Ghash(h, x, Padded(input))
    {
      hide Keyed, Ghash, Padded, BlockOf;
      r := x;
      var fullBlocks := |input| / 16;
      var finalBytes := |input| - fullBlocks * 16;
      var whole, rest := input[..16 * fullBlocks], input[16 * fullBlocks..];
      assert input == whole + rest;
      PartsHash(h, x, whole, rest);
      if fullBlocks > 0 {
        r := Multiply(r, Padded(whole));
      }
      if finalBytes > 0 {
        PaddedShort(rest);
        r := Multiply(r, [BlockOf(rest + Zeros(16 - finalBytes))]);
      }
    }

    method SetAssociatedData(input: seq<bv8>) returns (ok: bool)
      requires Valid()
      modifies this
      ensures Valid() && ok == old(ghash.None?)
      ensures ok ==> ghash.None? && fixedAd == ad == input && stale == 0
      ensures !ok ==> unchanged(this)
    {
      hide Keyed, HashOf, Ghash, Padded;
      if ghash.Some? {
        return false;
      }
      HashOfFixed(h, input);
      hAd := Absorb(ZERO, input);
      adLen := |input| % SIZE;
      fixedAd, ad, stale := input, input, 0;
      ok := true;
    }

    /** A new message.  One that was not finished leaves its lengths behind, for they are not reset here. */
    method Start(n: seq<bv8>) returns (ok: bool)
      requires Valid()
      modifies this
      ensures Valid() && ok == (|n| == 16)
      ensures ok ==> ghash.Some? && nonce == n && aligned && ad == fixedAd == old(fixedAd) && text == []
      ensures ok ==> stale == old(stale + |ad| - |fixedAd|) && staleText == old(staleText + |text|)
      ensures !ok ==> unchanged(this)
    {
      hide Keyed, HashOf;
      if |n| != 16 {
        return false;
      }
      nonce := n;
      ghash := Some(hAd);
      stale, staleText := stale + |ad| - |fixedAd|, staleText + |text|;
      ad, text, aligned := fixedAd, [], true;
      ok := true;
    }

    method UpdateAssociatedData(input: seq<bv8>)
      requires Valid() && ghash.Some?
      modifies this
      ensures Valid() && ghash.Some? && nonce == old(nonce)
      ensures fixedAd == old(fixedAd) && ad == old(ad) + input && text == old(text)
      ensures stale == old(stale) && staleText == old(staleText)
      ensures aligned == (old(aligned) && old(|ad|) % 16 == 0 && old(text) == [])
    {
      hide Keyed, HashOf, Ghash, Padded;
      AddWraps(|ad| + stale, |input|);
      adLen := (adLen + |input|) % SIZE;
      var next := Absorb(ghash.value, input);
      aligned := aligned && |ad| % 16 == 0 && text == [];
      if aligned {
        AdGrows(h, ad, input);
      }
      ghash := Some(next);
      ad := ad + input;
    }

    method Update(input: seq<bv8>)
      requires Valid() && ghash.Some?
      modifies this
      ensures Valid() && ghash.Some? && nonce == old(nonce)
      ensures fixedAd == old(fixedAd) && ad == old(ad) && text == old(text) + input
      ensures stale == old(stale) && staleText == old(staleText)
      ensures aligned == (old(aligned) && old(|text|) % 16 == 0)
    {
      hide Keyed, HashOf, Ghash, Padded;
      AddWraps(|text| + staleText, |input|);
      textLen := (textLen + |input|) % SIZE;
      var next := Absorb(ghash.value, input);
      aligned := aligned && |text| % 16 == 0;
      if aligned {
        TextGrows(h, ad, text, input);
      }
      ghash := Some(next);
      text := text + input;
    }

    /** add_final_block on what is hashed so far, and the enciphered counter block. */
    method Digest(size: nat) returns (mac: seq<bv8>)
      requires Valid() && ghash.Some? && 0 < size <= 16
      ensures |mac| == size
      ensures aligned ==> mac == CountedTag(h, nonce, ad, text, |ad| + stale, |text| + staleText)[..size]
    {
      hide Keyed, HashOf, Ghash, Padded, BytesOf, BlockOf, LengthBlock, XorBytes, CountedTag;
      var last := LengthBlock(adLen, textLen);
      LengthBlockWraps(|ad| + stale, |text| + staleText);
      BlockRoundTrip(last);
      PaddedWhole(BytesOf(last));
      var hash := Absorb(ghash.value, BytesOf(last));
      CountedTagOfHash(h, nonce, ad, text, |ad| + stale, |text| + staleText);
      mac := MaskedWith(BytesOf(hash), nonce, size);
    }

    /** The tag, with the lengths as they have been counted.  The count of additional data is not reset here, so
        data added by UpdateAssociatedData is counted again in the next message. */
    method Final(size: nat) returns (mac: seq<bv8>)
      requires Valid() && ghash.Some? && 0 < size <= 16
      modifies this
      ensures Valid() && ghash == None && nonce == old(nonce)
      ensures fixedAd == old(fixedAd) && stale == old(stale + |ad| - |fixedAd|)
      ensures |mac| == size
      ensures old(aligned) ==>
                mac == CountedTag(h, nonce, old(ad), old(text), old(|ad| + stale), old(|text| + staleText))[..size]
    {
      hide Keyed, HashOf, CountedTag;
      mac := Digest(size);
      stale, staleText := stale + |ad| - |fixedAd|, 0;
      ghash := None;
      textLen := 0;
      ad, text := fixedAd, [];
    }

    /** Everything but the key is forgotten, and with it every length still counted. */
    method Reset()
      requires Valid()
      modifies this
      ensures Valid() && ghash == None && fixedAd == [] && stale == 0
    {
      hide Keyed, HashOf;
      HashOfNothing(h);
      ghash, nonce := None, [];
      hAd, fixedAd := ZERO, [];
      adLen, ad, stale := 0, [], 0;
      textLen, text, staleText := 0, [], 0;
      assert Keyed();
    }
  }

  // ---------------------------------------------------------------- lengths that are still counted

  /** The tag of a message is that of GCM exactly when the lengths counted too much make no difference under h. */
  lemma StaleTagIsGcmTag(h: Block, mask: seq<bv8>, ad: seq<bv8>, text: seq<bv8>, stale: nat, staleText: nat)
    requires |mask| == 16
    ensures CountedTag(h, mask, ad, text, |ad| + stale, |text| + staleText) == GcmTag(h, mask, ad, text)
       <==> Mul(Xor(LengthBlock(|ad| + stale, |text| + staleText), LengthBlock(|ad|, |text|)), h) == ZERO
  {
    hide Ghash, Mul, BytesOf, LengthBlock, Padded, XorBytes, Xor;
    CountedTagsEqual(h, mask, ad, text, |ad| + stale, |text| + staleText, |ad|, |text|);
  }

  lemma Wraps(n: nat, stale: nat)
    requires stale % WRAP == 0
    ensures (n + stale) % WRAP == n % WRAP
  {
  }

  /** Lengths counted too much do no harm when they are multiples of 2^61 bytes. */
  lemma WholeWrapsDoNoHarm(h: Block, mask: seq<bv8>, ad: seq<bv8>, text: seq<bv8>, stale: nat, staleText: nat)
    requires |mask| == 16 && stale % WRAP == 0 && staleText % WRAP == 0
    ensures CountedTag(h, mask, ad, text, |ad| + stale, |text| + staleText) == GcmTag(h, mask, ad, text)
  {
    hide BytesOf, Ghash, Padded, XorBytes, LengthBlock;
    Wraps(|ad|, stale);
    Wraps(|text|, staleText);
    LengthBlocksEqual(|ad| + stale, |text| + staleText, |ad|, |text|);
  }

  lemma LengthsOfExample()
    ensures Mul(Xor(LengthBlock(16, 0), LengthBlock(0, 0)), ONE) != ZERO
  {
    hide Mul, Xor, LengthBlock;
    LengthBlocksEqual(16, 0, 0, 0);
    SumZero(LengthBlock(16, 0), LengthBlock(0, 0), ZERO);
    MulOne(Xor(LengthBlock(16, 0), LengthBlock(0, 0)));
  }

  /** Under the hash key 1, one block of additional data in a first message spoils the tag of a second, empty one. */
  method StaleCount(nonce: seq<bv8>) returns (mac: seq<bv8>)
    requires |nonce| == 16
    ensures |mac| == 16 && mac != GcmTag(ONE, nonce, [], [])
  {
    hide Ghash, Mul, BlockOf, BytesOf, LengthBlock, Padded, XorBytes, Xor, HoldsMultiples, GhashClmul.HoldsPowers;
    BlockRoundTrip(ONE);
    var g := new GhashState(BytesOf(ONE), false);
    var ok := g.Start(nonce);
    g.UpdateAssociatedData(Zeros(16));
    mac := g.Final(16);
    ok := g.Start(nonce);
    mac := g.Final(16);
    LengthsOfExample();
    StaleTagIsGcmTag(ONE, nonce, [], [], 16, 0);
  }

  lemma PaddedNone()
    ensures Padded([]) == []
  {
  }

  lemma PaddedWhole(s: seq<bv8>)
    requires |s| == 16
    ensures Padded(s) == [BlockOf(s)]
  {
    hide BlockOf;
    assert s[..16] == s && s[16..] == [];
  }

  lemma AddWraps(a: nat, b: nat)
    ensures (a % SIZE + b) % SIZE == (a + b) % SIZE
  {
    assert a + b == (a % SIZE + b) + SIZE * (a / SIZE);
  }
}
