/** Machine words and byte strings.

    A machine word is modelled by the natural number it holds; the width of every operation
    is written out where the source's type truncates.  The bitwise operators are defined by
    recursion on the binary digits. */
module Words {
  type byte = x: int | 0 <= x < 256
  type u32 = x: int | 0 <= x < 0x1_0000_0000
  type u64 = x: int | 0 <= x < 0x1_0000_0000_0000_0000

  const TWO64: int := 0x1_0000_0000_0000_0000

  /** Truncation to an unsigned 64-bit word. */
  function U64(x: int): u64 { x % 0x1_0000_0000_0000_0000 }

  /** Truncation to an unsigned 32-bit word. */
  function U32(x: int): u32 { x % 0x1_0000_0000 }

  function Pow2(n: nat): (r: nat)
    ensures r > 0
  {
    if n == 0 then 1 else 2 * Pow2(n - 1)
  }

  lemma {:induction false} Pow2Add(m: nat, n: nat)
    ensures Pow2(m + n) == Pow2(m) * Pow2(n)
  {
    if m == 0 {
    } else {
      Pow2Add(m - 1, n);
      assert 2 * (Pow2(m - 1) * Pow2(n)) == (2 * Pow2(m - 1)) * Pow2(n);
    }
  }

  // ---------------------------------------------------------------- bitwise operators

  function Or(a: nat, b: nat): nat {
    if a == 0 && b == 0 then 0 else 2 * Or(a / 2, b / 2) + (if a % 2 == 1 || b % 2 == 1 then 1 else 0)
  }

  function And(a: nat, b: nat): nat {
    if a == 0 && b == 0 then 0 else 2 * And(a / 2, b / 2) + (if a % 2 == 1 && b % 2 == 1 then 1 else 0)
  }

  function Xor(a: nat, b: nat): nat {
    if a == 0 && b == 0 then 0 else 2 * Xor(a / 2, b / 2) + (a % 2 + b % 2) % 2
  }

  lemma {:induction false} OrZero(a: nat)
    ensures Or(0, a) == a
  {
    if a == 0 {
    } else {
      OrZero(a / 2);
    }
  }

  /** OR of words whose set bits cannot overlap is their sum. */
  lemma {:induction false} OrDisjoint(a: nat, b: nat, k: nat)
    requires a < Pow2(k) && b % Pow2(k) == 0
    ensures Or(a, b) == a + b
  {
    if k == 0 {
      OrZero(b);
    } else {
      HalfMultiple(b, k);
      OrDisjoint(a / 2, b / 2, k - 1);
    }
  }

  lemma HalfMultiple(b: nat, k: nat)
    requires k > 0 && b % Pow2(k) == 0
    ensures b % 2 == 0 && (b / 2) % Pow2(k - 1) == 0
  {
    var p := Pow2(k - 1);
    var q := b / (2 * p);
    assert b == (2 * p) * q;
    assert b == 2 * (p * q);
    assert b / 2 == p * q;
    assert (p * q) % p == 0 by { MultipleMod(q, p); }
  }

  lemma MultipleMod(q: int, p: nat)
    requires p > 0
    ensures (p * q) % p == 0 && (q * p) % p == 0
    ensures (p * q) / p == q && (q * p) / p == q
  {
    assert p * q == q * p;
    DivUnique(q * p, p, q, 0);
  }

  /** Quotient and remainder are unique. */
  lemma DivUnique(x: int, d: nat, q: int, r: int)
    requires d > 0 && x == q * d + r && 0 <= r < d
    ensures x / d == q && x % d == r
  {
    assert (x / d - q) * d == r - x % d;
    SmallMultiple(x / d - q, d);
  }

  lemma SmallMultiple(k: int, d: int)
    requires d > 0
    ensures -d < k * d < d ==> k == 0
  {
    assert k >= 1 ==> k * d >= d;
    assert k <= -1 ==> k * d <= -d;
  }

  /** Logical shift right: drops the k low digits. */
  function Shr(x: nat, k: nat): nat {
    if k == 0 then x else Shr(x / 2, k - 1)
  }

  /** The k low digits. */
  function Low(x: nat, k: nat): nat {
    if k == 0 then 0 else x % 2 + 2 * Low(x / 2, k - 1)
  }

  lemma {:induction false} SplitDigits(x: nat, k: nat)
    ensures x == Low(x, k) + Pow2(k) * Shr(x, k)
    ensures Low(x, k) < Pow2(k)
  {
    if k == 0 {
    } else {
      SplitDigits(x / 2, k - 1);
      TwiceMoves(Pow2(k - 1), Shr(x / 2, k - 1));
    }
  }

  lemma TwiceMoves(p: nat, s: nat)
    ensures (2 * p) * s == 2 * (p * s)
  {
  }

  /** A mask acts on the low and on the high digits separately. */
  lemma {:induction false} AndShr(x: nat, y: nat, k: nat)
    ensures Shr(And(x, y), k) == And(Shr(x, k), Shr(y, k))
  {
    hide And;
    if k == 0 {
    } else {
      AndShr(x / 2, y / 2, k - 1);
      AndUnfold(x, y);
    }
  }

  lemma {:induction false} AndLow(x: nat, y: nat, k: nat)
    ensures Low(And(x, y), k) == And(Low(x, k), Low(y, k))
  {
    hide And;
    if k == 0 {
      AndUnfold(0, 0);
      AndZero(0);
    } else {
      AndLow(x / 2, y / 2, k - 1);
      AndUnfold(x, y);
      AndUnfold(Low(x, k), Low(y, k));
      LowUnfold(x, k);
      LowUnfold(y, k);
      LowUnfold(And(x, y), k);
      hide Low;
    }
  }

  lemma LowUnfold(x: nat, k: nat)
    requires k > 0
    ensures Low(x, k) % 2 == x % 2 && Low(x, k) / 2 == Low(x / 2, k - 1) && Low(x, k) == x % 2 + 2 * Low(x / 2, k - 1)
  {
  }

  lemma AndUnfold(a: nat, b: nat)
    ensures And(a, b) == 2 * And(a / 2, b / 2) + (if a % 2 == 1 && b % 2 == 1 then 1 else 0)
  {
  }

  lemma {:induction false} AndZero(a: nat)
    ensures And(a, 0) == 0 && And(0, a) == 0
  {
    if a == 0 {
    } else {
      AndZero(a / 2);
    }
  }

  lemma {:induction false} AndBound(a: nat, b: nat)
    ensures And(a, b) <= a && And(a, b) <= b
  {
    if a == 0 && b == 0 {
    } else {
      AndBound(a / 2, b / 2);
    }
  }

  lemma {:induction false} XorBound(a: nat, b: nat, k: nat)
    requires a < Pow2(k) && b < Pow2(k)
    ensures Xor(a, b) < Pow2(k)
  {
    if k == 0 {
    } else {
      XorBound(a / 2, b / 2, k - 1);
    }
  }

  /** XOR with the same word twice cancels. */
  lemma {:induction false} XorCancel(a: nat, b: nat)
    ensures Xor(Xor(a, b), b) == a
  {
    XorUnfold(a, b);
    XorUnfold(Xor(a, b), b);
    hide Xor;
    if a == 0 && b == 0 {
    } else {
      XorCancel(a / 2, b / 2);
      DigitCancel(a % 2, b % 2);
    }
  }

  lemma XorUnfold(a: nat, b: nat)
    ensures Xor(a, b) == 2 * Xor(a / 2, b / 2) + (a % 2 + b % 2) % 2
    ensures Xor(0, 0) == 0
  {
  }

  lemma DigitCancel(d: nat, e: nat)
    requires d < 2 && e < 2
    ensures ((d + e) % 2 + e) % 2 == d
  {
  }

  function XorByte(a: byte, b: byte): byte {
    assert Pow2(8) == 256;
    XorBound(a, b, 8);
    Xor(a, b)
  }

  /** XOR of a message with a keystream of the same length. */
  function XorBytes(a: seq<byte>, b: seq<byte>): (r: seq<byte>)
    requires |a| <= |b|
    ensures |r| == |a|
  {
    seq(|a|, i requires 0 <= i < |a| => XorByte(a[i], b[i]))
  }

  lemma XorBytesCancel(a: seq<byte>, b: seq<byte>)
    requires |a| <= |b|
    ensures XorBytes(XorBytes(a, b), b) == a
  {
    var c := XorBytes(a, b);
    forall i | 0 <= i < |a| ensures XorBytes(c, b)[i] == a[i] {
      XorCancel(a[i], b[i]);
    }
  }

  lemma XorBytesConcat(a: seq<byte>, b: seq<byte>, x: seq<byte>, y: seq<byte>)
    requires |a| == |x| && |b| <= |y|
    ensures XorBytes(a + b, x + y) == XorBytes(a, x) + XorBytes(b, y)
  {
    hide XorByte;
  }

  lemma XorNothing(key: seq<byte>)
    ensures XorBytes([], key) == []
  {
  }

  /** A piece of the input goes with its piece of the key. */
  lemma XorPieces(input: seq<byte>, n: nat, k: nat, key: seq<byte>)
    requires n + k == |key| <= |input|
    ensures XorBytes(input[..n], key[..n]) + XorBytes(input[n..n + k], key[n..]) == XorBytes(input[..n + k], key)
  {
    hide XorBytes;
    assert input[..n + k] == input[..n] + input[n..n + k] && key == key[..n] + key[n..];
    XorBytesConcat(input[..n], input[n..n + k], key[..n], key[n..]);
  }

  // ---------------------------------------------------------------- little-endian byte strings

  function Pow256(n: nat): (r: nat)
    ensures r > 0
  {
    if n == 0 then 1 else 256 * Pow256(n - 1)
  }

  lemma {:induction false} Pow256Add(m: nat, n: nat)
    ensures Pow256(m + n) == Pow256(m) * Pow256(n)
  {
    if m == 0 {
    } else {
      Pow256Add(m - 1, n);
      assert 256 * (Pow256(m - 1) * Pow256(n)) == (256 * Pow256(m - 1)) * Pow256(n);
    }
  }

  function LeValue(bs: seq<byte>): nat {
    if |bs| == 0 then 0 else bs[0] + 256 * LeValue(bs[1..])
  }

  function LeBytes(v: nat, n: nat): (bs: seq<byte>)
    ensures |bs| == n
  {
    if n == 0 then [] else [v % 256] + LeBytes(v / 256, n - 1)
  }

  lemma {:induction false} LeValueBound(bs: seq<byte>)
    ensures LeValue(bs) < Pow256(|bs|)
  {
    if |bs| == 0 {
    } else {
      LeValueBound(bs[1..]);
    }
  }

  lemma {:induction false} LeValueConcat(a: seq<byte>, b: seq<byte>)
    ensures LeValue(a + b) == LeValue(a) + Pow256(|a|) * LeValue(b)
  {
    if |a| == 0 {
      assert a + b == b;
    } else {
      assert (a + b)[1..] == a[1..] + b;
      LeValueConcat(a[1..], b);
      Assemble(a[0], LeValue(a[1..]), Pow256(|a| - 1), LeValue(b));
    }
  }

  lemma Assemble(first: nat, rest: nat, p: nat, v: nat)
    ensures first + 256 * (rest + p * v) == (first + 256 * rest) + (256 * p) * v
  {
  }

  lemma {:induction false} LeBytesOfValue(bs: seq<byte>)
    ensures LeBytes(LeValue(bs), |bs|) == bs
  {
    if |bs| == 0 {
    } else {
      LeBytesOfValue(bs[1..]);
    }
  }

  lemma {:induction false} LeValueOfBytes(v: nat, n: nat)
    ensures LeValue(LeBytes(v, n)) == v % Pow256(n)
  {
    if n == 0 {
    } else {
      LeValueOfBytes(v / 256, n - 1);
      var p := Pow256(n - 1);
      assert LeBytes(v, n)[1..] == LeBytes(v / 256, n - 1);
      var q, r := (v / 256) / p, (v / 256) % p;
      assert v / 256 == q * p + r;
      assert 256 * (q * p) == q * (256 * p);
      DivUnique(v, 256 * p, q, v % 256 + 256 * r);
    }
  }

  // ---------------------------------------------------------------- big-endian byte strings

  function BeValue(s: seq<byte>): nat {
    if |s| == 0 then 0 else 256 * BeValue(s[..|s| - 1]) + s[|s| - 1]
  }

  /** The n lowest bytes of v, highest first. */
  function BeBytes(v: nat, n: nat): (s: seq<byte>)
    ensures |s| == n
    decreases n
  {
    if n == 0 then [] else BeBytes(v / 256, n - 1) + [v % 256]
  }

  lemma {:induction false} BeBytesOfValue(s: seq<byte>)
    ensures BeBytes(BeValue(s), |s|) == s
    decreases |s|
  {
    if |s| > 0 {
      BeBytesOfValue(s[..|s| - 1]);
    }
  }

  lemma DigitMod(v: nat, p: nat)
    requires p > 0
    ensures v % (256 * p) == 256 * ((v / 256) % p) + v % 256
  {
    var q, r := (v / 256) / p, (v / 256) % p;
    assert v / 256 == q * p + r;
    assert 256 * (q * p) == q * (256 * p);
    DivUnique(v, 256 * p, q, v % 256 + 256 * r);
  }

  lemma {:induction false} BeValueOfBytes(v: nat, n: nat)
    ensures BeValue(BeBytes(v, n)) == v % Pow256(n)
    decreases n
  {
    if n == 0 {
      DivUnique(v, 1, v, 0);
    } else {
      BeValueOfBytes(v / 256, n - 1);
      assert BeBytes(v, n)[..n - 1] == BeBytes(v / 256, n - 1);
      DigitMod(v, Pow256(n - 1));
    }
  }
}
