/** The per-session nonce counter of the Shadowsocks AEAD ciphers. */
module Nonces {
  import opened Words

  /** One more than a little-endian number, modulo 256^n, in place. */
  method NonceIncrement(n: array<byte>)
    modifies n
    ensures n[..] == LeBytes(LeValue(old(n[..])) + 1, n.Length)
  {
    hide LeValue, LeBytes, Pow256;
    var c := 1;
    var i := 0;
    LeValueEmpty();
    while c != 0 && i < n.Length
      invariant 0 <= i <= n.Length && 0 <= c <= 1
      invariant n[i..] == old(n[i..])
      invariant LeValue(n[..i]) + c * Pow256(i) == LeValue(old(n[..i])) + 1
    {
      c := c + n[i];
      ghost var sum := c;
      n[i] := c % 256;
      assert n[..i + 1] == n[..i] + [c % 256] && old(n[..i + 1]) == old(n[..i]) + [old(n[i])];
      LeValueAppend(n[..i], c % 256);
      LeValueAppend(old(n[..i]), old(n[i]));
      c := c / 256;
      Carry(Pow256(i), sum);
      i := i + 1;
    }
    assert n[..] == n[..i] + n[i..] && old(n[..]) == old(n[..i]) + old(n[i..]);
    LeValueConcat(n[..i], n[i..]);
    LeValueConcat(old(n[..i]), old(n[i..]));
    assert i == n.Length ==> n[..i] == n[..] && old(n[..i]) == old(n[..]);
    CarryOut(n[..], LeValue(old(n[..])) + 1, c);
  }

  lemma LeValueEmpty()
    ensures LeValue([]) == 0 && Pow256(0) == 1
  {
  }

  lemma LeValueAppend(bs: seq<byte>, b: byte)
    ensures LeValue(bs + [b]) == LeValue(bs) + Pow256(|bs|) * b
    ensures Pow256(|bs| + 1) == 256 * Pow256(|bs|)
  {
    OneByteValue(b);
    assert Pow256(|bs| + 1) == 256 * Pow256(|bs|);
    hide LeValue, Pow256;
    LeValueConcat(bs, [b]);
  }

  lemma OneByteValue(b: byte)
    ensures LeValue([b]) == b
  {
    assert [b][1..] == [];
  }

  lemma Carry(p: nat, c: nat)
    ensures p * (c % 256) + (c / 256) * (256 * p) == c * p
  {
    assert c == 256 * (c / 256) + c % 256;
    assert (c / 256) * (256 * p) == 256 * (c / 256) * p;
    assert p * (c % 256) == (c % 256) * p;
  }

  /** Dropping the last carry is truncation. */
  lemma CarryOut(bs: seq<byte>, v: nat, c: nat)
    requires LeValue(bs) + c * Pow256(|bs|) == v
    ensures bs == LeBytes(v, |bs|)
  {
    hide LeValue, LeBytes, Pow256;
    LeValueBound(bs);
    LeValueOfBytes(v, |bs|);
    LeBytesOfValue(bs);
    LeBytesOfValue(LeBytes(v, |bs|));
    DivUnique(v, Pow256(|bs|), c, LeValue(bs));
  }

  /** The k-th nonce of a session. */
  function Nonce(k: nat, size: nat): (n: seq<byte>)
    ensures |n| == size
  {
    LeBytes(k, size)
  }

  lemma NonceAfter(k: nat, size: nat)
    ensures LeBytes(LeValue(Nonce(k, size)) + 1, size) == Nonce(k + 1, size)
  {
    hide LeValue, LeBytes, Pow256;
    var p := Pow256(size);
    LeValueOfBytes(k, size);
    LeValueOfBytes(k + 1, size);
    LeValueOfBytes(k % p + 1, size);
    LeBytesOfValue(LeBytes(k % p + 1, size));
    LeBytesOfValue(LeBytes(k + 1, size));
    var q := k / p;
    assert k + 1 == q * p + (k % p + 1);
    DivUnique(k + 1, p, q + (k % p + 1) / p, (k % p + 1) % p) by {
      assert (q + (k % p + 1) / p) * p == q * p + ((k % p + 1) / p) * p;
    }
  }

  /** Two nonces of a session are equal exactly when their numbers differ by a multiple of 256^n,
      so none repeats within 256^n messages. */
  lemma NonceRepeats(i: nat, j: nat, size: nat)
    ensures Nonce(i, size) == Nonce(j, size) <==> i % Pow256(size) == j % Pow256(size)
    ensures i < j < i + Pow256(size) ==> Nonce(i, size) != Nonce(j, size)
  {
    hide LeValue, LeBytes, Pow256;
    var p := Pow256(size);
    LeValueOfBytes(i, size);
    LeValueOfBytes(j, size);
    LeBytesOfValue(LeBytes(i, size));
    LeBytesOfValue(LeBytes(j, size));
    if i < j < i + p && i % p == j % p {
      assert j - i == (j / p - i / p) * p;
      SmallMultiple(j / p - i / p, p);
      assert false;
    }
  }
}
