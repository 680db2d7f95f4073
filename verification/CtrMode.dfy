/** CTR mode with a big-endian counter, several counter blocks at a time. */
module CtrMode {
  import opened Words
  import opened Wrappers

  // ---------------------------------------------------------------- big-endian counters

  /** Only the value modulo 256^n matters. */
  lemma BeBytesMod(v: nat, w: nat, n: nat)
    requires v % Pow256(n) == w % Pow256(n)
    ensures BeBytes(v, n) == BeBytes(w, n)
  {
    hide BeValue, BeBytes, Pow256;
    BeValueOfBytes(v, n);
    BeValueOfBytes(w, n);
    BeBytesOfValue(BeBytes(v, n));
    BeBytesOfValue(BeBytes(w, n));
  }

  lemma ModAdd(v: nat, k: nat, p: nat)
    requires p > 0
    ensures (v % p + k) % p == (v + k) % p
  {
    var q := v / p;
    assert v == q * p + v % p;
    var s := v % p + k;
    assert v + k == q * p + s;
    assert (q + s / p) * p == q * p + (s / p) * p;
    DivUnique(v + k, p, q + s / p, s % p);
  }

  /** Reading a counter field back and adding to it. */
  lemma CounterAdd(v: nat, k: nat, n: nat)
    ensures BeBytes(BeValue(BeBytes(v, n)) + k, n) == BeBytes(v + k, n)
  {
    hide BeValue, BeBytes, Pow256;
    BeValueOfBytes(v, n);
    ModAdd(v, k, Pow256(n));
    BeBytesMod(BeValue(BeBytes(v, n)) + k, v + k, n);
  }

  // ---------------------------------------------------------------- the keystream

  /** A block cipher under a key. */
  datatype Cipher = Cipher(encrypt: seq<byte> -> seq<byte>, blockSize: nat)

  ghost predicate Sized(c: Cipher) {
    c.blockSize > 0 && forall b :: |b| == c.blockSize ==> |c.encrypt(b)| == c.blockSize
  }

  /** The k-th counter block: the last `size` bytes of the IV, as a number, plus k. */
  function CounterBlock(iv: seq<byte>, size: nat, k: nat): (b: seq<byte>)
    requires size <= |iv|
    ensures |b| == |iv|
  {
    iv[..|iv| - size] + BeBytes(BeValue(iv[|iv| - size..]) + k, size)
  }

  /** Byte i of the keystream of section 6.5 of NIST SP 800-38A. */
  ghost function Key(c: Cipher, iv: seq<byte>, size: nat, i: nat): byte
    requires Sized(c) && |iv| == c.blockSize && size <= |iv|
  {
    c.encrypt(CounterBlock(iv, size, i / c.blockSize))[i % c.blockSize]
  }

  ghost function KeyBytes(c: Cipher, iv: seq<byte>, size: nat, from: nat, n: nat): (s: seq<byte>)
    requires Sized(c) && |iv| == c.blockSize && size <= |iv|
    ensures |s| == n
  {
    seq<byte>(n, j requires 0 <= j < n => Key(c, iv, size, from + j))
  }

  lemma KeyBytesSplit(c: Cipher, iv: seq<byte>, size: nat, from: nat, m: nat, n: nat)
    requires Sized(c) && |iv| == c.blockSize && size <= |iv|
    ensures KeyBytes(c, iv, size, from, m + n) == KeyBytes(c, iv, size, from, m) + KeyBytes(c, iv, size, from + m, n)
    ensures KeyBytes(c, iv, size, from, m + n)[m..] == KeyBytes(c, iv, size, from + m, n)
    ensures KeyBytes(c, iv, size, from, m + n)[..m] == KeyBytes(c, iv, size, from, m)
  {
    hide Key;
  }

  lemma KeyIn(c: Cipher, iv: seq<byte>, size: nat, k: nat, j: nat)
    requires Sized(c) && |iv| == c.blockSize && size <= |iv| && j < c.blockSize
    ensures Key(c, iv, size, k * c.blockSize + j) == c.encrypt(CounterBlock(iv, size, k))[j]
  {
    DivUnique(k * c.blockSize + j, c.blockSize, k, j);
    hide CounterBlock;
  }

  /** One encrypted counter block is one block of keystream. */
  lemma KeyBlock(c: Cipher, iv: seq<byte>, size: nat, k: nat)
    requires Sized(c) && |iv| == c.blockSize && size <= |iv|
    ensures c.encrypt(CounterBlock(iv, size, k)) == KeyBytes(c, iv, size, k * c.blockSize, c.blockSize)
  {
    var b := c.encrypt(CounterBlock(iv, size, k));
    forall j | 0 <= j < c.blockSize ensures b[j] == Key(c, iv, size, k * c.blockSize + j) {
      KeyIn(c, iv, size, k, j);
    }
    hide Key, CounterBlock;
  }

  // ---------------------------------------------------------------- arithmetic on counter fields

  /** The state of a byte-by-byte addition to the last `size` bytes: j bytes are done, the rest of
      the field is as it was and still has to be increased by `pending`. */
  ghost predicate Adding(block: seq<byte>, size: nat, total: nat, r: seq<byte>, j: nat, pending: nat) {
    && j <= size <= |block| == |r|
    && r[..|block| - j] == block[..|block| - j]
    && var field := block[|block| - size..];
       BeBytes(BeValue(field) + total, size) == BeBytes(BeValue(field[..size - j]) + pending, size - j) + r[|block| - j..]
  }

  lemma AddingStarts(block: seq<byte>, size: nat, total: nat)
    requires size <= |block|
    ensures Adding(block, size, total, block, 0, total)
  {
    hide BeBytes, BeValue;
    var field := block[|block| - size..];
    assert field[..size] == field && block[|block|..] == [];
  }

  lemma AddingStep(block: seq<byte>, size: nat, total: nat, r: seq<byte>, j: nat, p: nat, q: nat, b: byte)
    requires Adding(block, size, total, r, j, p) && j < size && r[|block| - 1 - j] + p == 256 * q + b
    ensures Adding(block, size, total, r[|block| - 1 - j := b], j + 1, q)
  {
    hide BeBytes, BeValue;
    var n := |block|;
    var field, r' := block[n - size..], r[n - 1 - j := b];
    var s := field[..size - j];
    assert s[|s| - 1] == block[n - 1 - j] == block[..n - j][n - 1 - j] == r[n - 1 - j];
    assert s[..|s| - 1] == field[..size - j - 1];
    FieldStep(s, p, q, b);
    assert r'[n - j - 1..] == [b] + r[n - j..];
    assert r'[..n - j - 1] == r[..n - j][..n - j - 1] == block[..n - j][..n - j - 1];
  }

  lemma AddingEnds(block: seq<byte>, size: nat, total: nat, r: seq<byte>, j: nat, p: nat)
    requires Adding(block, size, total, r, j, p) && (j == size || p == 0)
    ensures r == block[..|block| - size] + BeBytes(BeValue(block[|block| - size..]) + total, size)
  {
    hide BeBytes, BeValue;
    var n := |block|;
    var field := block[n - size..];
    if p == 0 {
      BeBytesOfValue(field[..size - j]);
    } else {
      NoBytes(BeValue(field[..0]) + p);
      assert field[..0] == [];
    }
    assert r == r[..n - j] + r[n - j..];
    assert block[..n - j] == block[..n - size] + field[..size - j];
  }

  /** What the loop still has to add: the carry, which includes the lowest byte of the rest of the
      counter, and the bytes above that. */
  function Pending(carry: nat, local: nat): nat { carry + 256 * (local / 256) }

  lemma PendingStarts(counter: nat)
    ensures Pending(counter % 256, counter) == counter && Pending(0, 0) == 0
  {
  }

  lemma PendingStep(carry: nat, local: nat, b: byte)
    requires carry <= 256
    ensures var cnt := b + carry;
            var carry' := cnt / 256 + local / 256 % 256;
            carry' <= 256 && b + Pending(carry, local) == 256 * Pending(carry', local / 256) + cnt % 256
  {
  }

  /** Adds to the big-endian number in the last `size` bytes, byte by byte with a carry. */
  method AddToField(block: seq<byte>, size: nat, counter: u64) returns (r: seq<byte>)
    requires size <= |block|
    ensures r == block[..|block| - size] + BeBytes(BeValue(block[|block| - size..]) + counter, size)
  {
    hide BeBytes, BeValue, Adding, Pending;
    r := block;
    AddingStarts(block, size, counter);
    PendingStarts(counter);
    var local: nat := counter;
    var carry: nat := local % 256;
    var j := 0;
    while (carry != 0 || local != 0) && j != size
      invariant 0 <= j <= size && carry <= 256 && |r| == |block|
      invariant Adding(block, size, counter, r, j, Pending(carry, local))
    {
      var off := |block| - 1 - j;
      var cnt := r[off] + carry;
      ghost var before := Pending(carry, local);
      PendingStep(carry, local, r[off]);
      local := local / 256;
      carry := cnt / 256 + local % 256;
      AddingStep(block, size, counter, r, j, before, Pending(carry, local), cnt % 256);
      r := r[off := cnt % 256];
      j := j + 1;
    }
    AddingEnds(block, size, counter, r, j, Pending(carry, local));
  }

  lemma NoBytes(v: nat)
    ensures BeBytes(v, 0) == []
  {
  }

  lemma FieldStep(s: seq<byte>, p: nat, q: nat, b: byte)
    requires |s| > 0 && s[|s| - 1] + p == 256 * q + b
    ensures BeBytes(BeValue(s) + p, |s|) == BeBytes(BeValue(s[..|s| - 1]) + q, |s| - 1) + [b]
  {
    var v := BeValue(s) + p;
    assert v == 256 * (BeValue(s[..|s| - 1]) + q) + b;
    assert v / 256 == BeValue(s[..|s| - 1]) + q && v % 256 == b;
  }

  /** ++ on the last byte, and on the one before as long as a byte wraps to zero. */
  method IncrementField(block: seq<byte>, size: nat) returns (r: seq<byte>)
    requires size <= |block|
    ensures r == block[..|block| - size] + BeBytes(BeValue(block[|block| - size..]) + 1, size)
  {
    hide BeBytes, BeValue, Adding;
    r := block;
    AddingStarts(block, size, 1);
    for j := 0 to size
      invariant |r| == |block| && Adding(block, size, 1, r, j, 1)
    {
      var off := |block| - 1 - j;
      var sum: nat := r[off];
      var next := (sum + 1) % 256;
      AddingStep(block, size, 1, r, j, 1, (sum + 1) / 256, next);
      r := r[off := next];
      if next != 0 {
        AddingEnds(block, size, 1, r, j + 1, 0);
        return;
      }
    }
    AddingEnds(block, size, 1, r, size, 1);
  }

  /** Adding a multiple of 256^n changes nothing. */
  lemma BeBytesShift(v: nat, w: nat, n: nat, k: int)
    requires v == w + k * Pow256(n)
    ensures BeBytes(v, n) == BeBytes(w, n)
  {
    hide BeBytes, Pow256;
    var p := Pow256(n);
    assert (w / p + k) * p == w / p * p + k * p;
    DivUnique(v, p, w / p + k, w % p);
    BeBytesMod(v, w, n);
  }

  /** A counter field taken as a 32-bit word, increased and stored again. */
  lemma Counter32(x: nat, v: nat, c: nat, i: nat)
    requires BeBytes(x, 4) == BeBytes(v, 4)
    ensures BeBytes(((c + x) % 0x1_0000_0000 + i) % 0x1_0000_0000, 4) == BeBytes(v + c + i, 4)
  {
    hide BeBytes, Pow256;
    Powers();
    SameResidue(x, v, 4);
    var low := (c + x) % 0x1_0000_0000;
    var k := (v / 0x1_0000_0000 - x / 0x1_0000_0000) + (c + x) / 0x1_0000_0000 + (low + i) / 0x1_0000_0000;
    BeBytesShift(v + c + i, (low + i) % 0x1_0000_0000, 4, k);
  }

  lemma Counter64(x: nat, v: nat, c: nat, i: nat)
    requires BeBytes(x, 8) == BeBytes(v, 8)
    ensures BeBytes(((c + x) % TWO64 + i) % TWO64, 8) == BeBytes(v + c + i, 8)
  {
    hide BeBytes, Pow256;
    Powers();
    SameResidue(x, v, 8);
    var low := (c + x) % TWO64;
    var k := (v / TWO64 - x / TWO64) + (c + x) / TWO64 + (low + i) / TWO64;
    BeBytesShift(v + c + i, (low + i) % TWO64, 8, k);
  }

  lemma SameResidue(x: nat, v: nat, n: nat)
    requires BeBytes(x, n) == BeBytes(v, n)
    ensures x % Pow256(n) == v % Pow256(n)
  {
    hide BeBytes, Pow256;
    BeValueOfBytes(x, n);
    BeValueOfBytes(v, n);
  }

  lemma Powers()
    ensures Pow256(4) == 0x1_0000_0000 && Pow256(8) == TWO64 && Pow256(16) == TWO64 * TWO64
  {
    assert Pow256(4) == 0x1_0000_0000;
    Pow256Add(4, 4);
    hide Pow256;
    Pow256Add(8, 8);
  }

  // A 128-bit counter as two 64-bit words.

  function Mod128(x: nat): nat { x % (TWO64 * TWO64) }

  function Wide(b0: u64, b1: u64): nat { b0 * TWO64 + b1 }

  function LowSum(b1: u64, c: u64): u64 { (b1 + c) % TWO64 }

  function WithCarry(b0: u64, carry: bool): u64 { (b0 + if carry then 1 else 0) % TWO64 }

  /** The low word has wrapped exactly when it is below the summand. */
  lemma AddWide(b0: u64, b1: u64, c: u64)
    ensures var s1 := LowSum(b1, c); Wide(WithCarry(b0, s1 < c), s1) == Mod128(Wide(b0, b1) + c)
  {
    var s1 := (b1 + c) % TWO64;
    var carry := if s1 < c then 1 else 0;
    assert b1 + c == s1 + TWO64 * carry;
    WideSum(b0 + carry, s1);
  }

  lemma WideSum(x: nat, s1: u64)
    requires x <= TWO64
    ensures x % TWO64 * TWO64 + s1 == (x * TWO64 + s1) % (TWO64 * TWO64)
  {
  }

  lemma Increment(b0: u64, b1: u64)
    ensures var s1 := LowSum(b1, 1); Wide(WithCarry(b0, s1 == 0), s1) == Mod128(Wide(b0, b1) + 1)
  {
    AddWide(b0, b1, 1);
  }

  lemma Mod128Add(v: nat, k: nat)
    ensures Mod128(Mod128(v) + k) == Mod128(v + k)
  {
    ModAdd(v, k, TWO64 * TWO64);
  }

  lemma BeBytesSplit4(v: nat, m: nat)
    ensures BeBytes(v, m + 4) == BeBytes(v / 0x1_0000_0000, m) + BeBytes(v, 4)
  {
    BeBytesUnfold(v, m);
    BeBytesUnfold(v, 0);
    NoBytes(v / 0x1_0000_0000);
    hide BeBytes;
  }

  lemma BeBytesUnfold(v: nat, m: nat)
    ensures BeBytes(v, m + 4) == BeBytes(v / 0x1_0000_0000, m) + [v / 0x100_0000 % 256, v / 0x1_0000 % 256, v / 256 % 256, v % 256]
  {
    assert BeBytes(v, m + 4) == BeBytes(v / 256, m + 3) + [v % 256];
    assert BeBytes(v / 256, m + 3) == BeBytes(v / 256 / 256, m + 2) + [v / 256 % 256];
    assert BeBytes(v / 256 / 256, m + 2) == BeBytes(v / 256 / 256 / 256, m + 1) + [v / 256 / 256 % 256];
    assert BeBytes(v / 256 / 256 / 256, m + 1) == BeBytes(v / 256 / 256 / 256 / 256, m) + [v / 256 / 256 / 256 % 256];
    hide BeBytes;
    assert v / 256 / 256 == v / 0x1_0000 && v / 256 / 256 / 256 == v / 0x100_0000 && v / 256 / 256 / 256 / 256 == v / 0x1_0000_0000;
  }

  lemma BeBytesSplit8(v: nat)
    ensures BeBytes(v, 16) == BeBytes(v / TWO64, 8) + BeBytes(v, 8)
  {
    hide BeBytes;
    var h := 0x1_0000_0000;
    BeBytesSplit4(v, 12);
    BeBytesSplit4(v / h, 8);
    BeBytesSplit4(v, 4);
    assert v / h / h == v / TWO64;
  }

  lemma StoreWide(b0: u64, b1: u64)
    ensures BeBytes(b0, 8) + BeBytes(b1, 8) == BeBytes(Wide(b0, b1), 16)
  {
    Powers();
    hide BeBytes, Pow256;
    var v := b0 * TWO64 + b1;
    BeBytesSplit8(v);
    DivUnique(v, TWO64, b0, b1);
    BeBytesShift(v, b1, 8, b0);
  }

  lemma LoadWide(s: seq<byte>)
    requires |s| == 16
    ensures BeValue(s[..8]) < TWO64 && BeValue(s[8..]) < TWO64
    ensures BeValue(s) == Wide(BeValue(s[..8]), BeValue(s[8..]))
  {
    Powers();
    hide BeBytes, BeValue, Pow256;
    BeValueBound(s[..8]);
    BeValueBound(s[8..]);
    StoreWide(BeValue(s[..8]), BeValue(s[8..]));
    BeBytesOfValue(s[..8]);
    BeBytesOfValue(s[8..]);
    assert s == s[..8] + s[8..];
    var v := BeValue(s[..8]) * TWO64 + BeValue(s[8..]);
    BeValueOfBytes(v, 16);
    DivUnique(v, TWO64 * TWO64, 0, v);
  }

  lemma BeValueBound(s: seq<byte>)
    ensures BeValue(s) < Pow256(|s|)
  {
    hide BeBytes, BeValue, Pow256;
    BeBytesOfValue(s);
    BeValueOfBytes(BeValue(s), |s|);
  }

  /** Storing a 128-bit counter that is right modulo 2^128. */
  lemma WideCounter(b0: u64, b1: u64, v: nat)
    requires Wide(b0, b1) == Mod128(v)
    ensures BeBytes(b0, 8) + BeBytes(b1, 8) == BeBytes(v, 16)
  {
    hide BeBytes, Pow256;
    Powers();
    StoreWide(b0, b1);
    BeBytesShift(v, Mod128(v), 16, v / (TWO64 * TWO64));
  }

  // ---------------------------------------------------------------- the object

  /** The counter blocks from number k on. */
  predicate Numbered(blocks: seq<seq<byte>>, iv: seq<byte>, size: nat, k: nat) {
    size <= |iv| && forall i :: 0 <= i < |blocks| ==> blocks[i] == CounterBlock(iv, size, k + i)
  }

  class CtrBe {
    const cipher: Cipher
    const ctrSize: nat
    const counter: array<seq<byte>>
    var pad: seq<byte>
    var padPos: nat
    var iv: seq<byte>
    /** The number of the first counter block. */
    ghost var base: nat

    /** A cipher with a key and a counter of the given size; the initialisation vector is zero. */
    constructor (c: Cipher, counterSize: nat, parallelBlocks: nat)
      requires Sized(c) && 4 <= counterSize <= c.blockSize && 0 < parallelBlocks < TWO64
      ensures Valid() && Position() == 0 && fresh(counter)
      ensures cipher == c && ctrSize == counterSize && counter.Length == parallelBlocks
      ensures iv == seq(c.blockSize, _ => 0)
    {
      cipher := c;
      ctrSize := counterSize;
      counter := new seq<byte>[parallelBlocks];
      pad, padPos, iv, base := [], 0, seq(c.blockSize, _ => 0), 0;
      new;
      Seek(0);
    }

    ghost predicate Sane()
      reads this
    {
      && Sized(cipher) && 4 <= ctrSize <= cipher.blockSize && counter.Length > 0 && |iv| == cipher.blockSize
    }

    /** The counter blocks follow each other and the pad is their encryption. */
    ghost predicate Valid()
      reads this, counter
    {
      && Sane() && Numbered(counter[..], iv, ctrSize, base)
      && pad == KeyBytes(cipher, iv, ctrSize, base * cipher.blockSize, counter.Length * cipher.blockSize)
      && padPos <= |pad|
    }

    /** How many keystream bytes come before the next one. */
    ghost function Position(): nat
      reads this
    {
      base * cipher.blockSize + padPos
    }

    ghost function Next(n: nat): seq<byte>
      requires Sane()
      reads this
    {
      KeyBytes(cipher, iv, ctrSize, Position(), n)
    }

    /** Encrypts all counter blocks. */
    method EncryptAll() returns (out: seq<byte>)
      requires Sane() && Numbered(counter[..], iv, ctrSize, base)
      ensures out == KeyBytes(cipher, iv, ctrSize, base * cipher.blockSize, counter.Length * cipher.blockSize)
    {
      hide KeyBytes, Key, CounterBlock, Sized;
      ghost var bs := cipher.blockSize;
      out := [];
      NoKeyBytes(cipher, iv, ctrSize, base * bs);
      for i := 0 to counter.Length
        invariant out == KeyBytes(cipher, iv, ctrSize, base * bs, i * bs)
      {
        assert counter[i] == counter[..][i] == CounterBlock(iv, ctrSize, base + i);
        KeyBlock(cipher, iv, ctrSize, base + i);
        BlockStart(base, i, bs);
        KeyBytesSplit(cipher, iv, ctrSize, base * bs, i * bs, bs);
        out := out + cipher.encrypt(counter[i]);
      }
    }

    /** Increases all counter blocks by the same amount. */
    method AddCounter(amount: u64)
      requires Sane() && Numbered(counter[..], iv, ctrSize, base)
      modifies counter, this`base
      ensures Sane() && Numbered(counter[..], iv, ctrSize, base) && base == old(base) + amount
    {
      hide Numbered, Sized;
      if ctrSize == 4 {
        AddWord(amount, 0x1_0000_0000);
      } else if ctrSize == 8 {
        AddWord(amount, TWO64);
      } else if ctrSize == 16 {
        AddWide128(amount);
      } else {
        AddBytes(amount);
      }
      base := base + amount;
    }

    /** The field of the first block as a word; all blocks get the increased word and its successors. */
    method AddWord(amount: u64, p: nat)
      requires Sane() && Numbered(counter[..], iv, ctrSize, base)
      requires (ctrSize == 4 && p == 0x1_0000_0000) || (ctrSize == 8 && p == TWO64)
      modifies counter
      ensures Numbered(counter[..], iv, ctrSize, base + amount)
    {
      hide BeBytes, BeValue, Sized;
      var off := cipher.blockSize - ctrSize;
      ghost var v := BeValue(iv[off..]) + base;
      assert counter[..][0] == counter[0];
      var x := BeValue(counter[0][off..]);
      BeBytesOfValue(counter[0][off..]);
      assert counter[0][off..] == BeBytes(v, ctrSize);
      var low := (amount + x) % p;
      for i := 0 to counter.Length
        invariant forall k :: 0 <= k < i ==> counter[k] == CounterBlock(iv, ctrSize, base + amount + k)
        invariant forall k :: i <= k < counter.Length ==> counter[k] == CounterBlock(iv, ctrSize, base + k)
      {
        if ctrSize == 4 {
          Counter32(x, v, amount, i);
        } else {
          Counter64(x, v, amount, i);
        }
        assert counter[i][..off] == iv[..off];
        counter[i] := counter[i][..off] + BeBytes((low + i) % p, ctrSize);
      }
    }

    /** The byte-by-byte addition for all other counter sizes. */
    method AddBytes(amount: u64)
      requires Sane() && Numbered(counter[..], iv, ctrSize, base)
      modifies counter
      ensures Numbered(counter[..], iv, ctrSize, base + amount)
    {
      hide BeBytes, BeValue, Sized;
      for i := 0 to counter.Length
        invariant forall k :: 0 <= k < i ==> counter[k] == CounterBlock(iv, ctrSize, base + amount + k)
        invariant forall k :: i <= k < counter.Length ==> counter[k] == CounterBlock(iv, ctrSize, base + k)
      {
        counter[i] := AddToField(counter[i], ctrSize, amount);
        CounterPlus(iv, ctrSize, base + i, amount);
      }
    }

    /** The 128-bit field as two words with an explicit carry. */
    method AddWide128(amount: u64)
      requires Sane() && Numbered(counter[..], iv, ctrSize, base) && ctrSize == 16
      modifies counter
      ensures Numbered(counter[..], iv, ctrSize, base + amount)
    {
      hide BeBytes, BeValue, Sized, Wide, Mod128, LowSum, WithCarry;
      var off := cipher.blockSize - 16;
      ghost var v := BeValue(iv[off..]) + base;
      assert counter[..][0] == counter[0];
      var field := counter[0][off..];
      assert field == BeBytes(v, 16);
      LoadWide(field);
      var b0: u64, b1: u64 := BeValue(field[..8]), BeValue(field[8..]);
      WideStart(v, field, amount);
      AddWide(b0, b1, amount);
      b1 := LowSum(b1, amount);
      b0 := WithCarry(b0, b1 < amount);
      for i := 0 to counter.Length
        invariant Wide(b0, b1) == Mod128(v + amount + i)
        invariant forall k :: 0 <= k < i ==> counter[k] == CounterBlock(iv, 16, base + amount + k)
        invariant forall k :: i <= k < counter.Length ==> counter[k] == CounterBlock(iv, 16, base + k)
      {
        WideCounter(b0, b1, v + amount + i);
        assert counter[i][..off] == iv[..off];
        counter[i] := counter[i][..off] + (BeBytes(b0, 8) + BeBytes(b1, 8));
        Increment(b0, b1);
        Mod128Add(v + amount + i, 1);
        b1 := LowSum(b1, 1);
        b0 := WithCarry(b0, b1 == 0);
      }
    }

    /** The next pad. */
    method Refill()
      requires Sane() && Numbered(counter[..], iv, ctrSize, base) && counter.Length < TWO64
      modifies counter, this`base, this`pad, this`padPos
      ensures Valid() && padPos == 0 && base == old(base) + counter.Length
    {
      hide Numbered, KeyBytes, Sized;
      AddCounter(counter.Length);
      pad := EncryptAll();
      padPos := 0;
    }

    /** The rest of the pad is the keystream that comes next. */
    lemma PadNext(k: nat)
      requires Valid() && padPos + k <= |pad|
      ensures pad[padPos..padPos + k] == Next(k)
    {
      hide KeyBytes, Key, Sized, Numbered;
      ghost var b := base * cipher.blockSize;
      KeyBytesSplit(cipher, iv, ctrSize, b, padPos, |pad| - padPos);
      KeyBytesSplit(cipher, iv, ctrSize, b + padPos, k, |pad| - padPos - k);
      assert pad[padPos..padPos + k] == pad[padPos..][..k];
    }

    /** XORs with what is left of the pad; a pad that is used up is renewed. */
    method UseUpPad(input: seq<byte>) returns (out: seq<byte>)
      requires Valid() && counter.Length < TWO64 && padPos + |input| <= |pad|
      modifies counter, this`base, this`pad, this`padPos
      ensures Valid() && Position() == old(Position()) + |input| && |pad| == old(|pad|)
      ensures padPos == if old(padPos) + |input| == |pad| then 0 else old(padPos) + |input|
      ensures out == XorBytes(input, old(Next(|input|)))
    {
      hide Numbered, KeyBytes, Key, Sized, XorBytes;
      PadNext(|input|);
      PadEnds();
      out := XorBytes(input, pad[padPos..padPos + |input|]);
      padPos := padPos + |input|;
      if padPos == |pad| {
        Refill();
      }
    }

    /** XORs the next keystream bytes onto the input. */
    method CipherBytes(input: seq<byte>) returns (out: seq<byte>)
      requires Valid() && counter.Length < TWO64
      modifies counter, this`base, this`pad, this`padPos
      ensures Valid() && Position() == old(Position()) + |input|
      ensures out == XorBytes(input, old(Next(|input|)))
    {
      hide Valid, Position, Numbered, KeyBytes, Key, Sized, XorBytes;
      ghost var p := Position();
      var n := 0;
      out := [];
      SomePad();
      XorNothing(KeyBytes(cipher, iv, ctrSize, p, 0));
      assert input[..0] == [];
      if padPos > 0 {
        n := Min(|input|, |pad| - padPos);
        KeyBytesSplit(cipher, iv, ctrSize, p, 0, n);
        XorPieces(input, 0, n, KeyBytes(cipher, iv, ctrSize, p, n));
        out := UseUpPad(input[..n]);
      }
      while |input| - n >= |pad|
        invariant Valid() && |pad| == old(|pad|) && 0 <= n <= |input| && (n < |input| ==> padPos == 0)
        invariant Position() == p + n && out == XorBytes(input[..n], KeyBytes(cipher, iv, ctrSize, p, n))
        decreases |input| - n
      {
        KeyBytesSplit(cipher, iv, ctrSize, p, n, |pad|);
        XorPieces(input, n, |pad|, KeyBytes(cipher, iv, ctrSize, p, n + |pad|));
        var more := UseUpPad(input[n..n + |pad|]);
        out := out + more;
        n := n + |pad|;
      }
      KeyBytesSplit(cipher, iv, ctrSize, p, n, |input| - n);
      XorPieces(input, n, |input| - n, KeyBytes(cipher, iv, ctrSize, p, |input|));
      assert input[..|input|] == input && input[n..n + (|input| - n)] == input[n..];
      var last := UsePadFront(input[n..]);
      out := out + last;
    }

    lemma SomePad()
      requires Valid()
      ensures Sane() && |pad| > 0 && padPos <= |pad|
    {
      hide KeyBytes, Key, Numbered;
      PadEnds();
    }

    /** XORs with the front of the pad, less than all of it. */
    method UsePadFront(input: seq<byte>) returns (out: seq<byte>)
      requires Valid() && |input| < |pad| && (|input| > 0 ==> padPos == 0)
      modifies this`padPos
      ensures Valid() && Position() == old(Position()) + |input|
      ensures out == XorBytes(input, old(Next(|input|)))
    {
      hide Numbered, KeyBytes, Key, Sized, XorBytes;
      PadNext(|input|);
      assert |input| == 0 ==> pad[..|input|] == pad[padPos..padPos + |input|];
      out := XorBytes(input, pad[..|input|]);
      padPos := padPos + |input|;
    }

    /** Hands out the next keystream bytes; whole pads go straight to the output. */
    method GenerateKeystream(length: nat) returns (out: seq<byte>)
      requires Valid() && counter.Length < TWO64
      modifies counter, this`base, this`pad, this`padPos
      ensures Valid() && Position() == old(Position()) + length && padPos < |pad|
      ensures out == old(Next(length))
    {
      hide Numbered, KeyBytes, Key, Sized;
      ghost var p := Position();
      var size := |pad|;
      PadEnds();
      var n := Min(length, |pad| - padPos);
      PadNext(n);
      out := pad[padPos..padPos + n];
      padPos := padPos + n;
      while length - n >= |pad|
        invariant Sane() && Numbered(counter[..], iv, ctrSize, base) && |pad| == size == counter.Length * cipher.blockSize > 0
        invariant 0 <= n <= length && Position() == p + n && padPos <= |pad|
        invariant if padPos < |pad| then Valid() && n == length else padPos == |pad|
        invariant out == KeyBytes(cipher, iv, ctrSize, p, n)
        decreases length - n
      {
        NextPad(base, counter.Length, cipher.blockSize);
        AddCounter(counter.Length);
        var more := EncryptAll();
        KeyBytesSplit(cipher, iv, ctrSize, p, n, size);
        out := out + more;
        n := n + size;
      }
      if padPos == |pad| {
        NextPad(base, counter.Length, cipher.blockSize);
        Refill();
      }
      PadNext(length - n);
      KeyBytesSplit(cipher, iv, ctrSize, p, n, length - n);
      out := out + pad[..length - n];
      padPos := padPos + (length - n);
    }

    /** After the last byte of the pad comes the first one of the next. */
    lemma PadEnds()
      requires Valid()
      ensures |pad| == counter.Length * cipher.blockSize > 0
      ensures base * cipher.blockSize + |pad| == (base + counter.Length) * cipher.blockSize
    {
      hide KeyBytes, Key, Numbered;
      NextPad(base, counter.Length, cipher.blockSize);
    }

    /** Restart with a new initialisation vector, filled up with zeros. */
    method SetIv(bytes: seq<byte>) returns (ok: bool)
      requires Sane()
      modifies this, counter
      ensures ok == (|bytes| <= cipher.blockSize)
      ensures ok ==> Valid() && Position() == 0 && iv == bytes + seq(cipher.blockSize - |bytes|, _ => 0)
      ensures !ok ==> unchanged(this)
    {
      if |bytes| > cipher.blockSize {
        return false;
      }
      iv := bytes + seq(cipher.blockSize - |bytes|, _ => 0);
      Seek(0);
      ok := true;
    }

    /** Go to any byte of the keystream, whatever the state was. */
    method Seek(offset: u64)
      requires Sane()
      modifies this`pad, this`padPos, this`base, counter
      ensures Valid() && Position() == offset
    {
      hide Numbered, KeyBytes, Key, Sized;
      var size := counter.Length * cipher.blockSize;
      NextPad(0, counter.Length, cipher.blockSize);
      Divided(offset, size);
      SeekPosition(offset, counter.Length, cipher.blockSize, offset / size, offset % size);
      var baseCounter := counter.Length * (offset / size);
      base := 0;
      FirstBlocks();
      if baseCounter > 0 {
        AddCounter(baseCounter);
      }
      pad := EncryptAll();
      padPos := offset % size;
    }

    /** The counter blocks IV, IV + 1, ... */
    method FirstBlocks()
      requires Sane()
      modifies counter
      ensures Numbered(counter[..], iv, ctrSize, 0)
    {
      hide Sized, CounterBlock, Numbered;
      var zeros := seq(cipher.blockSize, _ => 0);
      for i := 0 to counter.Length
        invariant forall k :: 0 <= k < i ==> counter[k] == zeros
      {
        counter[i] := zeros;
      }
      counter[0] := iv;
      CounterZero(iv, ctrSize);
      if ctrSize == 4 && cipher.blockSize >= 8 {
        FirstWords();
      } else {
        FirstBySteps();
      }
    }

    /** Every block is its predecessor plus one. */
    method FirstBySteps()
      requires Sane() && counter[0] == CounterBlock(iv, ctrSize, 0)
      modifies counter
      ensures Numbered(counter[..], iv, ctrSize, 0)
    {
      hide Sized, CounterBlock, BeBytes, BeValue;
      for i := 1 to counter.Length
        invariant forall k :: 0 <= k < i ==> counter[k] == CounterBlock(iv, ctrSize, k)
      {
        counter[i] := counter[i - 1];
        CounterPlus(iv, ctrSize, i - 1, 1);
        counter[i] := IncrementField(counter[i], ctrSize);
      }
    }

    /** The first blocks for a 32-bit counter: copies of the IV, made by doubling where that works,
        with the counter word written over. */
    method FirstWords()
      requires Sane() && ctrSize == 4 && counter[0] == iv
      requires forall k :: 0 <= k < counter.Length ==> |counter[k]| == cipher.blockSize
      modifies counter
      ensures Numbered(counter[..], iv, ctrSize, 0)
    {
      hide Sized, BeBytes, BeValue;
      var off := cipher.blockSize - 4;
      var low := BeValue(iv[off..]);
      CopyPrefixes();
      for i := 1 to counter.Length
        invariant counter[0] == iv
        invariant forall k :: 1 <= k < counter.Length ==> |counter[k]| == cipher.blockSize && counter[k][..off] == iv[..off]
        invariant forall k :: 1 <= k < i ==> counter[k] == CounterBlock(iv, 4, k)
      {
        Word32(low, i);
        counter[i] := counter[i][..off] + BeBytes((low + i) % 0x1_0000_0000, 4);
      }
      CounterZero(iv, 4);
    }

    /** All blocks get the leading bytes of the first. */
    method CopyPrefixes()
      requires Sane() && ctrSize == 4 && counter[0] == iv
      requires forall k :: 0 <= k < counter.Length ==> |counter[k]| == cipher.blockSize
      modifies counter
      ensures counter[0] == iv
      ensures forall k :: 0 <= k < counter.Length ==>
        |counter[k]| == cipher.blockSize && counter[k][..cipher.blockSize - 4] == iv[..cipher.blockSize - 4]
    {
      hide Sized;
      var off := cipher.blockSize - 4;
      if counter.Length >= 4 && IsPowerOf2(counter.Length) {
        var written := 1;
        while written < counter.Length
          invariant IsPowerOf2(written) && written <= counter.Length
          invariant forall k :: 0 <= k < written ==> counter[k] == iv
        {
          DoublePower(written, counter.Length);
          for i := 0 to written
            invariant forall k :: 0 <= k < written + i ==> counter[k] == iv
          {
            counter[written + i] := counter[i];
          }
          written := written * 2;
        }
      } else {
        for i := 1 to counter.Length
          invariant counter[0] == iv
          invariant forall k :: 0 <= k < counter.Length ==> |counter[k]| == cipher.blockSize
          invariant forall k :: 0 <= k < i ==> counter[k][..off] == iv[..off]
        {
          counter[i] := counter[0][..off] + counter[i][off..];
        }
      }
    }
  }

  predicate IsPowerOf2(n: nat) { n == 1 || (n > 1 && n % 2 == 0 && IsPowerOf2(n / 2)) }

  /** Between a power of two and a larger one there is room for its double. */
  lemma {:induction false} DoublePower(m: nat, n: nat)
    requires IsPowerOf2(m) && IsPowerOf2(n) && m < n
    ensures 2 * m <= n && IsPowerOf2(2 * m)
  {
    if m > 1 {
      DoublePower(m / 2, n / 2);
    }
  }

  lemma Word32(low: nat, i: nat)
    ensures BeBytes((low + i) % 0x1_0000_0000, 4) == BeBytes(low + i, 4)
  {
    hide BeBytes, Pow256;
    Powers();
    BeBytesShift(low + i, (low + i) % 0x1_0000_0000, 4, (low + i) / 0x1_0000_0000);
  }

  lemma CounterZero(iv: seq<byte>, size: nat)
    requires size <= |iv|
    ensures CounterBlock(iv, size, 0) == iv
  {
    hide BeBytes, BeValue;
    BeBytesOfValue(iv[|iv| - size..]);
  }

  lemma SeekPosition(offset: nat, count: nat, blockSize: nat, q: nat, r: nat)
    requires offset == q * (count * blockSize) + r && count > 0 && blockSize > 0
    ensures count * q <= offset && count * q * blockSize + r == offset
  {
    assert q * (count * blockSize) == (count * q) * blockSize;
    assert (count * q) * blockSize >= count * q by {
      assert count * q >= 0;
      Grows(count * q, blockSize);
    }
  }

  lemma Grows(x: nat, k: nat)
    requires k > 0
    ensures x * k >= x
  {
  }

  lemma Divided(x: nat, d: nat)
    requires d > 0
    ensures x == (x / d) * d + x % d && 0 <= x % d < d
  {
  }

  lemma BlockStart(base: nat, i: nat, blockSize: nat)
    ensures (base + i) * blockSize == base * blockSize + i * blockSize
    ensures i * blockSize + blockSize == (i + 1) * blockSize
  {
  }

  lemma NextPad(base: nat, count: nat, blockSize: nat)
    requires count > 0 && blockSize > 0
    ensures base * blockSize + count * blockSize == (base + count) * blockSize && count * blockSize > 0
  {
  }

  lemma WideStart(v: nat, field: seq<byte>, amount: nat)
    requires |field| == 16 && field == BeBytes(v, 16)
    ensures Mod128(BeValue(field) + amount) == Mod128(v + amount)
  {
    hide BeBytes, BeValue, Pow256;
    Powers();
    BeValueOfBytes(v, 16);
    Mod128Add(v, amount);
  }

  lemma NoKeyBytes(c: Cipher, iv: seq<byte>, size: nat, from: nat)
    requires Sized(c) && |iv| == c.blockSize && size <= |iv|
    ensures KeyBytes(c, iv, size, from, 0) == []
  {
  }

  /** A counter block increased is a later counter block. */
  lemma CounterPlus(iv: seq<byte>, size: nat, k: nat, amount: nat)
    requires size <= |iv|
    ensures var b := CounterBlock(iv, size, k);
            b[..|b| - size] + BeBytes(BeValue(b[|b| - size..]) + amount, size) == CounterBlock(iv, size, k + amount)
  {
    hide BeBytes, BeValue;
    var v := BeValue(iv[|iv| - size..]);
    CounterAdd(v + k, amount, size);
    assert CounterBlock(iv, size, k)[|iv| - size..] == BeBytes(v + k, size);
  }
}
