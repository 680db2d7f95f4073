/** The Shadowsocks cryptor objects: the buffer of unprocessed ciphertext, the two keyed filters and
    the stateful encipher and decipher operations. */
module SsCryptor {
  import opened Words
  import opened Wrappers
  import opened Nonces
  import opened ChunkBuffers
  import opened SsChunks

  /** A growing byte buffer whose front can be skipped. */
  class SkipBuffer {
    var bytes: array<byte>
    var size: nat
    var skip: nat

    const SKIP_LIMIT: nat := 500 * 1024

    ghost predicate Valid()
      reads this
    {
      skip <= size <= bytes.Length
    }

    function Contents(): seq<byte>
      requires Valid()
      reads this, bytes
    {
      bytes[skip..size]
    }

    constructor ()
      ensures Valid() && fresh(bytes) && Contents() == [] && skip == 0
    {
      bytes := new byte[32];
      size, skip := 0, 0;
    }

    function Size(): (n: nat)
      requires Valid()
      reads this, bytes
      ensures n == |Contents()|
    {
      size - skip
    }

    method Clear()
      modifies this
      ensures Valid() && Contents() == [] && bytes == old(bytes) && skip == 0
    {
      size := 0;
      skip := 0;
    }

    method Erase(count: nat)
      requires Valid() && count <= Size()
      modifies this`skip
      ensures Valid() && Contents() == old(Contents())[count..]
    {
      skip := skip + count;
    }

    /** Appends; a long skipped front is reused before the buffer is made larger. */
    method Append(data: seq<byte>)
      requires Valid()
      modifies this, bytes
      ensures Valid() && Contents() == old(Contents()) + data
      ensures bytes == old(bytes) || fresh(bytes)
    {
      if skip > SKIP_LIMIT && size + |data| > bytes.Length {
        MoveToFront();
      }
      if |data| + size > bytes.Length {
        Grow(size + |data|);
      }
      Put(data);
    }

    /** Bytes behind the unread ones; there is room for them. */
    method Put(data: seq<byte>)
      requires Valid() && size + |data| <= bytes.Length
      modifies this`size, bytes
      ensures Valid() && Contents() == old(Contents()) + data
    {
      ghost var was := bytes[..size];
      CopyBytes(bytes, size, data);
      size := size + |data|;
      assert bytes[..size] == was + data;
      assert bytes[skip..size] == (was + data)[skip..];
    }

    /** The contents are copied in ascending order. */
    method MoveToFront()
      requires Valid()
      modifies this`size, this`skip, bytes
      ensures Valid() && Contents() == old(Contents()) && skip == 0
    {
      var count := size - skip;
      for i := 0 to count
        invariant bytes[..i] == old(bytes[skip..skip + i])
        invariant bytes[skip + i..] == old(bytes[skip + i..])
        modifies bytes
      {
        assert bytes[skip + i] == bytes[skip + i..][0] == old(bytes[skip + i..])[0];
        assert bytes[skip + i + 1..] == bytes[skip + i..][1..];
        bytes[i] := bytes[skip + i];
      }
      size := count;
      skip := 0;
    }

    /** Capacities are multiples of 32. */
    method Grow(needed: nat)
      requires Valid() && needed > bytes.Length
      modifies this`bytes
      ensures fresh(bytes) && bytes.Length >= needed && Valid() && Contents() == old(Contents())
    {
      var larger := new byte[(needed + 31) / 32 * 32];
      for i := 0 to size
        invariant larger[..i] == bytes[..i]
        modifies larger
      {
        larger[i] := bytes[i];
      }
      assert larger[skip..size] == larger[..size][skip..] && bytes[skip..size] == bytes[..size][skip..];
      bytes := larger;
    }
  }

  /** A cipher mode with its running nonce. */
  class KeyedFilter {
    const mode: Aead
    const iv: array<byte>
    /** How many messages have been processed. */
    ghost var index: nat

    ghost predicate Valid()
      reads this, iv
    {
      iv.Length == mode.nonceSize && iv[..] == Nonce(index, mode.nonceSize)
    }

    constructor (aead: Aead)
      ensures Valid() && fresh(iv) && mode == aead && index == 0
    {
      mode := aead;
      iv := new byte[aead.nonceSize](_ => 0);
      index := 0;
      new;
      NonceZero(aead.nonceSize);
    }

    method IncrementNonce()
      requires Valid()
      modifies this`index, iv
      ensures Valid() && index == old(index) + 1
    {
      NonceAfter(index, mode.nonceSize);
      NonceIncrement(iv);
      index := index + 1;
    }

    /** Seals one message under the current nonce. */
    method Seal(input: seq<byte>) returns (output: seq<byte>)
      requires Valid()
      modifies this`index, iv
      ensures Valid() && index == old(index) + 1
      ensures output == mode.seal(Nonce(old(index), mode.nonceSize), input)
    {
      output := mode.seal(iv[..], input);
      IncrementNonce();
    }

    /** Opens one message; the nonce stays if it does not authenticate. */
    method Open(input: seq<byte>) returns (output: Option<seq<byte>>)
      requires Valid()
      modifies this`index, iv
      ensures Valid() && index == old(index) + (if output.Some? then 1 else 0)
      ensures output == mode.open(Nonce(old(index), mode.nonceSize), input)
    {
      output := mode.open(iv[..], input);
      if output.Some? {
        IncrementNonce();
      }
    }
  }

  lemma {:induction false} NonceZero(n: nat)
    ensures Nonce(0, n) == seq(n, _ => 0)
  {
    if n > 0 {
      NonceZero(n - 1);
    }
  }

  class AeadCryptor {
    const encryptor: KeyedFilter
    const decryptor: KeyedFilter
    const unprocessed: SkipBuffer
    var lastPayload: nat

    ghost predicate Valid()
      reads this, encryptor, encryptor.iv, decryptor, decryptor.iv, unprocessed
    {
      && encryptor != decryptor && encryptor.iv != decryptor.iv
      && unprocessed.bytes != encryptor.iv && unprocessed.bytes != decryptor.iv
      && encryptor.mode == decryptor.mode
      && encryptor.Valid() && decryptor.Valid() && unprocessed.Valid()
    }

    /** The receiving half as a value, with the plaintext that the output buffer holds. */
    ghost function State(plain: ChunkBuffer): Receiver
      requires unprocessed.Valid()
      reads this, decryptor, unprocessed, unprocessed.bytes, plain
    {
      Receiver(unprocessed.Contents(), lastPayload, decryptor.index, plain.Contents())
    }

    ghost predicate Apart(plain: ChunkBuffer)
      reads this, unprocessed, plain
    {
      plain.Repr !! {this, encryptor, encryptor.iv, decryptor, decryptor.iv, unprocessed, unprocessed.bytes}
    }

    constructor (aead: Aead)
      ensures Valid() && fresh(encryptor) && fresh(encryptor.iv) && fresh(decryptor) && fresh(decryptor.iv)
      ensures fresh(unprocessed) && fresh(unprocessed.bytes)
      ensures encryptor.mode == aead && encryptor.index == decryptor.index == 0
      ensures unprocessed.Contents() == [] && lastPayload == 0
    {
      encryptor := new KeyedFilter(aead);
      decryptor := new KeyedFilter(aead);
      unprocessed := new SkipBuffer();
      lastPayload := 0;
    }

    /** Seals one send: its pieces become chunks. */
    method Encipher(plain: seq<byte>) returns (cipher: seq<byte>)
      requires Valid()
      modifies encryptor`index, encryptor.iv
      ensures Valid() && Small(Cut(plain))
      ensures cipher == Wire(encryptor.mode, old(encryptor.index), Cut(plain))
      ensures encryptor.index == old(encryptor.index) + 2 * |Cut(plain)|
      decreases |plain|
    {
      hide Nonce, Wire, Cut;
      var inLen := (if |plain| > CHUNK_SIZE_MASK then CHUNK_SIZE_MASK else |plain|) % 0x1_0000;
      CutWire(encryptor.mode, encryptor.index, plain);
      var sizeBlock := encryptor.Seal(SizeBytes(inLen));
      var payload := encryptor.Seal(plain[..inLen]);
      cipher := sizeBlock + payload;
      if inLen < |plain| {
        var others := Encipher(plain[inLen..]);
        cipher := cipher + others;
      }
    }

    /** One attempt to open a chunk at `from`. */
    method Decrypt(from: nat, plain: ChunkBuffer) returns (next: nat, r: Outcome)
      requires Valid() && plain.Valid() && Apart(plain)
      requires State(plain).Valid() && from <= unprocessed.Size() && (lastPayload > 0 ==> from == 0)
      modifies this`lastPayload, decryptor`index, decryptor.iv, plain.Repr
      ensures Valid() && plain.Valid() && Apart(plain) && fresh(plain.Repr - old(plain.Repr))
      ensures (State(plain), next, r) == SsChunks.Decrypt(decryptor.mode, old(State(plain)), from)
    {
      hide Nonce, ChunkBuffer.Valid;
      if lastPayload > 0 {
        assert from == 0;
        next, r := DecryptPayload(from, SIZE_BLOCK, lastPayload, plain);
        return;
      }
      if unprocessed.Size() - from < SIZE_BLOCK {
        return from, Returned(0);
      }
      var block := decryptor.Open(unprocessed.Contents()[from..from + SIZE_BLOCK]);
      if block.None? {
        return from, Returned(-1);
      }
      var payloadSize := SizeOf(block.value);
      if payloadSize > CHUNK_SIZE_MASK {
        return from, Returned(-1);
      }
      lastPayload := payloadSize;
      next, r := DecryptPayload(from, from + SIZE_BLOCK, payloadSize, plain);
    }

    /** Opens the payload block at `at`, if it has arrived. */
    method DecryptPayload(from: nat, at: nat, payloadSize: nat, plain: ChunkBuffer) returns (next: nat, r: Outcome)
      requires Valid() && plain.Valid() && Apart(plain) && at <= unprocessed.Size()
      modifies decryptor`index, decryptor.iv, plain.Repr
      ensures Valid() && plain.Valid() && Apart(plain) && fresh(plain.Repr - old(plain.Repr))
      ensures (State(plain), next, r) == SsChunks.DecryptPayload(decryptor.mode, old(State(plain)), from, at, payloadSize)
    {
      hide Nonce, ChunkBuffer.Valid;
      if payloadSize + TAG_SIZE > unprocessed.Size() - at {
        return from, Returned(0);
      }
      var payload := decryptor.Open(unprocessed.Contents()[at..at + payloadSize + TAG_SIZE]);
      if payload.None? {
        return from, Thrown;
      }
      plain.Append(payload.value);
      return at + payloadSize + TAG_SIZE, Returned(payloadSize);
    }

    /** Takes in a fragment of ciphertext and opens all chunks that are complete. */
    method Decipher(plain: ChunkBuffer, cipher: seq<byte>) returns (r: Outcome)
      requires Valid() && plain.Valid() && Apart(plain) && State(plain).Valid()
      modifies this`lastPayload, decryptor`index, decryptor.iv, unprocessed, unprocessed.bytes, plain.Repr
      ensures Valid() && plain.Valid() && Apart(plain)
      ensures fresh(plain.Repr - old(plain.Repr)) && (unprocessed.bytes == old(unprocessed.bytes) || fresh(unprocessed.bytes))
      ensures (State(plain), r) == SsChunks.Decipher(decryptor.mode, old(State(plain)), cipher)
    {
      hide Nonce, SsChunks.Decrypt, DecryptAll, ChunkBuffer.Valid, KeyedFilter.Valid;
      ghost var start := State(plain);
      unprocessed.Append(cipher);
      start := start.(rest := start.rest + cipher);
      assert State(plain) == start;
      var from, decr;
      from, decr, r := OpenAll(plain);
      DecryptAllBounds(decryptor.mode, start, 0, 0);
      if r.Thrown? || r.value < 0 {
        return;
      }
      if decr > 0 {
        var size := unprocessed.Size();
        if from == size {
          unprocessed.Clear();
        } else if from == 0 && size > CHUNK_SIZE_MASK {
          return Returned(-1);
        } else {
          unprocessed.Erase(from);
        }
      }
    }

    /** The loop of decipher. */
    method OpenAll(plain: ChunkBuffer) returns (from: nat, decr: nat, r: Outcome)
      requires Valid() && plain.Valid() && Apart(plain) && State(plain).Valid()
      modifies this`lastPayload, decryptor`index, decryptor.iv, plain.Repr
      ensures Valid() && plain.Valid() && Apart(plain) && fresh(plain.Repr - old(plain.Repr))
      ensures (State(plain), from, r) == DecryptAll(decryptor.mode, old(State(plain)), 0, 0)
      ensures r.Returned? && r.value >= 0 ==> r.value == decr
    {
      hide Nonce, SsChunks.Decrypt, DecryptAll, ChunkBuffer.Valid, KeyedFilter.Valid;
      ghost var a, start := decryptor.mode, State(plain);
      ghost var s := start;
      var end := unprocessed.Size();
      from, decr := 0, 0;
      while from < end
        invariant Valid() && plain.Valid() && Apart(plain) && fresh(plain.Repr - old(plain.Repr))
        invariant s == State(plain) && s.Valid() && from <= end == |s.rest| && (s.last > 0 ==> from == 0)
        invariant DecryptAll(a, s, from, decr) == DecryptAll(a, start, 0, 0)
        decreases end - from
      {
        DecryptAllUnfold(a, s, from, decr);
        DecryptFacts(a, s, from);
        from, r := Decrypt(from, plain);
        if r.Thrown? {
          return;
        }
        if r.value < 0 {
          return from, decr, Returned(-1);
        }
        s := State(plain);
        if r.value == 0 {
          return from, decr, Returned(decr);
        }
        lastPayload := 0;
        s := s.(last := 0);
        decr := decr + r.value;
      }
      DecryptAllUnfold(a, s, from, decr);
      r := Returned(decr);
    }
  }

  lemma DecryptAllUnfold(a: Aead, s: Receiver, from: nat, decr: nat)
    requires s.Valid() && (s.last > 0 ==> from == 0)
    ensures DecryptAll(a, s, from, decr) ==
      if from >= |s.rest| then (s, from, Returned(decr))
      else
        var (s', from', r) := SsChunks.Decrypt(a, s, from);
        if r.Thrown? then (s', from', Thrown)
        else if r.value < 0 then (s', from', Returned(-1))
        else if r.value == 0 then (s', from', Returned(decr))
        else DecryptAll(a, s'.(last := 0), from', decr + r.value)
  {
    hide SsChunks.Decrypt;
  }
}
