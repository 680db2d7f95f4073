/** The Shadowsocks pipe: deciphered bytes handed out in order, exactly or up to a size. */
module SsPipe {
  import opened Words
  import opened Wrappers
  import opened ChunkBuffers
  import opened SsChunks
  import opened SsCryptor
  import opened TcpPipes

  /** What one receive call on the underlying pipe gives: an error or some bytes, possibly none. */
  datatype Received = Failed | Bytes(data: seq<byte>)

  /** The underlying pipe, with what its future calls will give. */
  class Transport {
    var script: seq<Received>

    constructor (future: seq<Received>)
      ensures script == future
    {
      script := future;
    }

    method Recv() returns (r: Received)
      modifies this
      ensures if old(script) == [] then r == Failed && script == []
              else r == old(script)[0] && script == old(script)[1..]
    {
      if script == [] {
        return Failed;
      }
      r := script[0];
      script := script[1..];
    }
  }

  /** The fragments that some receive results hold. */
  function Fragments(results: seq<Received>): seq<seq<byte>> {
    if |results| == 0 then []
    else
      var r := results[0];
      (if r.Bytes? && |r.data| > 0 then [r.data] else []) + Fragments(results[1..])
  }

  lemma {:induction false} RunConcat(a: Aead, s: Receiver, f: seq<seq<byte>>, g: seq<seq<byte>>)
    requires s.Valid()
    ensures var r := Run(a, s, f);
            r.1 ==> r.0.Valid() && Run(a, s, f + g) == Run(a, r.0, g)
    decreases |f|
  {
    hide Decipher;
    if |f| == 0 {
      assert f + g == g;
    } else {
      assert (f + g)[1..] == f[1..] + g;
      var (s', r) := Decipher(a, s, f[0]);
      DecipherKeepsValid(a, s, f[0]);
      if r.Returned? && r.value >= 0 {
        RunConcat(a, s', f[1..], g);
      }
    }
  }

  lemma {:induction false} FragmentsConcat(p: seq<Received>, q: seq<Received>)
    ensures Fragments(p + q) == Fragments(p) + Fragments(q)
  {
    if |p| == 0 {
      assert p + q == q;
    } else {
      assert (p + q)[1..] == p[1..] + q;
      FragmentsConcat(p[1..], q);
    }
  }

  /** The underlying pipe has given what it can: its last result was a failure, or there is none left. */
  predicate Ended(taken: seq<Received>, script: seq<Received>) {
    script == [] || (taken != [] && taken[|taken| - 1] == Failed)
  }

  /** Fewer bytes than a receive call must have: the count in exact mode, otherwise one. */
  predicate Short(maxSize: int, plain: seq<byte>) { if maxSize < 0 then |plain| < -maxSize else plain == [] }

  class CryptoPipe {
    const transport: Transport
    const crypto: AeadCryptor
    const decrypted: ChunkBuffer

    ghost var Repr: set<object>

    /** The objects that the pipe is made of now. */
    ghost function Parts(): set<object>
      reads this, crypto.unprocessed, decrypted
    {
      {this, crypto, crypto.encryptor, crypto.encryptor.iv, crypto.decryptor, crypto.decryptor.iv,
       crypto.unprocessed, crypto.unprocessed.bytes} + decrypted.Repr
    }

    ghost predicate Valid()
      reads this, Repr
    {
      && {this, crypto, crypto.encryptor, crypto.encryptor.iv, crypto.decryptor, crypto.decryptor.iv,
          crypto.unprocessed, decrypted} <= Repr
      && crypto.unprocessed.bytes in Repr && decrypted.Repr <= Repr && transport !in Repr
      && crypto.Valid() && decrypted.Valid() && crypto.Apart(decrypted) && this !in decrypted.Repr
      && crypto.State(decrypted).Valid()
    }

    /** The receiver, its plaintext being what has not been handed out yet. */
    ghost function State(): Receiver
      requires Valid()
      reads this, Repr
    {
      crypto.State(decrypted)
    }

    constructor (pipe: Transport, aead: Aead)
      ensures Valid() && fresh(Repr) && transport == pipe
      ensures crypto.decryptor.mode == aead && State() == START
    {
      hide KeyedFilter.Valid, ChunkBuffer.Valid;
      transport := pipe;
      crypto := new AeadCryptor(aead);
      decrypted := new ChunkBuffer(16384);
      new;
      Repr := Parts();
    }

    /** Deciphers what one receive call has given. */
    method Feed(piece: seq<byte>) returns (ok: bool)
      requires Valid()
      modifies Repr
      ensures ok ==> Valid() && fresh(Repr - old(Repr))
      ensures ok ==> Run(crypto.decryptor.mode, old(State()), Fragments([Bytes(piece)])) == (State(), true)
      ensures !ok ==> !Run(crypto.decryptor.mode, old(State()), Fragments([Bytes(piece)])).1
    {
      hide KeyedFilter.Valid, ChunkBuffer.Valid, Decipher, Nonces.Nonce;
      ghost var a, s := crypto.decryptor.mode, State();
      FeedRun(a, s, piece);
      DecipherKeepsValid(a, s, piece);
      ok := true;
      if |piece| > 0 {
        var d := crypto.Decipher(decrypted, piece);
        if d.Thrown? || d.value < 0 {
          return false;
        }
        Repr := Repr + Parts();
      }
    }

    lemma FeedRun(a: Aead, s: Receiver, piece: seq<byte>)
      requires s.Valid()
      ensures Fragments([Bytes(piece)]) == if |piece| > 0 then [piece] else []
      ensures Run(a, s, []) == (s, true)
      ensures var (s', r) := Decipher(a, s, piece);
              if r.Returned? && r.value >= 0 then Run(a, s, [piece]) == (s', true) else !Run(a, s, [piece]).1
    {
      hide Decipher;
      assert [Bytes(piece)][1..] == [] && [piece][1..] == [];
      DecipherKeepsValid(a, s, piece);
    }

    /** One receive call on the underlying pipe, deciphered. */
    method Pull() returns (ok: bool, ghost taken: seq<Received>)
      requires Valid()
      modifies transport, Repr
      ensures taken + transport.script == old(transport.script) && |taken| <= 1
      ensures taken == [] <==> old(transport.script) == []
      ensures ok ==> |taken| == 1 && taken[0].Bytes?
      ensures !ok ==> taken == [] || taken == [Failed] || !Run(crypto.decryptor.mode, old(State()), Fragments(taken)).1
      ensures ok ==> Valid() && fresh(Repr - old(Repr))
      ensures ok ==> Run(crypto.decryptor.mode, old(State()), Fragments(taken)) == (State(), true)
    {
      hide KeyedFilter.Valid, ChunkBuffer.Valid, Run, Nonces.Nonce;
      taken := if transport.script == [] then [] else transport.script[..1];
      var r := transport.Recv();
      if r.Failed? {
        return false, taken;
      }
      assert taken == [Bytes(r.data)];
      ok := Feed(r.data);
    }

    /** Hands out exactly -maxSize bytes if maxSize is negative, else at most maxSize: always the
        next ones of the deciphered stream.  `taken` are the results of the underlying pipe that
        were used.  None only when there were too few bytes, and the underlying pipe failed or gave
        what does not decipher. */
    method Recv(maxSize: int) returns (out: Option<seq<byte>>, ghost taken: seq<Received>)
      requires Valid()
      modifies transport, Repr
      ensures taken + transport.script == old(transport.script)
      ensures out.Some? ==> Valid() && fresh(Repr - old(Repr))
      ensures out.Some? ==>
        var r := Run(crypto.decryptor.mode, old(State()), Fragments(taken));
        && r.1 && r.0.plain == out.value + State().plain && State() == r.0.(plain := State().plain)
        && (if maxSize < 0 then |out.value| == -maxSize else |out.value| == Min(maxSize, |r.0.plain|))
      ensures out.None? ==>
        var r := Run(crypto.decryptor.mode, old(State()), Fragments(taken));
        r.1 ==> Ended(taken, transport.script) && Short(maxSize, r.0.plain)
    {
      hide Valid, State, Run, Fragments;
      ghost var a, s := crypto.decryptor.mode, State();
      ReceiverValid();
      NothingTaken(a, s);
      taken := [];
      var doRecv := decrypted.IsEmpty();
      while true
        invariant Valid() && fresh(Repr - old(Repr)) && taken + transport.script == old(transport.script)
        invariant Run(a, s, Fragments(taken)) == (State(), true)
        invariant doRecv ==> Short(maxSize, State().plain)
        decreases |transport.script|, if doRecv then 0 else 1
      {
        if doRecv {
          ghost var was, here := taken, State();
          var ok;
          ghost var more;
          ok, more := Pull();
          taken := taken + more;
          FragmentsConcat(was, more);
          RunConcat(a, s, Fragments(was), Fragments(more));
          if !ok {
            NothingTaken(a, here);
            return None, taken;
          }
        }
        if maxSize < 0 {
          var enough := HasEnough(-maxSize);
          if !enough {
            doRecv := true;
            continue;
          }
          var bytes := Take(-maxSize);
          return Some(bytes), taken;
        }
        break;
      }
      var bytes := HandOut(maxSize);
      out := Some(bytes);
    }

    /** Everything, if it fits, else as much as fits. */
    method HandOut(maxSize: nat) returns (out: seq<byte>)
      requires Valid()
      modifies Repr
      ensures Valid() && Repr == old(Repr)
      ensures |out| == Min(maxSize, |old(State().plain)|) && old(State().plain) == out + State().plain
      ensures State() == old(State()).(plain := State().plain) && unchanged(transport)
    {
      hide KeyedFilter.Valid, ChunkBuffer.Valid;
      var fits := decrypted.EnoughFor(maxSize);
      if fits {
        out := decrypted.PeekAll();
      } else {
        out := decrypted.Peek(maxSize);
      }
    }

    lemma ReceiverValid()
      requires Valid()
      ensures State().Valid()
      ensures decrypted.IsEmpty() <==> State().plain == []
    {
      hide KeyedFilter.Valid, ChunkBuffer.Valid;
      decrypted.EmptyMeansEmpty();
    }

    method HasEnough(n: nat) returns (yes: bool)
      requires Valid()
      ensures yes <==> |State().plain| >= n
      ensures Valid() && Repr == old(Repr) && State() == old(State())
    {
      yes := decrypted.Enough(n);
    }

    lemma NothingTaken(a: Aead, s: Receiver)
      requires s.Valid()
      ensures Run(a, s, Fragments([])) == (s, true) && Run(a, s, Fragments([Failed])) == (s, true)
    {
      assert Fragments([Failed]) == Fragments([Failed][1..]);
    }

    /** Hands out the next bytes; there are enough of them. */
    method Take(count: nat) returns (out: seq<byte>)
      requires Valid() && count <= |State().plain|
      modifies Repr
      ensures Valid() && Repr == old(Repr)
      ensures |out| == count && old(State().plain) == out + State().plain
      ensures State() == old(State()).(plain := State().plain) && unchanged(transport)
    {
      hide KeyedFilter.Valid, ChunkBuffer.Valid;
      out := decrypted.Peek(count);
    }
  }

  lemma {:induction false} CutAllAppend(sends: seq<seq<byte>>, x: seq<byte>)
    ensures CutAll(sends + [x]) == CutAll(sends) + Cut(x)
  {
    hide Cut;
    if |sends| == 0 {
      assert ([x])[1..] == [] && sends + [x] == [x];
      assert CutAll([x]) == Cut(x) + CutAll([]);
    } else {
      assert (sends + [x])[1..] == sends[1..] + [x];
      CutAllAppend(sends[1..], x);
    }
  }

  /** The sending half: the salt goes out in front of the first sealed chunk. */
  class CryptoSender {
    const crypto: AeadCryptor
    const pipe: TcpPipe
    var encryptedData: seq<byte>
    ghost const salt: seq<byte>
    ghost var sends: seq<seq<byte>>
    ghost var Repr: set<object>

    ghost predicate Valid()
      reads this, Repr
    {
      && {this, crypto, crypto.encryptor, crypto.encryptor.iv, crypto.decryptor, crypto.decryptor.iv} <= Repr
      && {crypto.unprocessed, pipe} <= Repr
      && pipe.Repr <= Repr && this !in pipe.Repr
      && pipe.Repr !! {crypto, crypto.encryptor, crypto.encryptor.iv, crypto.decryptor, crypto.decryptor.iv, crypto.unprocessed}
      && crypto.Valid() && pipe.Valid()
      && Small(CutAll(sends)) && crypto.encryptor.index == 2 * |CutAll(sends)|
    }

    /** What the peer has been or will be sent is the salt and the wire of all sends. */
    ghost predicate OnWire()
      requires Valid()
      reads this, Repr
    {
      pipe.Sent() + encryptedData == salt + Wire(crypto.encryptor.mode, 0, CutAll(sends))
    }

    constructor (p: TcpPipe, aead: Aead, s: seq<byte>)
      requires p.Valid() && p.Sent() == []
      ensures Valid() && OnWire() && fresh(Repr - p.Repr - {p}) && pipe == p && salt == s && sends == []
      ensures crypto.encryptor.mode == aead
    {
      hide KeyedFilter.Valid, TcpPipe.Valid;
      pipe := p;
      crypto := new AeadCryptor(aead);
      encryptedData := s;
      salt := s;
      sends := [];
      new;
      Repr := {this, crypto, crypto.encryptor, crypto.encryptor.iv, crypto.decryptor, crypto.decryptor.iv}
            + {crypto.unprocessed, pipe} + pipe.Repr;
      NothingSent(aead, s);
    }

    /** Seals and sends one piece of data.  The answer is Fail exactly when the socket breaks. */
    method Send(data: seq<byte>) returns (r: SendResult)
      requires Valid()
      modifies Repr
      ensures Valid() && fresh(Repr - old(Repr)) && sends == old(sends) + [data]
      ensures old(OnWire()) && r != Fail ==> OnWire() && encryptedData == []
      ensures r == Ok ==> pipe.outbuf.Contents() == []
      ensures r == BufferFull ==> pipe.outbuf.Contents() != []
      ensures r == Fail ==> old(pipe.Breaks())
      ensures Lawful(crypto.encryptor.mode) && old(pipe.Breaks()) ==> r == Fail
    {
      hide Valid, OnWire, TcpPipe.Breaks, TcpPipe.Valid, Lawful;
      Owned();
      SealPiece(data);
      Owned();
      r := Transmit();
    }

    lemma Owned()
      requires Valid()
      ensures {this, crypto.encryptor, crypto.encryptor.iv, pipe} <= Repr && pipe.Repr <= Repr && pipe.Valid()
      ensures {this, crypto.encryptor, crypto.encryptor.iv} !! pipe.Repr
    {
      hide KeyedFilter.Valid, TcpPipe.Valid, CutAll, Small;
    }

    /** encipher, behind what has not been handed on yet. */
    method SealPiece(data: seq<byte>)
      requires Valid()
      modifies this`encryptedData, this`sends, crypto.encryptor`index, crypto.encryptor.iv
      ensures Valid() && Repr == old(Repr) && sends == old(sends) + [data] && (old(OnWire()) ==> OnWire())
      ensures Lawful(crypto.encryptor.mode) ==> encryptedData != []
    {
      hide KeyedFilter.Valid, TcpPipe.Valid, Wire, CutAll, Cut, Lawful;
      ghost var a, sent := crypto.encryptor.mode, pipe.Sent();
      CutAllAppend(sends, data);
      CutProperties(data);
      WireConcat(a, 0, CutAll(sends), Cut(data));
      var cipher := crypto.Encipher(data);
      if Lawful(a) {
        WireNotEmpty(a, 2 * |CutAll(sends)|, Cut(data));
      }
      SentThen(sent, encryptedData, salt, Wire(a, 0, CutAll(sends)), cipher);
      encryptedData := encryptedData + cipher;
      sends := sends + [data];
    }

    method Transmit() returns (r: SendResult)
      requires Valid()
      modifies this`encryptedData, this`Repr, pipe.Repr
      ensures Valid() && fresh(Repr - old(Repr)) && sends == old(sends) && encryptedData == []
      ensures old(OnWire()) && r != Fail ==> OnWire()
      ensures r == Ok ==> pipe.outbuf.Contents() == []
      ensures r == BufferFull ==> pipe.outbuf.Contents() != []
      ensures r == Fail ==> old(pipe.Breaks())
      ensures old(encryptedData) != [] && old(pipe.Breaks()) ==> r == Fail
    {
      hide KeyedFilter.Valid, TcpPipe.Valid, TcpPipe.Breaks, Wire, CutAll;
      r := pipe.Send(Some(encryptedData));
      Repr := Repr + pipe.Repr;
      encryptedData := [];
      assert pipe.Sent() + [] == pipe.Sent();
    }
  }

  lemma WireNotEmpty(a: Aead, k: nat, ps: seq<seq<byte>>)
    requires Lawful(a) && Small(ps) && |ps| > 0
    ensures Wire(a, k, ps) != []
  {
    WireFirst(a, k, ps);
  }

  lemma NothingSent(a: Aead, s: seq<byte>)
    ensures CutAll([]) == [] && Wire(a, 0, []) == [] && [] + s == s + []
  {
  }

  /** What was on the wire before, then the new ciphertext. */
  lemma SentThen(sent: seq<byte>, waiting: seq<byte>, s: seq<byte>, w: seq<byte>, c: seq<byte>)
    ensures sent + waiting == s + w ==> sent + (waiting + c) == s + (w + c)
  {
    assert sent + (waiting + c) == (sent + waiting) + c;
  }
}
