/** Both ends of the Shadowsocks pipe together: what is received against what was sent. */
module SsSession {
  import opened Words
  import opened Wrappers
  import opened ChunkBuffers
  import opened SsChunks
  import opened SsCryptor
  import opened SsPipe
  import opened TcpPipes

  // ---------------------------------------------------------------- bytes handed out earlier do not matter

  /** The receiver with some more plaintext in front. */
  function Behind(x: seq<byte>, s: Receiver): Receiver { s.(plain := x + s.plain) }

  lemma DecryptBehind(a: Aead, s: Receiver, from: nat, x: seq<byte>)
    requires s.Valid() && from <= |s.rest| && (s.last > 0 ==> from == 0)
    ensures var r := Decrypt(a, s, from); Decrypt(a, Behind(x, s), from) == (Behind(x, r.0), r.1, r.2)
  {
    forall p: seq<byte> ensures (x + s.plain) + p == x + (s.plain + p) {
    }
  }

  lemma {:induction false} DecryptAllBehind(a: Aead, s: Receiver, from: nat, decr: nat, x: seq<byte>)
    requires s.Valid() && (s.last > 0 ==> from == 0)
    ensures var r := DecryptAll(a, s, from, decr); DecryptAll(a, Behind(x, s), from, decr) == (Behind(x, r.0), r.1, r.2)
    decreases |s.rest| - from
  {
    hide Decrypt;
    if from < |s.rest| {
      DecryptFacts(a, s, from);
      DecryptBehind(a, s, from, x);
      var (s', from', r) := Decrypt(a, s, from);
      if r.Returned? && r.value > 0 {
        DecryptAllBehind(a, s'.(last := 0), from', decr + r.value, x);
        assert Behind(x, s').(last := 0) == Behind(x, s'.(last := 0));
      }
    }
  }

  lemma DecipherBehind(a: Aead, s: Receiver, cipher: seq<byte>, x: seq<byte>)
    requires s.Valid()
    ensures var r := Decipher(a, s, cipher); Decipher(a, Behind(x, s), cipher) == (Behind(x, r.0), r.1)
  {
    hide DecryptAll;
    var t := s.(rest := s.rest + cipher);
    DecryptAllBounds(a, t, 0, 0);
    DecryptAllBehind(a, t, 0, 0, x);
    assert Behind(x, s).(rest := Behind(x, s).rest + cipher) == Behind(x, t);
  }

  lemma {:induction false} RunBehind(a: Aead, s: Receiver, fragments: seq<seq<byte>>, x: seq<byte>)
    requires s.Valid()
    ensures var r := Run(a, s, fragments); Run(a, Behind(x, s), fragments) == (Behind(x, r.0), r.1)
    decreases |fragments|
  {
    hide Decipher;
    if |fragments| > 0 {
      DecipherKeepsValid(a, s, fragments[0]);
      DecipherBehind(a, s, fragments[0], x);
      var (s', r) := Decipher(a, s, fragments[0]);
      if r.Returned? && r.value >= 0 {
        RunBehind(a, s', fragments[1..], x);
      }
    }
  }

  // ---------------------------------------------------------------- any part of the stream

  /** The receiver of a first part of the wire has a first part of what was sent, and all of it if
      it has the whole wire. */
  lemma PartDelivered(a: Aead, sends: seq<seq<byte>>, fragments: seq<seq<byte>>)
    requires Lawful(a) && NonEmpty(sends)
    requires Small(CutAll(sends)) && Flatten(fragments) <= Wire(a, 0, CutAll(sends))
    ensures var r := Run(a, START, fragments);
            && r.1 && r.0.plain <= Flatten(sends)
            && (Flatten(fragments) == Wire(a, 0, CutAll(sends)) ==> r.0.plain == Flatten(sends))
  {
    hide Lawful, Run, Wire, Flatten, Whole, CutAll;
    var ps := CutAll(sends);
    var t := Whole(ps, |Flatten(fragments)|);
    StreamDelivered(a, sends, fragments);
    CutAllProperties(sends);
    FlattenConcat(ps[..t], ps[t..]);
    assert ps[..t] + ps[t..] == ps;
  }

  /** The pipe so far: `handed` was handed out and `taken` was used of the underlying pipe. */
  ghost predicate Handed(pipe: CryptoPipe, taken: seq<Received>, handed: seq<byte>)
    requires pipe.Valid()
    reads pipe, pipe.Repr
  {
    Run(pipe.crypto.decryptor.mode, START, Fragments(taken)) == (Behind(handed, pipe.State()), true)
  }

  /** What the underlying pipe has given and will give is the start of what the sender's socket has taken. */
  ghost predicate Carried(sender: CryptoSender, results: seq<Received>)
    reads sender, sender.pipe.socket
  {
    sender.salt + Flatten(Fragments(results)) <= sender.pipe.socket.given
  }

  lemma CarriedOnWire(sender: CryptoSender, p: seq<Received>, q: seq<Received>)
    requires sender.Valid() && sender.OnWire() && Carried(sender, p + q)
    ensures Small(CutAll(sender.sends))
    ensures Flatten(Fragments(p)) <= Wire(sender.crypto.encryptor.mode, 0, CutAll(sender.sends))
  {
    hide Wire, Flatten, Fragments, KeyedFilter.Valid, CutAll;
    FragmentsConcat(p, q);
    FlattenConcat(Fragments(p), Fragments(q));
    var salt, f, g := sender.salt, Flatten(Fragments(p)), Flatten(Fragments(q));
    var w := Wire(sender.crypto.encryptor.mode, 0, CutAll(sender.sends));
    StartOfWire(salt, f, g, sender.pipe.socket.given, sender.pipe.outbuf.Contents(), sender.encryptedData, w);
  }

  lemma StartOfWire(salt: seq<byte>, f: seq<byte>, g: seq<byte>, given: seq<byte>, queued: seq<byte>, waiting: seq<byte>, w: seq<byte>)
    requires salt + (f + g) <= given && (given + queued) + waiting == salt + w
    ensures f <= w
  {
    var sent := given + queued + waiting;
    assert salt + f <= salt + (f + g);
    assert salt + f <= sent;
    assert sent[|salt|..] == w && (salt + f)[|salt|..] == f;
  }

  /** One more call, on values: it does not fail, and what is there now is still the start of what
      was sent. */
  lemma CallDelivers(a: Aead, sends: seq<seq<byte>>, s: Receiver, handed: seq<byte>, f: seq<seq<byte>>, g: seq<seq<byte>>)
    requires Lawful(a) && NonEmpty(sends) && s.Valid() && Run(a, START, f) == (Behind(handed, s), true)
    requires Small(CutAll(sends)) && Flatten(f + g) <= Wire(a, 0, CutAll(sends))
    ensures var r := Run(a, s, g);
            && r.1 && Run(a, START, f + g) == (Behind(handed, r.0), true)
            && handed + r.0.plain <= Flatten(sends)
            && (Flatten(f + g) == Wire(a, 0, CutAll(sends)) ==> handed + r.0.plain == Flatten(sends))
  {
    hide Lawful, Run, Wire, Flatten, CutAll;
    RunConcat(a, START, f, g);
    RunBehind(a, s, g, handed);
    PartDelivered(a, sends, f + g);
  }

  lemma HandedMore(handed: seq<byte>, out: seq<byte>, r: Receiver, s: Receiver)
    requires r.plain == out + s.plain && s == r.(plain := s.plain)
    ensures Behind(handed, r) == Behind(handed + out, s)
    ensures handed + r.plain == handed + out + s.plain && handed + out <= handed + r.plain
  {
  }

  /** A new pipe has handed out nothing. */
  lemma HandedNothing(pipe: CryptoPipe)
    requires pipe.Valid() && pipe.State() == START
    ensures Handed(pipe, [], [])
  {
    hide CryptoPipe.Valid, CryptoPipe.State, KeyedFilter.Valid;
    assert Behind([], START) == START;
  }

  lemma SenderOwns(sender: CryptoSender)
    requires sender.Valid()
    ensures {sender, sender.pipe, sender.pipe.socket} <= sender.Repr
  {
    hide KeyedFilter.Valid, CutAll, Small;
  }

  lemma HandedRun(pipe: CryptoPipe, taken: seq<Received>, handed: seq<byte>)
    requires pipe.Valid() && Handed(pipe, taken, handed)
    ensures Run(pipe.crypto.decryptor.mode, START, Fragments(taken)) == (Behind(handed, pipe.State()), true)
  {
  }

  lemma HandedNow(pipe: CryptoPipe, taken: seq<Received>, handed: seq<byte>)
    requires pipe.Valid()
    requires Run(pipe.crypto.decryptor.mode, START, Fragments(taken)) == (Behind(handed, pipe.State()), true)
    ensures Handed(pipe, taken, handed)
  {
  }

  lemma AllOnWire(sender: CryptoSender, f: seq<byte>)
    requires sender.Valid() && sender.OnWire() && Small(CutAll(sender.sends))
    ensures sender.salt + f == sender.pipe.Sent() + sender.encryptedData ==>
              f == Wire(sender.crypto.encryptor.mode, 0, CutAll(sender.sends))
  {
    hide Wire, CutAll, KeyedFilter.Valid, TcpPipe.Valid;
    var salt, w := sender.salt, Wire(sender.crypto.encryptor.mode, 0, CutAll(sender.sends));
    assert (salt + f)[|salt|..] == f && (salt + w)[|salt|..] == w;
  }

  /** A receive call at the far end of a sender: unless the underlying pipe has come to its end, it
      hands out bytes, and everything handed out so far is the start of what was sent. */
  method ReceiveSent(sender: CryptoSender, pipe: CryptoPipe, maxSize: int, ghost before: seq<Received>, ghost handed: seq<byte>)
    returns (out: Option<seq<byte>>, ghost taken: seq<Received>)
    requires sender.Valid() && sender.OnWire() && pipe.Valid()
    requires sender.Repr !! pipe.Repr && pipe.transport !in sender.Repr
    requires Lawful(pipe.crypto.decryptor.mode) && sender.crypto.encryptor.mode == pipe.crypto.decryptor.mode
    requires NonEmpty(sender.sends) && Handed(pipe, before, handed)
    requires Carried(sender, before + pipe.transport.script)
    modifies pipe.transport, pipe.Repr
    ensures taken + pipe.transport.script == old(pipe.transport.script)
    ensures out.None? ==> Ended(taken, pipe.transport.script)
    ensures out.Some? ==> pipe.Valid() && fresh(pipe.Repr - old(pipe.Repr))
    ensures out.Some? ==> Handed(pipe, before + taken, handed + out.value) && Carried(sender, before + taken + pipe.transport.script)
    ensures out.Some? ==> handed + out.value <= Flatten(sender.sends)
    ensures out.Some? && sender.salt + Flatten(Fragments(before + taken)) == sender.pipe.Sent() + sender.encryptedData ==>
              handed + out.value + pipe.State().plain == Flatten(sender.sends)
  {
    hide KeyedFilter.Valid, CryptoPipe.Valid, CryptoPipe.State, CryptoSender.Valid, CryptoSender.OnWire;
    hide Run, Fragments, Flatten, Wire, CutAll, Lawful, NonEmpty, TcpPipe.Valid, TcpPipe.Sent, Carried, Handed;
    ghost var a, s := pipe.crypto.decryptor.mode, pipe.State();
    SenderOwns(sender);
    HandedRun(pipe, before, handed);
    pipe.ReceiverValid();
    out, taken := pipe.Recv(maxSize);
    ghost var rest := pipe.transport.script;
    assert before + (taken + rest) == before + taken + rest;
    CarriedOnWire(sender, before + taken, rest);
    FragmentsConcat(before, taken);
    CallDelivers(a, sender.sends, s, handed, Fragments(before), Fragments(taken));
    if out.Some? {
      HandedMore(handed, out.value, Run(a, s, Fragments(taken)).0, pipe.State());
      HandedNow(pipe, before + taken, handed + out.value);
      AllOnWire(sender, Flatten(Fragments(before + taken)));
    }
  }
}
