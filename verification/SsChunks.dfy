/** The Shadowsocks AEAD chunk format: what a sender puts on the wire, what a receiver makes of
    arbitrary fragments of it, and why the two agree. */
module SsChunks {
  import opened Words
  import opened Wrappers
  import opened Nonces
  import opened ChunkBuffers

  const CHUNK_SIZE_MASK: nat := 0x3FFF
  const TAG_SIZE: nat := 16

  /** A sealed size block. */
  const SIZE_BLOCK: nat := 18

  /** Authenticated encryption under a fixed key: nonce and text to sealed text and back. */
  datatype Aead = Aead(seal: (seq<byte>, seq<byte>) -> seq<byte>,
                       open: (seq<byte>, seq<byte>) -> Option<seq<byte>>,
                       nonceSize: nat)

  /** Opening undoes sealing, and sealed text is 16 bytes longer. */
  ghost predicate Lawful(a: Aead) {
    && (forall n, p :: |a.seal(n, p)| == |p| + TAG_SIZE)
    && (forall n, p :: a.open(n, a.seal(n, p)) == Some(p))
    && (forall n, c :: a.open(n, c).Some? ==> |c| == |a.open(n, c).value| + TAG_SIZE)
  }

  /** The size block of an empty payload, sealed as block i of a session, does not open as block i + 1. */
  ghost predicate RejectsAt(a: Aead, i: nat) {
    a.open(Nonce(i + 1, a.nonceSize), a.seal(Nonce(i, a.nonceSize), SizeBytes(0))) == None
  }

  /** No size block of an empty payload opens as the block after it. */
  ghost predicate RejectsNextBlock(a: Aead) {
    forall i: nat :: RejectsAt(a, i)
  }

  // ---------------------------------------------------------------- the sender

  function SizeBytes(n: nat): (s: seq<byte>)
    requires n <= CHUNK_SIZE_MASK
    ensures |s| == 2
  {
    [n / 256, n % 256]
  }

  /** The number in an opened size block (network byte order). */
  function SizeOf(block: seq<byte>): nat {
    if |block| == 2 then
      var high: nat := block[0];
      var low: nat := block[1];
      high * 256 + low
    else 0
  }

  /** The size goes out in network byte order, and is read so. */
  lemma SizeIsBigEndian(n: nat, block: seq<byte>)
    requires n <= CHUNK_SIZE_MASK
    ensures BeValue(SizeBytes(n)) == n
    ensures SizeOf(block) == if |block| == 2 then BeValue(block) else 0
  {
    TwoBytes(SizeBytes(n));
    if |block| == 2 {
      TwoBytes(block);
    }
  }

  lemma TwoBytes(b: seq<byte>)
    requires |b| == 2
    ensures BeValue(b) == 256 * (b[0] as int) + b[1] as int
  {
    assert b[..1][..0] == [];
    assert BeValue(b[..1]) == 256 * BeValue([]) + b[0];
  }

  lemma SizeRoundTrip(n: nat)
    requires n <= CHUNK_SIZE_MASK
    ensures SizeOf(SizeBytes(n)) == n
  {
  }

  /** The pieces one send is cut into; an empty send is one empty piece. */
  function Cut(plain: seq<byte>): seq<seq<byte>>
    decreases |plain|
  {
    if |plain| <= CHUNK_SIZE_MASK then [plain]
    else [plain[..CHUNK_SIZE_MASK]] + Cut(plain[CHUNK_SIZE_MASK..])
  }

  predicate Small(ps: seq<seq<byte>>) { forall i :: 0 <= i < |ps| ==> |ps[i]| <= CHUNK_SIZE_MASK }

  predicate NonEmpty(ps: seq<seq<byte>>) { forall i :: 0 <= i < |ps| ==> ps[i] != [] }

  lemma {:induction false} CutProperties(plain: seq<byte>)
    ensures Flatten(Cut(plain)) == plain && Small(Cut(plain)) && |Cut(plain)| > 0
    ensures if plain == [] then Cut(plain) == [[]] else NonEmpty(Cut(plain))
    decreases |plain|
  {
    if |plain| <= CHUNK_SIZE_MASK {
      FlattenOne(plain);
    } else {
      CutProperties(plain[CHUNK_SIZE_MASK..]);
      FlattenFirst(Cut(plain));
      assert Cut(plain)[1..] == Cut(plain[CHUNK_SIZE_MASK..]);
    }
  }

  /** One chunk on the wire: sealed size, sealed payload, under the k-th and the next nonce. */
  function ChunkBytes(a: Aead, k: nat, p: seq<byte>): seq<byte>
    requires |p| <= CHUNK_SIZE_MASK
  {
    a.seal(Nonce(k, a.nonceSize), SizeBytes(|p|)) + a.seal(Nonce(k + 1, a.nonceSize), p)
  }

  /** The wire after the k-th nonce. */
  function Wire(a: Aead, k: nat, ps: seq<seq<byte>>): seq<byte>
    requires Small(ps)
    decreases |ps|
  {
    if |ps| == 0 then [] else ChunkBytes(a, k, ps[0]) + Wire(a, k + 2, ps[1..])
  }

  lemma {:induction false} WireConcat(a: Aead, k: nat, p: seq<seq<byte>>, q: seq<seq<byte>>)
    requires Small(p) && Small(q)
    ensures Small(p + q) && Wire(a, k, p + q) == Wire(a, k, p) + Wire(a, k + 2 * |p|, q)
    decreases |p|
  {
    hide ChunkBytes;
    if |p| == 0 {
      assert p + q == q;
    } else {
      assert (p + q)[1..] == p[1..] + q;
      WireConcat(a, k + 2, p[1..], q);
    }
  }

  /** The wire of one send, piece by piece. */
  lemma CutWire(a: Aead, k: nat, plain: seq<byte>)
    ensures Small(Cut(plain)) && |Cut(plain)| > 0
    ensures var n := Min(|plain|, CHUNK_SIZE_MASK);
            var here := a.seal(Nonce(k, a.nonceSize), SizeBytes(n)) + a.seal(Nonce(k + 1, a.nonceSize), plain[..n]);
            if n == |plain| then |Cut(plain)| == 1 && Wire(a, k, Cut(plain)) == here
            else
              && |Cut(plain)| == 1 + |Cut(plain[n..])| && Small(Cut(plain[n..]))
              && Wire(a, k, Cut(plain)) == here + Wire(a, k + 2, Cut(plain[n..]))
  {
    hide Nonce;
    CutProperties(plain);
    var n := Min(|plain|, CHUNK_SIZE_MASK);
    if n < |plain| {
      CutProperties(plain[n..]);
      assert Cut(plain)[1..] == Cut(plain[n..]);
    } else {
      assert plain[..n] == plain;
    }
  }

  /** What a send puts on the wire first: the sealed length of its first piece, two bytes in network
      order, and then that piece, sealed under the next nonce. */
  lemma WireBegins(a: Aead, k: nat, plain: seq<byte>) returns (size: seq<byte>)
    requires Lawful(a)
    ensures Small(Cut(plain))
    ensures var n, w := Min(|plain|, CHUNK_SIZE_MASK), Wire(a, k, Cut(plain));
            && |size| == 2 && BeValue(size) == n
            && |w| >= SIZE_BLOCK + n + TAG_SIZE
            && w[..SIZE_BLOCK] == a.seal(Nonce(k, a.nonceSize), size)
            && w[SIZE_BLOCK..SIZE_BLOCK + n + TAG_SIZE] == a.seal(Nonce(k + 1, a.nonceSize), plain[..n])
  {
    hide Wire, Nonce;
    var n := Min(|plain|, CHUNK_SIZE_MASK);
    size := SizeBytes(n);
    SizeIsBigEndian(n, []);
    CutWire(a, k, plain);
  }

  // ---------------------------------------------------------------- the receiver

  /** What the receiver keeps: unprocessed ciphertext, the payload size it has already opened (or
      0), how many blocks it has opened, and the plaintext it has produced. */
  datatype Receiver = Receiver(rest: seq<byte>, last: nat, index: nat, plain: seq<byte>) {
    predicate Valid() { last > 0 ==> |rest| >= SIZE_BLOCK }
  }

  datatype Outcome = Returned(value: int) | Thrown

  /** One attempt to open a chunk at `from`. */
  function Decrypt(a: Aead, s: Receiver, from: nat): (Receiver, nat, Outcome)
    requires s.Valid() && from <= |s.rest| && (s.last > 0 ==> from == 0)
  {
    if s.last > 0 then
      DecryptPayload(a, s, from, SIZE_BLOCK, s.last)
    else if |s.rest| - from < SIZE_BLOCK then
      (s, from, Returned(0))
    else
      match a.open(Nonce(s.index, a.nonceSize), s.rest[from..from + SIZE_BLOCK])
      case None => (s, from, Returned(-1))
      case Some(block) =>
        var size := SizeOf(block);
        var s := s.(index := s.index + 1);
        if size > CHUNK_SIZE_MASK then (s, from, Returned(-1))
        else DecryptPayload(a, s.(last := size), from, from + SIZE_BLOCK, size)
  }

  function DecryptPayload(a: Aead, s: Receiver, from: nat, at: nat, size: nat): (Receiver, nat, Outcome)
    requires at <= |s.rest|
  {
    if size + TAG_SIZE > |s.rest| - at then
      (s, from, Returned(0))
    else
      match a.open(Nonce(s.index, a.nonceSize), s.rest[at..at + size + TAG_SIZE])
      case None => (s, from, Thrown)
      case Some(p) => (s.(index := s.index + 1, plain := s.plain + p), at + size + TAG_SIZE, Returned(size))
  }

  /** The loop of decipher: the new state, how far it got, how much it opened. */
  function DecryptAll(a: Aead, s: Receiver, from: nat, decr: nat): (Receiver, nat, Outcome)
    requires s.Valid() && (s.last > 0 ==> from == 0)
    decreases |s.rest| - from
  {
    if from >= |s.rest| then (s, from, Returned(decr))
    else
      var (s', from', r) := Decrypt(a, s, from);
      if r.Thrown? then (s', from', Thrown)
      else if r.value < 0 then (s', from', Returned(-1))
      else if r.value == 0 then (s', from', Returned(decr))
      else DecryptAll(a, s'.(last := 0), from', decr + r.value)
  }

  function Decipher(a: Aead, s: Receiver, cipher: seq<byte>): (Receiver, Outcome)
    requires s.Valid()
  {
    var (s', from, r) := DecryptAll(a, s.(rest := s.rest + cipher), 0, 0);
    if r.Thrown? || r.value <= 0 then (s', r)
    else if from == |s'.rest| then (s'.(rest := []), r)
    else if from == 0 && |s'.rest| > CHUNK_SIZE_MASK then (s', Returned(-1))
    else if from <= |s'.rest| then (s'.(rest := s'.rest[from..]), r)
    else assert false by { DecryptAllBounds(a, s.(rest := s.rest + cipher), 0, 0); } (s', r)
  }

  lemma DecryptFacts(a: Aead, s: Receiver, from: nat)
    requires s.Valid() && (s.last > 0 ==> from == 0) && from <= |s.rest|
    ensures var (s', from', r) := Decrypt(a, s, from);
            && s'.rest == s.rest && from <= from' <= |s.rest|
            && (r.Returned? && r.value > 0 ==> from' > from)
            && (r.Returned? ==> r.value >= -1)
            && (r == Returned(0) && s'.last > 0 ==> from' == from && |s.rest| - from >= SIZE_BLOCK)
  {
  }

  /** A size block of any sender is read in network byte order: the receiver waits for that many bytes and a tag. */
  lemma DecryptReadsSize(a: Aead, s: Receiver, block: seq<byte>)
    requires s.last == 0 && |s.rest| >= SIZE_BLOCK && |block| == 2
    requires a.open(Nonce(s.index, a.nonceSize), s.rest[..SIZE_BLOCK]) == Some(block)
    ensures var n := BeValue(block);
            && (n > CHUNK_SIZE_MASK ==> Decrypt(a, s, 0).2 == Returned(-1))
            && (n <= CHUNK_SIZE_MASK && |s.rest| < SIZE_BLOCK + n + TAG_SIZE ==>
                  Decrypt(a, s, 0) == (s.(last := n, index := s.index + 1), 0, Returned(0)))
  {
    hide Nonce, SizeOf;
    SizeIsBigEndian(0, block);
    assert s.rest[0..0 + SIZE_BLOCK] == s.rest[..SIZE_BLOCK];
  }

  /** Opening never reads past the end and never changes the ciphertext; opened bytes imply
      progress, so the "data corrupt" exit of decipher is never taken. */
  lemma {:induction false} DecryptAllBounds(a: Aead, s: Receiver, from: nat, decr: nat)
    requires s.Valid() && (s.last > 0 ==> from == 0) && from <= |s.rest|
    ensures var r := DecryptAll(a, s, from, decr);
            && r.0.rest == s.rest && from <= r.1 <= |s.rest|
            && (r.2.Returned? && r.2.value > decr ==> r.1 > from)
            && (r.2.Returned? ==> r.2.value == -1 || r.2.value >= decr)
            && (r.2.Returned? && r.2.value >= 0 && r.0.last > 0 ==> |s.rest| - r.1 >= SIZE_BLOCK)
            && (r.2 == Returned(0) && r.0.last > 0 ==> r.1 == from)
    decreases |s.rest| - from
  {
    hide Decrypt;
    if from < |s.rest| {
      DecryptFacts(a, s, from);
      var (s', from', r) := Decrypt(a, s, from);
      if r.Returned? && r.value > 0 {
        DecryptAllBounds(a, s'.(last := 0), from', decr + r.value);
      }
    }
  }

  // ---------------------------------------------------------------- receiver and sender in step

  /** How many whole chunks a prefix of the wire of the given length holds. */
  function Whole(ps: seq<seq<byte>>, length: nat): (t: nat)
    ensures t <= |ps|
  {
    if |ps| == 0 || length < SIZE_BLOCK + |ps[0]| + TAG_SIZE then 0
    else 1 + Whole(ps[1..], length - SIZE_BLOCK - |ps[0]| - TAG_SIZE)
  }

  /** The receiver, reading from `from` on, is about to open the k-th block, and the unread
      ciphertext is the start of the wire of the payloads still to come. */
  ghost predicate InStep(a: Aead, s: Receiver, from: nat, k: nat, todo: seq<seq<byte>>) {
    && from <= |s.rest| && Small(todo)
    && s.rest[from..] <= Wire(a, k, todo)
    && (if s.last > 0 then
          && from == 0 && |s.rest| >= SIZE_BLOCK
          && |todo| > 0 && s.last == |todo[0]| && s.index == k + 1
        else s.index == k)
  }

  /** One attempt on genuine ciphertext. */
  lemma DecryptInStep(a: Aead, s: Receiver, from: nat, k: nat, todo: seq<seq<byte>>)
    requires Lawful(a) && InStep(a, s, from, k, todo)
    ensures var n := |s.rest| - from;
            var r := Decrypt(a, s, from);
            if n < SIZE_BLOCK then r == (s, from, Returned(0))
            else
              && |todo| > 0
              && var p := todo[0];
                 if n < SIZE_BLOCK + |p| + TAG_SIZE then
                   r == (s.(last := |p|, index := k + 1), from, Returned(0))
                 else
                   r == (s.(last := |p|, index := k + 2, plain := s.plain + p), from + SIZE_BLOCK + |p| + TAG_SIZE, Returned(|p|))
  {
    var n := |s.rest| - from;
    if n >= SIZE_BLOCK {
      assert |todo| > 0;
      FrontOfWire(a, s.rest, from, k, todo);
      var p := todo[0];
      var sealedSize := a.seal(Nonce(k, a.nonceSize), SizeBytes(|p|));
      assert a.open(Nonce(k, a.nonceSize), sealedSize) == Some(SizeBytes(|p|));
      SizeRoundTrip(|p|);
      var sealed := a.seal(Nonce(k + 1, a.nonceSize), p);
      assert a.open(Nonce(k + 1, a.nonceSize), sealed) == Some(p);
      assert s.rest[from..from + SIZE_BLOCK] == sealedSize;
    }
  }

  /** The first chunk of the wire, as found in the buffer. */
  lemma FrontOfWire(a: Aead, rest: seq<byte>, from: nat, k: nat, todo: seq<seq<byte>>)
    requires Lawful(a) && Small(todo) && |todo| > 0
    requires from <= |rest| && rest[from..] <= Wire(a, k, todo) && |rest| - from >= SIZE_BLOCK
    ensures rest[from..from + SIZE_BLOCK] == a.seal(Nonce(k, a.nonceSize), SizeBytes(|todo[0]|))
    ensures var end := from + SIZE_BLOCK + |todo[0]| + TAG_SIZE;
            end <= |rest| ==>
              && rest[from + SIZE_BLOCK..end] == a.seal(Nonce(k + 1, a.nonceSize), todo[0])
              && rest[end..] <= Wire(a, k + 2, todo[1..])
  {
    var p := todo[0];
    var (x, y) := (a.seal(Nonce(k, a.nonceSize), SizeBytes(|p|)), a.seal(Nonce(k + 1, a.nonceSize), p));
    var w, tail := Wire(a, k, todo), Wire(a, k + 2, todo[1..]);
    assert w == x + y + tail && |x| == SIZE_BLOCK && |y| == |p| + TAG_SIZE;
    hide Wire, Nonce;
    Slices(rest, from, x, y, tail);
  }

  lemma Slices(rest: seq<byte>, from: nat, x: seq<byte>, y: seq<byte>, tail: seq<byte>)
    requires from <= |rest| && rest[from..] <= x + y + tail && |rest| - from >= |x|
    ensures rest[from..from + |x|] == x
    ensures var end := from + |x| + |y|;
            end <= |rest| ==> rest[from + |x|..end] == y && rest[end..] <= tail
  {
    var w := x + y + tail;
    assert forall i :: 0 <= i < |rest| - from ==> rest[from..][i] == w[i];
    assert forall i :: from <= i < |rest| ==> rest[i] == rest[from..][i - from];
  }

  /** The length of the first t chunks. */
  function WireLength(ps: seq<seq<byte>>): nat {
    if |ps| == 0 then 0 else SIZE_BLOCK + |ps[0]| + TAG_SIZE + WireLength(ps[1..])
  }

  lemma {:induction false} WireHasLength(a: Aead, k: nat, ps: seq<seq<byte>>)
    requires Lawful(a) && Small(ps)
    ensures |Wire(a, k, ps)| == WireLength(ps)
    decreases |ps|
  {
    hide Nonce;
    if |ps| > 0 {
      WireHasLength(a, k + 2, ps[1..]);
      assert |a.seal(Nonce(k, a.nonceSize), SizeBytes(|ps[0]|))| == SIZE_BLOCK;
      assert |a.seal(Nonce(k + 1, a.nonceSize), ps[0])| == |ps[0]| + TAG_SIZE;
    }
  }

  /** What is left to the receiver after it has opened all it can. */
  ghost predicate Stalled(s: Receiver, from: nat, todo: seq<seq<byte>>) {
    && from <= |s.rest|
    && (if |s.rest| - from < SIZE_BLOCK then s.last == 0
        else |todo| > 0 && s.last == |todo[0]| && |s.rest| - from < SIZE_BLOCK + |todo[0]| + TAG_SIZE)
  }

  /** What opening everything that is complete must have done. */
  ghost predicate Opened(a: Aead, s: Receiver, from: nat, decr: nat, k: nat, todo: seq<seq<byte>>,
                         r: (Receiver, nat, Outcome))
    requires Small(todo) && from <= |s.rest|
  {
    var t := Whole(todo, |s.rest| - from);
    && r.2 == Returned(decr + |Flatten(todo[..t])|)
    && r.1 == from + WireLength(todo[..t]) && r.1 <= |s.rest|
    && r.0.rest == s.rest && r.0.plain == s.plain + Flatten(todo[..t])
    && s.rest[r.1..] <= Wire(a, k + 2 * t, todo[t..])
    && Stalled(r.0, r.1, todo[t..])
    && r.0.index == k + 2 * t + (if |s.rest| - r.1 < SIZE_BLOCK then 0 else 1)
  }

  lemma OpenedStep(a: Aead, s: Receiver, s': Receiver, from: nat, next: nat, decr: nat, k: nat,
                   todo: seq<seq<byte>>, r: (Receiver, nat, Outcome))
    requires Small(todo) && from <= |s.rest| && Whole(todo, |s.rest| - from) > 0
    requires next == from + SIZE_BLOCK + |todo[0]| + TAG_SIZE <= |s.rest|
    requires s' == s.(last := 0, index := k + 2, plain := s.plain + todo[0])
    requires Opened(a, s', next, decr + |todo[0]|, k + 2, todo[1..], r)
    ensures Opened(a, s, from, decr, k, todo, r)
  {
    hide Wire, Flatten, WireLength, Stalled;
    WholeStep(todo, |s.rest| - from);
  }

  lemma OpenedNone(a: Aead, s: Receiver, from: nat, decr: nat, k: nat, todo: seq<seq<byte>>, r: (Receiver, nat, Outcome))
    requires Small(todo) && from <= |s.rest| && Whole(todo, |s.rest| - from) == 0
    requires s.rest[from..] <= Wire(a, k, todo)
    requires r.2 == Returned(decr) && r.1 == from && r.0.rest == s.rest && r.0.plain == s.plain
    requires Stalled(r.0, from, todo) && r.0.index == k + (if |s.rest| - from < SIZE_BLOCK then 0 else 1)
    ensures Opened(a, s, from, decr, k, todo, r)
  {
    hide Wire, Stalled;
    assert todo[..0] == [] && todo[0..] == todo;
  }

  /** The whole loop on genuine ciphertext with no empty payload. */
  lemma {:induction false} DecryptAllInStep(a: Aead, s: Receiver, from: nat, decr: nat, k: nat, todo: seq<seq<byte>>)
    requires Lawful(a) && InStep(a, s, from, k, todo) && NonEmpty(todo)
    ensures Opened(a, s, from, decr, k, todo, DecryptAll(a, s, from, decr))
    decreases |todo|
  {
    hide Wire, Decrypt, Flatten, Opened, Lawful;
    var n := |s.rest| - from;
    var t := Whole(todo, n);
    if from < |s.rest| {
      DecryptInStep(a, s, from, k, todo);
    }
    if t == 0 {
      NothingWhole(todo, n, a, k, s.rest, from);
      OpenedNone(a, s, from, decr, k, todo, DecryptAll(a, s, from, decr));
    } else {
      var p := todo[0];
      FrontOfWire(a, s.rest, from, k, todo);
      var s' := s.(last := 0, index := k + 2, plain := s.plain + p);
      var next := from + SIZE_BLOCK + |p| + TAG_SIZE;
      DecryptAllInStep(a, s', next, decr + |p|, k + 2, todo[1..]);
      OpenedStep(a, s, s', from, next, decr, k, todo, DecryptAll(a, s, from, decr));
    }
  }

  lemma NothingWhole(todo: seq<seq<byte>>, n: nat, a: Aead, k: nat, rest: seq<byte>, from: nat)
    requires Whole(todo, n) == 0 && Small(todo)
    requires from <= |rest| && n == |rest| - from && rest[from..] <= Wire(a, k, todo)
    ensures n > 0 ==> |todo| > 0 && n < SIZE_BLOCK + |todo[0]| + TAG_SIZE
  {
  }

  lemma WholeStep(todo: seq<seq<byte>>, n: nat)
    requires Whole(todo, n) > 0
    ensures var t := Whole(todo, n);
            var u := Whole(todo[1..], n - SIZE_BLOCK - |todo[0]| - TAG_SIZE);
            && t == u + 1 && todo[t..] == todo[1..][u..]
            && Flatten(todo[..t]) == todo[0] + Flatten(todo[1..][..u])
            && WireLength(todo[..t]) == SIZE_BLOCK + |todo[0]| + TAG_SIZE + WireLength(todo[1..][..u])
  {
    var t := Whole(todo, n);
    assert todo[..t][1..] == todo[1..][..t - 1];
  }

  /** One call of decipher on genuine ciphertext: exactly the chunks that are complete by now come
      out, and the receiver waits at the front of the next one. */
  lemma DecipherInStep(a: Aead, s: Receiver, cipher: seq<byte>, k: nat, todo: seq<seq<byte>>)
    requires Lawful(a) && s.Valid() && NonEmpty(todo)
    requires InStep(a, s.(rest := s.rest + cipher), 0, k, todo)
    ensures var t := Whole(todo, |s.rest + cipher|);
            var r := Decipher(a, s, cipher);
            && r.1 == Returned(|Flatten(todo[..t])|)
            && r.0.plain == s.plain + Flatten(todo[..t])
            && WireLength(todo[..t]) <= |s.rest + cipher|
            && r.0.rest == (s.rest + cipher)[WireLength(todo[..t])..]
            && r.0.Valid() && InStep(a, r.0, 0, k + 2 * t, todo[t..])
            && Stalled(r.0, 0, todo[t..])
  {
    hide Wire, Flatten, DecryptAll;
    var u := s.(rest := s.rest + cipher);
    var t := Whole(todo, |u.rest|);
    DecryptAllInStep(a, u, 0, 0, k, todo);
    SomeBytes(todo, |u.rest|);
    assert u.rest[0..] == u.rest;
    var r := Decipher(a, s, cipher).0;
    assert r.rest[0..] == r.rest;
  }

  /** With no empty payload, nothing is opened only if no chunk is complete. */
  lemma SomeBytes(todo: seq<seq<byte>>, n: nat)
    requires NonEmpty(todo)
    ensures var t := Whole(todo, n);
            if t == 0 then Flatten(todo[..t]) == [] && WireLength(todo[..t]) == 0
            else |Flatten(todo[..t])| > 0 && WireLength(todo[..t]) > 0
  {
    var t := Whole(todo, n);
    if t > 0 {
      assert todo[..t][0] == todo[0] && todo[0] != [];
      FlattenFirst(todo[..t]);
    }
  }

  // ---------------------------------------------------------------- whole sessions

  /** The payloads of a list of sends. */
  function CutAll(sends: seq<seq<byte>>): seq<seq<byte>> {
    if |sends| == 0 then [] else Cut(sends[0]) + CutAll(sends[1..])
  }

  lemma {:induction false} CutAllProperties(sends: seq<seq<byte>>)
    ensures Small(CutAll(sends)) && Flatten(CutAll(sends)) == Flatten(sends)
    ensures NonEmpty(CutAll(sends)) <==> NonEmpty(sends)
  {
    hide Cut, Flatten;
    FlattenEmpty();
    if |sends| > 0 {
      var first, others := sends[0], sends[1..];
      CutProperties(first);
      CutAllProperties(others);
      FlattenConcat(Cut(first), CutAll(others));
      FlattenFirst(sends);
      assert CutAll(sends)[..|Cut(first)|] == Cut(first) && CutAll(sends)[|Cut(first)|..] == CutAll(others);
      assert NonEmpty(sends) <==> first != [] && NonEmpty(others) by {
        assert forall i :: 0 <= i < |others| ==> others[i] == sends[i + 1];
      }
      JoinNonEmpty(Cut(first), CutAll(others));
    }
  }

  lemma JoinNonEmpty(p: seq<seq<byte>>, q: seq<seq<byte>>)
    requires |p| > 0
    ensures NonEmpty(p + q) <==> NonEmpty(p) && NonEmpty(q)
    ensures Small(p) && Small(q) ==> Small(p + q)
    ensures NonEmpty([[]]) == false
  {
    assert forall i :: 0 <= i < |p| ==> (p + q)[i] == p[i];
    assert forall i :: 0 <= i < |q| ==> (p + q)[|p| + i] == q[i];
    var e: seq<seq<byte>> := [[]];
    assert e[0] == [];
  }

  const START: Receiver := Receiver([], 0, 0, [])

  /** A failed call ends the session; every other call leaves a receiver that can go on. */
  lemma DecipherKeepsValid(a: Aead, s: Receiver, cipher: seq<byte>)
    requires s.Valid()
    ensures var r := Decipher(a, s, cipher); r.1.Returned? && r.1.value >= 0 ==> r.0.Valid()
  {
    hide DecryptAll;
    DecryptAllBounds(a, s.(rest := s.rest + cipher), 0, 0);
  }

  /** A receiver fed with fragments until one call fails. */
  function Run(a: Aead, s: Receiver, fragments: seq<seq<byte>>): (Receiver, bool)
    requires s.Valid()
    decreases |fragments|
  {
    if |fragments| == 0 then (s, true)
    else
      var (s', r) := Decipher(a, s, fragments[0]);
      if r.Thrown? || r.value < 0 then (s', false)
      else
        DecipherKeepsValid(a, s, fragments[0]);
        Run(a, s', fragments[1..])
  }

  /** Cutting off the chunks that are complete now leaves the same later chunks. */
  lemma {:induction false} WholeSplit(todo: seq<seq<byte>>, n: nat, m: nat)
    requires n <= m
    ensures var t := Whole(todo, n);
            && WireLength(todo[..t]) <= n
            && Whole(todo, m) == t + Whole(todo[t..], m - WireLength(todo[..t]))
    decreases |todo|
  {
    var t := Whole(todo, n);
    if t == 0 {
      assert todo[..0] == [] && todo[0..] == todo;
    } else {
      var c := SIZE_BLOCK + |todo[0]| + TAG_SIZE;
      WholeSplit(todo[1..], n - c, m - c);
      WholeStep(todo, n);
    }
  }

  /** After any fragments of genuine ciphertext, the receiver has produced exactly the payloads of
      the chunks that have wholly arrived, no call has failed, and it has opened two blocks a chunk
      and one more if only a size block has arrived. */
  lemma {:induction false} RunInStep(a: Aead, s: Receiver, fragments: seq<seq<byte>>, k: nat, todo: seq<seq<byte>>)
    requires Lawful(a) && s.Valid() && NonEmpty(todo) && Small(todo)
    requires InStep(a, s, 0, k, todo) && Stalled(s, 0, todo)
    requires s.rest + Flatten(fragments) <= Wire(a, k, todo)
    ensures var all := s.rest + Flatten(fragments);
            var t := Whole(todo, |all|);
            var r := Run(a, s, fragments);
            && r.1 && r.0.plain == s.plain + Flatten(todo[..t])
            && WireLength(todo[..t]) <= |all| && r.0.rest == all[WireLength(todo[..t])..]
            && r.0.index == k + 2 * t + (if |r.0.rest| < SIZE_BLOCK then 0 else 1)
    decreases |fragments|
  {
    hide Wire, Decipher, Flatten, Lawful, NonEmpty, Whole, WireLength;
    FlattenEmpty();
    if |fragments| == 0 {
      assert s.rest + Flatten(fragments) == s.rest;
      StalledNothing(todo, |s.rest|, s);
    } else {
      var c, later := fragments[0], fragments[1..];
      FlattenFirst(fragments);
      var all := s.rest + Flatten(fragments);
      assert all == (s.rest + c) + Flatten(later);
      var u := s.(rest := s.rest + c);
      assert u.rest[0..] == u.rest;
      PrefixOfPrefix(u.rest, Flatten(later), Wire(a, k, todo));
      DecipherInStep(a, s, c, k, todo);
      var t := Whole(todo, |u.rest|);
      var s' := Decipher(a, s, c).0;
      StepFacts(a, k, todo, t, u.rest, Flatten(later));
      RunInStep(a, s', later, k + 2 * t, todo[t..]);
      WholeSplit(todo, |u.rest|, |all|);
      JoinTaken(todo, t, Whole(todo[t..], |s'.rest + Flatten(later)|));
    }
  }

  lemma StalledNothing(todo: seq<seq<byte>>, n: nat, s: Receiver)
    requires Stalled(s, 0, todo) && n == |s.rest| && NonEmpty(todo)
    ensures s.last > 0 <==> n >= SIZE_BLOCK
    ensures Whole(todo, n) == 0 && todo[..0] == [] && Flatten(todo[..0]) == [] && WireLength(todo[..0]) == 0
  {
  }

  lemma PrefixOfPrefix(x: seq<byte>, y: seq<byte>, w: seq<byte>)
    requires x + y <= w
    ensures x <= w
  {
    assert forall i :: 0 <= i < |x| ==> x[i] == (x + y)[i];
  }

  /** The part of the wire behind the first t chunks. */
  lemma StepFacts(a: Aead, k: nat, todo: seq<seq<byte>>, t: nat, u: seq<byte>, later: seq<byte>)
    requires Lawful(a) && Small(todo) && t <= |todo| && WireLength(todo[..t]) <= |u|
    requires u + later <= Wire(a, k, todo) && NonEmpty(todo)
    ensures Small(todo[t..]) && NonEmpty(todo[t..])
    ensures u[WireLength(todo[..t])..] + later <= Wire(a, k + 2 * t, todo[t..])
  {
    hide Wire, WireLength;
    var l := WireLength(todo[..t]);
    assert todo == todo[..t] + todo[t..];
    WireConcat(a, k, todo[..t], todo[t..]);
    WireHasLength(a, k, todo[..t]);
    var w := Wire(a, k, todo);
    assert w[l..] == Wire(a, k + 2 * t, todo[t..]);
    assert u[l..] + later == (u + later)[l..];
    assert forall i :: l <= i < |u + later| ==> (u + later)[i] == w[i];
  }

  lemma JoinTaken(todo: seq<seq<byte>>, t: nat, v: nat)
    requires t <= |todo| && v <= |todo| - t
    ensures Flatten(todo[..t + v]) == Flatten(todo[..t]) + Flatten(todo[t..][..v])
    ensures WireLength(todo[..t + v]) == WireLength(todo[..t]) + WireLength(todo[t..][..v])
  {
    assert todo[..t + v] == todo[..t] + todo[t..][..v];
    FlattenConcat(todo[..t], todo[t..][..v]);
    WireLengthConcat(todo[..t], todo[t..][..v]);
  }

  lemma {:induction false} WireLengthConcat(p: seq<seq<byte>>, q: seq<seq<byte>>)
    ensures WireLength(p + q) == WireLength(p) + WireLength(q)
  {
    if |p| == 0 {
      assert p + q == q;
    } else {
      assert (p + q)[1..] == p[1..] + q;
      WireLengthConcat(p[1..], q);
    }
  }

  /** Everything a sender ever sends arrives, whatever the fragments. */
  lemma StreamDelivered(a: Aead, sends: seq<seq<byte>>, fragments: seq<seq<byte>>)
    requires Lawful(a) && NonEmpty(sends)
    requires Small(CutAll(sends)) && Flatten(fragments) <= Wire(a, 0, CutAll(sends))
    ensures var payloads := CutAll(sends);
            var t := Whole(payloads, |Flatten(fragments)|);
            var r := Run(a, START, fragments);
            && r.1 && r.0.plain == Flatten(payloads[..t])
            && (Flatten(fragments) == Wire(a, 0, payloads) ==> r.0.plain == Flatten(sends))
  {
    hide Wire, Flatten, Run, Whole, Lawful;
    var payloads := CutAll(sends);
    CutAllProperties(sends);
    assert START.rest[0..] == [] && START.rest + Flatten(fragments) == Flatten(fragments);
    assert [] <= Wire(a, 0, payloads);
    RunInStep(a, START, fragments, 0, payloads);
    WireHasLength(a, 0, payloads);
    if Flatten(fragments) == Wire(a, 0, payloads) {
      WholeOfAll(payloads);
      assert payloads[..|payloads|] == payloads;
    }
  }

  lemma {:induction false} WholeOfAll(ps: seq<seq<byte>>)
    ensures Whole(ps, WireLength(ps)) == |ps|
  {
    if |ps| > 0 {
      WholeOfAll(ps[1..]);
    }
  }

  // ---------------------------------------------------------------- empty sends

  /** An empty payload in the list: everything before it in one fragment, then its size block, then
      all the rest. */
  function BreakingFragments(a: Aead, ps: seq<seq<byte>>, e: nat): seq<seq<byte>>
    requires Lawful(a) && Small(ps) && e < |ps|
  {
    WireHasLength(a, 0, ps);
    LengthUpTo(ps, e);
    var w, l := Wire(a, 0, ps), WireLength(ps[..e]);
    [w[..l], w[l..l + SIZE_BLOCK], w[l + SIZE_BLOCK..]]
  }

  lemma LengthUpTo(ps: seq<seq<byte>>, e: nat)
    requires e < |ps|
    ensures WireLength(ps[..e]) + SIZE_BLOCK + |ps[e]| + TAG_SIZE <= WireLength(ps)
  {
    hide WireLength;
    assert ps == ps[..e] + ps[e..];
    WireLengthConcat(ps[..e], ps[e..]);
    WireLengthFirst(ps[e..]);
  }

  lemma WireLengthFirst(ps: seq<seq<byte>>)
    requires |ps| > 0
    ensures WireLength(ps) >= SIZE_BLOCK + |ps[0]| + TAG_SIZE
  {
  }

  /** The size block of an empty payload is opened without being remembered, so the next call opens
      it again under the next nonce and fails. */
  lemma EmptySizeBlock(a: Aead, s: Receiver, block: seq<byte>, more: seq<byte>)
    requires Lawful(a) && RejectsAt(a, s.index)
    requires s.rest == [] && s.last == 0
    requires block == a.seal(Nonce(s.index, a.nonceSize), SizeBytes(0))
    ensures var r := Decipher(a, s, block);
            && r.1 == Returned(0) && r.0 == s.(rest := block, index := s.index + 1)
            && Decipher(a, r.0, more).1 == Returned(-1)
  {
    var n, n' := Nonce(s.index, a.nonceSize), Nonce(s.index + 1, a.nonceSize);
    assert a.open(n, block) == Some(SizeBytes(0));
    assert a.open(n', block) == None;
    SizeRoundTrip(0);
    hide Nonce;
    assert |block| == SIZE_BLOCK && [] + block == block;
    assert block[0..0 + SIZE_BLOCK] == block;
    assert (block + more)[0..0 + SIZE_BLOCK] == block;
    var s' := s.(rest := block, index := s.index + 1);
    assert Decipher(a, s, block) == (s', Returned(0));
    assert Decrypt(a, s'.(rest := block + more), 0) == (s'.(rest := block + more), 0, Returned(-1));
  }

  /** Receiving complete chunks leaves nothing behind. */
  lemma ReceiveWhole(a: Aead, ps: seq<seq<byte>>)
    requires Lawful(a) && Small(ps) && NonEmpty(ps)
    ensures var r := Decipher(a, START, Wire(a, 0, ps));
            && r.1.Returned? && r.1.value >= 0
            && r.0.rest == [] && r.0.last == 0 && r.0.index == 2 * |ps|
  {
    hide Wire, Decipher, Lawful;
    var w := Wire(a, 0, ps);
    assert START.rest + w == w && w[0..] == w;
    DecipherInStep(a, START, w, 0, ps);
    WireHasLength(a, 0, ps);
    WholeOfAll(ps);
    assert ps[..|ps|] == ps && ps[|ps|..] == [];
  }

  lemma BreakingPieces(a: Aead, ps: seq<seq<byte>>, e: nat)
    requires Lawful(a) && Small(ps) && e < |ps| && ps[e] == []
    ensures var f := BreakingFragments(a, ps, e);
            && Small(ps[..e]) && f[0] == Wire(a, 0, ps[..e])
            && f[1] == a.seal(Nonce(2 * e, a.nonceSize), SizeBytes(0))
            && Flatten(f) == Wire(a, 0, ps)
  {
    hide Wire, WireLength, Flatten, Nonce;
    var w, l := Wire(a, 0, ps), WireLength(ps[..e]);
    WireHasLength(a, 0, ps);
    LengthUpTo(ps, e);
    assert ps == ps[..e] + ps[e..];
    WireConcat(a, 0, ps[..e], ps[e..]);
    WireHasLength(a, 0, ps[..e]);
    WireFirst(a, 2 * e, ps[e..]);
    var f := BreakingFragments(a, ps, e);
    hide Lawful;
    Middle(Wire(a, 0, ps[..e]), Wire(a, 2 * e, ps[e..]));
    FlattenThree(f[0], f[1], f[2]);
  }

  lemma Middle(x: seq<byte>, y: seq<byte>)
    requires |y| >= SIZE_BLOCK
    ensures var w, l := x + y, |x|;
            && w[..l] == x && w[l..l + SIZE_BLOCK] == y[..SIZE_BLOCK]
            && w == w[..l] + w[l..l + SIZE_BLOCK] + w[l + SIZE_BLOCK..]
  {
  }

  lemma WireFirst(a: Aead, k: nat, ps: seq<seq<byte>>)
    requires Lawful(a) && Small(ps) && |ps| > 0
    ensures |Wire(a, k, ps)| >= SIZE_BLOCK
    ensures Wire(a, k, ps)[..SIZE_BLOCK] == a.seal(Nonce(k, a.nonceSize), SizeBytes(|ps[0]|))
  {
    hide Nonce;
    var x := a.seal(Nonce(k, a.nonceSize), SizeBytes(|ps[0]|));
    assert |x| == SIZE_BLOCK;
  }

  lemma FlattenThree(x: seq<byte>, y: seq<byte>, z: seq<byte>)
    ensures Flatten([x, y, z]) == x + y + z
  {
    FlattenOne(z);
    assert [x, y, z][1..] == [y, z] && [y, z][1..] == [z];
    assert Flatten([y, z]) == y + z;
  }

  /** Wherever the first empty payload stands, some fragments of the wire make the receiver fail. */
  lemma EmptyPayloadBreaks(a: Aead, ps: seq<seq<byte>>, e: nat)
    requires Lawful(a) && RejectsAt(a, 2 * e)
    requires Small(ps) && e < |ps| && ps[e] == [] && NonEmpty(ps[..e])
    ensures var f := BreakingFragments(a, ps, e);
            Flatten(f) == Wire(a, 0, ps) && !Run(a, START, f).1
  {
    hide Wire, Decipher, Flatten, Lawful, RejectsAt, Nonce;
    var f := BreakingFragments(a, ps, e);
    BreakingPieces(a, ps, e);
    hide BreakingFragments;
    ReceiveWhole(a, ps[..e]);
    var s1 := Decipher(a, START, f[0]).0;
    EmptySizeBlock(a, s1, f[1], f[2]);
    RunThree(a, f);
  }

  lemma RunThree(a: Aead, f: seq<seq<byte>>)
    requires |f| == 3
    ensures var (s1, r1) := Decipher(a, START, f[0]);
            r1.Returned? && r1.value >= 0 && s1.Valid() ==>
              var (s2, r2) := Decipher(a, s1, f[1]);
              r2 == Returned(0) && s2.Valid() && Decipher(a, s2, f[2]).1 == Returned(-1) ==> !Run(a, START, f).1
  {
    hide Decipher;
    var (s1, r1) := Decipher(a, START, f[0]);
    if r1.Returned? && r1.value >= 0 && s1.Valid() {
      assert Run(a, START, f) == Run(a, s1, f[1..]);
      var (s2, r2) := Decipher(a, s1, f[1]);
      if r2 == Returned(0) && s2.Valid() {
        assert Run(a, s1, f[1..]) == Run(a, s2, f[1..][1..]);
        assert f[1..][1..][0] == f[2];
      }
    }
  }

  lemma {:induction false} FirstEmpty(ps: seq<seq<byte>>) returns (e: nat)
    requires !NonEmpty(ps)
    ensures e < |ps| && ps[e] == [] && NonEmpty(ps[..e])
  {
    if ps[0] == [] {
      return 0;
    }
    assert !NonEmpty(ps[1..]) by {
      assert forall i :: 0 < i < |ps| ==> ps[i] == ps[1..][i - 1];
    }
    var r := FirstEmpty(ps[1..]);
    e := r + 1;
    assert forall i :: 0 < i < e ==> ps[i] == ps[1..][..r][i - 1];
  }

  /** These fragments of the sealed sends are all accepted and give back the sends. */
  ghost predicate Reproduced(a: Aead, sends: seq<seq<byte>>, fragments: seq<seq<byte>>) {
    var r := Run(a, START, fragments);
    r.1 && r.0.plain == Flatten(sends)
  }

  ghost predicate Fragmentation(a: Aead, sends: seq<seq<byte>>, fragments: seq<seq<byte>>) {
    Small(CutAll(sends)) && Flatten(fragments) == Wire(a, 0, CutAll(sends))
  }

  /** The stream survives every fragmentation exactly when no send is empty. */
  lemma ReproducedIffNoEmptySend(a: Aead, sends: seq<seq<byte>>)
    requires Lawful(a) && RejectsNextBlock(a)
    ensures (forall f :: Fragmentation(a, sends, f) ==> Reproduced(a, sends, f)) <==> NonEmpty(sends)
  {
    hide Wire, Flatten, Run, Lawful, RejectsAt, CutAll, BreakingFragments, NonEmpty, Small;
    CutAllProperties(sends);
    if NonEmpty(sends) {
      forall f | Fragmentation(a, sends, f) ensures Reproduced(a, sends, f) {
        StreamDelivered(a, sends, f);
      }
    } else {
      var e := FirstEmpty(CutAll(sends));
      EmptyPayloadBreaks(a, CutAll(sends), e);
      var f := BreakingFragments(a, CutAll(sends), e);
      assert Fragmentation(a, sends, f) && !Reproduced(a, sends, f);
    }
  }

  // ---------------------------------------------------------------- an AEAD as assumed

  /** A nonce as the 16 bytes that seal a text in the AEAD below. */
  function Label(n: seq<byte>): (t: seq<byte>)
    ensures |t| == TAG_SIZE
  {
    if |n| <= TAG_SIZE then n + seq(TAG_SIZE - |n|, _ => 0) else n[..TAG_SIZE]
  }

  /** The text with its nonce as the tag. */
  function Labelled(nonceSize: nat): Aead {
    Aead((n: seq<byte>, p: seq<byte>) => p + Label(n),
         (n: seq<byte>, c: seq<byte>) =>
           if |c| >= TAG_SIZE && c[|c| - TAG_SIZE..] == Label(n) then Some(c[..|c| - TAG_SIZE]) else None,
         nonceSize)
  }

  /** There are AEADs that meet both assumptions at once, for every nonce size the tag has room for. */
  lemma LabelledIsLawful(nonceSize: nat)
    requires 0 < nonceSize <= TAG_SIZE
    ensures Lawful(Labelled(nonceSize)) && RejectsNextBlock(Labelled(nonceSize))
  {
    hide Label, Nonce;
    var a := Labelled(nonceSize);
    forall n, p ensures |a.seal(n, p)| == |p| + TAG_SIZE && a.open(n, a.seal(n, p)) == Some(p) {
      assert (p + Label(n))[|p|..] == Label(n) && (p + Label(n))[..|p|] == p;
    }
    forall i: nat ensures RejectsAt(a, i) {
      var n, n', p := Nonce(i, nonceSize), Nonce(i + 1, nonceSize), SizeBytes(0);
      NonceRepeats(i, i + 1, nonceSize);
      PowerBig(nonceSize);
      LabelInjective(n, n');
      assert (p + Label(n))[|p|..] == Label(n);
    }
  }

  lemma LabelInjective(m: seq<byte>, n: seq<byte>)
    requires |m| == |n| <= TAG_SIZE && m != n
    ensures Label(m) != Label(n)
  {
    assert Label(m)[..|m|] == m && Label(n)[..|n|] == n;
  }

  lemma PowerBig(n: nat)
    requires n > 0
    ensures Pow256(n) > 1
  {
  }

  /** So the theorem is about something: under such an AEAD an empty send does break the stream. */
  lemma EmptySendExample(nonceSize: nat) returns (f: seq<seq<byte>>)
    requires 0 < nonceSize <= TAG_SIZE
    ensures Fragmentation(Labelled(nonceSize), [[]], f) && !Reproduced(Labelled(nonceSize), [[]], f)
  {
    var a := Labelled(nonceSize);
    hide Wire, Flatten, Run, Lawful, RejectsAt, CutAll, Labelled, Fragmentation, Reproduced;
    LabelledIsLawful(nonceSize);
    ReproducedIffNoEmptySend(a, [[]]);
    var sends: seq<seq<byte>> := [[]];
    assert sends[0] == [];
    assert !NonEmpty(sends);
    f :| Fragmentation(a, [[]], f) && !Reproduced(a, [[]], f);
  }
}
