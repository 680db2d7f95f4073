/** The re-entrant reader/writer spin lock that lives in one 64-bit word.

    Threads run the lock operations step by step; a step is one atomic access to the word.  The
    state below is the word together with, for every thread, where it stands in its operation and
    how often it holds the lock. */
module RwSpinlock {
  const READ_VAL: nat := 0x0001_0000_0000_0000
  const WRITE_VAL: nat := 0x0000_0100_0000_0000
  const WORD: nat := 0x1_0000_0000_0000_0000

  // The masks of the source select runs of bits, so they are quotients and remainders here.

  /** w & LOCK_READ_MASK */
  function ReadPart(w: nat): nat { w / READ_VAL * READ_VAL }

  /** w & LOCK_WRITE_MASK, shifted down */
  function WriteCount(w: nat): nat { w / WRITE_VAL % 256 }

  /** w & LOCK_THREAD_MASK */
  function ThreadPart(w: nat): nat { w % WRITE_VAL }

  function Add64(w: nat, x: nat): nat { (w + x) % WORD }

  /** The word for a number of read locks, a write depth and an owner. */
  function Encode(readers: nat, depth: nat, owner: nat): nat { readers * READ_VAL + depth * WRITE_VAL + owner }

  lemma Decode(readers: nat, depth: nat, owner: nat)
    requires readers < 0x1_0000 && depth < 256 && owner < WRITE_VAL
    ensures var w := Encode(readers, depth, owner);
            && w < WORD && ReadPart(w) == Encode(readers, 0, 0)
            && WriteCount(w) == depth && ThreadPart(w) == owner
  {
    SplitRead(readers, depth * WRITE_VAL + owner);
    SplitWrite(readers * 256 + depth, owner);
    assert (readers * 256 + depth) % 256 == depth;
  }

  lemma SplitRead(q: nat, r: nat)
    requires r < READ_VAL
    ensures (q * READ_VAL + r) / READ_VAL == q
  {
  }

  lemma SplitWrite(q: nat, r: nat)
    requires r < WRITE_VAL
    ensures (q * WRITE_VAL + r) / WRITE_VAL == q && (q * WRITE_VAL + r) % WRITE_VAL == r
  {
  }

  lemma EncodeInjective(r: nat, d: nat, o: nat, r': nat, d': nat, o': nat)
    requires r < 0x1_0000 && d < 256 && o < WRITE_VAL && r' < 0x1_0000 && d' < 256 && o' < WRITE_VAL
    requires Encode(r, d, o) == Encode(r', d', o')
    ensures r == r' && d == d' && o == o'
  {
    Decode(r, d, o);
    Decode(r', d', o');
  }

  lemma Arithmetic(r: nat, d: nat, o: nat)
    requires r < 0xFFFF && d < 255 && o < WRITE_VAL
    ensures Add64(Encode(r, d, o), WRITE_VAL) == Encode(r, d + 1, o)
    ensures Add64(Encode(r, d, o), READ_VAL) == Encode(r + 1, d, o)
    ensures Add64(Encode(r + 1, d, o), WORD - READ_VAL) == Encode(r, d, o)
  {
  }

  // ---------------------------------------------------------------- threads

  /** Where a thread stands.  A value in parentheses is the word as the thread last saw it. */
  datatype Position =
    | Idle
    | AddWrite                    // the word showed this thread as owner: add to the write depth
    | AddRead
    | ClaimWrite(seen: nat)       // compare-and-swap loop of lock_write
    | Drain                       // owner, waiting for the readers to leave
    | ClaimRead(seen: nat)        // compare-and-swap loop of lock_read
    | TryRead(seen: nat)
    | TryWrite
    | Release(seen: nat)          // unlock_write has read the word

  datatype Thread = Thread(at: Position, readLocks: nat, writeLocks: nat)

  datatype State = State(word: nat, threads: seq<Thread>)

  datatype Call = LockWrite | LockRead | TryLockWrite | TryLockRead | UnlockWrite | UnlockRead

  /** Distinct non-zero thread ids of at most 40 bits. */
  predicate Ids(ids: seq<nat>) {
    && (forall i :: 0 <= i < |ids| ==> 0 < ids[i] < WRITE_VAL)
    && (forall i, j :: 0 <= i < j < |ids| ==> ids[i] != ids[j])
  }

  function Sum(threads: seq<Thread>): nat {
    if |threads| == 0 then 0 else threads[0].readLocks + Sum(threads[1..])
  }

  /** A thread starts an operation with its first atomic access. */
  function Begin(s: State, i: nat, id: nat, call: Call): State
    requires i < |s.threads|
  {
    var t := s.threads[i];
    match call
    case LockWrite => Moved(s, i, if ThreadPart(s.word) == id then AddWrite else ClaimWrite(s.word))
    case LockRead => Moved(s, i, if ThreadPart(s.word) == id then AddRead else ClaimRead(s.word))
    case TryLockWrite => Moved(s, i, if ThreadPart(s.word) == id then AddWrite else TryWrite)
    case TryLockRead => Moved(s, i, if ThreadPart(s.word) == id then AddRead else TryRead(s.word))
    case UnlockWrite => Moved(s, i, Release(s.word))
    case UnlockRead =>
      State(Add64(s.word, WORD - READ_VAL),
            s.threads[i := Thread(Idle, if t.readLocks > 0 then t.readLocks - 1 else 0, t.writeLocks)])
  }

  function Moved(s: State, i: nat, at: Position): State
    requires i < |s.threads|
  {
    s.(threads := s.threads[i := s.threads[i].(at := at)])
  }

  /** The next atomic access of a thread inside an operation. */
  function Continue(s: State, i: nat, id: nat): State
    requires i < |s.threads|
  {
    var t := s.threads[i];
    match t.at
    case Idle => s
    case AddWrite => State(Add64(s.word, WRITE_VAL), s.threads[i := Thread(Idle, t.readLocks, t.writeLocks + 1)])
    case AddRead => State(Add64(s.word, READ_VAL), s.threads[i := Thread(Idle, t.readLocks + 1, t.writeLocks)])
    case ClaimWrite(seen) =>
      // readers stay, this thread becomes the owner
      if s.word == ReadPart(seen) then State(ReadPart(seen) + WRITE_VAL + id, s.threads[i := t.(at := Drain)])
      else Moved(s, i, ClaimWrite(s.word))
    case Drain =>
      if s.word / READ_VAL == 0 then State(s.word, s.threads[i := Thread(Idle, t.readLocks, t.writeLocks + 1)])
      else s
    case ClaimRead(seen) =>
      if s.word == ReadPart(seen)
      then State(Add64(ReadPart(seen), READ_VAL), s.threads[i := Thread(Idle, t.readLocks + 1, t.writeLocks)])
      else Moved(s, i, ClaimRead(s.word))
    case TryRead(seen) =>
      if s.word == ReadPart(seen)
      then State(Add64(ReadPart(seen), READ_VAL), s.threads[i := Thread(Idle, t.readLocks + 1, t.writeLocks)])
      else Moved(s, i, Idle)
    case TryWrite =>
      if s.word == 0 then State(WRITE_VAL + id, s.threads[i := Thread(Idle, t.readLocks, t.writeLocks + 1)])
      else Moved(s, i, Idle)
    case Release(seen) =>
      // the result of this compare-and-swap is not looked at
      var t' := Thread(Idle, t.readLocks, if t.writeLocks > 0 then t.writeLocks - 1 else 0);
      State(if s.word == seen then Released(seen) else s.word, s.threads[i := t'])
  }

  function Released(seen: nat): nat {
    var val := if seen >= WRITE_VAL then seen - WRITE_VAL else seen + WORD - WRITE_VAL;
    if WriteCount(val) == 0 then ReadPart(val) else val
  }

  /** Threads only give back what they hold. */
  predicate Legal(s: State, i: nat, call: Call)
    requires i < |s.threads|
  {
    && s.threads[i].at.Idle?
    && (call.UnlockWrite? ==> s.threads[i].writeLocks > 0)
    && (call.UnlockRead? ==> s.threads[i].readLocks > 0)
  }

  /** No counter is about to overflow. */
  predicate Bounded(s: State) {
    Sum(s.threads) < 0xFFFF && forall i :: 0 <= i < |s.threads| ==> s.threads[i].writeLocks < 255
  }

  /** One step of thread i. */
  ghost predicate Step(ids: seq<nat>, s: State, s': State, i: nat) {
    && i < |s.threads| == |ids|
    && Bounded(s)
    && (|| (exists call :: Legal(s, i, call) && s' == Begin(s, i, ids[i], call))
        || s' == Continue(s, i, ids[i]))
  }

  function Start(n: nat): State { State(0, seq(n, _ => Thread(Idle, 0, 0))) }

  // ---------------------------------------------------------------- the invariant

  /** The depth that the word shows for a thread. */
  function Depth(t: Thread): nat { if t.at.Drain? then t.writeLocks + 1 else t.writeLocks }

  /** Positions that only the owner can be in. */
  predicate OwnerPosition(at: Position) { at.AddWrite? || at.AddRead? || at.Drain? || at.Release? }

  /** No thread but `owner` (none if it is out of range) has any part in a write lock. */
  predicate OnlyOwner(threads: seq<Thread>, owner: nat) {
    forall i :: 0 <= i < |threads| && i != owner ==> threads[i].writeLocks == 0 && !OwnerPosition(threads[i].at)
  }

  /** The owner's own position. */
  predicate OwnerFits(s: State, owner: nat)
    requires owner < |s.threads|
  {
    var t := s.threads[owner];
    && Depth(t) > 0 && (t.at.Drain? ==> t.writeLocks == 0) && !t.at.ClaimWrite?
    && (t.at.Release? ==> t.at.seen == s.word)
    && (t.writeLocks > 0 ==> forall i :: 0 <= i < |s.threads| && i != owner ==> s.threads[i].readLocks == 0)
  }

  ghost predicate Inv(ids: seq<nat>, s: State, owner: nat) {
    && Ids(ids) && |s.threads| == |ids| && Sum(s.threads) < 0x1_0000
    && OnlyOwner(s.threads, owner)
    && (if owner < |ids| then
          && Depth(s.threads[owner]) < 256
          && s.word == Encode(Sum(s.threads), Depth(s.threads[owner]), ids[owner])
          && OwnerFits(s, owner)
        else s.word == Encode(Sum(s.threads), 0, 0))
  }

  lemma {:induction false} SumUpdate(threads: seq<Thread>, i: nat, t: Thread)
    requires i < |threads|
    ensures Sum(threads[i := t]) + threads[i].readLocks == Sum(threads) + t.readLocks
    ensures threads[i].readLocks <= Sum(threads)
  {
    if i == 0 {
      assert threads[i := t][1..] == threads[1..];
    } else {
      assert threads[i := t][1..] == threads[1..][i - 1 := t];
      SumUpdate(threads[1..], i - 1, t);
    }
  }

  lemma {:induction false} SumZero(threads: seq<Thread>)
    ensures Sum(threads) == 0 <==> forall i :: 0 <= i < |threads| ==> threads[i].readLocks == 0
  {
    if |threads| > 0 {
      SumZero(threads[1..]);
      assert forall i :: 0 < i < |threads| ==> threads[i] == threads[1..][i - 1];
    }
  }

  lemma InitiallyInv(ids: seq<nat>)
    requires Ids(ids)
    ensures Inv(ids, Start(|ids|), |ids|)
  {
    SumZero(Start(|ids|).threads);
  }

  // ---------------------------------------------------------------- steps keep the invariant

  /** A step that changes only a position, and not to or from one of the owner's. */
  lemma MovedKeeps(ids: seq<nat>, s: State, owner: nat, i: nat, at: Position)
    requires Inv(ids, s, owner) && i < |ids|
    requires !s.threads[i].at.Drain? && !at.Drain?
    requires OwnerPosition(at) ==> i == owner
    requires at.ClaimWrite? ==> i != owner
    requires at.Release? ==> at.seen == s.word
    ensures Inv(ids, Moved(s, i, at), owner)
  {
    hide Sum, Encode;
    SumUpdate(s.threads, i, s.threads[i].(at := at));
  }

  lemma WordOf(ids: seq<nat>, s: State, owner: nat)
    requires Inv(ids, s, owner)
    ensures var r := Sum(s.threads);
            var d := if owner < |ids| then Depth(s.threads[owner]) else 0;
            var o := if owner < |ids| then ids[owner] else 0;
            && s.word == Encode(r, d, o) && d < 256 && o < WRITE_VAL && r < 0x1_0000
            && ReadPart(s.word) == Encode(r, 0, 0) && WriteCount(s.word) == d && ThreadPart(s.word) == o
            && s.word / READ_VAL == r
            && (d == 0 <==> owner >= |ids|)
  {
    hide Sum;
    var d := if owner < |ids| then Depth(s.threads[owner]) else 0;
    var o := if owner < |ids| then ids[owner] else 0;
    Decode(Sum(s.threads), d, o);
  }

  /** The thread in the word is thread i exactly when i is the owner. */
  lemma SeesItself(ids: seq<nat>, s: State, owner: nat, i: nat)
    requires Inv(ids, s, owner) && i < |ids|
    ensures ThreadPart(s.word) == ids[i] <==> i == owner
  {
    hide Sum, Encode, ThreadPart, OnlyOwner, OwnerFits;
    WordOf(ids, s, owner);
    if i < owner < |ids| {
      assert ids[i] != ids[owner];
    } else if owner < i {
      assert ids[owner] != ids[i];
    }
  }

  /** A successful claim finds the word without an owner. */
  lemma ClaimFindsFree(ids: seq<nat>, s: State, owner: nat, seen: nat)
    requires Inv(ids, s, owner) && s.word == ReadPart(seen)
    ensures owner >= |ids| && s.word == Encode(Sum(s.threads), 0, 0)
  {
    hide Sum, OnlyOwner, OwnerFits;
    WordOf(ids, s, owner);
    assert s.word == seen / READ_VAL * READ_VAL;
    assert WriteCount(s.word) == 0;
  }

  lemma ClaimWriteKeeps(ids: seq<nat>, s: State, owner: nat, i: nat, seen: nat)
    requires Inv(ids, s, owner) && i < |ids| && s.threads[i].at == ClaimWrite(seen) && s.word == ReadPart(seen)
    ensures Inv(ids, Continue(s, i, ids[i]), i)
  {
    hide Sum;
    ClaimFindsFree(ids, s, owner, seen);
    SumUpdate(s.threads, i, s.threads[i].(at := Drain));
  }

  lemma ReaderKeeps(ids: seq<nat>, s: State, owner: nat, i: nat, seen: nat)
    requires Inv(ids, s, owner) && i < |ids| && Bounded(s) && s.word == ReadPart(seen)
    requires s.threads[i].at == ClaimRead(seen) || s.threads[i].at == TryRead(seen)
    ensures Inv(ids, Continue(s, i, ids[i]), owner)
  {
    hide Sum;
    ClaimFindsFree(ids, s, owner, seen);
    var t := s.threads[i];
    SumUpdate(s.threads, i, Thread(Idle, t.readLocks + 1, t.writeLocks));
    Arithmetic(Sum(s.threads), 0, 0);
  }

  lemma DrainKeeps(ids: seq<nat>, s: State, owner: nat, i: nat)
    requires Inv(ids, s, owner) && i < |ids| && s.threads[i].at.Drain?
    ensures i == owner && Inv(ids, Continue(s, i, ids[i]), owner)
  {
    hide Sum, Encode;
    var t := s.threads[i];
    WordOf(ids, s, owner);
    SumUpdate(s.threads, i, Thread(Idle, t.readLocks, t.writeLocks + 1));
    SumZero(s.threads);
  }

  lemma TryWriteKeeps(ids: seq<nat>, s: State, owner: nat, i: nat)
    requires Inv(ids, s, owner) && i < |ids| && s.threads[i].at.TryWrite? && s.word == 0
    ensures Inv(ids, Continue(s, i, ids[i]), i)
  {
    hide Sum;
    var t := s.threads[i];
    assert ReadPart(0) == 0;
    ClaimFindsFree(ids, s, owner, 0);
    SumUpdate(s.threads, i, Thread(Idle, t.readLocks, t.writeLocks + 1));
    SumZero(s.threads);
  }

  lemma AddKeeps(ids: seq<nat>, s: State, owner: nat, i: nat)
    requires Inv(ids, s, owner) && i < |ids| && Bounded(s)
    requires s.threads[i].at.AddWrite? || s.threads[i].at.AddRead?
    ensures i == owner && Inv(ids, Continue(s, i, ids[i]), owner)
  {
    hide Sum, Encode, Add64;
    var t := s.threads[i];
    Arithmetic(Sum(s.threads), t.writeLocks, ids[i]);
    SumUpdate(s.threads, i, Thread(Idle, t.readLocks + 1, t.writeLocks));
    SumUpdate(s.threads, i, Thread(Idle, t.readLocks, t.writeLocks + 1));
  }

  /** The compare-and-swap of unlock_write cannot fail. */
  lemma ReleaseKeeps(ids: seq<nat>, s: State, owner: nat, i: nat) returns (owner': nat)
    requires Inv(ids, s, owner) && i < |ids| && s.threads[i].at.Release?
    ensures i == owner && s.word == s.threads[i].at.seen && s.threads[i].writeLocks > 0
    ensures owner' == if s.threads[i].writeLocks > 1 then owner else |ids|
    ensures Inv(ids, Continue(s, i, ids[i]), owner')
  {
    hide Sum;
    var t := s.threads[i];
    ReleasedWord(Sum(s.threads), t.writeLocks, ids[i]);
    SumUpdate(s.threads, i, Thread(Idle, t.readLocks, t.writeLocks - 1));
    owner' := if t.writeLocks > 1 then owner else |ids|;
  }

  lemma ReleasedWord(r: nat, d: nat, o: nat)
    requires r < 0x1_0000 && 0 < d < 256 && 0 < o < WRITE_VAL
    ensures Released(Encode(r, d, o)) == if d > 1 then Encode(r, d - 1, o) else Encode(r, 0, 0)
  {
    Decode(r, d - 1, o);
    assert Encode(r, d, o) - WRITE_VAL == Encode(r, d - 1, o);
  }

  lemma UnlockReadKeeps(ids: seq<nat>, s: State, owner: nat, i: nat)
    requires Inv(ids, s, owner) && i < |ids| && Bounded(s) && Legal(s, i, UnlockRead)
    ensures Inv(ids, Begin(s, i, ids[i], UnlockRead), owner)
  {
    hide Sum, Encode, Add64;
    var t := s.threads[i];
    SumUpdate(s.threads, i, Thread(Idle, t.readLocks - 1, t.writeLocks));
    var d := if owner < |ids| then Depth(s.threads[owner]) else 0;
    var o := if owner < |ids| then ids[owner] else 0;
    MinusReader(Sum(s.threads), d, o);
  }

  lemma MinusReader(r: nat, d: nat, o: nat)
    requires 0 < r < 0x1_0000 && d < 256 && o < WRITE_VAL
    ensures Add64(Encode(r, d, o), WORD - READ_VAL) == Encode(r - 1, d, o)
  {
  }

  lemma BeginKeeps(ids: seq<nat>, s: State, owner: nat, i: nat, call: Call)
    requires Inv(ids, s, owner) && i < |ids| && Bounded(s) && Legal(s, i, call)
    ensures Inv(ids, Begin(s, i, ids[i], call), owner)
  {
    hide Inv, Sum, Encode;
    SeesItself(ids, s, owner, i);
    match call {
      case LockWrite => MovedKeeps(ids, s, owner, i, if i == owner then AddWrite else ClaimWrite(s.word));
      case LockRead => MovedKeeps(ids, s, owner, i, if i == owner then AddRead else ClaimRead(s.word));
      case TryLockWrite => MovedKeeps(ids, s, owner, i, if i == owner then AddWrite else TryWrite);
      case TryLockRead => MovedKeeps(ids, s, owner, i, if i == owner then AddRead else TryRead(s.word));
      case UnlockWrite =>
        HolderOwns(ids, s, owner, i);
        MovedKeeps(ids, s, owner, i, Release(s.word));
      case UnlockRead => UnlockReadKeeps(ids, s, owner, i);
    }
  }

  lemma HolderOwns(ids: seq<nat>, s: State, owner: nat, i: nat)
    requires Inv(ids, s, owner) && i < |ids| && s.threads[i].writeLocks > 0
    ensures i == owner
  {
  }

  lemma ClaimantNotOwner(ids: seq<nat>, s: State, owner: nat, i: nat)
    requires Inv(ids, s, owner) && i < |ids| && s.threads[i].at.ClaimWrite?
    ensures i != owner
  {
  }

  /** Every step of every thread keeps the invariant. */
  lemma StepKeeps(ids: seq<nat>, s: State, s': State, i: nat, owner: nat) returns (owner': nat)
    requires Inv(ids, s, owner) && Step(ids, s, s', i)
    ensures Inv(ids, s', owner')
  {
    hide Inv, Sum, Encode, Begin, Continue;
    owner' := owner;
    if call :| Legal(s, i, call) && s' == Begin(s, i, ids[i], call) {
      BeginKeeps(ids, s, owner, i, call);
    } else {
      owner' := ContinueKeeps(ids, s, i, owner);
    }
  }

  lemma ContinueKeeps(ids: seq<nat>, s: State, i: nat, owner: nat) returns (owner': nat)
    requires Inv(ids, s, owner) && i < |ids| == |s.threads| && Bounded(s)
    ensures Inv(ids, Continue(s, i, ids[i]), owner')
  {
    hide Inv, Sum, Encode, ReadPart, Add64;
    owner' := owner;
    match s.threads[i].at {
      case Idle =>
      case AddWrite => AddKeeps(ids, s, owner, i);
      case AddRead => AddKeeps(ids, s, owner, i);
      case ClaimWrite(seen) =>
        if s.word == ReadPart(seen) {
          ClaimWriteKeeps(ids, s, owner, i, seen);
          owner' := i;
        } else {
          ClaimantNotOwner(ids, s, owner, i);
          MovedKeeps(ids, s, owner, i, ClaimWrite(s.word));
        }
      case Drain => DrainKeeps(ids, s, owner, i);
      case ClaimRead(seen) =>
        if s.word == ReadPart(seen) {
          ReaderKeeps(ids, s, owner, i, seen);
        } else {
          MovedKeeps(ids, s, owner, i, ClaimRead(s.word));
        }
      case TryRead(seen) =>
        if s.word == ReadPart(seen) {
          ReaderKeeps(ids, s, owner, i, seen);
        } else {
          MovedKeeps(ids, s, owner, i, Idle);
        }
      case TryWrite =>
        if s.word == 0 {
          TryWriteKeeps(ids, s, owner, i);
          owner' := i;
        } else {
          MovedKeeps(ids, s, owner, i, Idle);
        }
      case Release(_) => owner' := ReleaseKeeps(ids, s, owner, i);
    }
  }

  // ---------------------------------------------------------------- runs

  /** A finite run of the threads from the free lock; `moves` says which thread made each step. */
  ghost predicate IsRun(ids: seq<nat>, run: seq<State>, moves: seq<nat>) {
    && Ids(ids) && |run| == |moves| + 1 && run[0] == Start(|ids|)
    && forall k :: 0 <= k < |moves| ==> Step(ids, run[k], run[k + 1], moves[k])
  }

  lemma {:induction false} RunKeeps(ids: seq<nat>, run: seq<State>, moves: seq<nat>, k: nat) returns (owner: nat)
    requires IsRun(ids, run, moves) && k < |run|
    ensures Inv(ids, run[k], owner)
  {
    hide Inv, Step;
    if k == 0 {
      InitiallyInv(ids);
      return |ids|;
    }
    var before := RunKeeps(ids, run, moves, k - 1);
    owner := StepKeeps(ids, run[k - 1], run[k], moves[k - 1], before);
  }

  lemma RunLengths(ids: seq<nat>, run: seq<State>, moves: seq<nat>)
    requires IsRun(ids, run, moves)
    ensures |run| == |moves| + 1
  {
  }

  /** At every moment of every run, a thread that holds the write lock excludes all others. */
  lemma MutualExclusion(ids: seq<nat>, run: seq<State>, moves: seq<nat>, k: nat, i: nat, j: nat)
    requires IsRun(ids, run, moves) && k < |run| && i < |ids| && j < |ids| && i != j
    ensures |run[k].threads| == |ids|
    ensures run[k].threads[i].writeLocks > 0 ==> run[k].threads[j].writeLocks == 0 && run[k].threads[j].readLocks == 0
  {
    hide IsRun, Sum, Encode;
    var owner := RunKeeps(ids, run, moves, k);
  }

  /** From the moment a writer has entered its id, no other thread gains a lock of any kind. */
  lemma WriterBlocksOthers(ids: seq<nat>, run: seq<State>, moves: seq<nat>, k: nat, i: nat, j: nat)
    requires IsRun(ids, run, moves) && k < |moves| && i < |ids| && j < |ids| && i != j
    ensures |run[k].threads| == |run[k + 1].threads| == |ids|
    ensures run[k].threads[i].at.Drain? || run[k].threads[i].writeLocks > 0 ==>
      && run[k + 1].threads[j].readLocks <= run[k].threads[j].readLocks
      && run[k + 1].threads[j].writeLocks == run[k].threads[j].writeLocks == 0
  {
    hide IsRun, Sum, Encode, Step;
    RunLengths(ids, run, moves);
    var owner := RunKeeps(ids, run, moves, k);
    var after := RunKeeps(ids, run, moves, k + 1);
    RunStep(ids, run, moves, k);
    if run[k].threads[i].at.Drain? || run[k].threads[i].writeLocks > 0 {
      OthersGainNothing(ids, run[k], run[k + 1], moves[k], owner, i, j);
    }
  }

  lemma RunStep(ids: seq<nat>, run: seq<State>, moves: seq<nat>, k: nat)
    requires IsRun(ids, run, moves) && k < |moves|
    ensures Step(ids, run[k], run[k + 1], moves[k])
  {
  }

  lemma OthersGainNothing(ids: seq<nat>, s: State, s': State, m: nat, owner: nat, i: nat, j: nat)
    requires Inv(ids, s, owner) && Step(ids, s, s', m) && i < |ids| && j < |ids| && i != j
    requires s.threads[i].at.Drain? || s.threads[i].writeLocks > 0
    ensures |s'.threads| == |ids|
    ensures s'.threads[j].readLocks <= s.threads[j].readLocks && s'.threads[j].writeLocks == s.threads[j].writeLocks == 0
  {
    hide Sum, Encode, Add64;
    assert owner == i;
    if m == j {
      if s' == Continue(s, m, ids[m]) {
        NoClaim(ids, s, owner, j);
      }
    }
  }

  /** With an owner in the word, a claim by another thread fails. */
  lemma NoClaim(ids: seq<nat>, s: State, owner: nat, j: nat)
    requires Inv(ids, s, owner) && owner < |ids| && j < |ids| && j != owner
    ensures var t := s.threads[j];
            && (t.at.ClaimWrite? || t.at.ClaimRead? || t.at.TryRead? ==> s.word != ReadPart(t.at.seen))
            && s.word != 0
            && !OwnerPosition(t.at)
  {
    hide Sum, Encode, ReadPart;
    var t := s.threads[j];
    if t.at.ClaimWrite? || t.at.ClaimRead? || t.at.TryRead? {
      if s.word == ReadPart(t.at.seen) {
        ClaimFindsFree(ids, s, owner, t.at.seen);
      }
    }
    WordOf(ids, s, owner);
    assert WriteCount(0) == 0;
  }

  /** In every run the compare-and-swap of unlock_write meets the word it has read, so the lock is
      really given back, and its two error checks never fire. */
  lemma ReleaseSucceeds(ids: seq<nat>, run: seq<State>, moves: seq<nat>, k: nat, i: nat)
    requires IsRun(ids, run, moves) && k < |run| && i < |ids|
    ensures |run[k].threads| == |ids|
    ensures run[k].threads[i].at.Release? ==>
      && run[k].word == run[k].threads[i].at.seen
      && ThreadPart(run[k].word) == ids[i] && WriteCount(run[k].word) == run[k].threads[i].writeLocks > 0
      && Continue(run[k], i, ids[i]).word == Released(run[k].word)
  {
    hide IsRun, Sum, Encode;
    var owner := RunKeeps(ids, run, moves, k);
    if run[k].threads[i].at.Release? {
      WordOf(ids, run[k], owner);
    }
  }

  /** The word always shows the number of read locks, and the depth and id of the one thread that
      has entered as writer, if there is one. */
  lemma WordEncodesState(ids: seq<nat>, run: seq<State>, moves: seq<nat>, k: nat)
    requires IsRun(ids, run, moves) && k < |run|
    ensures var s := run[k];
            && |s.threads| == |ids| && s.word / READ_VAL == Sum(s.threads)
            && (forall i :: 0 <= i < |ids| ==>
                  (Depth(s.threads[i]) > 0 ==> ThreadPart(s.word) == ids[i] && WriteCount(s.word) == Depth(s.threads[i])))
            && ((forall i :: 0 <= i < |ids| ==> Depth(s.threads[i]) == 0) ==> s.word == Encode(Sum(s.threads), 0, 0))
  {
    hide IsRun, Sum, Encode;
    var owner := RunKeeps(ids, run, moves, k);
    WordOf(ids, run[k], owner);
  }

  /** Once every thread has given back everything, the lock is free again. */
  lemma FreeAgain(ids: seq<nat>, run: seq<State>, moves: seq<nat>, k: nat)
    requires IsRun(ids, run, moves) && k < |run|
    requires forall i :: 0 <= i < |run[k].threads| ==> run[k].threads[i].readLocks == 0 && Depth(run[k].threads[i]) == 0
    ensures run[k].word == 0
  {
    hide IsRun, Sum;
    WordEncodesState(ids, run, moves, k);
    SumZero(run[k].threads);
  }

  // ---------------------------------------------------------------- when lock_write ends

  /** Inside lock_write, in either of its loops. */
  predicate Asking(t: Thread) { t.at.ClaimWrite? || t.at.Drain? }

  /** A thread that has a read lock and then asks for the write lock waits for itself: for the rest
      of the run it stays in one of the two loops and never gets the write lock. */
  lemma {:induction false} ReadThenWriteDeadlocks(ids: seq<nat>, run: seq<State>, moves: seq<nat>, k: nat, n: nat, i: nat)
    requires IsRun(ids, run, moves) && k <= n < |run| && i < |ids| && i < |run[k].threads|
    requires Asking(run[k].threads[i]) && run[k].threads[i].readLocks > 0
    ensures |run[n].threads| == |ids|
    ensures var t := run[n].threads[i];
            Asking(t) && t.readLocks == run[k].threads[i].readLocks && t.writeLocks == 0
  {
    hide IsRun, Sum, Encode, Step;
    RunLengths(ids, run, moves);
    var owner := RunKeeps(ids, run, moves, n);
    if n > k {
      ReadThenWriteDeadlocks(ids, run, moves, k, n - 1, i);
      var before := RunKeeps(ids, run, moves, n - 1);
      RunStep(ids, run, moves, n - 1);
      AskingStays(ids, run[n - 1], run[n], moves[n - 1], before, i);
    }
  }

  lemma AskingStays(ids: seq<nat>, s: State, s': State, m: nat, owner: nat, i: nat)
    requires Inv(ids, s, owner) && Step(ids, s, s', m) && i < |ids|
    requires Asking(s.threads[i]) && s.threads[i].readLocks > 0
    ensures |s'.threads| == |ids| && Asking(s'.threads[i])
    ensures s'.threads[i].readLocks == s.threads[i].readLocks && s'.threads[i].writeLocks == s.threads[i].writeLocks
  {
    hide Sum, Encode, Add64, ReadPart;
    WordOf(ids, s, owner);
    SumUpdate(s.threads, i, s.threads[i]);
  }

  /** A step of a draining thread takes the write lock exactly when no thread has a read lock, the
      thread itself included. */
  lemma DrainEnds(ids: seq<nat>, run: seq<State>, moves: seq<nat>, k: nat, i: nat)
    requires IsRun(ids, run, moves) && k < |moves| && i < |ids| && moves[k] == i
    requires |run[k].threads| == |ids| && run[k].threads[i].at.Drain?
    ensures |run[k + 1].threads| == |ids|
    ensures if forall j :: 0 <= j < |ids| ==> run[k].threads[j].readLocks == 0
            then run[k + 1].threads[i] == Thread(Idle, 0, 1) else run[k + 1] == run[k]
  {
    hide IsRun, Sum, Encode, Step;
    RunLengths(ids, run, moves);
    var owner := RunKeeps(ids, run, moves, k);
    RunStep(ids, run, moves, k);
    DrainStep(ids, run[k], run[k + 1], i);
    WordOf(ids, run[k], owner);
    SumZero(run[k].threads);
  }

  lemma DrainStep(ids: seq<nat>, s: State, s': State, i: nat)
    requires Step(ids, s, s', i) && s.threads[i].at.Drain?
    ensures s' == Continue(s, i, ids[i])
  {
  }

  /** A thread going on alone with the operation it is in. */
  function Turns(s: State, i: nat, id: nat, n: nat): (s': State)
    requires i < |s.threads|
    ensures |s'.threads| == |s.threads|
  {
    if n == 0 then s else Continue(Turns(s, i, id, n - 1), i, id)
  }

  /** Only thread i has any part in the lock; it is inside lock_write, or has just got the lock. */
  predicate Alone(s: State, i: nat) {
    && i < |s.threads| && Bounded(s)
    && (forall j :: 0 <= j < |s.threads| && j != i ==> s.threads[j].readLocks == 0 && Depth(s.threads[j]) == 0)
    && (Asking(s.threads[i]) || s.threads[i] == Thread(Idle, 0, 1))
  }

  /** How many steps of its own the thread is away from the lock. */
  function StepsLeft(s: State, i: nat): nat
    requires i < |s.threads|
  {
    match s.threads[i].at
    case ClaimWrite(seen) => if s.word == ReadPart(seen) then 2 else 3
    case Drain => 1
    case _ => 0
  }

  lemma AloneOwns(ids: seq<nat>, s: State, owner: nat, i: nat)
    requires Inv(ids, s, owner) && Alone(s, i)
    ensures Sum(s.threads) == s.threads[i].readLocks
    ensures if s.threads[i].at.ClaimWrite? then owner >= |ids| else owner == i
    ensures s.threads[i].at.Drain? ==> s.threads[i].writeLocks == 0
  {
    hide Encode;
    var t := s.threads[i].(readLocks := 0);
    SumUpdate(s.threads, i, t);
    SumZero(s.threads[i := t]);
  }

  lemma AloneStep(ids: seq<nat>, s: State, owner: nat, i: nat) returns (owner': nat)
    requires Inv(ids, s, owner) && Alone(s, i)
    ensures var s' := Continue(s, i, ids[i]);
            && Inv(ids, s', owner') && Alone(s', i)
            && s'.threads[i].readLocks == s.threads[i].readLocks
            && (if StepsLeft(s, i) > 1 then StepsLeft(s', i) == StepsLeft(s, i) - 1
                else if s.threads[i].readLocks == 0 then StepsLeft(s', i) == 0
                else s' == s)
  {
    hide Sum, Encode, Inv, ReadPart;
    InvLength(ids, s, owner);
    AloneOwns(ids, s, owner, i);
    owner' := ContinueKeeps(ids, s, i, owner);
    var s' := Continue(s, i, ids[i]);
    WordOf(ids, s, owner);
    SumUpdate(s.threads, i, s'.threads[i]);
  }

  /** Once the others have given back all their locks, three steps of its own are enough for a
      thread inside lock_write, exactly if it has no read lock itself. */
  lemma LockWriteEnds(ids: seq<nat>, run: seq<State>, moves: seq<nat>, k: nat, i: nat)
    requires IsRun(ids, run, moves) && k < |run| && Alone(run[k], i) && Asking(run[k].threads[i])
    ensures |run[k].threads| == |ids|
    ensures forall n :: 0 <= n < 3 ==> Step(ids, Turns(run[k], i, ids[i], n), Turns(run[k], i, ids[i], n + 1), i)
    ensures var t := Turns(run[k], i, ids[i], 3).threads[i];
            if run[k].threads[i].readLocks == 0 then t == Thread(Idle, 0, 1) else Asking(t)
  {
    hide IsRun, Inv, Continue, Step, Turns;
    var owner := RunKeeps(ids, run, moves, k);
    InvLength(ids, run[k], owner);
    TurnsNone(run[k], i, ids[i]);
    var a := AloneTurn(ids, run[k], owner, i, 0);
    var b := AloneTurn(ids, run[k], a, i, 1);
    var c := AloneTurn(ids, run[k], b, i, 2);
  }

  lemma InvLength(ids: seq<nat>, s: State, owner: nat)
    requires Inv(ids, s, owner)
    ensures |s.threads| == |ids|
  {
  }

  lemma TurnsNone(s: State, i: nat, id: nat)
    requires i < |s.threads|
    ensures Turns(s, i, id, 0) == s
  {
  }

  /** One more turn of the thread. */
  lemma AloneTurn(ids: seq<nat>, s: State, owner: nat, i: nat, n: nat) returns (owner': nat)
    requires i < |s.threads| == |ids|
    requires Inv(ids, Turns(s, i, ids[i], n), owner) && Alone(Turns(s, i, ids[i], n), i)
    ensures var was, now := Turns(s, i, ids[i], n), Turns(s, i, ids[i], n + 1);
            && Inv(ids, now, owner') && Alone(now, i) && Step(ids, was, now, i)
            && now.threads[i].readLocks == was.threads[i].readLocks
            && (if StepsLeft(was, i) > 1 then StepsLeft(now, i) == StepsLeft(was, i) - 1
                else if was.threads[i].readLocks == 0 then StepsLeft(now, i) == 0
                else now == was)
  {
    hide Inv, Continue, Alone, Begin;
    AloneBounded(Turns(s, i, ids[i], n), i);
    owner' := AloneStep(ids, Turns(s, i, ids[i], n), owner, i);
  }

  lemma AloneBounded(s: State, i: nat)
    requires Alone(s, i)
    ensures Bounded(s)
  {
  }

  // ---------------------------------------------------------------- when the other operations end

  /** No thread has entered as a writer. */
  predicate NoWriter(s: State) { forall j :: 0 <= j < |s.threads| ==> Depth(s.threads[j]) == 0 }

  lemma OwnerIsWriter(ids: seq<nat>, s: State, owner: nat)
    requires Inv(ids, s, owner)
    ensures NoWriter(s) <==> owner >= |ids|
  {
  }

  /** What the word says to a compare-and-swap that expects only readers. */
  lemma ReadersOnly(ids: seq<nat>, s: State, owner: nat, seen: nat)
    requires Inv(ids, s, owner)
    ensures s.word == ReadPart(seen) <==> NoWriter(s) && Sum(s.threads) == seen / READ_VAL
    ensures NoWriter(s) ==> ReadPart(s.word) == s.word
    ensures s.word == 0 <==> NoWriter(s) && Sum(s.threads) == 0
    ensures s.word / READ_VAL == Sum(s.threads)
  {
    hide Sum, OnlyOwner, OwnerFits;
    OwnerIsWriter(ids, s, owner);
    WordOf(ids, s, owner);
    if s.word == ReadPart(seen) {
      ClaimFindsFree(ids, s, owner, seen);
    }
    SplitRead(seen / READ_VAL, 0);
  }

  /** Readers share: however many others read, two steps of its own give a thread inside lock_read its
      lock, exactly if no writer has entered. */
  lemma LockReadEnds(ids: seq<nat>, run: seq<State>, moves: seq<nat>, k: nat, i: nat)
    requires IsRun(ids, run, moves) && k < |run| && Bounded(run[k]) && i < |run[k].threads|
    requires run[k].threads[i].at.ClaimRead?
    ensures |run[k].threads| == |ids|
    ensures forall n :: 0 <= n < 2 && Turns(run[k], i, ids[i], n).threads[i].at.ClaimRead? ==>
              Step(ids, Turns(run[k], i, ids[i], n), Turns(run[k], i, ids[i], n + 1), i)
    ensures var t, u := run[k].threads[i], Turns(run[k], i, ids[i], 2).threads[i];
            if NoWriter(run[k]) then u == Thread(Idle, t.readLocks + 1, t.writeLocks)
            else u.at.ClaimRead? && u.readLocks == t.readLocks && u.writeLocks == t.writeLocks
  {
    hide IsRun, Inv, Sum, ReadPart, Add64;
    var owner := RunKeeps(ids, run, moves, k);
    InvLength(ids, run[k], owner);
    var s := run[k];
    var s' := Continue(s, i, ids[i]);
    ReadersOnly(ids, s, owner, s.threads[i].at.seen);
    ReadersOnly(ids, s, owner, s.word);
    assert Turns(s, i, ids[i], 1) == s';
    assert Turns(s, i, ids[i], 2) == Continue(Turns(s, i, ids[i], 1), i, ids[i]);
    if s.word != ReadPart(s.threads[i].at.seen) {
      assert s' == Moved(s, i, ClaimRead(s.word));
      SumUpdate(s.threads, i, s'.threads[i]);
    }
  }

  /** Whoever holds the write lock may lock again, for reading or writing: two steps of its own are enough. */
  lemma OwnerLocksAgain(ids: seq<nat>, run: seq<State>, moves: seq<nat>, k: nat, i: nat, call: Call)
    requires IsRun(ids, run, moves) && k < |run| && Bounded(run[k]) && i < |run[k].threads|
    requires run[k].threads[i].at.Idle? && run[k].threads[i].writeLocks > 0 && !call.UnlockRead? && !call.UnlockWrite?
    ensures |run[k].threads| == |ids|
    ensures var begun, t := Begin(run[k], i, ids[i], call), run[k].threads[i];
            && Step(ids, run[k], begun, i) && Step(ids, begun, Continue(begun, i, ids[i]), i)
            && Continue(begun, i, ids[i]).threads[i]
               == if call.LockRead? || call.TryLockRead? then Thread(Idle, t.readLocks + 1, t.writeLocks)
                  else Thread(Idle, t.readLocks, t.writeLocks + 1)
  {
    hide IsRun, Inv, Sum, ReadPart, Add64, ThreadPart;
    var owner := RunKeeps(ids, run, moves, k);
    InvLength(ids, run[k], owner);
    HolderOwns(ids, run[k], owner, i);
    SeesItself(ids, run[k], owner, i);
    var begun := Begin(run[k], i, ids[i], call);
    SumUpdate(run[k].threads, i, begun.threads[i]);
    assert Legal(run[k], i, call);
  }

  /** try_lock_read, one step after it has read the word: it gains a read lock exactly if no writer has entered and
      as many read locks are held as it has seen; otherwise it gives up, and has changed nothing. */
  lemma TryLockReadEnds(ids: seq<nat>, run: seq<State>, moves: seq<nat>, k: nat, i: nat)
    requires IsRun(ids, run, moves) && k + 1 < |run| && i < |run[k].threads| && i < |run[k + 1].threads|
    requires run[k].threads[i].at.TryRead? && !run[k + 1].threads[i].at.TryRead?
    ensures var s, t := run[k], run[k].threads[i];
            if NoWriter(s) && s.word / READ_VAL == t.at.seen / READ_VAL
            then run[k + 1].threads[i] == Thread(Idle, t.readLocks + 1, t.writeLocks)
            else run[k + 1].threads[i] == Thread(Idle, t.readLocks, t.writeLocks) && run[k + 1].word == s.word
  {
    hide IsRun, Inv, Sum, ReadPart, Add64;
    RunLengths(ids, run, moves);
    RunStep(ids, run, moves, k);
    var owner := RunKeeps(ids, run, moves, k);
    ReadersOnly(ids, run[k], owner, run[k].threads[i].at.seen);
    var s := run[k];
    assert s == s.(threads := s.threads[i := s.threads[i]]);
  }

  /** try_lock_write gains the lock exactly if nobody reads and no writer has entered; otherwise it gives up. */
  lemma TryLockWriteEnds(ids: seq<nat>, run: seq<State>, moves: seq<nat>, k: nat, i: nat)
    requires IsRun(ids, run, moves) && k + 1 < |run| && i < |run[k].threads| && i < |run[k + 1].threads|
    requires run[k].threads[i].at.TryWrite? && !run[k + 1].threads[i].at.TryWrite?
    ensures var s, t := run[k], run[k].threads[i];
            if NoWriter(s) && forall j :: 0 <= j < |s.threads| ==> s.threads[j].readLocks == 0
            then run[k + 1].threads[i] == Thread(Idle, t.readLocks, t.writeLocks + 1)
            else run[k + 1].threads[i] == Thread(Idle, t.readLocks, t.writeLocks) && run[k + 1].word == s.word
  {
    hide IsRun, Inv, Sum, ReadPart, Add64;
    RunLengths(ids, run, moves);
    RunStep(ids, run, moves, k);
    var owner := RunKeeps(ids, run, moves, k);
    ReadersOnly(ids, run[k], owner, 0);
    SumZero(run[k].threads);
  }

  /** Undisturbed, a thread that does not hold the write lock gets what it tries to get exactly if it is to be had. */
  lemma TryUndisturbed(ids: seq<nat>, run: seq<State>, moves: seq<nat>, k: nat, i: nat, call: Call)
    requires IsRun(ids, run, moves) && k < |run| && Bounded(run[k]) && i < |run[k].threads|
    requires run[k].threads[i].at.Idle? && run[k].threads[i].writeLocks == 0 && (call.TryLockRead? || call.TryLockWrite?)
    ensures |run[k].threads| == |ids|
    ensures var begun, t := Begin(run[k], i, ids[i], call), run[k].threads[i];
            && Step(ids, run[k], begun, i) && Step(ids, begun, Continue(begun, i, ids[i]), i)
            && Continue(begun, i, ids[i]).threads[i]
               == if call.TryLockRead? && NoWriter(run[k]) then Thread(Idle, t.readLocks + 1, 0)
                  else if call.TryLockWrite? && run[k].word == 0 then Thread(Idle, t.readLocks, 1)
                  else t
  {
    hide IsRun, Inv, Sum, ReadPart, Add64, ThreadPart;
    var owner := RunKeeps(ids, run, moves, k);
    InvLength(ids, run[k], owner);
    SeesItself(ids, run[k], owner, i);
    IdleHolder(ids, run[k], owner, i);
    ReadersOnly(ids, run[k], owner, run[k].word);
    var begun := Begin(run[k], i, ids[i], call);
    SumUpdate(run[k].threads, i, begun.threads[i]);
    assert Legal(run[k], i, call);
  }

  lemma IdleHolder(ids: seq<nat>, s: State, owner: nat, i: nat)
    requires Inv(ids, s, owner) && i < |ids| && s.threads[i].at.Idle? && s.threads[i].writeLocks == 0
    ensures i != owner
  {
  }

  // ---------------------------------------------------------------- what each call changes

  /** What a step of its own does to a thread, by the call it is in: it stays in one of the loops with the locks it
      has, or ends the call with what the call is for. */
  predicate Progress(t: Thread, u: Thread) {
    var kept := u.readLocks == t.readLocks && u.writeLocks == t.writeLocks;
    match t.at
    case Idle => (kept && !u.at.Drain?) || (t.readLocks > 0 && u == Thread(Idle, t.readLocks - 1, t.writeLocks))
    case ClaimRead(_) => (kept && u.at.ClaimRead?) || u == Thread(Idle, t.readLocks + 1, t.writeLocks)
    case AddRead => u == Thread(Idle, t.readLocks + 1, t.writeLocks)
    case ClaimWrite(_) => kept && Asking(u)
    case Drain => u == t || u == Thread(Idle, t.readLocks, t.writeLocks + 1)
    case AddWrite => u == Thread(Idle, t.readLocks, t.writeLocks + 1)
    case TryRead(_) => u.at.Idle? && u.writeLocks == t.writeLocks && t.readLocks <= u.readLocks <= t.readLocks + 1
    case TryWrite => u.at.Idle? && u.readLocks == t.readLocks && t.writeLocks <= u.writeLocks <= t.writeLocks + 1
    case Release(_) => t.writeLocks > 0 && u == Thread(Idle, t.readLocks, t.writeLocks - 1)
  }

  lemma CallsDoTheirPart(ids: seq<nat>, run: seq<State>, moves: seq<nat>, k: nat, i: nat)
    requires IsRun(ids, run, moves) && k < |moves| && i < |ids|
    ensures |run| == |moves| + 1 && |run[k].threads| == |run[k + 1].threads| == |ids|
    ensures moves[k] != i ==> run[k + 1].threads[i] == run[k].threads[i]
    ensures moves[k] == i ==> Progress(run[k].threads[i], run[k + 1].threads[i])
  {
    hide IsRun, Inv, Sum, Encode, ReadPart, ThreadPart, Add64;
    RunLengths(ids, run, moves);
    RunStep(ids, run, moves, k);
    var owner := RunKeeps(ids, run, moves, k);
    var after := RunKeeps(ids, run, moves, k + 1);
    InvLength(ids, run[k], owner);
    InvLength(ids, run[k + 1], after);
    if run[k].threads[i].at.Release? {
      ReleaseSucceeds(ids, run, moves, k, i);
    }
  }

  // The run that locks itself up: a thread takes a read lock, then asks for the write lock.

  /** Four steps of thread i from the free lock. */
  function Entangled(n: nat, i: nat, id: nat): (run: seq<State>)
    requires i < n
    ensures |run| == 5
  {
    var a := Begin(Start(n), i, id, LockRead);
    var b := Continue(a, i, id);
    var c := Begin(b, i, id, LockWrite);
    [Start(n), a, b, c, Continue(c, i, id)]
  }

  lemma EntangledStates(n: nat, i: nat, id: nat)
    requires i < n && 0 < id < WRITE_VAL
    ensures var free := Start(n).threads;
            var run := Entangled(n, i, id);
            && run[1] == State(0, free[i := Thread(ClaimRead(0), 0, 0)])
            && run[2] == State(READ_VAL, free[i := Thread(Idle, 1, 0)])
            && run[3] == State(READ_VAL, free[i := Thread(ClaimWrite(READ_VAL), 1, 0)])
            && run[4] == State(READ_VAL + WRITE_VAL + id, free[i := Thread(Drain, 1, 0)])
  {
    hide ReadPart, ThreadPart, Add64;
    OneReaderWord();
  }

  lemma OneReaderWord()
    ensures ThreadPart(0) == ReadPart(0) == ThreadPart(READ_VAL) == 0
    ensures ReadPart(READ_VAL) == READ_VAL == Add64(0, READ_VAL)
  {
  }

  lemma DeadlockIsReached(ids: seq<nat>, i: nat)
    requires Ids(ids) && i < |ids|
    ensures IsRun(ids, Entangled(|ids|, i, ids[i]), [i, i, i, i])
    ensures |Entangled(|ids|, i, ids[i])[3].threads| == |Entangled(|ids|, i, ids[i])[4].threads| == |ids|
    ensures Entangled(|ids|, i, ids[i])[3].threads[i] == Thread(ClaimWrite(READ_VAL), 1, 0)
    ensures Entangled(|ids|, i, ids[i])[4].threads[i] == Thread(Drain, 1, 0)
  {
    hide Sum, Begin, Continue;
    var free := Start(|ids|).threads;
    SumZero(free);
    SumUpdate(free, i, Thread(ClaimRead(0), 0, 0));
    SumUpdate(free, i, Thread(Idle, 1, 0));
    SumUpdate(free, i, Thread(ClaimWrite(READ_VAL), 1, 0));
    EntangledStates(|ids|, i, ids[i]);
    var run := Entangled(|ids|, i, ids[i]);
    assert Legal(run[0], i, LockRead) && Legal(run[2], i, LockWrite);
  }
}
