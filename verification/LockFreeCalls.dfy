/** Whole calls of the linked queue: what each one does to the queue and what it answers, that some
    call always gets on, and that a thread left alone finishes. */
module LockFreeCalls {
  import opened LockFreeQueue
  import opened Wrappers

  // ---------------------------------------------------------------- what a call has done

  /** What a history has gained. */
  function Gained(before: seq<int>, after: seq<int>): seq<int> {
    if |before| <= |after| then after[|before|..] else []
  }

  /** The values that thread i has put in with its moves from a up to b. */
  function PutIn(run: seq<State>, moves: seq<Move>, i: nat, a: nat, b: nat): seq<int>
    requires a <= b <= |moves| < |run|
  {
    if a == b then []
    else PutIn(run, moves, i, a, b - 1) + (if moves[b - 1].thread == i then Gained(run[b - 1].values, run[b].values) else [])
  }

  /** The values that thread i has taken out with its moves from a up to b. */
  function TakenOut(run: seq<State>, moves: seq<Move>, i: nat, a: nat, b: nat): seq<int>
    requires a <= b <= |moves| < |run|
  {
    if a == b then []
    else TakenOut(run, moves, i, a, b - 1) + (if moves[b - 1].thread == i then Gained(run[b - 1].taken, run[b].taken) else [])
  }

  lemma OneMoreMove(run: seq<State>, moves: seq<Move>, i: nat, a: nat, b: nat)
    requires a < b <= |moves| < |run|
    ensures moves[b - 1].thread != i ==>
              PutIn(run, moves, i, a, b) == PutIn(run, moves, i, a, b - 1) && TakenOut(run, moves, i, a, b) == TakenOut(run, moves, i, a, b - 1)
    ensures moves[b - 1].thread == i ==>
              && PutIn(run, moves, i, a, b) == PutIn(run, moves, i, a, b - 1) + Gained(run[b - 1].values, run[b].values)
              && TakenOut(run, moves, i, a, b) == TakenOut(run, moves, i, a, b - 1) + Gained(run[b - 1].taken, run[b].taken)
  {
    hide Gained;
  }

  lemma NoMoves(run: seq<State>, moves: seq<Move>, i: nat, a: nat)
    requires a <= |moves| < |run|
    ensures PutIn(run, moves, i, a, a) == [] && TakenOut(run, moves, i, a, a) == []
  {
  }

  /** From the move at a to the move at k, thread i is in one call: it is idle before and after. */
  ghost predicate Call(run: seq<State>, i: nat, a: nat, k: nat) {
    && a < k && k + 1 < |run| && (forall n :: 0 <= n < |run| ==> i < |run[n].threads|)
    && run[a].threads[i].Idle? && run[k + 1].threads[i].Idle?
    && forall n :: a < n <= k ==> !run[n].threads[i].Idle?
  }

  lemma GainedOne(s: seq<int>, v: int)
    ensures Gained(s, s) == [] && Gained(s, s + [v]) == [v]
  {
  }

  lemma StepAt(run: seq<State>, moves: seq<Move>, threads: nat, dummy: int, k: nat)
    requires IsRun(run, moves, threads, dummy) && k + 1 < |run|
    ensures |run| == |moves| + 1 && IsStep(run[k], run[k + 1], moves[k]) && Inv(run[k]) && Inv(run[k + 1])
    ensures |run[k].threads| == |run[k + 1].threads|
  {
    hide Inv, Step;
    assert IsStep(run[k], run[k + 1], moves[k]);
    SameThreads(run[k], moves[k].thread, moves[k].choice);
    RunKeeps(run, moves, threads, dummy, k);
    RunKeeps(run, moves, threads, dummy, k + 1);
  }

  /** A thread becomes busy only by starting a call itself. */
  lemma BeginsItself(s: State, t: State, m: Move, i: nat)
    requires IsStep(s, t, m) && i < |s.threads| == |t.threads| && s.threads[i].Idle? && !t.threads[i].Idle?
    ensures m.thread == i && t.values == s.values && t.taken == s.taken
    ensures if t.threads[i].Enqueuing? then m.choice == StartEnqueue(t.threads[i].e.value)
            else m.choice.StartDequeue? && !t.threads[i].d.stage.GiveBack?
  {
    SameThreads(s, m.thread, m.choice);
  }

  /** A move during an enqueue: nothing is put in until the move that ends the call, and that one
      puts in the value. */
  lemma EnqueueMove(s: State, t: State, m: Move, i: nat)
    requires IsStep(s, t, m) && i < |s.threads| == |t.threads| && s.threads[i].Enqueuing?
    ensures m.thread != i ==> t.threads[i] == s.threads[i]
    ensures m.thread == i ==> t.taken == s.taken
    ensures m.thread == i && t.threads[i].Idle? ==> t.values == s.values + [s.threads[i].e.value]
    ensures m.thread == i && !t.threads[i].Idle? ==>
              t.values == s.values && t.threads[i].Enqueuing? && t.threads[i].e.value == s.threads[i].e.value
  {
    if m.thread != i {
      SameThreads(s, m.thread, m.choice);
    }
  }

  /** A move during a dequeue: a value is taken out exactly on the way to the last stage, which
      holds it; from any other stage the call ends only after a null next pointer. */
  lemma DequeueMove(s: State, t: State, m: Move, i: nat)
    requires IsStep(s, t, m) && i < |s.threads| == |t.threads| && s.threads[i].Dequeuing?
    ensures m.thread != i ==> t.threads[i] == s.threads[i]
    ensures m.thread == i ==> t.values == s.values && !t.threads[i].Enqueuing?
    ensures m.thread == i && s.threads[i].d.stage.GiveBack? ==> t.threads[i].Idle? && t.taken == s.taken
    ensures m.thread == i && !s.threads[i].d.stage.GiveBack? && t.threads[i].Idle? ==> t.taken == s.taken && SawNull(s, i)
    ensures m.thread == i && !s.threads[i].d.stage.GiveBack? && t.threads[i].Dequeuing? ==>
              t.taken == if t.threads[i].d.stage.GiveBack? then s.taken + [t.threads[i].d.value] else s.taken
  {
    if m.thread != i {
      SameThreads(s, m.thread, m.choice);
    }
  }

  /** Before its last move an enqueue has done nothing, and still has its value. */
  lemma {:induction false} EnqueueSoFar(run: seq<State>, moves: seq<Move>, threads: nat, dummy: int, i: nat, a: nat, k: nat, n: nat)
    requires IsRun(run, moves, threads, dummy) && Call(run, i, a, k) && run[a + 1].threads[i].Enqueuing? && a < n <= k
    ensures |run| == |moves| + 1 && run[n].threads[i].Enqueuing?
    ensures moves[a] == Move(i, StartEnqueue(run[n].threads[i].e.value))
    ensures PutIn(run, moves, i, a, n) == [] && TakenOut(run, moves, i, a, n) == []
  {
    hide IsRun, IsStep, Inv, Gained, PutIn, TakenOut;
    StepAt(run, moves, threads, dummy, n - 1);
    NoMoves(run, moves, i, a);
    OneMoreMove(run, moves, i, a, n);
    if n == a + 1 {
      BeginsItself(run[a], run[n], moves[a], i);
      GainedOne(run[a].values, 0);
      GainedOne(run[a].taken, 0);
    } else {
      EnqueueSoFar(run, moves, threads, dummy, i, a, k, n - 1);
      EnqueueMove(run[n - 1], run[n], moves[n - 1], i);
      GainedOne(run[n].values, 0);
      GainedOne(run[n].taken, 0);
    }
  }

  /** An enqueue puts in exactly the value it was called with, and takes nothing out. */
  lemma EnqueueCall(run: seq<State>, moves: seq<Move>, threads: nat, dummy: int, i: nat, a: nat, k: nat)
    requires IsRun(run, moves, threads, dummy) && Call(run, i, a, k) && run[a + 1].threads[i].Enqueuing?
    ensures |run| == |moves| + 1 && moves[a].thread == i && moves[a].choice.StartEnqueue?
    ensures PutIn(run, moves, i, a, k + 1) == [moves[a].choice.value] && TakenOut(run, moves, i, a, k + 1) == []
  {
    hide IsRun, IsStep, Inv, Gained, PutIn, TakenOut;
    EnqueueSoFar(run, moves, threads, dummy, i, a, k, k);
    StepAt(run, moves, threads, dummy, k);
    OneMoreMove(run, moves, i, a, k + 1);
    EnqueueMove(run[k], run[k + 1], moves[k], i);
    GainedOne(run[k].values, moves[a].choice.value);
    GainedOne(run[k].taken, 0);
  }

  /** A dequeue has taken out one value if it is at its last stage, and none before. */
  lemma {:induction false} DequeueSoFar(run: seq<State>, moves: seq<Move>, threads: nat, dummy: int, i: nat, a: nat, k: nat, n: nat)
    requires IsRun(run, moves, threads, dummy) && Call(run, i, a, k) && run[a + 1].threads[i].Dequeuing? && a < n <= k
    ensures |run| == |moves| + 1 && run[n].threads[i].Dequeuing? && moves[a] == Move(i, StartDequeue)
    ensures PutIn(run, moves, i, a, n) == []
    ensures TakenOut(run, moves, i, a, n) == var d := run[n].threads[i].d; if d.stage.GiveBack? then [d.value] else []
  {
    hide IsRun, IsStep, Inv, Gained, PutIn, TakenOut;
    StepAt(run, moves, threads, dummy, n - 1);
    NoMoves(run, moves, i, a);
    OneMoreMove(run, moves, i, a, n);
    if n == a + 1 {
      BeginsItself(run[a], run[n], moves[a], i);
      GainedOne(run[a].values, 0);
      GainedOne(run[a].taken, 0);
    } else {
      DequeueSoFar(run, moves, threads, dummy, i, a, k, n - 1);
      DequeueMove(run[n - 1], run[n], moves[n - 1], i);
      GainedOne(run[n].values, 0);
      GainedOne(run[n - 1].taken, run[n].threads[i].d.value);
    }
  }

  /** A dequeue puts nothing in.  Either it ends at its last stage, with exactly one value taken out,
      which is the one in the caller's variable; or it has taken out nothing, and at a moment while
      it was running the queue was empty. */
  lemma DequeueCall(run: seq<State>, moves: seq<Move>, threads: nat, dummy: int, i: nat, a: nat, k: nat) returns (m: nat)
    requires IsRun(run, moves, threads, dummy) && Call(run, i, a, k) && run[a + 1].threads[i].Dequeuing?
    ensures |run| == |moves| + 1 && moves[a] == Move(i, StartDequeue) && run[k].threads[i].Dequeuing?
    ensures PutIn(run, moves, i, a, k + 1) == []
    ensures var d := run[k].threads[i].d;
            if d.stage.GiveBack? then TakenOut(run, moves, i, a, k + 1) == [d.value]
            else TakenOut(run, moves, i, a, k + 1) == [] && a < m <= k && Empty(run[m])
  {
    hide IsRun, IsStep, Inv, Gained, PutIn, TakenOut;
    DequeueSoFar(run, moves, threads, dummy, i, a, k, k);
    StepAt(run, moves, threads, dummy, k);
    OneMoreMove(run, moves, i, a, k + 1);
    DequeueMove(run[k], run[k + 1], moves[k], i);
    GainedOne(run[k].values, 0);
    GainedOne(run[k].taken, 0);
    m := k;
    if !run[k].threads[i].d.stage.GiveBack? {
      m := EmptyAnswerIsHonest(run, moves, threads, dummy, k, i);
    }
  }
}
