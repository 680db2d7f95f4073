/** Progress of the linked queue: while threads make moves, values are linked or taken or calls end.

    The budget of a thread bounds how many moves it can still make in a call before that happens.
    Its own moves use it up, and no move of another thread that does neither raises it. */
module LockFreeProgress {
  import opened LockFreeCalls
  import opened LockFreeQueue
  import opened Wrappers

  // ---------------------------------------------------------------- budgets

  /** The tail is the last node. */
  predicate Settled(s: State) { s.tail.count + 1 == |s.chain| }

  /** What the enqueue has loaded of the tail is still so. */
  predicate TailFresh(s: State, e: EnqueueVars) {
    && (Rank(e.stage) > 2 ==> e.tail.node == s.tail.node)
    && (Rank(e.stage) > 3 ==> e.tail == s.tail)
    && (Rank(e.stage) > 4 ==> s.tail.node < |s.nodes| && e.next == s.nodes[s.tail.node].next)
    && (Rank(e.stage) > 5 ==> s.tail.node < |s.nodes| && e.nextCount == s.nodes[s.tail.node].count)
  }

  function EnqueueBudget(s: State, e: EnqueueVars): int {
    (if TailFresh(s, e) then if Settled(s) then 9 else 18 else if Settled(s) then 16 else 25) - Rank(e.stage)
  }

  /** What the dequeue has loaded of the head is still so, and the head is not taken yet. */
  predicate HeadFresh(s: State, d: DequeueVars) {
    && (Rank(d.stage) > 0 ==> d.head.node == s.head.node)
    && (Rank(d.stage) > 1 ==> d.head == s.head)
    && (Rank(d.stage) > 4 ==> s.head.node < |s.nodes| && d.next == s.nodes[s.head.node].next)
    && !d.stage.GiveBack?
  }

  /** The tail is ahead of the head, and the thread has not seen them together. */
  predicate Ahead(s: State, d: DequeueVars) {
    s.tail.count > s.head.count && (Rank(d.stage) > 2 ==> d.tail.node != d.head.node)
  }

  function DequeueBudget(s: State, d: DequeueVars): int {
    (if !HeadFresh(s, d) then 35 else if Ahead(s, d) then 12 else 22) - Rank(d.stage)
  }

  function Budget(s: State, i: nat): int
    requires i < |s.threads|
  {
    match s.threads[i]
    case Idle => 0
    case Enqueuing(e) => EnqueueBudget(s, e)
    case Dequeuing(d) => DequeueBudget(s, d)
  }

  /** Nothing is linked or taken by this step. */
  predicate Quiet(s: State, t: State) { t.values == s.values && t.taken == s.taken }

  predicate SameLinks(a: seq<Node>, b: seq<Node>) {
    |a| <= |b| && forall n :: 0 <= n < |a| ==> a[n].next == b[n].next && a[n].count == b[n].count
  }

  lemma QuietMemory(s: State, t: State, m: Move)
    requires IsStep(s, t, m) && Quiet(s, t)
    ensures t.chain == s.chain && t.head == s.head && SameLinks(s.nodes, t.nodes)
    ensures t.tail == s.tail || t.tail.count == s.tail.count + 1
  {
    var i := m.thread;
    match s.threads[i] {
      case Idle =>
      case Enqueuing(e) => QuietEnqueue(s, i, e);
      case Dequeuing(d) => QuietDequeue(s, i, d, m.choice);
    }
  }

  lemma QuietEnqueue(s: State, i: nat, e: EnqueueVars)
    requires i < |s.threads| && Mapped(s, Enqueuing(e)) && Quiet(s, EnqueueStep(s, i, e))
    ensures var t := EnqueueStep(s, i, e);
            && t.chain == s.chain && t.head == s.head && t.nodes == s.nodes
            && (t.tail == s.tail || t.tail.count == s.tail.count + 1)
  {
    assert |s.values + [e.value]| == |s.values| + 1;
  }

  lemma QuietDequeue(s: State, i: nat, d: DequeueVars, choice: Choice)
    requires i < |s.threads| && Mapped(s, Dequeuing(d)) && Quiet(s, DequeueStep(s, i, d, choice))
    ensures var t := DequeueStep(s, i, d, choice);
            && t.chain == s.chain && t.head == s.head && SameLinks(s.nodes, t.nodes)
            && (t.tail == s.tail || t.tail.count == s.tail.count + 1)
  {
    hide Loaded, Decided;
    assert |s.taken + [d.value]| == |s.taken| + 1;
  }

  lemma InvEnds(s: State)
    requires Inv(s)
    ensures s.head.count <= s.tail.count < |s.chain| <= s.tail.count + 2
    ensures s.head.node < |s.nodes| && s.tail.node < |s.nodes|
    ensures s.nodes[s.tail.node].next == None <==> Settled(s)
  {
    NextOf(s.nodes, s.chain, s.head.count);
    NextOf(s.nodes, s.chain, s.tail.count);
    hide Linked;
  }

  /** A quiet step leaves the list and the head alone; it may move a tail that was behind. */
  lemma QuietStep(s: State, t: State, m: Move)
    requires Inv(s) && Inv(t) && IsStep(s, t, m) && Quiet(s, t)
    ensures t.chain == s.chain && t.head == s.head && SameLinks(s.nodes, t.nodes)
    ensures t.tail == s.tail || (!Settled(s) && Settled(t) && t.tail.count == s.tail.count + 1)
  {
    hide Inv, IsStep, SameLinks;
    InvEnds(s);
    InvEnds(t);
    QuietMemory(s, t, m);
    if t.tail != s.tail {
      assert t.tail.count == s.tail.count + 1;
    }
  }

  // ---------------------------------------------------------------- moves and budgets

  /** A quiet move of another thread does not raise the budget. */
  lemma OtherMove(s: State, t: State, m: Move, i: nat)
    requires Inv(s) && Inv(t) && IsStep(s, t, m) && Quiet(s, t)
    requires i < |s.threads| == |t.threads| && m.thread != i && !s.threads[i].Idle?
    ensures t.threads[i] == s.threads[i] && Budget(t, i) <= Budget(s, i)
  {
    hide Inv, IsStep;
    InvEnds(s);
    InvEnds(t);
    QuietStep(s, t, m);
    OthersStay(s, t, m, i);
  }

  lemma OthersStay(s: State, t: State, m: Move, i: nat)
    requires IsStep(s, t, m) && i < |s.threads| == |t.threads| && m.thread != i
    ensures t.threads[i] == s.threads[i]
  {
    SameThreads(s, m.thread, m.choice);
  }

  lemma LocalFacts(s: State, i: nat)
    requires Inv(s) && i < |s.threads|
    ensures ChainOk(s) && EndsOk(s) && LocalOk(s, s.threads[i]) && Mapped(s, s.threads[i])
  {
    LocalMapped(s, s.threads[i]);
  }

  lemma SamePlace(s: State, j: nat, k: nat)
    requires ChainOk(s) && j < |s.chain| && k < |s.chain| && s.chain[j] == s.chain[k]
    ensures j == k
  {
    PlaceUnique(s.chain, j, k);
  }

  /** The loads and checks at the start of a turn of the enqueue loop. */
  lemma EnqueueLoads(s: State, i: nat, e: EnqueueVars)
    requires i < |s.threads| && Mapped(s, Enqueuing(e)) && 2 <= Rank(e.stage) < 8
    ensures var t := EnqueueStep(s, i, e);
            && i < |t.threads| && t.threads[i].Enqueuing? && t == With(s, i, t.threads[i])
            && EnqueueBudget(s, t.threads[i].e) < EnqueueBudget(s, e)
  {
  }

  /** With fresh loads and the tail at the last node the value is linked; else the tail is moved on, or the loop
      starts again. */
  lemma EnqueueActs(s: State, i: nat, e: EnqueueVars)
    requires Inv(s) && i < |s.threads| && s.threads[i] == Enqueuing(e) && Mapped(s, s.threads[i]) && e.stage.Act?
    ensures var t := EnqueueStep(s, i, e);
            Quiet(s, t) ==>
              && t.threads == s.threads[i := Enqueuing(e.(stage := LoadTail))]
              && (TailFresh(s, e) ==> !Settled(s) && t.tail.count == s.tail.count + 1)
  {
    InvEnds(s);
    hide Inv;
    assert |s.values + [e.value]| == |s.values| + 1;
  }

  /** A quiet move of an enqueuing thread that does not end its call uses up budget. */
  lemma EnqueueSpends(s: State, i: nat, e: EnqueueVars)
    requires Inv(s) && i < |s.threads| && s.threads[i] == Enqueuing(e) && Mapped(s, s.threads[i])
    ensures var t := EnqueueStep(s, i, e);
            i < |t.threads| && (Inv(t) && Quiet(s, t) && t.threads[i].Enqueuing? ==> Budget(t, i) < Budget(s, i))
  {
    hide Inv, EnqueueOk, TailFresh, Mapped;
    EnqueueRank(s, i, e);
    if Rank(e.stage) < 8 {
      EnqueueLoads(s, i, e);
      var t := EnqueueStep(s, i, e);
      SameTail(s, t, t.threads[i].e);
    } else {
      EnqueueActs(s, i, e);
      var t := EnqueueStep(s, i, e);
      if Inv(t) && Quiet(s, t) {
        InvEnds(s);
        InvEnds(t);
        QuietEnqueue(s, i, e);
        NothingLoaded(t, e.(stage := LoadTail));
      }
    }
  }

  lemma EnqueueRank(s: State, i: nat, e: EnqueueVars)
    requires Inv(s) && i < |s.threads| && s.threads[i] == Enqueuing(e)
    ensures 2 <= Rank(e.stage) <= 8
  {
    LocalFacts(s, i);
  }

  lemma NothingLoaded(s: State, e: EnqueueVars)
    requires e.stage.LoadTail?
    ensures TailFresh(s, e)
  {
  }

  lemma SameTail(s: State, t: State, e: EnqueueVars)
    requires t == s.(threads := t.threads)
    ensures EnqueueBudget(t, e) == EnqueueBudget(s, e)
  {
  }

  /** The loads and checks at the start of a turn of the dequeue loop. */
  lemma DequeueLoads(s: State, d: DequeueVars)
    requires ChainOk(s) && EndsOk(s) && Mapped(s, Dequeuing(d)) && Rank(d.stage) < 8
    ensures DequeueBudget(s, Loaded(s, d)) < DequeueBudget(s, d)
  {
    if s.head.node == s.tail.node {
      SamePlace(s, s.head.count, s.tail.count);
    }
    hide ChainOk;
  }

  /** Where a fresh head and a tail seen behind it are in the list. */
  lemma SeenPlaces(s: State, d: DequeueVars)
    requires ChainOk(s) && EndsOk(s) && DequeueOk(s, d) && HeadFresh(s, d) && Rank(d.stage) > 3
    ensures d.tail.node == d.head.node <==> d.tailPos == s.head.count
    ensures d.headPos == s.head.count <= d.tailPos <= d.tail.count <= s.tail.count
  {
    SamePlace(s, d.headPos, s.head.count);
    if d.tail.node == d.head.node {
      SamePlace(s, d.tailPos, d.headPos);
    }
  }

  /** A thread that has seen the tail apart from a fresh head is ahead, and its next pointer is not null. */
  lemma ApartMeansAhead(s: State, d: DequeueVars)
    requires ChainOk(s) && EndsOk(s) && DequeueOk(s, d) && HeadFresh(s, d) && Rank(d.stage) > 4
    ensures d.tail.node != d.head.node ==> Ahead(s, d)
    ensures Ahead(s, d) ==> d.next.Some?
  {
    SeenPlaces(s, d);
    NextOf(s.nodes, s.chain, s.head.count);
  }

  lemma DequeueDecides(s: State, d: DequeueVars)
    requires ChainOk(s) && EndsOk(s) && DequeueOk(s, d) && d.stage.Act?
    ensures Decided(d).Dequeuing? ==> DequeueBudget(s, Decided(d).d) < DequeueBudget(s, d)
  {
    if HeadFresh(s, d) {
      ApartMeansAhead(s, d);
    }
    hide ChainOk, EndsOk, DequeueOk;
  }

  /** After a turn that found the tail behind, the tail is ahead of a fresh head. */
  lemma SwingMovesOn(s: State, i: nat, d: DequeueVars)
    requires ChainOk(s) && EndsOk(s) && DequeueOk(s, d) && d.stage.Swing? && i < |s.threads|
    ensures d.next.Some?
    ensures var t := SwingTail(s, i, d.tail, d.next.value, Dequeuing(d.(stage := LoadHead)));
            DequeueBudget(t, d.(stage := LoadHead)) < DequeueBudget(s, d)
  {
    if HeadFresh(s, d) {
      SeenPlaces(s, d);
    }
    hide ChainOk, DequeueOk;
  }

  /** A quiet move of a dequeuing thread that does not end its call uses up budget. */
  lemma DequeueSpends(s: State, i: nat, d: DequeueVars, choice: Choice)
    requires Inv(s) && i < |s.threads| && s.threads[i] == Dequeuing(d) && Mapped(s, s.threads[i])
    ensures var t := DequeueStep(s, i, d, choice);
            i < |t.threads| && (Quiet(s, t) && t.threads[i].Dequeuing? ==> Budget(t, i) < Budget(s, i))
  {
    LocalFacts(s, i);
    hide Inv, EndsOk, ChainOk, DequeueOk, HeadFresh, Mapped, Loaded, Decided;
    var t := DequeueStep(s, i, d, choice);
    if Rank(d.stage) < 8 {
      DequeueLoads(s, d);
      SameHead(s, t, Loaded(s, d));
    } else if d.stage.Act? {
      DequeueDecides(s, d);
      if Decided(d).Dequeuing? {
        SameHead(s, t, Decided(d).d);
      }
    } else if d.stage.Swing? {
      SwingMovesOn(s, i, d);
    } else if !d.stage.GiveBack? {
      DequeueTakes(s, i, d, choice);
    }
  }

  lemma SameHead(s: State, t: State, d: DequeueVars)
    requires t == s.(threads := t.threads)
    ensures DequeueBudget(t, d) == DequeueBudget(s, d)
  {
  }

  /** Reading the value and taking the head: with a fresh head the value is taken. */
  lemma DequeueTakes(s: State, i: nat, d: DequeueVars, choice: Choice)
    requires ChainOk(s) && EndsOk(s) && DequeueOk(s, d) && (d.stage.ReadValue? || d.stage.TakeHead?)
    requires i < |s.threads| && s.threads[i] == Dequeuing(d) && Mapped(s, s.threads[i])
    ensures var t := DequeueStep(s, i, d, choice);
            Quiet(s, t) && t.threads[i].Dequeuing? ==> Budget(t, i) < Budget(s, i)
  {
    if HeadFresh(s, d) {
      ApartMeansAhead(s, d);
    }
    assert |s.taken + [d.value]| == |s.taken| + 1;
    hide ChainOk, EndsOk;
  }

  // ---------------------------------------------------------------- runs

  /** How many moves thread i makes from a up to b. */
  function OwnMoves(moves: seq<Move>, i: nat, a: nat, b: nat): nat
    requires a <= b <= |moves|
  {
    if a == b then 0 else OwnMoves(moves, i, a, b - 1) + if moves[b - 1].thread == i then 1 else 0
  }

  /** From a to b, thread i is in one call and nothing is linked or taken. */
  ghost predicate Stuck(run: seq<State>, i: nat, a: nat, b: nat) {
    && a <= b < |run| && (forall n :: a <= n <= b ==> i < |run[n].threads| && !run[n].threads[i].Idle?)
    && run[b].values == run[a].values && run[b].taken == run[a].taken
  }

  lemma OneMove(s: State, t: State, m: Move, i: nat)
    requires Inv(s) && Inv(t) && IsStep(s, t, m) && Quiet(s, t)
    requires i < |s.threads| == |t.threads| && !s.threads[i].Idle? && !t.threads[i].Idle?
    ensures Budget(t, i) + (if m.thread == i then 1 else 0) <= Budget(s, i)
  {
    if m.thread != i {
      OtherMove(s, t, m, i);
    } else if s.threads[i].Enqueuing? {
      EnqueueMove(s, t, m, i);
      EnqueueSpends(s, i, s.threads[i].e);
    } else {
      DequeueMove(s, t, m, i);
      DequeueSpends(s, i, s.threads[i].d, m.choice);
    }
  }

  lemma BudgetBounds(s: State, i: nat)
    requires Inv(s) && i < |s.threads|
    ensures 0 <= Budget(s, i) <= 35
  {
    LocalFacts(s, i);
    hide Inv, ChainOk, EndsOk;
  }

  /** Histories in between are the same too. */
  lemma {:induction false} QuietBetween(run: seq<State>, moves: seq<Move>, threads: nat, dummy: int, a: nat, n: nat, b: nat)
    requires IsRun(run, moves, threads, dummy) && a <= n <= b < |run|
    ensures run[a].values <= run[n].values <= run[b].values && run[a].taken <= run[n].taken <= run[b].taken
    decreases b - a
  {
    hide IsRun;
    if a < n {
      HistoryGrows(run, moves, threads, dummy, a);
      QuietBetween(run, moves, threads, dummy, a + 1, n, b);
    } else if n < b {
      HistoryGrows(run, moves, threads, dummy, b - 1);
      QuietBetween(run, moves, threads, dummy, a, n, b - 1);
    }
  }

  lemma {:induction false} BudgetSpent(run: seq<State>, moves: seq<Move>, threads: nat, dummy: int, i: nat, a: nat, b: nat)
    requires IsRun(run, moves, threads, dummy) && Stuck(run, i, a, b)
    ensures |run| == |moves| + 1 && Budget(run[b], i) + OwnMoves(moves, i, a, b) <= Budget(run[a], i)
    decreases b
  {
    hide IsRun, IsStep, Inv, Budget;
    RunLength(run, moves, threads, dummy);
    if a < b {
      StepAt(run, moves, threads, dummy, b - 1);
      QuietBetween(run, moves, threads, dummy, a, b - 1, b);
      BudgetSpent(run, moves, threads, dummy, i, a, b - 1);
      OneMove(run[b - 1], run[b], moves[b - 1], i);
    }
  }

  lemma RunLength(run: seq<State>, moves: seq<Move>, threads: nat, dummy: int)
    requires IsRun(run, moves, threads, dummy)
    ensures |run| == |moves| + 1
  {
  }

  /** No thread waits for another: in every run, whatever the others do, a thread that has made 36
      moves in one call has seen its call end, or some value linked or taken meanwhile. */
  lemma SomeoneGetsOn(run: seq<State>, moves: seq<Move>, threads: nat, dummy: int, i: nat, a: nat, b: nat)
    requires IsRun(run, moves, threads, dummy) && Stuck(run, i, a, b)
    ensures |run| == |moves| + 1 && OwnMoves(moves, i, a, b) <= 35
  {
    hide IsRun, Inv, Budget;
    BudgetSpent(run, moves, threads, dummy, i, a, b);
    RunKeeps(run, moves, threads, dummy, a);
    RunKeeps(run, moves, threads, dummy, b);
    BudgetBounds(run[a], i);
    BudgetBounds(run[b], i);
  }

  // ---------------------------------------------------------------- a thread left alone

  /** Every move from a up to b is one of thread i. */
  predicate Alone(moves: seq<Move>, i: nat, a: nat, b: nat) {
    a <= b <= |moves| && forall n :: a <= n < b ==> moves[n].thread == i
  }

  lemma {:induction false} AloneMoves(moves: seq<Move>, i: nat, a: nat, b: nat)
    requires Alone(moves, i, a, b)
    ensures OwnMoves(moves, i, a, b) == b - a
  {
    if a < b {
      AloneMoves(moves, i, a, b - 1);
    }
  }

  lemma {:induction false} ThreadsStay(run: seq<State>, moves: seq<Move>, threads: nat, dummy: int, k: nat)
    requires IsRun(run, moves, threads, dummy) && k < |run|
    ensures |run[k].threads| == threads
  {
    if k > 0 {
      ThreadsStay(run, moves, threads, dummy, k - 1);
      StepAt(run, moves, threads, dummy, k - 1);
    }
  }

  /** What a thread alone does is all that happens. */
  lemma {:induction false} AloneHistory(run: seq<State>, moves: seq<Move>, threads: nat, dummy: int, i: nat, a: nat, b: nat)
    requires IsRun(run, moves, threads, dummy) && Alone(moves, i, a, b)
    ensures |run| == |moves| + 1
    ensures run[b].values == run[a].values + PutIn(run, moves, i, a, b)
    ensures run[b].taken == run[a].taken + TakenOut(run, moves, i, a, b)
  {
    hide IsRun, Gained, PutIn, TakenOut;
    RunLength(run, moves, threads, dummy);
    NoMoves(run, moves, i, a);
    if a < b {
      OneMoreMove(run, moves, i, a, b);
      AloneHistory(run, moves, threads, dummy, i, a, b - 1);
      HistoryGrows(run, moves, threads, dummy, b - 1);
      GainedRest(run[b - 1].values, run[b].values);
      GainedRest(run[b - 1].taken, run[b].taken);
    }
  }

  lemma GainedRest(before: seq<int>, after: seq<int>)
    requires before <= after
    ensures after == before + Gained(before, after)
  {
  }

  /** As long as the call of a thread alone has not ended, it has done nothing. */
  lemma {:induction false} AloneQuiet(run: seq<State>, moves: seq<Move>, threads: nat, dummy: int, i: nat, a: nat, n: nat)
    requires IsRun(run, moves, threads, dummy) && Alone(moves, i, a, n + 1) && a < n && i < threads
    requires forall k :: 0 <= k < |run| ==> |run[k].threads| == threads
    requires |run| == |moves| + 1 && run[a].threads[i].Idle? && forall k :: a < k <= n + 1 ==> !run[k].threads[i].Idle?
    ensures run[n].values == run[a].values && run[n].taken == run[a].taken
    ensures run[n].threads[i].Dequeuing? ==> !run[n].threads[i].d.stage.GiveBack?
  {
    hide IsRun, IsStep, Inv;
    StepAt(run, moves, threads, dummy, n - 1);
    StepAt(run, moves, threads, dummy, n);
    if n == a + 1 {
      BeginsItself(run[a], run[n], moves[a], i);
    } else {
      AloneQuiet(run, moves, threads, dummy, i, a, n - 1);
      if run[n - 1].threads[i].Enqueuing? {
        EnqueueMove(run[n - 1], run[n], moves[n - 1], i);
      } else {
        DequeueMove(run[n - 1], run[n], moves[n - 1], i);
        DequeueMove(run[n], run[n + 1], moves[n], i);
      }
    }
  }

  /** Within 38 moves of its own the call of a thread alone has ended. */
  lemma AloneEnds(run: seq<State>, moves: seq<Move>, threads: nat, dummy: int, i: nat, a: nat) returns (k: nat)
    requires IsRun(run, moves, threads, dummy) && i < threads && a + 38 < |run| && Alone(moves, i, a, a + 38)
    requires i < |run[a].threads| && run[a].threads[i].Idle?
    requires i < |run[a + 1].threads| && !run[a + 1].threads[i].Idle?
    ensures a < k < a + 38 && Call(run, i, a, k)
  {
    hide IsRun, Inv;
    RunLength(run, moves, threads, dummy);
    forall n: nat | n < |run| ensures |run[n].threads| == threads {
      ThreadsStay(run, moves, threads, dummy, n);
    }
    k := a + 1;
    while k < a + 38 && !run[k + 1].threads[i].Idle?
      invariant a < k < a + 38
      invariant forall n :: a < n <= k ==> !run[n].threads[i].Idle?
    {
      k := k + 1;
      if k == a + 38 {
        AloneQuiet(run, moves, threads, dummy, i, a, a + 1);
        AloneQuiet(run, moves, threads, dummy, i, a, a + 37);
        SomeoneGetsOn(run, moves, threads, dummy, i, a + 1, a + 37);
        AloneMoves(moves, i, a + 1, a + 37);
        assert false;
      }
    }
  }

  lemma Counted(s: State)
    requires Inv(s)
    ensures |s.taken| == s.head.count < |s.chain| == |s.values| && s.taken == s.values[1..|s.taken| + 1]
  {
  }

  /** A dequeue by a thread alone ends within 38 moves.  If the queue was not empty it has taken out the
      oldest value and holds it; else it has taken out nothing. */
  lemma DequeueAlone(run: seq<State>, moves: seq<Move>, threads: nat, dummy: int, i: nat, a: nat) returns (k: nat)
    requires IsRun(run, moves, threads, dummy) && i < threads && a + 38 < |run| && Alone(moves, i, a, a + 38)
    requires i < |run[a].threads| && run[a].threads[i].Idle? && moves[a].choice == StartDequeue
    ensures a < k < a + 38 && Call(run, i, a, k) && run[k + 1].values == run[a].values && run[k].threads[i].Dequeuing?
    ensures var n := |run[a].taken| + 1;
            if Empty(run[a]) then run[k + 1].taken == run[a].taken && !run[k].threads[i].d.stage.GiveBack?
            else
              && n < |run[a].values| && run[k + 1].taken == run[a].taken + [run[a].values[n]]
              && run[k].threads[i].d.stage.GiveBack? && run[k].threads[i].d.value == run[a].values[n]
  {
    hide IsRun, Inv, IsStep, PutIn, TakenOut;
    StepAt(run, moves, threads, dummy, a);
    StartsDequeue(run[a], run[a + 1], moves[a], i);
    k := AloneEnds(run, moves, threads, dummy, i, a);
    var m := DequeueCall(run, moves, threads, dummy, i, a, k);
    AloneHistory(run, moves, threads, dummy, i, a, k + 1);
    RunKeeps(run, moves, threads, dummy, k + 1);
    Counted(run[a]);
    Counted(run[k + 1]);
    if !run[k].threads[i].d.stage.GiveBack? {
      QuietBetween(run, moves, threads, dummy, a, m, k + 1);
      RunKeeps(run, moves, threads, dummy, m);
      Counted(run[m]);
    }
  }

  lemma StartsDequeue(s: State, t: State, m: Move, i: nat)
    requires IsStep(s, t, m) && m.thread == i && s.threads[i].Idle? && m.choice == StartDequeue
    ensures i < |t.threads| && t.threads[i].Dequeuing?
  {
  }

  /** An enqueue by a thread alone ends within 38 moves, with its value behind all others. */
  lemma EnqueueAlone(run: seq<State>, moves: seq<Move>, threads: nat, dummy: int, i: nat, a: nat) returns (k: nat)
    requires IsRun(run, moves, threads, dummy) && i < threads && a + 38 < |run| && Alone(moves, i, a, a + 38)
    requires i < |run[a].threads| && run[a].threads[i].Idle? && moves[a].choice.StartEnqueue?
    ensures a < k < a + 38 && Call(run, i, a, k)
    ensures run[k + 1].values == run[a].values + [moves[a].choice.value] && run[k + 1].taken == run[a].taken
  {
    hide IsRun, Inv, IsStep, PutIn, TakenOut;
    StepAt(run, moves, threads, dummy, a);
    StartsEnqueue(run[a], run[a + 1], moves[a], i);
    k := AloneEnds(run, moves, threads, dummy, i, a);
    EnqueueCall(run, moves, threads, dummy, i, a, k);
    AloneHistory(run, moves, threads, dummy, i, a, k + 1);
  }

  lemma StartsEnqueue(s: State, t: State, m: Move, i: nat)
    requires IsStep(s, t, m) && m.thread == i && s.threads[i].Idle? && m.choice.StartEnqueue?
    ensures i < |t.threads| && t.threads[i].Enqueuing?
  {
  }
}
