/** The two-pointer linked queue with double-width compare-and-swap.

    Every load of one word and every compare-and-swap is one step, so a pointer and its counter can
    be read at different moments.  Nodes are never recycled. */
module LockFreeQueue {
  import opened Wrappers

  /** A node: its value, and the (pointer, counter) pair that links to the next node.  Once a node
      has been given back, its value cell is reused as a free-list link. */
  datatype Node = Node(value: int, next: Option<nat>, count: nat)

  /** A (pointer, counter) pair. */
  datatype Pair = Pair(node: nat, count: nat)

  /** The steps of one turn of the enqueue and the dequeue loop, in order. */
  datatype Stage = LoadHead | LoadHeadCount | LoadTail | LoadTailCount | LoadNext | LoadNextCount
                 | CheckCount | CheckPointer | Act | Swing | ReadValue | TakeHead | GiveBack

  function Rank(s: Stage): nat {
    match s
    case LoadHead => 0 case LoadHeadCount => 1 case LoadTail => 2 case LoadTailCount => 3
    case LoadNext => 4 case LoadNextCount => 5 case CheckCount => 6 case CheckPointer => 7
    case Act => 8 case Swing => 9 case ReadValue => 10 case TakeHead => 11 case GiveBack => 12
  }

  /** The local variables of a running operation.  `headPos`, `tailPos` and `sawEmpty` only record
      what happened: the places of the two nodes in the list, and whether the queue was empty when
      the next pointer was read. */
  datatype EnqueueVars = EnqueueVars(stage: Stage, node: nat, value: int, tail: Pair, next: Option<nat>,
                                     nextCount: nat, tailPos: nat)
  datatype DequeueVars = DequeueVars(stage: Stage, head: Pair, tail: Pair, next: Option<nat>, value: int,
                                     headPos: nat, tailPos: nat, sawEmpty: bool)
  datatype Local = Idle | Enqueuing(e: EnqueueVars) | Dequeuing(d: DequeueVars)

  /** The shared memory and the threads; then the history: the nodes in the order they were linked,
      the values they were linked with, and the values that were handed out. */
  datatype State = State(nodes: seq<Node>, head: Pair, tail: Pair, threads: seq<Local>,
                         chain: seq<nat>, values: seq<int>, taken: seq<int>)

  /** What a thread does next where the code leaves a choice: which operation to start, or what the
      free list writes into a node. */
  datatype Choice = StartEnqueue(value: int) | StartDequeue | Garbage(value: int)

  function Start(threads: nat, dummy: int): State {
    State([Node(dummy, None, 0)], Pair(0, 0), Pair(0, 0), seq(threads, _ => Idle), [0], [dummy], [])
  }

  function With(s: State, i: nat, l: Local): State
    requires i < |s.threads|
  {
    s.(threads := s.threads[i := l])
  }

  /** The memory is there: no step follows a pointer to nowhere. */
  predicate Mapped(s: State, l: Local) {
    match l
    case Idle => true
    case Enqueuing(e) => e.node < |s.nodes| && (Rank(e.stage) > 2 ==> e.tail.node < |s.nodes|)
    case Dequeuing(d) =>
      && (Rank(d.stage) > 0 ==> d.head.node < |s.nodes|)
      && (d.next.Some? && Rank(d.stage) > 4 ==> d.next.value < |s.nodes|)
  }

  function Step(s: State, i: nat, choice: Choice): State
    requires i < |s.threads| && Mapped(s, s.threads[i])
  {
    match s.threads[i]
    case Idle => BeginStep(s, i, choice)
    case Enqueuing(e) => EnqueueStep(s, i, e)
    case Dequeuing(d) => DequeueStep(s, i, d, choice)
  }

  function BeginStep(s: State, i: nat, choice: Choice): State
    requires i < |s.threads|
  {
    match choice
    case StartEnqueue(v) =>
      With(s.(nodes := s.nodes + [Node(v, None, 0)]), i,
           Enqueuing(EnqueueVars(LoadTail, |s.nodes|, v, Pair(0, 0), None, 0, 0)))
    case StartDequeue => With(s, i, Dequeuing(DequeueVars(LoadHead, Pair(0, 0), Pair(0, 0), None, 0, 0, 0, false)))
    case Garbage(_) => s
  }

  function EnqueueStep(s: State, i: nat, e: EnqueueVars): State
    requires i < |s.threads| && Mapped(s, Enqueuing(e))
  {
    match e.stage
    case LoadTail => With(s, i, Enqueuing(e.(stage := LoadTailCount, tail := Pair(s.tail.node, 0), tailPos := s.tail.count)))
    case LoadTailCount => With(s, i, Enqueuing(e.(stage := LoadNext, tail := Pair(e.tail.node, s.tail.count))))
    case LoadNext => With(s, i, Enqueuing(e.(stage := LoadNextCount, next := s.nodes[e.tail.node].next)))
    case LoadNextCount => With(s, i, Enqueuing(e.(stage := CheckCount, nextCount := s.nodes[e.tail.node].count)))
    case CheckCount => With(s, i, Enqueuing(e.(stage := if e.tail.count == s.tail.count then CheckPointer else LoadTail)))
    case CheckPointer => With(s, i, Enqueuing(e.(stage := if e.tail.node == s.tail.node then Act else LoadTail)))
    case Act => if e.next == None then Link(s, i, e) else SwingTail(s, i, e.tail, e.next.value, Enqueuing(e.(stage := LoadTail)))
    case _ => s
  }

  /** Try to link the node at the end of the list. */
  function Link(s: State, i: nat, e: EnqueueVars): State
    requires i < |s.threads| && e.tail.node < |s.nodes|
  {
    var last := s.nodes[e.tail.node];
    if last.next == e.next && last.count == e.nextCount then
      With(s.(nodes := s.nodes[e.tail.node := last.(next := Some(e.node), count := e.nextCount + 1)],
              chain := s.chain + [e.node], values := s.values + [e.value]), i, Idle)
    else With(s, i, Enqueuing(e.(stage := LoadTail)))
  }

  /** Try to move the tail on by one node. */
  function SwingTail(s: State, i: nat, tail: Pair, next: nat, l: Local): State
    requires i < |s.threads|
  {
    if s.tail == tail then With(s.(tail := Pair(next, tail.count + 1)), i, l) else With(s, i, l)
  }

  function DequeueStep(s: State, i: nat, d: DequeueVars, choice: Choice): State
    requires i < |s.threads| && Mapped(s, Dequeuing(d))
  {
    var again := Dequeuing(d.(stage := LoadHead));
    if Rank(d.stage) < 8 then With(s, i, Dequeuing(Loaded(s, d)))
    else
      match d.stage
      case Act => With(s, i, Decided(d))
      case Swing => if d.next.Some? then SwingTail(s, i, d.tail, d.next.value, again) else s
      case ReadValue => if d.next.Some? then With(s, i, Dequeuing(d.(stage := TakeHead, value := s.nodes[d.next.value].value))) else s
      case TakeHead =>
        if s.head == d.head && d.next.Some? then
          With(s.(head := Pair(d.next.value, d.head.count + 1), taken := s.taken + [d.value]), i, Dequeuing(d.(stage := GiveBack)))
        else With(s, i, again)
      case GiveBack =>
        // the old dummy goes to the free list, which overwrites its value
        if choice.Garbage? then
          With(s.(nodes := s.nodes[d.head.node := s.nodes[d.head.node].(value := choice.value)]), i, Idle)
        else With(s, i, Idle)
      case _ => s
  }

  /** The loads and checks at the start of a turn. */
  function Loaded(s: State, d: DequeueVars): DequeueVars
    requires Mapped(s, Dequeuing(d))
  {
    match d.stage
    case LoadHead => d.(stage := LoadHeadCount, head := Pair(s.head.node, 0), headPos := s.head.count)
    case LoadHeadCount => d.(stage := LoadTail, head := Pair(d.head.node, s.head.count))
    case LoadTail => d.(stage := LoadTailCount, tail := Pair(s.tail.node, 0), tailPos := s.tail.count)
    case LoadTailCount => d.(stage := LoadNext, tail := Pair(d.tail.node, s.tail.count))
    case LoadNext => d.(stage := LoadNextCount, next := s.nodes[d.head.node].next, sawEmpty := s.head.count + 1 == |s.chain|)
    case LoadNextCount => d.(stage := CheckCount)
    case CheckCount => d.(stage := if d.head.count == s.head.count then CheckPointer else LoadHead)
    case CheckPointer => d.(stage := if d.head.node == s.head.node then Act else LoadHead)
    case _ => d
  }

  /** What to do with what was loaded.  Idle: the answer is "queue is empty". */
  function Decided(d: DequeueVars): Local {
    if d.head.node == d.tail.node then
      if d.next == None then Idle else Dequeuing(d.(stage := Swing))
    else
      if d.next == None then Dequeuing(d.(stage := LoadHead)) else Dequeuing(d.(stage := ReadValue))
  }

  // ---------------------------------------------------------------- the invariant

  predicate Distinct(chain: seq<nat>) { forall i, j :: 0 <= i < j < |chain| ==> chain[i] != chain[j] }

  /** The linked nodes form one list that ends with the last linked one. */
  predicate Linked(nodes: seq<Node>, chain: seq<nat>) {
    && |chain| > 0 && Distinct(chain)
    && (forall k :: 0 <= k < |chain| ==> chain[k] < |nodes|)
    && (forall k :: 0 <= k < |chain| ==> nodes[chain[k]].next == if k + 1 < |chain| then Some(chain[k + 1]) else None)
  }

  predicate ChainOk(s: State) { Linked(s.nodes, s.chain) && |s.values| == |s.chain| }

  /** The counters are places in the list: the head is never behind the tail, and the tail is the
      last or second to last node. */
  predicate EndsOk(s: State) {
    && s.head.count <= s.tail.count < |s.chain| <= s.tail.count + 2
    && s.head.node == s.chain[s.head.count] && s.tail.node == s.chain[s.tail.count]
  }

  /** The values behind the head are intact, those up to it have been handed out. */
  predicate ValuesOk(s: State)
    requires ChainOk(s)
  {
    && s.head.count < |s.chain|
    && s.taken == s.values[1..s.head.count + 1]
    && (forall k :: s.head.count < k < |s.chain| ==> s.nodes[s.chain[k]].value == s.values[k])
  }

  /** What a thread's local variables say about the list. */
  predicate EnqueueOk(s: State, e: EnqueueVars)
    requires EndsOk(s)
  {
    && 2 <= Rank(e.stage) <= 8
    && e.node < |s.nodes| && e.node !in s.chain && s.nodes[e.node] == Node(e.value, None, 0)
    && (Rank(e.stage) > 2 ==> e.tailPos <= s.tail.count && e.tail.node == s.chain[e.tailPos])
    && (Rank(e.stage) > 4 && e.next.Some? ==> e.tailPos + 1 < |s.chain| && e.next.value == s.chain[e.tailPos + 1])
  }

  predicate DequeueOk(s: State, d: DequeueVars)
    requires EndsOk(s) && |s.values| == |s.chain|
  {
    && (Rank(d.stage) > 0 ==> d.headPos <= s.head.count && d.head.node == s.chain[d.headPos])
    && (Rank(d.stage) > 2 ==> d.headPos <= d.tailPos <= s.tail.count && d.tail.node == s.chain[d.tailPos])
    && (Rank(d.stage) > 3 ==> d.tailPos <= d.tail.count <= s.tail.count)
    && (Rank(d.stage) > 4 ==>
          if d.next.Some? then d.headPos + 1 < |s.chain| && d.next.value == s.chain[d.headPos + 1] else d.sawEmpty)
    && (Rank(d.stage) > 8 ==> d.next.Some?)
    && (d.stage.Swing? ==> d.head.node == d.tail.node)
    && (d.stage.ReadValue? || d.stage.TakeHead? ==> d.head.node != d.tail.node)
    && (d.stage.TakeHead? && d.headPos == s.head.count ==> d.value == s.values[d.headPos + 1])
    && (d.stage.GiveBack? ==> d.headPos < s.head.count)
  }

  predicate LocalOk(s: State, l: Local)
    requires ChainOk(s) && EndsOk(s)
  {
    (l.Enqueuing? ==> EnqueueOk(s, l.e)) && (l.Dequeuing? ==> DequeueOk(s, l.d))
  }

  /** Nodes that are being enqueued by different threads are different. */
  predicate PendingOk(threads: seq<Local>) {
    forall i, j :: 0 <= i < j < |threads| && threads[i].Enqueuing? && threads[j].Enqueuing? ==>
      threads[i].e.node != threads[j].e.node
  }

  predicate Inv(s: State) {
    && ChainOk(s) && EndsOk(s) && ValuesOk(s) && PendingOk(s.threads)
    && forall i :: 0 <= i < |s.threads| ==> LocalOk(s, s.threads[i])
  }

  lemma LocalMapped(s: State, l: Local)
    requires ChainOk(s) && EndsOk(s) && LocalOk(s, l)
    ensures Mapped(s, l)
  {
  }

  lemma InitiallyInv(threads: nat, dummy: int)
    ensures Inv(Start(threads, dummy))
  {
  }

  /** Only this thread's variables change. */
  lemma WithKeeps(s: State, i: nat, l: Local)
    requires Inv(s) && i < |s.threads| && LocalOk(s, l)
    requires l.Enqueuing? ==> s.threads[i].Enqueuing? && l.e.node == s.threads[i].e.node
    ensures Inv(With(s, i, l))
  {
    hide ChainOk, EndsOk;
    var t := With(s, i, l);
    assert ChainOk(t) && EndsOk(t) by { SameMemory(s, t); }
    forall j | 0 <= j < |t.threads| ensures LocalOk(t, t.threads[j]) {
      if j != i {
        assert LocalOk(s, s.threads[j]);
      }
    }
  }

  lemma SameMemory(s: State, t: State)
    requires ChainOk(s) && EndsOk(s) && t == s.(threads := t.threads)
    ensures ChainOk(t) && EndsOk(t)
  {
    hide Linked;
  }

  // ---------------------------------------------------------------- steps that write

  /** What a thread knows stays true when the list grows at its end, the ends move forward, and no
      value that it may still use is overwritten. */
  predicate Later(s: State, t: State) {
    && s.chain <= t.chain && s.values <= t.values && |s.nodes| <= |t.nodes|
    && s.head.count <= t.head.count && s.tail.count <= t.tail.count
  }

  lemma DequeueLater(s: State, t: State, d: DequeueVars)
    requires ChainOk(s) && EndsOk(s) && ChainOk(t) && EndsOk(t) && Later(s, t) && DequeueOk(s, d)
    ensures DequeueOk(t, d)
  {
    hide Linked;
  }

  lemma EnqueueLater(s: State, t: State, e: EnqueueVars)
    requires ChainOk(s) && EndsOk(s) && ChainOk(t) && EndsOk(t) && Later(s, t) && EnqueueOk(s, e)
    requires e.node !in t.chain && t.nodes[e.node] == s.nodes[e.node]
    ensures EnqueueOk(t, e)
  {
    hide Linked;
  }

  /** Starting an enqueue allocates a node that no one else knows. */
  lemma AllocateKeeps(s: State, i: nat, v: int)
    requires Inv(s) && i < |s.threads| && s.threads[i].Idle?
    ensures Inv(BeginStep(s, i, StartEnqueue(v)))
  {
    var t := BeginStep(s, i, StartEnqueue(v));
    assert Linked(t.nodes, t.chain);
    hide Linked;
    forall j | 0 <= j < |t.threads| ensures LocalOk(t, t.threads[j]) {
      if j != i {
        assert LocalOk(s, s.threads[j]);
        if s.threads[j].Enqueuing? {
          EnqueueLater(s, t, s.threads[j].e);
        }
        if s.threads[j].Dequeuing? {
          DequeueLater(s, t, s.threads[j].d);
        }
      } else {
        FreshNode(s);
      }
    }
  }

  lemma FreshNode(s: State)
    requires ChainOk(s)
    ensures |s.nodes| !in s.chain
  {
  }

  /** A node is linked only behind the last node, with the tail standing there. */
  lemma LinkAtEnd(s: State, e: EnqueueVars)
    requires ChainOk(s) && EndsOk(s) && EnqueueOk(s, e) && Rank(e.stage) > 2
    requires s.nodes[e.tail.node].next == None
    ensures e.tailPos == s.tail.count == |s.chain| - 1
  {
    NextOf(s.nodes, s.chain, e.tailPos);
  }

  lemma NextOf(nodes: seq<Node>, chain: seq<nat>, k: nat)
    requires Linked(nodes, chain) && k < |chain|
    ensures chain[k] < |nodes| && nodes[chain[k]].next == if k + 1 < |chain| then Some(chain[k + 1]) else None
  {
  }

  lemma LinkedAppend(nodes: seq<Node>, chain: seq<nat>, n: nat, count: nat)
    requires Linked(nodes, chain) && n < |nodes| && n !in chain && nodes[n].next == None
    ensures var last := chain[|chain| - 1];
            Linked(nodes[last := nodes[last].(next := Some(n), count := count)], chain + [n])
  {
    var last := chain[|chain| - 1];
    var after, longer := nodes[last := nodes[last].(next := Some(n), count := count)], chain + [n];
    forall k | 0 <= k < |longer|
      ensures after[longer[k]].next == if k + 1 < |longer| then Some(longer[k + 1]) else None
    {
      if k < |chain| - 1 {
        assert chain[k] != last;
      }
    }
  }

  lemma LinkKeeps(s: State, i: nat, e: EnqueueVars)
    requires Inv(s) && i < |s.threads| && s.threads[i] == Enqueuing(e) && e.stage.Act? && e.next == None
    ensures e.tail.node < |s.nodes| && Inv(Link(s, i, e))
  {
    assert LocalOk(s, s.threads[i]);
    var last := s.nodes[e.tail.node];
    if last.next == None && last.count == e.nextCount {
      LinkAtEnd(s, e);
      LinkedAppend(s.nodes, s.chain, e.node, e.nextCount + 1);
      hide Linked;
      var t := Link(s, i, e);
      LinkValues(s, t, e);
      forall j | 0 <= j < |t.threads| ensures LocalOk(t, t.threads[j]) {
        if j != i {
          assert LocalOk(s, s.threads[j]);
          if s.threads[j].Enqueuing? {
            OtherNode(s.threads, i, j);
            InChain(s.chain, s.tail.count);
            EnqueueLater(s, t, s.threads[j].e);
          }
          if s.threads[j].Dequeuing? {
            DequeueLater(s, t, s.threads[j].d);
          }
        }
      }
    } else {
      WithKeeps(s, i, Enqueuing(e.(stage := LoadTail)));
    }
  }

  lemma InChain(chain: seq<nat>, k: nat)
    requires k < |chain|
    ensures chain[k] in chain
  {
  }

  lemma OtherNode(threads: seq<Local>, i: nat, j: nat)
    requires PendingOk(threads) && i < |threads| && j < |threads| && i != j
    requires threads[i].Enqueuing? && threads[j].Enqueuing?
    ensures threads[i].e.node != threads[j].e.node
  {
    if j < i {
      assert threads[j].e.node != threads[i].e.node;
    }
  }

  lemma LinkValues(s: State, t: State, e: EnqueueVars)
    requires ChainOk(s) && EndsOk(s) && ValuesOk(s) && ChainOk(t)
    requires t.nodes == s.nodes[s.chain[|s.chain| - 1] := s.nodes[s.chain[|s.chain| - 1]].(next := Some(e.node), count := e.nextCount + 1)]
    requires t.chain == s.chain + [e.node] && t.values == s.values + [e.value]
    requires t.head == s.head && t.taken == s.taken
    requires e.node < |s.nodes| && e.node !in s.chain && s.nodes[e.node].value == e.value
    ensures ValuesOk(t)
  {
    assert t.values[1..s.head.count + 1] == s.values[1..s.head.count + 1];
    forall k | s.head.count < k < |t.chain| ensures t.nodes[t.chain[k]].value == t.values[k] {
    }
  }

  lemma PlaceUnique(chain: seq<nat>, j: nat, k: nat)
    requires Distinct(chain) && j < |chain| && k < |chain| && chain[j] == chain[k]
    ensures j == k
  {
  }

  /** A change of the ends or of the history only. */
  lemma EndsKeep(s: State, t: State, i: nat)
    requires Inv(s) && i < |s.threads| == |t.threads| && t.nodes == s.nodes && t.chain == s.chain && t.values == s.values
    requires forall j :: 0 <= j < |s.threads| && j != i ==> t.threads[j] == s.threads[j]
    requires EndsOk(t) && ValuesOk(t) && s.head.count <= t.head.count && s.tail.count <= t.tail.count
    requires LocalOk(t, t.threads[i]) && (t.threads[i].Enqueuing? ==> s.threads[i].Enqueuing? && t.threads[i].e.node == s.threads[i].e.node)
    ensures Inv(t)
  {
    hide Linked, ValuesOk;
    forall j | 0 <= j < |t.threads| ensures LocalOk(t, t.threads[j]) {
      if j != i {
        assert LocalOk(s, s.threads[j]);
        if s.threads[j].Dequeuing? {
          DequeueLater(s, t, s.threads[j].d);
        }
      }
    }
  }

  /** The tail is moved only to the next node. */
  lemma SwingKeeps(s: State, i: nat, tail: Pair, tailPos: nat, next: nat, l: Local)
    requires Inv(s) && i < |s.threads| && LocalOk(s, l)
    requires l.Enqueuing? ==> s.threads[i].Enqueuing? && l.e.node == s.threads[i].e.node
    requires tailPos + 1 < |s.chain| && tail.node == s.chain[tailPos] && next == s.chain[tailPos + 1]
    requires l.Enqueuing? ==> l.e.stage.LoadTail?
    requires l.Dequeuing? ==> l.d.stage.LoadHead?
    ensures Inv(SwingTail(s, i, tail, next, l))
  {
    if s.tail == tail {
      PlaceUnique(s.chain, tailPos, s.tail.count);
      EndsKeep(s, SwingTail(s, i, tail, next, l), i);
    } else {
      WithKeeps(s, i, l);
    }
  }

  lemma EnqueueKeeps(s: State, i: nat, e: EnqueueVars)
    requires Inv(s) && i < |s.threads| && s.threads[i] == Enqueuing(e)
    ensures Mapped(s, s.threads[i]) && Inv(EnqueueStep(s, i, e))
  {
    assert LocalOk(s, s.threads[i]);
    LocalMapped(s, s.threads[i]);
    match e.stage {
      case LoadTail =>
        WithKeeps(s, i, Enqueuing(e.(stage := LoadTailCount, tail := Pair(s.tail.node, 0), tailPos := s.tail.count)));
      case LoadTailCount => WithKeeps(s, i, Enqueuing(e.(stage := LoadNext, tail := Pair(e.tail.node, s.tail.count))));
      case LoadNext =>
        NextOf(s.nodes, s.chain, e.tailPos);
        WithKeeps(s, i, Enqueuing(e.(stage := LoadNextCount, next := s.nodes[e.tail.node].next)));
      case LoadNextCount => WithKeeps(s, i, Enqueuing(e.(stage := CheckCount, nextCount := s.nodes[e.tail.node].count)));
      case CheckCount =>
        WithKeeps(s, i, Enqueuing(e.(stage := if e.tail.count == s.tail.count then CheckPointer else LoadTail)));
      case CheckPointer =>
        WithKeeps(s, i, Enqueuing(e.(stage := if e.tail.node == s.tail.node then Act else LoadTail)));
      case Act =>
        if e.next == None {
          LinkKeeps(s, i, e);
        } else {
          SwingKeeps(s, i, e.tail, e.tailPos, e.next.value, Enqueuing(e.(stage := LoadTail)));
        }
      case _ =>
    }
  }

  /** When the next pointer of the head a thread has seen is null, the queue is empty. */
  lemma NullNextMeansEmpty(s: State, d: DequeueVars)
    requires ChainOk(s) && EndsOk(s) && DequeueOk(s, d) && Rank(d.stage) > 0
    requires s.nodes[d.head.node].next == None
    ensures s.head.count + 1 == |s.chain|
  {
    NextOf(s.nodes, s.chain, d.headPos);
  }

  /** A successful dequeue takes the oldest value that has not been taken, and the head stays at
      or before the tail. */
  lemma TakeHeadKeeps(s: State, i: nat, d: DequeueVars)
    requires Inv(s) && i < |s.threads| && s.threads[i] == Dequeuing(d) && d.stage.TakeHead? && s.head == d.head
    ensures d.next.Some? && s.head.count + 1 < |s.values| && d.value == s.values[s.head.count + 1]
    ensures Inv(With(s.(head := Pair(d.next.value, d.head.count + 1), taken := s.taken + [d.value]), i, Dequeuing(d.(stage := GiveBack))))
  {
    assert LocalOk(s, s.threads[i]);
    PlaceUnique(s.chain, d.headPos, s.head.count);
    var t := With(s.(head := Pair(d.next.value, d.head.count + 1), taken := s.taken + [d.value]), i, Dequeuing(d.(stage := GiveBack)));
    var h := s.head.count;
    assert s.values[1..h + 2] == s.values[1..h + 1] + [s.values[h + 1]];
    assert ValuesOk(t);
    EndsKeep(s, t, i);
  }

  /** Giving back the old dummy overwrites a value nobody needs. */
  lemma GiveBackKeeps(s: State, i: nat, d: DequeueVars, g: int)
    requires Inv(s) && i < |s.threads| && s.threads[i] == Dequeuing(d) && d.stage.GiveBack?
    ensures d.head.node < |s.nodes|
    ensures Inv(With(s.(nodes := s.nodes[d.head.node := s.nodes[d.head.node].(value := g)]), i, Idle))
  {
    assert LocalOk(s, s.threads[i]);
    var n := d.head.node;
    var t := With(s.(nodes := s.nodes[n := s.nodes[n].(value := g)]), i, Idle);
    assert Linked(t.nodes, t.chain);
    forall k | t.head.count < k < |t.chain| ensures t.nodes[t.chain[k]].value == t.values[k] {
      assert s.chain[d.headPos] != s.chain[k];
    }
    InChain(s.chain, d.headPos);
    hide Linked;
    forall j | 0 <= j < |t.threads| ensures LocalOk(t, t.threads[j]) {
      if j != i {
        assert LocalOk(s, s.threads[j]);
        if s.threads[j].Enqueuing? {
          EnqueueLater(s, t, s.threads[j].e);
        }
        if s.threads[j].Dequeuing? {
          DequeueLater(s, t, s.threads[j].d);
        }
      }
    }
  }

  /** The loads and checks at the start of a turn of the dequeue loop. */
  lemma LoadedOk(s: State, d: DequeueVars)
    requires ChainOk(s) && EndsOk(s) && DequeueOk(s, d) && Mapped(s, Dequeuing(d))
    ensures DequeueOk(s, Loaded(s, d))
  {
    if d.stage.LoadNext? {
      NextOf(s.nodes, s.chain, d.headPos);
      if s.nodes[d.head.node].next == None {
        NullNextMeansEmpty(s, d);
      }
    }
    hide Linked;
  }

  lemma DecidedOk(s: State, d: DequeueVars)
    requires ChainOk(s) && EndsOk(s) && DequeueOk(s, d) && d.stage.Act?
    ensures LocalOk(s, Decided(d)) && !Decided(d).Enqueuing?
  {
    hide Linked;
  }

  lemma DequeueActs(s: State, i: nat, d: DequeueVars, choice: Choice)
    requires Inv(s) && i < |s.threads| && s.threads[i] == Dequeuing(d) && Rank(d.stage) >= 8
    requires Mapped(s, s.threads[i])
    ensures Inv(DequeueStep(s, i, d, choice))
  {
    assert LocalOk(s, s.threads[i]);
    var again := Dequeuing(d.(stage := LoadHead));
    assert LocalOk(s, again);
    hide Inv, Linked;
    match d.stage {
      case Act =>
        DecidedOk(s, d);
        WithKeeps(s, i, Decided(d));
      case Swing => SwingKeeps(s, i, d.tail, d.headPos, d.next.value, again);
      case ReadValue => ReadValueKeeps(s, i, d);
      case TakeHead =>
        if s.head == d.head {
          TakeHeadKeeps(s, i, d);
        } else {
          WithKeeps(s, i, again);
        }
      case GiveBack =>
        if choice.Garbage? {
          GiveBackKeeps(s, i, d, choice.value);
        } else {
          WithKeeps(s, i, Idle);
        }
    }
  }

  lemma ReadValueKeeps(s: State, i: nat, d: DequeueVars)
    requires Inv(s) && i < |s.threads| && s.threads[i] == Dequeuing(d) && d.stage.ReadValue?
    ensures d.next.Some? && d.next.value < |s.nodes|
    ensures Inv(With(s, i, Dequeuing(d.(stage := TakeHead, value := s.nodes[d.next.value].value))))
  {
    assert LocalOk(s, s.threads[i]);
    LocalMapped(s, s.threads[i]);
    WithKeeps(s, i, Dequeuing(d.(stage := TakeHead, value := s.nodes[d.next.value].value)));
  }

  lemma DequeueKeeps(s: State, i: nat, d: DequeueVars, choice: Choice)
    requires Inv(s) && i < |s.threads| && s.threads[i] == Dequeuing(d)
    ensures Mapped(s, s.threads[i]) && Inv(DequeueStep(s, i, d, choice))
  {
    assert LocalOk(s, s.threads[i]);
    LocalMapped(s, s.threads[i]);
    if Rank(d.stage) < 8 {
      LoadedOk(s, d);
      hide Linked, DequeueOk, Loaded;
      WithKeeps(s, i, Dequeuing(Loaded(s, d)));
    } else {
      DequeueActs(s, i, d, choice);
    }
  }

  lemma StepKeeps(s: State, i: nat, choice: Choice)
    requires Inv(s) && i < |s.threads|
    ensures Mapped(s, s.threads[i]) && Inv(Step(s, i, choice))
  {
    hide Linked;
    assert LocalOk(s, s.threads[i]);
    LocalMapped(s, s.threads[i]);
    hide Inv, BeginStep, EnqueueStep, DequeueStep;
    match s.threads[i] {
      case Idle => BeginKeeps(s, i, choice);
      case Enqueuing(e) => EnqueueKeeps(s, i, e);
      case Dequeuing(d) => DequeueKeeps(s, i, d, choice);
    }
  }

  lemma BeginKeeps(s: State, i: nat, choice: Choice)
    requires Inv(s) && i < |s.threads| && s.threads[i].Idle?
    ensures Inv(BeginStep(s, i, choice))
  {
    if choice.StartEnqueue? {
      AllocateKeeps(s, i, choice.value);
    } else if choice.StartDequeue? {
      WithKeeps(s, i, Dequeuing(DequeueVars(LoadHead, Pair(0, 0), Pair(0, 0), None, 0, 0, 0, false)));
    }
  }

  // ---------------------------------------------------------------- runs

  /** Which thread moves, and its choice. */
  datatype Move = Move(thread: nat, choice: Choice)

  /** A finite run from the empty queue, with any interleaving of the threads' steps. */
  ghost predicate IsRun(run: seq<State>, moves: seq<Move>, threads: nat, dummy: int) {
    && |run| == |moves| + 1 && run[0] == Start(threads, dummy)
    && forall k :: 0 <= k < |moves| ==> IsStep(run[k], run[k + 1], moves[k])
  }

  predicate IsStep(s: State, t: State, m: Move) {
    m.thread < |s.threads| && Mapped(s, s.threads[m.thread]) && t == Step(s, m.thread, m.choice)
  }

  lemma {:induction false} RunKeeps(run: seq<State>, moves: seq<Move>, threads: nat, dummy: int, k: nat)
    requires IsRun(run, moves, threads, dummy) && k < |run|
    ensures Inv(run[k])
  {
    hide Inv, Step, Mapped;
    if k == 0 {
      InitiallyInv(threads, dummy);
    } else {
      RunKeeps(run, moves, threads, dummy, k - 1);
      assert IsStep(run[k - 1], run[k], moves[k - 1]);
      StepKeeps(run[k - 1], moves[k - 1].thread, moves[k - 1].choice);
    }
  }

  /** First in, first out: at every moment of every run, what has been handed out is the beginning
      of what has been linked, in that order, and the rest is still there for later calls. */
  lemma FirstInFirstOut(run: seq<State>, moves: seq<Move>, threads: nat, dummy: int, k: nat)
    requires IsRun(run, moves, threads, dummy) && k < |run|
    ensures var s := run[k];
            && |s.values| == |s.chain| > s.head.count
            && |s.taken| == s.head.count && s.taken <= s.values[1..]
            && forall n :: |s.taken| < n < |s.chain| ==> s.chain[n] < |s.nodes| && s.nodes[s.chain[n]].value == s.values[n]
  {
    RunKeeps(run, moves, threads, dummy, k);
    hide IsRun;
    var s := run[k];
    assert s.values[1..][..s.head.count] == s.values[1..s.head.count + 1];
  }

  /** The head never passes the tail, and the tail is the last or second to last node. */
  lemma EndsInOrder(run: seq<State>, moves: seq<Move>, threads: nat, dummy: int, k: nat)
    requires IsRun(run, moves, threads, dummy) && k < |run|
    ensures var s := run[k];
            && s.head.count <= s.tail.count && |s.chain| - 2 <= s.tail.count <= |s.chain| - 1
            && s.head.node == s.chain[s.head.count] && s.tail.node == s.chain[s.tail.count]
  {
    RunKeeps(run, moves, threads, dummy, k);
    hide IsRun;
  }

  /** Nothing is taken back: both histories only grow. */
  lemma HistoryGrows(run: seq<State>, moves: seq<Move>, threads: nat, dummy: int, k: nat)
    requires IsRun(run, moves, threads, dummy) && k + 1 < |run|
    ensures run[k].values <= run[k + 1].values && run[k].taken <= run[k + 1].taken
    ensures |run[k + 1].values| + |run[k + 1].taken| <= |run[k].values| + |run[k].taken| + 1
  {
    assert IsStep(run[k], run[k + 1], moves[k]);
    hide IsRun;
  }

  predicate Empty(s: State) { s.head.count + 1 == |s.chain| }

  /** The turn of the loop in which thread i is has seen a null next pointer. */
  predicate SawNull(s: State, i: nat) {
    && i < |s.threads| && s.threads[i].Dequeuing?
    && 5 <= Rank(s.threads[i].d.stage) <= 8 && s.threads[i].d.next == None
  }

  /** A dequeue that answers "empty" has seen a moment, while it was running, at which the queue
      was empty. */
  lemma {:induction false} EmptyAnswerIsHonest(run: seq<State>, moves: seq<Move>, threads: nat, dummy: int, k: nat, i: nat) returns (m: nat)
    requires IsRun(run, moves, threads, dummy) && k < |run| && SawNull(run[k], i)
    ensures m <= k && Empty(run[m])
    ensures forall n :: m <= n <= k ==> i < |run[n].threads| && run[n].threads[i].Dequeuing?
  {
    hide Inv, Linked;
    if k == 0 {
      assert false;
    } else {
      RunKeeps(run, moves, threads, dummy, k - 1);
      var s, t, move := run[k - 1], run[k], moves[k - 1];
      assert IsStep(s, t, move);
      NullSeen(s, t, move, i);
      if SawNull(s, i) {
        m := EmptyAnswerIsHonest(run, moves, threads, dummy, k - 1, i);
      } else {
        m := k - 1;
      }
    }
  }

  /** A null next pointer is either news, and then the queue is empty right now, or was seen before. */
  lemma NullSeen(s: State, t: State, move: Move, i: nat)
    requires Inv(s) && IsStep(s, t, move) && SawNull(t, i)
    ensures i < |s.threads| && s.threads[i].Dequeuing? && (SawNull(s, i) || Empty(s))
  {
    assert |s.threads| == |t.threads| by { SameThreads(s, move.thread, move.choice); }
    assert LocalOk(s, s.threads[i]);
    if move.thread == i {
      NullSeenBySelf(s, t, move, i);
    } else {
      assert t.threads[i] == s.threads[i] by { SameThreads(s, move.thread, move.choice); }
    }
  }

  lemma SameThreads(s: State, i: nat, choice: Choice)
    requires i < |s.threads| && Mapped(s, s.threads[i])
    ensures |Step(s, i, choice).threads| == |s.threads|
    ensures forall j :: 0 <= j < |s.threads| && j != i ==> Step(s, i, choice).threads[j] == s.threads[j]
  {
  }

  lemma NullSeenBySelf(s: State, t: State, move: Move, i: nat)
    requires ChainOk(s) && EndsOk(s) && IsStep(s, t, move) && SawNull(t, i)
    requires i < |s.threads| && move.thread == i && LocalOk(s, s.threads[i])
    ensures s.threads[i].Dequeuing? && (SawNull(s, i) || Empty(s))
  {
    if s.threads[i].Dequeuing? {
      var d := s.threads[i].d;
      if d.stage.LoadNext? && s.nodes[d.head.node].next == None {
        NullNextMeansEmpty(s, d);
      }
    }
    hide Linked;
  }
}
