/** The table of bridged pipe pairs of one processing thread: adding under the lock, the three phases of a tick
    with additions between them, and forwarding to the next thread. */
module SlotTables {
  import opened Wrappers

  const MAXIMUM_SLOTS := 30

  type Pipe = nat

  datatype Pair = Pair(pipe1: Pipe, pipe2: Pipe)

  /** A slot; the pipe pointers of an empty one are null. */
  type Slot = Option<Pair>

  /** The occupied slots, in order. */
  function Live(s: seq<Slot>): (r: seq<Pair>)
    ensures |r| <= |s|
  {
    if s == [] then []
    else Live(s[..|s| - 1]) + if s[|s| - 1].Some? then [s[|s| - 1].value] else []
  }

  lemma {:induction false} LiveConcat(s: seq<Slot>, t: seq<Slot>)
    ensures Live(s + t) == Live(s) + Live(t)
  {
    if t == [] {
      assert s + t == s;
    } else {
      var u := t[..|t| - 1];
      assert (s + t)[..|s + t| - 1] == s + u;
      LiveConcat(s, u);
    }
  }

  lemma {:induction false} LiveNone(s: seq<Slot>)
    requires forall k :: 0 <= k < |s| ==> s[k].None?
    ensures Live(s) == []
  {
    if s != [] {
      LiveNone(s[..|s| - 1]);
    }
  }

  lemma {:induction false} LiveAll(s: seq<Slot>)
    requires forall k :: 0 <= k < |s| ==> s[k].Some?
    ensures |Live(s)| == |s| && forall k :: 0 <= k < |s| ==> Live(s)[k] == s[k].value
  {
    if s != [] {
      LiveAll(s[..|s| - 1]);
    }
  }

  lemma LiveOne(x: Slot)
    ensures Live([x]) == if x.Some? then [x.value] else []
  {
    assert [x][..0] == [];
  }

  lemma SplitAt(s: seq<Slot>, i: nat)
    requires i < |s|
    ensures s == s[..i] + [s[i]] + s[i + 1..]
  {
  }

  lemma LiveParts(s: seq<Slot>, i: nat)
    requires i < |s|
    ensures Live(s) == Live(s[..i]) + Live([s[i]]) + Live(s[i + 1..])
  {
    hide Live;
    SplitAt(s, i);
    LiveConcat(s[..i] + [s[i]], s[i + 1..]);
    LiveConcat(s[..i], [s[i]]);
  }

  /** Changing one slot. */
  lemma LiveUpdate(s: seq<Slot>, i: nat, x: Slot)
    requires i < |s|
    ensures Live(s[i := x]) == Live(s[..i]) + Live([x]) + Live(s[i + 1..])
  {
    hide Live;
    LiveParts(s[i := x], i);
    assert s[i := x][..i] == s[..i] && s[i := x][i + 1..] == s[i + 1..];
  }

  lemma LiveFour(a: seq<Slot>, b: seq<Slot>, c: seq<Slot>, d: seq<Slot>)
    ensures Live(a + b + c + d) == Live(a) + Live(b) + Live(c) + Live(d)
  {
    hide Live;
    LiveConcat(a + b + c, d);
    LiveConcat(a + b, c);
    LiveConcat(a, b);
  }

  /** A pair moved down over empty slots stays in its place among the others. */
  lemma MoveDownKeeps(s: seq<Slot>, to: nat, from: nat)
    requires to < from < |s| && forall k :: to <= k < from ==> s[k].None?
    ensures Live(s[to := s[from]][from := None]) == Live(s)
  {
    hide Live;
    var a, x, c := s[..to], [s[from]], s[from + 1..];
    var gap, gap' := s[to..from], s[to + 1..from] + [None];
    LiveNone(gap);
    LiveNone(gap');
    LiveFour(a, gap, x, c);
    LiveFour(a, x, gap', c);
    assert s == a + gap + x + c;
    assert s[to := s[from]][from := None] == a + x + gap' + c;
  }

  /** Filling the first of the empty slots at the end. */
  lemma FillAppends(s: seq<Slot>, i: nat, p: Pair)
    requires i < |s| && forall k :: i <= k < |s| ==> s[k].None?
    ensures Live(s[i := Some(p)]) == Live(s) + [p]
  {
    hide Live;
    LiveUpdate(s, i, Some(p));
    LiveParts(s, i);
    LiveOne(Some(p));
    LiveOne(None);
    LiveNone(s[i + 1..]);
  }

  /** Clearing one slot takes out just its pair. */
  lemma ClearTakesOut(s: seq<Slot>, i: nat)
    requires i < |s| && s[i].Some?
    ensures multiset(Live(s)) == multiset(Live(s[i := None])) + multiset{s[i].value}
  {
    hide Live;
    LiveParts(s, i);
    LiveUpdate(s, i, None);
    LiveOne(s[i]);
    LiveOne(None);
  }

  /** Filling an empty slot puts in just the pair. */
  lemma FillPutsIn(s: seq<Slot>, i: nat, p: Pair)
    requires i < |s| && s[i].None?
    ensures multiset(Live(s[i := Some(p)])) == multiset(Live(s)) + multiset{p}
  {
    hide Live;
    LiveParts(s, i);
    LiveUpdate(s, i, Some(p));
    LiveOne(s[i]);
    LiveOne(Some(p));
  }

  // ---------------------------------------------------------------- the first pass of a tick

  /** The last pair in place of pair i. */
  function WithLast(s: seq<Pair>, i: nat): (r: seq<Pair>)
    requires i < |s|
    ensures |r| == |s| - 1
  {
    s[i := s[|s| - 1]][..|s| - 1]
  }

  /** The pairs kept and the pairs taken out when the first pass has come to place i. */
  function Swept(s: seq<Pair>, i: nat, ready: Pair -> bool): (seq<Pair>, seq<Pair>)
    decreases |s| - i
  {
    if i >= |s| then (s, [])
    else if ready(s[i]) then Swept(s, i + 1, ready)
    else
      var (kept, removed) := Swept(WithLast(s, i), i + 1, ready);
      (kept, [s[i]] + removed)
  }

  /** The first pass loses and doubles no pair, and takes out only pairs that are not ready. */
  lemma {:induction false} SweepKeeps(s: seq<Pair>, i: nat, ready: Pair -> bool)
    ensures
      var (kept, removed) := Swept(s, i, ready);
      && |kept| + |removed| == |s| && multiset(s) == multiset(kept) + multiset(removed)
      && (forall k :: 0 <= k < |removed| ==> !ready(removed[k]))
    decreases |s| - i
  {
    if i < |s| {
      if ready(s[i]) {
        SweepKeeps(s, i + 1, ready);
      } else {
        hide WithLast;
        SweepKeeps(WithLast(s, i), i + 1, ready);
        WithLastTakesOut(s, i);
      }
    }
  }

  /** A pair stays in its place exactly when it is ready; in the place of any other there is one from behind. */
  lemma {:induction false} SweepPlaces(s: seq<Pair>, i: nat, ready: Pair -> bool, k: nat)
    ensures |Swept(s, i, ready).0| <= |s|
    ensures
      var kept := Swept(s, i, ready).0;
      k < |kept| ==>
        if k < i || ready(s[k]) then kept[k] == s[k] else exists j :: |kept| <= j < |s| && kept[k] == s[j]
    decreases |s| - i
  {
    if i < |s| {
      if ready(s[i]) {
        SweepPlaces(s, i + 1, ready, k);
      } else {
        var t := WithLast(s, i);
        SweepPlaces(t, i + 1, ready, k);
        var kept := Swept(t, i + 1, ready).0;
        if k < |kept| && k > i && !ready(s[k]) {
          var j :| |kept| <= j < |t| && kept[k] == t[j];
          assert kept[k] == s[j];
        } else if k < |kept| && k == i {
          assert kept[k] == s[|s| - 1];
        }
      }
    }
  }

  lemma {:induction false} AllReady(s: seq<Pair>, i: nat, ready: Pair -> bool)
    requires forall p :: ready(p)
    ensures Swept(s, i, ready) == (s, [])
    decreases |s| - i
  {
    if i < |s| {
      AllReady(s, i + 1, ready);
    }
  }

  lemma WithLastTakesOut(s: seq<Pair>, i: nat)
    requires i < |s|
    ensures multiset(s) == multiset(WithLast(s, i)) + multiset([s[i]])
  {
    var n := |s| - 1;
    if i == n {
      assert s == WithLast(s, i) + [s[n]];
    } else {
      assert s == s[..i] + [s[i]] + s[i + 1..n] + [s[n]];
      assert WithLast(s, i) == s[..i] + [s[n]] + s[i + 1..n];
    }
  }

  /** The state of a tick between its two locked parts. */
  datatype Phase = Between | Processing(cur: nat, i: nat, rv: nat, wasDel: int)

  datatype Outcome = Dead | Processed | Skipped

  class ProcessingThread {
    const slots: array<Slot>
    var numslots: int
    var phase: Phase

    /** Between ticks, the occupied slots are exactly those below numslots. */
    ghost predicate Valid()
      reads this, slots
    {
      && slots.Length == MAXIMUM_SLOTS && -1 <= numslots <= MAXIMUM_SLOTS
      && (forall k :: 0 <= k < slots.Length && numslots <= k ==> slots[k].None?)
      && match phase
         case Between => forall k :: 0 <= k < numslots ==> slots[k].Some?
         case Processing(cur, i, rv, wasDel) =>
           && 0 < cur <= numslots && i <= cur && -1 <= wasDel <= i
           && (wasDel == -1 ==> forall k :: 0 <= k < numslots ==> slots[k].Some?)
           && (wasDel >= 0 ==> wasDel < cur && slots[wasDel].None? && forall k :: 0 <= k < wasDel ==> slots[k].Some?)
           && (forall k :: i < k < numslots ==> slots[k].Some?)
           && (i == cur < numslots ==> slots[i].Some?)
           && (rv < MAXIMUM_SLOTS || rv == MAXIMUM_SLOTS + 1)
           && (rv < MAXIMUM_SLOTS ==> rv < cur && (rv == wasDel || slots[rv].Some?))
           && (rv < MAXIMUM_SLOTS ==> rv < i && (wasDel >= 0 ==> rv <= wasDel))
           && (0 <= wasDel < i ==> rv <= wasDel)
    }

    ghost function Pairs(): seq<Pair>
      reads this, slots
    {
      Live(slots[..])
    }

    constructor ()
      ensures Valid() && fresh(slots) && phase == Between && numslots == 0 && Pairs() == []
    {
      slots := new Slot[MAXIMUM_SLOTS](_ => None);
      numslots := 0;
      phase := Between;
      new;
      LiveNone(slots[..]);
    }

    /** try_add_bridge: 1 when the pair was taken, 0 when the table is full, -1 when it is closed for good.  Two null
        pipes are taken like any others; then the table counts an empty slot. */
    method TryAddBridge(p: Slot) returns (r: int)
      requires Valid()
      modifies this`numslots, slots
      ensures phase == old(phase) && (Valid() <==> r != 1 || p.Some?)
      ensures r == if old(numslots) < 0 then -1 else if old(numslots) < MAXIMUM_SLOTS then 1 else 0
      ensures r == 1 ==> Pairs() == old(Pairs()) + (if p.Some? then [p.value] else [])
      ensures r == 1 ==> numslots == old(numslots) + 1 && slots[..] == old(slots[..])[old(numslots) := p]
      ensures r != 1 ==> slots[..] == old(slots[..]) && numslots == old(numslots)
    {
      hide Live;
      if numslots < 0 {
        return -1;
      }
      if numslots < MAXIMUM_SLOTS {
        ghost var was := slots[..];
        if p.Some? {
          FillAppends(was, numslots, p.value);
        }
        slots[numslots] := p;
        assert slots[..] == was[numslots := p];
        assert p.None? ==> slots[..] == was;
        numslots := numslots + 1;
        return 1;
      }
      return 0;
    }

    /** moveslot: slot `from` in place of slot `to` if that is before it, and `from` emptied. */
    method MoveSlot(to: nat, from: nat)
      requires to < slots.Length && from < slots.Length
      modifies slots
      ensures to <= from ==> slots[..] == old(slots[..])[to := old(slots[from])][from := None]
      ensures from < to ==> slots[..] == old(slots[..])[from := None]
    {
      if to < from {
        slots[to] := slots[from];
      }
      slots[from] := None;
    }

    /** Takes out the pair of one slot, the last pair in its place. */
    method DropSlot(slot: nat)
      requires Valid() && phase == Between && slot < numslots
      modifies this`numslots, slots
      ensures Valid() && numslots == old(numslots) - 1 && old(|Pairs()| == numslots)
      ensures Pairs() == WithLast(old(Pairs()), slot)
      ensures multiset(Pairs()) + multiset{old(slots[slot].value)} == multiset(old(Pairs()))
    {
      hide Live;
      LivePrefix(slots[..], numslots);
      TakeOutWithLast(slots[..], slot, numslots - 1);
      numslots := numslots - 1;
      MoveSlot(slot, numslots);
      LivePrefix(slots[..], numslots);
    }

    /** The first locked part of a tick.  `ready` says for which pairs both pipes could be registered to be waited
        for.  False when no pair is left. */
    method TickBegin(ready: Pair -> bool) returns (go: bool)
      requires Valid() && phase == Between
      modifies this`numslots, slots
      ensures Valid() && phase == Between
      ensures Pairs() == Swept(old(Pairs()), 0, ready).0
      ensures go == (Pairs() != []) && numslots == if go then |Pairs()| else -1
    {
      hide Live;
      LivePrefix(slots[..], if numslots < 0 then 0 else numslots);
      var i := 0;
      while i < numslots
        invariant 0 <= i && Valid() && phase == Between
        invariant |Pairs()| == if numslots < 0 then 0 else numslots
        invariant Swept(Pairs(), i, ready).0 == Swept(old(Pairs()), 0, ready).0
      {
        assert Pairs()[i] == slots[i].value by {
          LivePrefix(slots[..], numslots);
        }
        if !ready(slots[i].value) {
          DropSlot(i);
        }
        i := i + 1;
      }
      if numslots <= 0 {
        numslots := -1;
        return false;
      }
      return true;
    }

    /** The wait is over with something to do: the second part works on the slots there are now. */
    method StartProcessing()
      requires Valid() && phase == Between && numslots > 0
      modifies this`phase
      ensures Valid() && phase == Processing(numslots, 0, MAXIMUM_SLOTS + 1, -1)
    {
      phase := Processing(numslots, 0, MAXIMUM_SLOTS + 1, -1);
    }

    /** One turn of the unlocked loop.  An emptied slot is looked at once more, and then counts as idle, for its
        masks are zero; `outcome` says what became of any other. */
    method ProcessSlot(outcome: Outcome)
      requires Valid() && phase.Processing? && phase.i < phase.cur
      requires slots[phase.i].None? ==> outcome == Skipped
      modifies this`phase, slots
      ensures Valid()
      ensures var Processing(cur, i, rv, wasDel) := old(phase);
              phase == if outcome == Dead then Processing(cur, i, rv, if wasDel < 0 then i else wasDel)
                       else Processing(cur, i + 1, if rv > MAXIMUM_SLOTS && outcome == Skipped then i else rv, wasDel)
      ensures slots[..] == if outcome == Dead then old(slots[..])[old(phase.i) := None] else old(slots[..])
      ensures outcome == Dead ==> multiset(old(Pairs())) == multiset(Pairs()) + multiset{old(slots[phase.i].value)}
    {
      hide Live;
      var Processing(cur, i, rv, wasDel) := phase;
      if outcome == Dead {
        ClearTakesOut(slots[..], i);
        ghost var was := slots[..];
        slots[i] := None;
        assert slots[..] == was[i := None];
        phase := Processing(cur, i, rv, if wasDel < 0 then i else wasDel);
      } else {
        phase := Processing(cur, i + 1, if rv > MAXIMUM_SLOTS && outcome == Skipped then i else rv, wasDel);
      }
    }

    /** The second locked part: the slots are closed up, in order, and a table left empty is closed for good.
        The answer may be the number of slots: then it is not the number of one. */
    method TickEnd() returns (r: int)
      requires Valid() && phase.Processing?
      modifies this, slots
      ensures Valid() && phase == Between && Pairs() == old(Pairs())
      ensures numslots == if Pairs() == [] then -1 else |Pairs()|
      ensures r == if Pairs() == [] then -1 else old(phase.rv)
      ensures 0 <= r < MAXIMUM_SLOTS ==> r <= numslots
      ensures 0 <= r < MAXIMUM_SLOTS ==>
                (r == numslots <==> r == old(phase.wasDel) && forall k :: r <= k < MAXIMUM_SLOTS ==> old(slots[k]).None?)
    {
      hide Live;
      var rv, wasDel := phase.rv, phase.wasDel;
      ghost var was := slots[..];
      if wasDel >= 0 {
        var i := wasDel + 1;
        while i < numslots
          invariant wasDel < i <= slots.Length
          invariant Pairs() == old(Pairs()) && numslots == old(numslots) && rv == old(phase.rv)
          invariant old(phase.wasDel) <= wasDel
          invariant forall k :: 0 <= k < wasDel ==> slots[k].Some?
          invariant forall k :: wasDel <= k < i ==> slots[k].None?
          invariant forall k :: i <= k < slots.Length ==> slots[k] == was[k]
          invariant wasDel == old(phase.wasDel) <==> forall k :: old(phase.wasDel) <= k < i ==> was[k].None?
        {
          if slots[i].None? {
            i := i + 1;
            continue;
          }
          MoveDownKeeps(slots[..], wasDel, i);
          ghost var before := slots[..];
          slots[wasDel] := slots[i];
          slots[i] := None;
          assert slots[..] == before[wasDel := before[i]][i := None];
          if rv == i {
            rv := wasDel;
          }
          wasDel := wasDel + 1;
          i := i + 1;
        }
        numslots := wasDel;
      }
      LivePrefix(slots[..], numslots);
      phase := Between;
      if numslots <= 0 {
        numslots := -1;
        return -1;
      }
      return rv;
    }

    /** Whether the table takes another pair. */
    ghost predicate Accepts()
      reads this
    {
      0 <= numslots < MAXIMUM_SLOTS
    }

    /** forward: the pipes in the given slot go to the next thread if that takes them, and the slot is dropped; true
        when this table is left empty, and then it is closed for good.  With the number of slots for the number of
        a slot, the next thread takes two null pipes and the last pair of this table is dropped. */
    method Forward(slot: nat, n: ProcessingThread) returns (stop: bool)
      requires Valid() && n.Valid() && this != n && slots != n.slots
      requires phase == Between && slot <= numslots && 0 < numslots && slot < MAXIMUM_SLOTS
      modifies this`numslots, slots, n`numslots, n.slots
      ensures Valid() && n.phase == old(n.phase) && |old(Pairs())| == old(numslots)
      ensures n.Valid() <==> slot < old(numslots) || !old(n.Accepts())
      ensures multiset(Pairs()) + multiset(n.Pairs()) == multiset(old(Pairs())) + multiset(old(n.Pairs()))
         <==> slot < old(numslots) || !old(n.Accepts())
      ensures !old(n.Accepts()) ==> n.Pairs() == old(n.Pairs()) && Pairs() == old(Pairs())
      ensures old(n.Accepts()) && slot < old(numslots) ==>
                n.Pairs() == old(n.Pairs()) + [old(slots[slot].value)] && Pairs() == WithLast(old(Pairs()), slot)
      ensures old(n.Accepts()) && slot == old(numslots) ==>
                n.Pairs() == old(n.Pairs()) && Pairs() == old(Pairs())[..old(numslots) - 1]
      ensures n.numslots == old(n.numslots) + if old(n.Accepts()) then 1 else 0
      ensures stop <==> Pairs() == []
      ensures numslots == if stop then -1 else |Pairs()|
    {
      hide Live, Valid;
      Counted();
      var taken := n.TryAddBridge(slots[slot]);
      if taken > 0 {
        if slot < numslots {
          DropSlot(slot);
          SumMoved(old(Pairs()), slot, Pairs(), old(n.Pairs()));
        } else {
          DropLast();
          SumSmaller(old(Pairs()), old(n.Pairs()));
        }
        if numslots == 0 {
          Close();
          return true;
        }
      }
      return false;
    }

    /** Every slot of the loop holds a pair. */
    ghost predicate Filled()
      reads this, slots
    {
      phase.Processing? && phase.cur <= slots.Length && forall k :: 0 <= k < phase.cur ==> slots[k].Some?
    }

    lemma Places()
      requires Valid() && phase.Processing?
      ensures slots.Length == MAXIMUM_SLOTS && phase.i <= phase.cur <= MAXIMUM_SLOTS
      ensures phase.rv > MAXIMUM_SLOTS ==> phase.rv == MAXIMUM_SLOTS + 1
    {
    }

    lemma Counted()
      requires Valid() && phase == Between && 0 < numslots
      ensures slots.Length == MAXIMUM_SLOTS && numslots == |Pairs()| <= MAXIMUM_SLOTS
      ensures forall k :: 0 <= k < MAXIMUM_SLOTS ==> (slots[k].Some? <==> k < numslots)
      ensures forall k :: 0 <= k < numslots ==> Pairs()[k] == slots[k].value
    {
      hide Live;
      LivePrefix(slots[..], numslots);
    }

    /** The table is empty and closed for good. */
    method Close()
      requires Valid() && numslots == 0 && phase == Between
      modifies this`numslots
      ensures Valid() && numslots == -1
    {
      numslots := -1;
    }

    /** What forward does to its own table when the slot is the number of slots. */
    method DropLast()
      requires Valid() && phase == Between && 0 < numslots < MAXIMUM_SLOTS
      modifies this`numslots, slots
      ensures Valid() && numslots == old(numslots) - 1 && numslots == |Pairs()| && old(|Pairs()| == numslots)
      ensures Pairs() == old(Pairs())[..old(numslots) - 1]
    {
      hide Live;
      LivePrefix(slots[..], numslots);
      numslots := numslots - 1;
      MoveSlot(numslots + 1, numslots);
      LivePrefix(slots[..], numslots);
    }
  }

  /** The number of the first slot from k on that was signalled nothing; beyond all slots if there is none. */
  function FirstSkipped(outcomes: seq<Outcome>, k: nat, n: nat): (r: nat)
    requires n <= MAXIMUM_SLOTS
    ensures r == MAXIMUM_SLOTS + 1 || (k <= r < n && r < |outcomes| && outcomes[r] == Skipped)
    ensures forall j :: k <= j < n && j < |outcomes| && (j < r || r == MAXIMUM_SLOTS + 1) ==> outcomes[j] != Skipped
    decreases |outcomes| - k
  {
    if k >= |outcomes| || k >= n then MAXIMUM_SLOTS + 1
    else if outcomes[k] == Skipped then k
    else FirstSkipped(outcomes, k + 1, n)
  }

  /** The unlocked loop, until the outcomes are used up and nothing more is signalled.  The pairs that died. */
  method ProcessAll(t: ProcessingThread, outcomes: seq<Outcome>) returns (ghost dead: seq<Pair>)
    requires t.Valid() && t.phase.Processing?
    modifies t`phase, t.slots
    ensures t.Valid() && t.phase.Processing? && t.phase.cur == old(t.phase.cur)
    ensures multiset(old(t.Pairs())) == multiset(t.Pairs()) + multiset(dead)
    ensures Dead !in outcomes ==> dead == [] && t.phase.wasDel == old(t.phase.wasDel)
    ensures old(t.phase.cur) <= MAXIMUM_SLOTS
    ensures Dead !in outcomes && old(t.phase.i == 0 && t.phase.rv == MAXIMUM_SLOTS + 1 && t.Filled()) ==>
              t.phase.rv == FirstSkipped(outcomes, 0, old(t.phase.cur))
  {
    hide Live, ProcessingThread.Valid;
    dead := [];
    t.Places();
    var k := 0;
    while k < |outcomes|
      invariant k <= |outcomes|
      invariant t.Valid() && t.phase.Processing? && t.phase.cur == old(t.phase.cur) <= MAXIMUM_SLOTS
      invariant multiset(old(t.Pairs())) == multiset(t.Pairs()) + multiset(dead)
      invariant Dead !in outcomes[..k] ==> dead == [] && t.phase.wasDel == old(t.phase.wasDel)
      invariant Dead !in outcomes[..k] ==> t.slots[..] == old(t.slots[..])
      invariant Dead !in outcomes[..k] && old(t.phase.i == 0 && t.phase.rv == MAXIMUM_SLOTS + 1 && t.Filled()) ==>
                  t.phase.i == k && FirstSkipped(outcomes, 0, t.phase.cur)
                                    == if t.phase.rv > MAXIMUM_SLOTS then FirstSkipped(outcomes, k, t.phase.cur) else t.phase.rv
    {
      assert outcomes[..k + 1] == outcomes[..k] + [outcomes[k]];
      t.Places();
      if t.phase.i >= t.phase.cur {
        assert Dead !in outcomes ==> Dead !in outcomes[..k];
        return;
      }
      if t.slots[t.phase.i] == None {
        t.ProcessSlot(Skipped);
      } else {
        if outcomes[k] == Dead {
          dead := dead + [t.slots[t.phase.i].value];
        }
        t.ProcessSlot(outcomes[k]);
      }
      k := k + 1;
    }
    t.Places();
    assert outcomes[..k] == outcomes;
  }

  /** What a tick does once something is signalled. */
  method SecondPart(t: ProcessingThread, outcomes: seq<Outcome>) returns (r: int, ghost dead: seq<Pair>)
    requires t.Valid() && t.phase == Between && 0 < t.numslots
    modifies t, t.slots
    ensures t.Valid() && t.phase == Between && |t.Pairs()| <= MAXIMUM_SLOTS
    ensures multiset(old(t.Pairs())) == multiset(t.Pairs()) + multiset(dead)
    ensures t.numslots == if t.Pairs() == [] then -1 else |t.Pairs()|
    ensures r < 0 <==> t.Pairs() == []
    ensures 0 <= r < MAXIMUM_SLOTS ==> r <= t.numslots && (r == t.numslots ==> Dead in outcomes)
    ensures Dead !in outcomes ==> dead == [] && (t.Pairs() != [] ==> r == FirstSkipped(outcomes, 0, |t.Pairs()|))
  {
    hide Live, ProcessingThread.Valid;
    t.Counted();
    t.StartProcessing();
    dead := ProcessAll(t, outcomes);
    t.Places();
    r := t.TickEnd();
    if t.numslots > 0 {
      t.Counted();
    }
  }

  /** A tick without additions in between, given the pairs that can be registered, whether anything was signalled,
      and what becomes of the slots.  The pairs that are gone were not ready or died; the answer is the number of
      a slot, of none, or, only if a pair died, the number of slots. */
  method Tick(t: ProcessingThread, ready: Pair -> bool, signalled: bool, outcomes: seq<Outcome>)
    returns (r: int, ghost gone: seq<Pair>)
    requires t.Valid() && t.phase == Between
    modifies t, t.slots
    ensures t.Valid() && t.phase == Between
    ensures multiset(old(t.Pairs())) == multiset(t.Pairs()) + multiset(gone)
    ensures t.numslots == if t.Pairs() == [] then -1 else |t.Pairs()|
    ensures r < 0 <==> t.Pairs() == []
    ensures 0 <= r < MAXIMUM_SLOTS ==> r <= t.numslots && (r == t.numslots ==> signalled && Dead in outcomes)
    ensures (forall p :: ready(p)) && (signalled ==> Dead !in outcomes) ==> gone == []
    ensures |t.Pairs()| <= MAXIMUM_SLOTS
    ensures t.Pairs() != [] && !signalled ==> r == 0
    ensures t.Pairs() != [] && signalled && Dead !in outcomes ==> r == FirstSkipped(outcomes, 0, |t.Pairs()|)
  {
    hide Live, ProcessingThread.Valid;
    SweepKeeps(t.Pairs(), 0, ready);
    if forall p :: ready(p) {
      AllReady(t.Pairs(), 0, ready);
    }
    gone := Swept(t.Pairs(), 0, ready).1;
    var go := t.TickBegin(ready);
    if !go {
      return -1, gone;
    }
    t.Counted();
    if !signalled {
      return 0, gone;
    }
    ghost var dead;
    r, dead := SecondPart(t, outcomes);
    gone := gone + dead;
  }

  /** One turn of the loop in handler::bridge; `next` is the next thread if there is one.  False when the thread
      ends.  `left` is what the tick leaves, and `answer` its answer: a slot that was signalled nothing.  The pair in
      that slot goes to the next thread if that takes it.  A pair that neither died nor failed to register is lost at
      most with the wrong answer of a tick. */
  method BridgeTurn(t: ProcessingThread, next: ProcessingThread?, ready: Pair -> bool, signalled: bool, outcomes: seq<Outcome>)
    returns (running: bool, ghost gone: seq<Pair>, ghost lost: seq<Pair>, ghost left: seq<Pair>, ghost answer: int)
    requires t.Valid() && t.phase == Between
    requires next != null ==> next != t && next.slots != t.slots && next.Valid()
    modifies t, t.slots, if next == null then {} else {next, next.slots}
    ensures t.Valid() && t.phase == Between && (running <==> t.Pairs() != [])
    ensures next == null ==> multiset(old(t.Pairs())) == multiset(t.Pairs()) + multiset(gone) && lost == []
    ensures next != null ==>
              && (next.Valid() <==> lost == [])
              && multiset(old(t.Pairs())) + multiset(old(next.Pairs()))
                 == multiset(t.Pairs()) + multiset(next.Pairs()) + multiset(gone) + multiset(lost)
    ensures lost != [] ==> |lost| == 1 && signalled && Dead in outcomes && old(next.Accepts())
    ensures (forall p :: ready(p)) && (signalled ==> Dead !in outcomes) ==> gone == []
    ensures |left| <= MAXIMUM_SLOTS
    ensures left != [] && !signalled ==> answer == 0
    ensures left != [] && signalled && Dead !in outcomes ==> answer == FirstSkipped(outcomes, 0, |left|)
    ensures next != null && 0 <= answer < |left| && answer < MAXIMUM_SLOTS && old(next.Accepts()) ==>
              next.Pairs() == old(next.Pairs()) + [left[answer]] && t.Pairs() == WithLast(left, answer)
    ensures next == null || answer < 0 || answer >= MAXIMUM_SLOTS || !old(next.Accepts()) ==> t.Pairs() == left
    ensures next != null && (answer < 0 || answer >= MAXIMUM_SLOTS || !old(next.Accepts())) ==> next.Pairs() == old(next.Pairs())
  {
    hide Live, ProcessingThread.Valid;
    lost := [];
    var r;
    r, gone := Tick(t, ready, signalled, outcomes);
    left, answer := t.Pairs(), r;
    if r < 0 {
      return false, gone, lost, left, answer;
    }
    t.Counted();
    if r < MAXIMUM_SLOTS && next != null {
      ghost var before := t.Pairs();
      if next.Accepts() && r == t.numslots {
        lost := [before[|before| - 1]];
        assert before == before[..|before| - 1] + lost;
      }
      var stop := t.Forward(r, next);
      return !stop, gone, lost, left, answer;
    }
    running := true;
  }

  /** The answer of a tick need not be the number of a slot: one busy pair, one pair that died. */
  method TickNamesNoSlot() returns (t: ProcessingThread, r: int)
    ensures t.Valid() && fresh(t) && fresh(t.slots) && t.phase == Between
    ensures t.Pairs() == [Pair(1, 2)] && t.numslots == 1 && r == 1
  {
    hide Live, ProcessingThread.Valid;
    t := new ProcessingThread();
    var added := t.TryAddBridge(Some(Pair(1, 2)));
    added := t.TryAddBridge(Some(Pair(3, 4)));
    AllReady(t.Pairs(), 0, p => true);
    var go := t.TickBegin(p => true);
    assert t.Pairs() == [Pair(1, 2), Pair(3, 4)];
    t.Counted();
    t.StartProcessing();
    t.ProcessSlot(Processed);
    t.ProcessSlot(Dead);
    t.ProcessSlot(Skipped);
    LivePrefix(t.slots[..], 1);
    r := t.TickEnd();
  }

  /** The same run one step further: the pair that was busy is in neither table, and its table is closed. */
  method BridgeLosesPair() returns (t: ProcessingThread, next: ProcessingThread, stop: bool)
    ensures t.Valid() && stop && t.Pairs() == [] && t.numslots == -1
    ensures next.Pairs() == [] && next.numslots == 1 && !next.Valid()
  {
    hide Live;
    var r;
    t, r := TickNamesNoSlot();
    next := new ProcessingThread();
    stop := t.Forward(r, next);
  }

  lemma SumMoved(s: seq<Pair>, i: nat, r: seq<Pair>, t: seq<Pair>)
    requires i < |s| && multiset(r) + multiset{s[i]} == multiset(s)
    ensures multiset(r) + multiset(t + [s[i]]) == multiset(s) + multiset(t)
  {
    assert multiset(t + [s[i]]) == multiset(t) + multiset{s[i]};
  }

  lemma SumSmaller(s: seq<Pair>, t: seq<Pair>)
    requires s != []
    ensures multiset(s[..|s| - 1]) + multiset(t) != multiset(s) + multiset(t)
  {
    var x := s[|s| - 1];
    assert s == s[..|s| - 1] + [x];
    var a, b := multiset(s[..|s| - 1]) + multiset(t), multiset(s) + multiset(t);
    assert b[x] == a[x] + 1;
  }

  lemma LivePrefix(s: seq<Slot>, n: nat)
    requires n <= |s| && forall k :: 0 <= k < |s| ==> (s[k].Some? <==> k < n)
    ensures |Live(s)| == n && forall k :: 0 <= k < n ==> Live(s)[k] == s[k].value
  {
    hide Live;
    assert s == s[..n] + s[n..];
    LiveConcat(s[..n], s[n..]);
    LiveAll(s[..n]);
    LiveNone(s[n..]);
  }

  /** Taking out slot `to` and putting the last one in its place. */
  lemma TakeOutWithLast(s: seq<Slot>, to: nat, from: nat)
    requires to <= from < |s| && s[to].Some? && s[from].Some?
    ensures multiset(Live(s)) == multiset(Live(s[to := s[from]][from := None])) + multiset{s[to].value}
  {
    hide Live;
    ClearTakesOut(s, to);
    if to < from {
      var t := s[to := None];
      ClearTakesOut(t, from);
      FillPutsIn(t[from := None], to, s[from].value);
      assert t[from := None][to := s[from]] == s[to := s[from]][from := None];
    } else {
      assert s[to := s[from]][from := None] == s[to := None];
    }
  }
}
