// The finite state machine engine: events wait in one queue per priority and
// are served from the highest one; states are marked as reachable.
module Fsm {
  import opened Options
  import opened Chains
  import opened FsmGraph

  datatype Status = Ok | Empty | BadPriority | NotFound

  // pqnode_t: an event that waits to be processed.
  datatype Pending = Pending(evtkey: nat, data: nat, prio: nat)

  // ---------- event queues as one sequence of arrivals ----------

  function OfPrio(s: seq<Pending>, p: nat): seq<Pending> {
    if s == [] then [] else (if s[0].prio == p then [s[0]] else []) + OfPrio(s[1..], p)
  }

  lemma {:induction false} OfPrioConcat(a: seq<Pending>, b: seq<Pending>, p: nat)
    ensures OfPrio(a + b, p) == OfPrio(a, p) + OfPrio(b, p)
  {
    if a == [] {
      assert a + b == b;
    } else {
      var x := if a[0].prio == p then [a[0]] else [];
      assert (a + b)[1..] == a[1..] + b;
      OfPrioConcat(a[1..], b, p);
      assert OfPrio(a + b, p) == x + OfPrio(a[1..] + b, p);
    }
  }

  lemma {:induction false} OfPrioMember(s: seq<Pending>, e: Pending, p: nat)
    ensures e in OfPrio(s, p) <==> e in s && e.prio == p
  {
    if s != [] { OfPrioMember(s[1..], e, p); }
  }

  // s without its first event of priority p
  function DropFirst(s: seq<Pending>, p: nat): seq<Pending> {
    if s == [] then [] else if s[0].prio == p then s[1..] else [s[0]] + DropFirst(s[1..], p)
  }

  lemma {:induction false} DropFirstOfPrio(s: seq<Pending>, p: nat, q: nat)
    requires OfPrio(s, p) != []
    ensures OfPrio(DropFirst(s, p), q) == if q == p then OfPrio(s, p)[1..] else OfPrio(s, q)
    ensures |DropFirst(s, p)| == |s| - 1
    ensures forall e :: e in DropFirst(s, p) ==> e in s
  {
    if s[0].prio == p {
      assert OfPrio(s, p)[1..] == OfPrio(s[1..], p);
    } else {
      DropFirstOfPrio(s[1..], p, q);
      assert ([s[0]] + DropFirst(s[1..], p))[1..] == DropFirst(s[1..], p);
    }
  }

  // Queue p holds the pending events of priority p in order of arrival.
  ghost predicate Queued(queues: seq<seq<Pending>>, pending: seq<Pending>) {
    && (forall p: nat {:trigger OfPrio(pending, p)} :: p < |queues| ==> queues[p] == OfPrio(pending, p))
    && (forall e :: e in pending ==> e.prio < |queues|)
  }

  // Of each priority, the events accepted are those dispatched and, after
  // them, those pending.
  ghost predicate Accounted(arrivals: seq<Pending>, dispatched: seq<Pending>, pending: seq<Pending>) {
    forall p: nat {:trigger OfPrio(arrivals, p)} :: OfPrio(arrivals, p) == OfPrio(dispatched, p) + OfPrio(pending, p)
  }

  lemma OneOfPrio(e: Pending, p: nat)
    ensures OfPrio([e], p) == if e.prio == p then [e] else []
  {
  }

  lemma QueuedAppend(queues: seq<seq<Pending>>, pending: seq<Pending>, arrivals: seq<Pending>, dispatched: seq<Pending>,
                     e: Pending)
    requires Queued(queues, pending) && Accounted(arrivals, dispatched, pending) && e.prio < |queues|
    ensures Queued(queues[e.prio := queues[e.prio] + [e]], pending + [e])
    ensures Accounted(arrivals + [e], dispatched, pending + [e])
  {
    forall p: nat
      ensures OfPrio(pending + [e], p) == OfPrio(pending, p) + if e.prio == p then [e] else []
      ensures OfPrio(arrivals + [e], p) == OfPrio(arrivals, p) + if e.prio == p then [e] else []
    {
      OfPrioConcat(pending, [e], p);
      OfPrioConcat(arrivals, [e], p);
      OneOfPrio(e, p);
    }
  }

  lemma QueuedDrop(queues: seq<seq<Pending>>, pending: seq<Pending>, arrivals: seq<Pending>, dispatched: seq<Pending>,
                   i: nat)
    requires Queued(queues, pending) && Accounted(arrivals, dispatched, pending)
    requires i < |queues| && queues[i] != [] && queues[i][0].prio == i
    ensures Queued(queues[i := queues[i][1..]], DropFirst(pending, i))
    ensures Accounted(arrivals, dispatched + [queues[i][0]], DropFirst(pending, i))
  {
    var e := queues[i][0];
    assert queues[i] == OfPrio(pending, i);
    forall p: nat
      ensures OfPrio(DropFirst(pending, i), p) == if p == i then OfPrio(pending, i)[1..] else OfPrio(pending, p)
      ensures OfPrio(arrivals, p) == OfPrio(dispatched + [e], p) + OfPrio(DropFirst(pending, i), p)
    {
      DropFirstOfPrio(pending, i, p);
      AccountedMove(arrivals, dispatched, pending, e, i, p);
    }
    DropFirstOfPrio(pending, i, i);
  }

  lemma AccountedMove(arrivals: seq<Pending>, dispatched: seq<Pending>, pending: seq<Pending>,
                      e: Pending, i: nat, p: nat)
    requires OfPrio(arrivals, p) == OfPrio(dispatched, p) + OfPrio(pending, p)
    requires e.prio == i && OfPrio(pending, i) != [] && OfPrio(pending, i)[0] == e
    ensures OfPrio(arrivals, p) == OfPrio(dispatched + [e], p) + OfPrio(DropFirst(pending, i), p)
  {
    DropFirstOfPrio(pending, i, p);
    OfPrioConcat(dispatched, [e], p);
    OneOfPrio(e, p);
    if p == i {
      MoveHead(OfPrio(dispatched, p), OfPrio(pending, p));
    } else {
      MoveNothing(OfPrio(dispatched, p));
    }
  }

  lemma MoveHead(d: seq<Pending>, w: seq<Pending>)
    requires w != []
    ensures d + w == (d + [w[0]]) + w[1..]
  {
  }

  lemma MoveNothing(d: seq<Pending>)
    ensures d + [] == d
  {
  }

  lemma QueuedEmpty(queues: seq<seq<Pending>>, pending: seq<Pending>)
    requires Queued(queues, pending) && forall p :: 0 <= p < |queues| ==> queues[p] == []
    ensures pending == []
  {
    if pending != [] {
      OfPrioMember(pending, pending[0], pending[0].prio);
    }
  }

  lemma QueuedNext(queues: seq<seq<Pending>>, pending: seq<Pending>, i: nat)
    requires Queued(queues, pending) && i < |queues| && queues[i] != []
    requires forall p :: i < p < |queues| ==> queues[p] == []
    ensures IsNext(pending, queues[i][0]) && queues[i][0].prio == i && pending != []
  {
    assert queues[i] == OfPrio(pending, i);
    OfPrioMember(pending, queues[i][0], i);
    forall x | x in pending
      ensures x.prio <= i
    {
      OfPrioMember(pending, x, x.prio);
    }
  }

  // e is the event to be served next: the oldest one of the highest priority.
  ghost predicate IsNext(s: seq<Pending>, e: Pending) {
    && (forall x :: x in s ==> x.prio <= e.prio)
    && OfPrio(s, e.prio) != [] && OfPrio(s, e.prio)[0] == e
  }

  // The next event stands at a place that all events before it yield to, and
  // serving it takes away this place and no other.
  lemma {:induction false} NextIsOldest(s: seq<Pending>, e: Pending) returns (i: nat)
    requires IsNext(s, e)
    ensures i < |s| && s[i] == e && DropFirst(s, e.prio) == s[..i] + s[i + 1..]
    ensures forall j :: 0 <= j < i ==> s[j].prio < e.prio
    ensures forall j :: 0 <= j < |s| ==> s[j].prio <= e.prio
  {
    if s[0].prio == e.prio {
      i := 0;
    } else {
      i := NextIsOldest(s[1..], e);
      i := i + 1;
      assert s[..i] + s[i + 1..] == [s[0]] + (s[1..][..i - 1] + s[1..][i..]);
    }
  }

  ghost predicate Descending(s: seq<Pending>) {
    s != [] ==> (forall x :: x in s[1..] ==> x.prio <= s[0].prio) && Descending(s[1..])
  }

  // out holds the events of s, those of higher priority first, and those of
  // the same priority in the order of s.
  ghost predicate StableSort(out: seq<Pending>, s: seq<Pending>) {
    Descending(out) && forall p {:trigger OfPrio(s, p)} :: OfPrio(out, p) == OfPrio(s, p)
  }

  lemma SortOfNothing(out: seq<Pending>, s: seq<Pending>)
    requires StableSort(out, s) && StableSort([], s)
    ensures out == []
  {
    if out != [] {
      OfPrioMember(s, out[0], out[0].prio);
      OfPrioMember(out, out[0], out[0].prio);
    }
  }

  // There is only one such order.
  lemma {:induction false} StableSortUnique(out: seq<Pending>, out': seq<Pending>, s: seq<Pending>)
    requires StableSort(out, s) && StableSort(out', s)
    ensures out == out'
  {
    if out == [] {
      SortOfNothing(out', s);
    } else if out' == [] {
      SortOfNothing(out, s);
    } else {
      HeadOfSorted(out, out', s);
      HeadOfSorted(out', out, s);
      var p := out[0].prio;
      assert OfPrio(out, p) == OfPrio(s, p) == OfPrio(out', p);
      assert out[0] == OfPrio(out, p)[0] && out'[0] == OfPrio(out', p)[0];
      forall q
        ensures OfPrio(out'[1..], q) == OfPrio(out[1..], q)
      {
        assert OfPrio(out, q) == OfPrio(s, q) == OfPrio(out', q);
        OfPrioTail(out, q);
        OfPrioTail(out', q);
      }
      StableSortUnique(out[1..], out'[1..], out[1..]);
    }
  }

  lemma OfPrioTail(s: seq<Pending>, q: nat)
    requires s != []
    ensures OfPrio(s[1..], q) == if s[0].prio == q then OfPrio(s, q)[1..] else OfPrio(s, q)
  {
  }

  lemma HeadOfSorted(out: seq<Pending>, out': seq<Pending>, s: seq<Pending>)
    requires StableSort(out, s) && StableSort(out', s) && out != [] && out' != []
    ensures out'[0].prio <= out[0].prio
  {
    var e := out'[0];
    OfPrioMember(out', e, e.prio);
    OfPrioMember(out, e, e.prio);
    assert OfPrio(out, e.prio) == OfPrio(s, e.prio) == OfPrio(out', e.prio);
  }

  lemma {:induction false} SameMultiset(out: seq<Pending>, s: seq<Pending>)
    requires forall p {:trigger OfPrio(s, p)} :: OfPrio(out, p) == OfPrio(s, p)
    ensures multiset(out) == multiset(s)
  {
    forall e: Pending
      ensures multiset(out)[e] == multiset(s)[e]
    {
      CountOfPrio(out, e);
      CountOfPrio(s, e);
      assert OfPrio(out, e.prio) == OfPrio(s, e.prio);
    }
  }

  lemma {:induction false} CountOfPrio(s: seq<Pending>, e: Pending)
    ensures multiset(s)[e] == multiset(OfPrio(s, e.prio))[e]
  {
    if s != [] {
      assert s == [s[0]] + s[1..];
      CountOfPrio(s[1..], e);
      if s[0].prio == e.prio {
        assert OfPrio(s, e.prio) == [s[0]] + OfPrio(s[1..], e.prio);
      } else {
        assert OfPrio(s, e.prio) == OfPrio(s[1..], e.prio);
      }
    }
  }

  lemma ConsOfPrio(e: Pending, out: seq<Pending>, s: seq<Pending>, p: nat)
    requires IsNext(s, e) && StableSort(out, DropFirst(s, e.prio))
    ensures OfPrio([e] + out, p) == OfPrio(s, p)
  {
    assert ([e] + out)[1..] == out;
    assert OfPrio(out, p) == OfPrio(DropFirst(s, e.prio), p);
    DropFirstOfPrio(s, e.prio, p);
  }

  lemma ConsIsHighest(e: Pending, out: seq<Pending>, s: seq<Pending>, x: Pending)
    requires IsNext(s, e) && StableSort(out, DropFirst(s, e.prio)) && x in out
    ensures x.prio <= e.prio
  {
    OfPrioMember(out, x, x.prio);
    assert OfPrio(out, x.prio) == OfPrio(DropFirst(s, e.prio), x.prio);
    OfPrioMember(DropFirst(s, e.prio), x, x.prio);
    DropFirstOfPrio(s, e.prio, x.prio);
  }

  // Serving the next event and then the rest in order is the stable sort.
  lemma StableSortCons(e: Pending, out: seq<Pending>, s: seq<Pending>)
    requires IsNext(s, e) && StableSort(out, DropFirst(s, e.prio))
    ensures StableSort([e] + out, s)
  {
    forall p
      ensures OfPrio([e] + out, p) == OfPrio(s, p)
    {
      ConsOfPrio(e, out, s, p);
    }
    forall x | x in out
      ensures x.prio <= e.prio
    {
      ConsIsHighest(e, out, s, x);
    }
    assert ([e] + out)[1..] == out;
  }

  // ---------- transitions ----------

  // The transition of state s on an event, if it has one.
  function Handler(g: Graph, s: StateId, evtkey: nat): Option<Event>
    requires WellFormed(g) && s in g.states
  {
    Lookup(g.states[s].events, Identity, evtkey)
  }

  // The event is handled, and its target is not missing and in the state table.
  predicate Leads(g: Graph, s: StateId, evtkey: nat)
    requires WellFormed(g) && s in g.states
  {
    var h := Handler(g, s, evtkey);
    && h.Some? && h.value.newstate.Some? && h.value.newstate.value in g.states
    && Lookup(g.table, Identity, g.states[h.value.newstate.value].key).Some?
  }

  // The state after an event.
  function Next(g: Graph, s: StateId, evtkey: nat): StateId
    requires WellFormed(g) && s in g.states
  {
    if Leads(g, s, evtkey) then Handler(g, s, evtkey).value.newstate.value else s
  }

  // The machine goes nowhere but along the transitions of its state.
  lemma NextIsSuccessor(g: Graph, s: StateId, evtkey: nat)
    requires WellFormed(g) && s in g.states
    ensures Next(g, s, evtkey) == s || Next(g, s, evtkey) in Successors(g, s, true)
  {
    if Leads(g, s, evtkey) {
      var events := g.states[s].events;
      FoundInFlatten(events, Bucket(Identity, evtkey, |events|), evtkey);
      SuccessorsAre(g, s, true, Next(g, s, evtkey));
    }
  }

  // The state after a sequence of events.
  function Run(g: Graph, s: StateId, events: seq<Pending>): StateId
    requires WellFormed(g) && s in g.states
    decreases |events|
  {
    if events == [] then s else Run(g, Next(g, s, events[0].evtkey), events[1..])
  }

  // A state whose key is found in the state table stands there itself.
  ghost predicate OwnKeys(g: Graph)
    requires WellFormed(g)
  {
    forall s :: s in g.states && Lookup(g.table, Identity, g.states[s].key).Some? ==> s in Members(Flatten(g.table))
  }

  // Then the machine never leaves a set of states that is closed under
  // transitions.
  lemma {:induction false} RunStaysInside(g: Graph, s: StateId, events: seq<Pending>, c: set<StateId>)
    requires WellFormed(g) && OwnKeys(g) && s in g.states && s in Members(Flatten(g.table))
    requires s in c && Closed(g, c, true)
    ensures Run(g, s, events) in c
    decreases |events|
  {
    if events != [] {
      var t := Next(g, s, events[0].evtkey);
      NextIsSuccessor(g, s, events[0].evtkey);
      if t != s {
        InMembers(Flatten(g.table), s);
        assert Transition(g, s, t, true);
        StepMember(g, c, true, t);
      }
      RunStaysInside(g, t, events[1..], c);
    }
  }

  // So whatever the events are, it goes only to states that can be reached.
  lemma RunReaches(g: Graph, s: StateId, events: seq<Pending>)
    requires WellFormed(g) && OwnKeys(g) && s in g.states && s in Members(Flatten(g.table))
    ensures Run(g, s, events) in Reach(g, {s}, true)
  {
    ReachIsClosure(g, {s}, true);
    RunStaysInside(g, s, events, Reach(g, {s}, true));
  }

  // The event tables are right, and the keys of all targets are in the table.
  ghost predicate AllLead(g: Graph)
    requires WellFormed(g)
  {
    && (forall s :: s in g.states ==> WellPlaced(g.states[s].events, Identity))
    && (forall s, t {:trigger t in Successors(g, s, true)} ::
         t in Successors(g, s, true) && t in g.states ==> Lookup(g.table, Identity, g.states[t].key).Some?)
  }

  lemma SomeEventLeads(g: Graph, s: StateId, t: StateId) returns (evtkey: nat)
    requires WellFormed(g) && AllLead(g) && t in Successors(g, s, true)
    ensures s in g.states && Next(g, s, evtkey) == t
  {
    SuccessorsAre(g, s, true, t);
    var events := g.states[s].events;
    var e :| e in Flatten(events) && e.data.newstate == Some(t);
    evtkey := e.key;
    FlattenUnique(events, Identity, |events|);
    assert events[..|events|] == events;
    LookupIsFind(events, Identity, evtkey);
    FindMember(Flatten(events), e);
  }

  lemma {:induction false} RunSnoc(g: Graph, s: StateId, events: seq<Pending>, e: Pending)
    requires WellFormed(g) && s in g.states
    ensures Run(g, s, events) in g.states && Run(g, s, events + [e]) == Next(g, Run(g, s, events), e.evtkey)
    decreases |events|
  {
    if events == [] {
      assert [e][1..] == [];
    } else {
      assert (events + [e])[1..] == events[1..] + [e];
      RunSnoc(g, Next(g, s, events[0].evtkey), events[1..], e);
    }
  }

  lemma {:induction false} WithinIsRun(g: Graph, s: StateId, k: nat, x: StateId) returns (events: seq<Pending>)
    requires WellFormed(g) && AllLead(g) && s in g.states && x in Within(g, {s}, k, true)
    ensures Run(g, s, events) == x
  {
    if k == 0 {
      events := [];
    } else {
      StepMember(g, Within(g, {s}, k - 1, true), true, x);
      if x in Within(g, {s}, k - 1, true) {
        events := WithinIsRun(g, s, k - 1, x);
      } else {
        var t :| t in Within(g, {s}, k - 1, true) && Transition(g, t, x, true);
        events := WithinIsRun(g, s, k - 1, t);
        var evtkey := SomeEventLeads(g, t, x);
        RunSnoc(g, s, events, Pending(evtkey, 0, 0));
        events := events + [Pending(evtkey, 0, 0)];
      }
    }
  }

  // In such a machine, reachable is what some events lead to.
  lemma ReachIffRun(g: Graph, s: StateId, x: StateId)
    requires WellFormed(g) && OwnKeys(g) && AllLead(g) && s in g.states && s in Members(Flatten(g.table))
    ensures x in Reach(g, {s}, true) <==> exists events :: Run(g, s, events) == x
  {
    if x in Reach(g, {s}, true) {
      var events := WithinIsRun(g, s, |Flatten(g.table)|, x);
    }
    if events :| Run(g, s, events) == x {
      RunReaches(g, s, events);
    }
  }

  // Without OwnKeys it is not so.  Only state 0 is in the table, but all three
  // states have its key, as they do after fsm_add_state has refused two of
  // them; and the engine looks for the key only.
  function Strangers(): Graph {
    Graph([[Entry(0, 0)]],
          map[0 := StateRec(0, [Arrows([1])]), 1 := StateRec(0, [Arrows([2])]), 2 := StateRec(0, [Arrows([])])])
  }

  lemma StrangersFacts()
    ensures var g := Strangers(); WellFormed(g) && AllLead(g) && Flatten(g.table) == [Entry(0, 0)]
    ensures Successors(Strangers(), 0, true) == {1}
  {
    var g := Strangers();
    OneChain([]);
    OneChain([1]);
    OneChain([2]);
    assert g.table[..0] == [] && [] + [Entry(0, 0)] == [Entry(0, 0)];
    assert Targets(Arrows([1])) == {1} + Targets(Arrows([1])[1..]);
    forall s | s in g.states
      ensures WellPlaced(g.states[s].events, Identity)
    {
      OneArrow(if s == 0 then [1] else if s == 1 then [2] else []);
    }
  }

  lemma OneArrow(targets: seq<StateId>)
    requires |targets| <= 1
    ensures WellPlaced([Arrows(targets)], Identity)
  {
    if targets != [] { assert Arrows(targets)[1..] == []; }
    assert GoodChain([Arrows(targets)], Identity, 0);
  }

  lemma StrangerEntered()
    ensures var g, twice := Strangers(), [Pending(0, 0, 0), Pending(0, 0, 0)];
      WellFormed(g) && AllLead(g) && Run(g, 0, twice) == 2 && 2 !in Reach(g, {0}, true)
  {
    var g, c := Strangers(), {0, 1};
    StrangersFacts();
    assert [Pending(0, 0, 0), Pending(0, 0, 0)][1..] == [Pending(0, 0, 0)];
    assert [Pending(0, 0, 0)][1..] == [];
    forall t | t in Step(g, c, true)
      ensures t in c
    {
      StepMember(g, c, true, t);
    }
    ReachIsClosure(g, {0}, true);
  }

  // All transitions of s that the iterator shows have a target.
  ghost predicate Followable(g: Graph, s: StateId)
    requires WellFormed(g) && s in g.states
  {
    forall j :: 0 <= j < |Visible(g.states[s].events)| ==> Visible(g.states[s].events)[j].data.newstate.Some?
  }

  // Marking follows the targets of a state without looking, if the state is
  // marked by the time its turn comes.  It never follows one that is missing.
  ghost predicate PassSafe(g: Graph, m: set<StateId>)
    requires WellFormed(g)
  {
    forall i {:trigger Visible(g.table)[i]} :: 0 <= i < |Visible(g.table)| ==>
      var s := Visible(g.table)[i].data;
      s in MarkAll(g, m, Visible(g.table)[..i]) && s in g.states ==> Followable(g, s)
  }

  ghost predicate PassesSafe(g: Graph, m: set<StateId>, k: nat)
    requires WellFormed(g)
  {
    forall i: nat {:trigger Passes(g, m, i)} :: i < k ==> PassSafe(g, Passes(g, m, i))
  }

  lemma RepeatedMarking(g: Graph, seeds: set<StateId>, m: set<StateId>, k: nat)
    requires WellFormed(g) && seeds <= m <= Reach(g, seeds, false)
    ensures Within(g, m, k, false) <= Passes(g, m, k)
    ensures k >= |Visible(g.table)| ==> Passes(g, m, k) == Reach(g, seeds, false)
    ensures k >= |Visible(g.table)| && NothingHidden(g) ==> Passes(g, m, k) == Reach(g, seeds, true)
  {
    PassesCover(g, m, k);
    if k >= |Visible(g.table)| {
      PassesExact(g, m, k);
      WithinMonotone(g, seeds, m, |Visible(g.table)|, |Visible(g.table)|, false);
      ReachIsClosure(g, seeds, false);
      ReachIsClosure(g, m, false);
      if NothingHidden(g) { NothingHiddenExact(g, seeds); }
    }
  }

  // If no transition lacks a target, marking is safe from whatever states.
  lemma NoNullTargetsSafe(g: Graph, m: set<StateId>)
    requires WellFormed(g)
    requires forall s, e :: s in g.states && e in Flatten(g.states[s].events) ==> e.data.newstate.Some?
    ensures PassSafe(g, m)
  {
    forall s | s in g.states
      ensures Followable(g, s)
    {
      var events := g.states[s].events;
      VisibleIsAll(events);
      forall j | 0 <= j < |Visible(events)|
        ensures Visible(events)[j].data.newstate.Some?
      {
        assert Visible(events)[j] == Flatten(events)[j];
      }
    }
  }

  lemma {:induction false} TargetsSnoc(events: seq<Entry<nat, Event>>, e: Entry<nat, Event>)
    requires e.data.newstate.Some?
    ensures Targets(events + [e]) == Targets(events) + {e.data.newstate.value}
  {
    if events == [] {
      assert Targets([e]) == {e.data.newstate.value} + Targets([e][1..]);
    } else {
      assert (events + [e])[1..] == events[1..] + [e];
      TargetsSnoc(events[1..], e);
    }
  }

  // The machine was in state s with the events of `first` pending, has
  // processed `out`, and is in state c now.
  ghost predicate Drained(g: Graph, s: StateId, first: seq<Pending>, out: seq<Pending>, c: Option<StateId>) {
    WellFormed(g) && s in g.states && StableSort(out, first) && c == Some(Run(g, s, out))
  }

  lemma DrainedCons(g: Graph, s: StateId, first: seq<Pending>, e: Pending, rest: seq<Pending>, c: Option<StateId>)
    requires WellFormed(g) && s in g.states && IsNext(first, e)
    requires Drained(g, Next(g, s, e.evtkey), DropFirst(first, e.prio), rest, c)
    ensures Drained(g, s, first, [e] + rest, c)
  {
    StableSortCons(e, rest, first);
    assert ([e] + rest)[1..] == rest;
  }

  // What is left of a list of arrivals when those of invalid priority are rejected.
  function Accepted(s: seq<Pending>, nqueues: nat): seq<Pending> {
    if s == [] then []
    else (if s[0].prio < nqueues then [s[0]] else []) + Accepted(s[1..], nqueues)
  }

  lemma {:induction false} AcceptedConcat(a: seq<Pending>, b: seq<Pending>, nqueues: nat)
    ensures Accepted(a + b, nqueues) == Accepted(a, nqueues) + Accepted(b, nqueues)
  {
    if a == [] {
      assert a + b == b;
    } else {
      assert (a + b)[1..] == a[1..] + b;
      AcceptedConcat(a[1..], b, nqueues);
    }
  }

  lemma AcceptedNext(s: seq<Pending>, i: nat, nqueues: nat)
    requires i < |s|
    ensures Accepted(s[..i + 1], nqueues) == Accepted(s[..i], nqueues) + Accepted([s[i]], nqueues)
  {
    assert s[..i + 1] == s[..i] + [s[i]];
    AcceptedConcat(s[..i], [s[i]], nqueues);
  }

  // Of each priority that there is a queue for, all are left, in their order.
  lemma {:induction false} AcceptedOfPrio(s: seq<Pending>, nqueues: nat, p: nat)
    ensures OfPrio(Accepted(s, nqueues), p) == if p < nqueues then OfPrio(s, p) else []
  {
    if s != [] {
      var x := if s[0].prio < nqueues then [s[0]] else [];
      AcceptedOfPrio(s[1..], nqueues, p);
      OfPrioConcat(x, Accepted(s[1..], nqueues), p);
      OneOfPrio(s[0], p);
      assert Accepted(s, nqueues) == x + Accepted(s[1..], nqueues);
    }
  }

  // ---------- the machine ----------

  class Machine {
    const g: Graph
    const nqueues: nat
    const effect: (nat, nat) -> seq<Pending>   // the events that an action queues when run on some data
    const pqtable: array<seq<Pending>>
    var cstate: Option<StateId>
    var marked: set<StateId>                   // the states whose flag says reachable
    ghost var seeds: set<StateId>              // the states that were ever set
    ghost var arrivals: seq<Pending>           // the events accepted so far
    ghost var dispatched: seq<Pending>         // the events processed so far
    ghost var pending: seq<Pending>            // the events that wait, in order of arrival

    ghost predicate Valid()
      reads this, pqtable
    {
      && WellFormed(g) && pqtable.Length == nqueues
      && Queued(pqtable[..], pending) && Accounted(arrivals, dispatched, pending)
      && (cstate.Some? ==> cstate.value in g.states)
      && seeds <= marked <= Reach(g, seeds, false)
    }

    // fsm_init
    constructor (g: Graph, nqueues: nat, effect: (nat, nat) -> seq<Pending>)
      requires WellFormed(g)
      ensures Valid() && fresh(pqtable)
      ensures this.g == g && this.nqueues == nqueues && this.effect == effect
      ensures cstate == None && marked == seeds == {} && arrivals == dispatched == pending == []
    {
      this.g, this.nqueues, this.effect := g, nqueues, effect;
      pqtable := new seq<Pending>[nqueues](_ => []);
      cstate, marked, seeds := None, {}, {};
      arrivals, dispatched, pending := [], [], [];
    }

    // ---------- reachability marks ----------

    // fsm_set_state: mark a state, mark what it leads to, and go there.
    method SetState(stkey: nat) returns (r: Status)
      requires Valid()
      requires var s := Lookup(g.table, Identity, stkey); s.Some? ==> PassSafe(g, marked + {s.value})
      modifies this
      ensures Valid()
      ensures var s := Lookup(g.table, Identity, stkey);
        if s.None? then
          r == NotFound && marked == old(marked) && seeds == old(seeds) && cstate == old(cstate)
        else
          r == Ok && cstate == s && seeds == old(seeds) + {s.value} && marked == Pass(g, old(marked) + {s.value})
      ensures pending == old(pending) && arrivals == old(arrivals) && dispatched == old(dispatched)
    {
      var pstate := Lookup(g.table, Identity, stkey);
      if pstate.None? {
        return NotFound;
      }
      ghost var s := pstate.value;
      FoundInFlatten(g.table, Bucket(Identity, stkey, |g.table|), stkey);
      ReachIsClosure(g, seeds + {s}, false);
      WithinMonotone(g, seeds, seeds + {s}, |Visible(g.table)|, |Visible(g.table)|, false);
      marked := marked + {pstate.value};
      seeds := seeds + {s};
      MarkReachable();
      cstate := pstate;
      return Ok;
    }

    // fsm_mark_reachable_states: one pass over all states that the iterator
    // yields, and over the transitions of each.
    method MarkReachable()
      requires Valid() && PassSafe(g, marked)
      modifies this`marked
      ensures Valid() && marked == Pass(g, old(marked))
    {
      MarkAllSound(g, marked, Reach(g, seeds, false), Visible(g.table)) by {
        ReachIsClosure(g, seeds, false);
      }
      MarkAllCovers(g, marked, marked, Visible(g.table));
      var states := Visible(g.table);
      ListedExist(g);
      var i := 0;
      while i < |states|
        invariant 0 <= i <= |states| && marked == MarkAll(g, old(marked), states[..i])
      {
        assert states[..i + 1][..i] == states[..i];
        MarkAllLast(g, old(marked), states[..i + 1]);
        MarkTargets(states[i].data);
        i := i + 1;
      }
      assert states[..i] == states;
    }

    // The inner loop: mark the targets of s, if s is marked.
    method MarkTargets(s: StateId)
      requires WellFormed(g) && s in g.states && (s in marked ==> Followable(g, s))
      modifies this`marked
      ensures marked == old(marked) + if s in old(marked) then Successors(g, s, false) else {}
      ensures s in old(marked) ==> forall e :: e in Visible(g.states[s].events) ==> e.data.newstate.value in marked
    {
      var events := Visible(g.states[s].events);
      var j := 0;
      while j < |events|
        invariant 0 <= j <= |events|
        invariant marked == old(marked) + if s in old(marked) then Targets(events[..j]) else {}
      {
        var pevt := events[j].data;
        assert events[..j + 1] == events[..j] + [events[j]];
        if s in marked {
          TargetsSnoc(events[..j], events[j]);
          marked := marked + {pevt.newstate.value};
        }
        j := j + 1;
      }
      assert events[..j] == events;
      forall e | e in events && s in old(marked)
        ensures e.data.newstate.value in marked
      {
        SuccessorsAre(g, s, false, e.data.newstate.value);
      }
    }

    // Marking k times over covers every walk of up to k transitions from the
    // states marked before, along what the iterators yield; with as many
    // passes as there are states it is exact.
    method MarkRepeatedly(k: nat)
      requires Valid() && PassesSafe(g, marked, k)
      modifies this`marked
      ensures Valid() && marked == Passes(g, old(marked), k)
      ensures Within(g, old(marked), k, false) <= marked
      ensures k >= |Visible(g.table)| ==> marked == Reach(g, seeds, false)
      ensures k >= |Visible(g.table)| && NothingHidden(g) ==> marked == Reach(g, seeds, true)
    {
      var i := 0;
      while i < k
        invariant 0 <= i <= k && Valid() && marked == Passes(g, old(marked), i)
      {
        MarkReachable();
        i := i + 1;
      }
      RepeatedMarking(g, seeds, old(marked), k);
    }

    // ---------- events ----------

    // fsm_queue_event
    method QueueEvent(e: Pending) returns (r: Status)
      requires Valid()
      modifies this, pqtable
      ensures Valid()
      ensures r == if e.prio >= nqueues then BadPriority else Ok
      ensures r == Ok ==> pending == old(pending) + [e] && arrivals == old(arrivals) + [e]
      ensures r != Ok ==> pending == old(pending) && arrivals == old(arrivals)
      ensures pending == old(pending) + Accepted([e], nqueues) && arrivals == old(arrivals) + Accepted([e], nqueues)
      ensures cstate == old(cstate) && marked == old(marked) && seeds == old(seeds) && dispatched == old(dispatched)
    {
      if e.prio >= nqueues {
        return BadPriority;
      }
      QueuedAppend(pqtable[..], pending, arrivals, dispatched, e);
      ghost var queues := pqtable[..];
      pqtable[e.prio] := pqtable[e.prio] + [e];
      assert pqtable[..] == queues[e.prio := queues[e.prio] + [e]];
      pending, arrivals := pending + [e], arrivals + [e];
      return Ok;
    }

    // fsm_process_event: run the action, which may queue events, and move on.
    method ProcessEvent(evtkey: nat, data: nat) returns (r: Status, ghost queued: seq<Pending>)
      requires Valid() && cstate.Some?
      modifies this, pqtable
      ensures Valid() && cstate == Some(Next(g, old(cstate).value, evtkey))
      ensures var h := Handler(g, old(cstate).value, evtkey);
        queued == if h.Some? && h.value.action.Some? then Accepted(effect(h.value.action.value, data), nqueues) else []
      ensures r == if Leads(g, old(cstate).value, evtkey) then Ok else NotFound
      ensures pending == old(pending) + queued && arrivals == old(arrivals) + queued
      ensures marked == old(marked) && seeds == old(seeds) && dispatched == old(dispatched)
    {
      queued := [];
      var pevt := Lookup(g.states[cstate.value].events, Identity, evtkey);
      if pevt.None? {
        return NotFound, queued;
      }
      if pevt.value.action.Some? {
        queued := RunAction(pevt.value.action.value, data);
      }
      var newstate := pevt.value.newstate;
      if newstate.None? {
        return NotFound, queued;
      }
      TargetExists(g, cstate.value, evtkey);
      if Lookup(g.table, Identity, g.states[newstate.value].key).None? {
        return NotFound, queued;
      }
      cstate := newstate;
      return Ok, queued;
    }

    method RunAction(action: nat, data: nat) returns (ghost queued: seq<Pending>)
      requires Valid()
      modifies this, pqtable
      ensures Valid() && queued == Accepted(effect(action, data), nqueues)
      ensures pending == old(pending) + queued && arrivals == old(arrivals) + queued
      ensures cstate == old(cstate) && marked == old(marked) && seeds == old(seeds) && dispatched == old(dispatched)
    {
      var out := effect(action, data);
      ghost var waiting, accepted := pending, arrivals;
      queued := [];
      var i := 0;
      while i < |out|
        invariant 0 <= i <= |out| && Valid() && queued == Accepted(out[..i], nqueues)
        invariant pending == waiting + queued && arrivals == accepted + queued
        invariant cstate == old(cstate) && marked == old(marked) && seeds == old(seeds) && dispatched == old(dispatched)
      {
        var r := QueueEvent(out[i]);
        AcceptedNext(out, i, nqueues);
        queued := queued + Accepted([out[i]], nqueues);
        i := i + 1;
      }
      assert out[..i] == out;
    }

    // fsm_dequeue_event: process and delete the oldest event of the highest
    // priority.  Events that its action queues go behind it, so the event that
    // is deleted afterwards is the one that was processed.
    method DequeueEvent() returns (r: Status, ghost e: Pending, ghost queued: seq<Pending>)
      requires Valid() && cstate.Some? && nqueues >= 1
      modifies this, pqtable
      ensures Valid() && cstate.Some? && marked == old(marked) && seeds == old(seeds)
      ensures r == if old(pending) == [] then Empty else Ok
      ensures r == Empty ==> cstate == old(cstate) && pending == [] && dispatched == old(dispatched) && queued == []
      ensures r == Ok ==>
        && dispatched == old(dispatched) + [e] && IsNext(old(pending), e)
        && cstate == Some(Next(g, old(cstate).value, e.evtkey))
        && pending == DropFirst(old(pending) + queued, e.prio)
        && (var h := Handler(g, old(cstate).value, e.evtkey);
            queued == if h.Some? && h.value.action.Some?
                      then Accepted(effect(h.value.action.value, e.data), nqueues) else [])
      ensures arrivals == old(arrivals) + queued
    {
      e, queued := Pending(0, 0, 0), [];
      var i := nqueues - 1;
      while true
        invariant 0 <= i < nqueues
        invariant forall p :: i < p < nqueues ==> pqtable[p] == []
        invariant queued == [] && pending == old(pending) && dispatched == old(dispatched) && arrivals == old(arrivals)
        invariant cstate == old(cstate) && marked == old(marked) && seeds == old(seeds)
        invariant Valid()
        decreases i
      {
        if |pqtable[i]| > 0 {
          var pnode := pqtable[i][0];
          e := pnode;
          QueuedNext(pqtable[..], pending, i);
          ghost var waiting := pending;
          var r';
          r', queued := ProcessEvent(pnode.evtkey, pnode.data);
          OfPrioConcat(waiting, queued, i);
          assert pqtable[..][i] == OfPrio(pending, i) == OfPrio(waiting, i) + OfPrio(queued, i);
          DeleteFirst(i);
          return Ok, e, queued;
        }
        if i == 0 {
          break;
        }
        i := i - 1;
      }
      QueuedEmpty(pqtable[..], pending);
      return Empty, e, queued;
    }

    // STAILQ_REMOVE_HEAD
    method DeleteFirst(i: nat)
      requires Valid() && i < nqueues && |pqtable[i]| > 0 && pqtable[i][0].prio == i
      modifies this`pending, this`dispatched, pqtable
      ensures Valid() && pending == DropFirst(old(pending), i) && dispatched == old(dispatched) + [old(pqtable[i])[0]]
    {
      ghost var queues := pqtable[..];
      QueuedDrop(queues, pending, arrivals, dispatched, i);
      pqtable[i] := pqtable[i][1..];
      assert pqtable[..] == queues[i := queues[i][1..]];
      dispatched, pending := dispatched + [queues[i][0]], DropFirst(pending, i);
    }

    // Serve events until none is left, when no action queues further ones:
    // what is dispatched is the stable sort of the events that were pending,
    // by descending priority, and the machine goes where they lead.
    method Drain()
      requires Valid() && cstate.Some? && nqueues >= 1
      requires forall a, d :: effect(a, d) == []
      modifies this, pqtable
      ensures Valid() && pending == [] && arrivals == old(arrivals)
      ensures old(dispatched) <= dispatched
      ensures Drained(g, old(cstate).value, old(pending), dispatched[|old(dispatched)|..], cstate)
      decreases |pending|
    {
      ghost var first, start, before := pending, cstate.value, dispatched;
      var r; ghost var e;
      r, e := ServeOne();
      if r == Ok {
        Drain();
        DrainedCons(g, start, first, e, dispatched[|before| + 1..], cstate);
        assert dispatched[|before|..] == [e] + dispatched[|before| + 1..];
      } else {
        assert dispatched[|before|..] == [];
      }
    }

    // One fsm_dequeue_event when no action queues further events.
    method ServeOne() returns (r: Status, ghost e: Pending)
      requires Valid() && cstate.Some? && nqueues >= 1
      requires forall a, d :: effect(a, d) == []
      modifies this, pqtable
      ensures Valid() && cstate.Some? && arrivals == old(arrivals)
      ensures r == if old(pending) == [] then Empty else Ok
      ensures r == Empty ==> cstate == old(cstate) && pending == [] && dispatched == old(dispatched)
      ensures r == Ok ==>
        && IsNext(old(pending), e) && cstate == Some(Next(g, old(cstate).value, e.evtkey))
        && dispatched == old(dispatched) + [e]
        && pending == DropFirst(old(pending), e.prio) && |pending| < |old(pending)|
    {
      ghost var first := pending;
      ghost var queued;
      r, e, queued := DequeueEvent();
      assert queued == [];
      assert first + queued == first;
      if r == Ok { DropFirstOfPrio(first, e.prio, e.prio); }
    }
  }

  lemma ListedExist(g: Graph)
    requires WellFormed(g)
    ensures forall i :: 0 <= i < |Visible(g.table)| ==> Visible(g.table)[i].data in g.states
  {
    var list := Visible(g.table);
    VisibleIsAll(g.table);
    forall i | 0 <= i < |list|
      ensures list[i].data in g.states
    {
      assert list[i] == Flatten(g.table)[i];
    }
  }

  lemma TargetExists(g: Graph, s: StateId, evtkey: nat)
    requires WellFormed(g) && s in g.states && Handler(g, s, evtkey).Some?
    ensures var t := Handler(g, s, evtkey).value.newstate; t.Some? ==> t.value in g.states
  {
    var events := g.states[s].events;
    FoundInFlatten(events, Bucket(Identity, evtkey, |events|), evtkey);
  }
}
