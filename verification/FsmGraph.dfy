// The states of a finite state machine, their transitions, and which states
// can be reached from which.  Tables are given by their hash chains.
module FsmGraph {
  import opened Options
  import opened Chains

  type StateId = nat

  // event_t: what to do, and where to go; either may be NULL.
  datatype Event = Event(action: Option<nat>, newstate: Option<StateId>)

  // state_t without its flag: its key and its event table.
  datatype StateRec = StateRec(key: nat, events: seq<seq<Entry<nat, Event>>>)

  // The state table of the machine, and all states there are.
  datatype Graph = Graph(table: seq<seq<Entry<nat, StateId>>>, states: map<StateId, StateRec>)

  // Keys are unsigned integers and hash to themselves.
  function Identity(k: nat): nat {
    k
  }

  // All states in the state table exist, and so do all targets of transitions.
  ghost predicate WellFormed(g: Graph) {
    && |g.table| > 0
    && (forall e :: e in Flatten(g.table) ==> e.data in g.states)
    && (forall s :: s in g.states ==> |g.states[s].events| > 0)
    && (forall s, e :: s in g.states && e in Flatten(g.states[s].events) && e.data.newstate.Some? ==>
         e.data.newstate.value in g.states)
  }

  // The entries of a table: all of them, or those that an iterator yields.
  function Entries<V>(chains: seq<seq<Entry<nat, V>>>, all: bool): (r: seq<Entry<nat, V>>)
    requires |chains| > 0
  {
    if all then Flatten(chains) else Visible(chains)
  }

  // ---------- reachability ----------

  // The targets of a list of transitions.
  function Targets(events: seq<Entry<nat, Event>>): set<StateId> {
    if events == [] then {}
    else (if events[0].data.newstate.Some? then {events[0].data.newstate.value} else {}) + Targets(events[1..])
  }

  function Successors(g: Graph, s: StateId, all: bool): set<StateId>
    requires WellFormed(g)
  {
    if s in g.states then Targets(Entries(g.states[s].events, all)) else {}
  }

  // The successors of a state are the targets of the events in its table,
  // whatever their actions are.
  lemma SuccessorsAre(g: Graph, s: StateId, all: bool, t: StateId)
    requires WellFormed(g)
    ensures t in Successors(g, s, all) <==>
      s in g.states && exists e :: e in Entries(g.states[s].events, all) && e.data.newstate == Some(t)
  {
    if s in g.states { TargetsAre(Entries(g.states[s].events, all), t); }
  }

  lemma {:induction false} TargetsAre(events: seq<Entry<nat, Event>>, t: StateId)
    ensures t in Targets(events) <==> exists e :: e in events && e.data.newstate == Some(t)
  {
    if events != [] {
      TargetsAre(events[1..], t);
      assert forall e :: e in events <==> e == events[0] || e in events[1..];
    }
  }

  // The successors of those states of a list that are in m.
  function Wave(g: Graph, m: set<StateId>, list: seq<Entry<nat, StateId>>, all: bool): set<StateId>
    requires WellFormed(g)
  {
    if list == [] then {}
    else (if list[0].data in m then Successors(g, list[0].data, all) else {}) + Wave(g, m, list[1..], all)
  }

  // The states within one transition of m.
  function Step(g: Graph, m: set<StateId>, all: bool): set<StateId>
    requires WellFormed(g)
  {
    m + Wave(g, m, Entries(g.table, all), all)
  }

  // The states within k transitions of m.
  function Within(g: Graph, m: set<StateId>, k: nat, all: bool): set<StateId>
    requires WellFormed(g)
  {
    if k == 0 then m else Step(g, Within(g, m, k - 1, all), all)
  }

  lemma {:induction false} WaveMember(g: Graph, m: set<StateId>, list: seq<Entry<nat, StateId>>, all: bool, x: StateId)
    requires WellFormed(g)
    ensures x in Wave(g, m, list, all) <==>
      exists i :: 0 <= i < |list| && list[i].data in m && x in Successors(g, list[i].data, all)
  {
    if list != [] {
      WaveMember(g, m, list[1..], all, x);
      if x in Wave(g, m, list[1..], all) {
        var i :| 0 <= i < |list[1..]| && list[1..][i].data in m && x in Successors(g, list[1..][i].data, all);
        assert list[i + 1] == list[1..][i];
      }
      if i :| 0 <= i < |list| && list[i].data in m && x in Successors(g, list[i].data, all) {
        if i > 0 { assert list[1..][i - 1] == list[i]; }
      }
    }
  }

  lemma {:induction false} WaveMonotone(
      g: Graph, m: set<StateId>, m': set<StateId>, list: seq<Entry<nat, StateId>>, all: bool)
    requires WellFormed(g) && m <= m'
    ensures Wave(g, m, list, all) <= Wave(g, m', list, all)
  {
    if list != [] { WaveMonotone(g, m, m', list[1..], all); }
  }

  lemma {:induction false} WithinMonotone(g: Graph, m: set<StateId>, m': set<StateId>, k: nat, k': nat, all: bool)
    requires WellFormed(g) && m <= m' && k <= k'
    ensures Within(g, m, k, all) <= Within(g, m', k', all)
    decreases k'
  {
    if k' == 0 {
    } else if k < k' {
      WithinMonotone(g, m, m', k, k' - 1, all);
    } else {
      WithinMonotone(g, m, m', k - 1, k' - 1, all);
      WaveMonotone(g, Within(g, m, k - 1, all), Within(g, m', k' - 1, all), Entries(g.table, all), all);
    }
  }

  lemma {:induction false} WithinAdd(g: Graph, m: set<StateId>, j: nat, k: nat, all: bool)
    requires WellFormed(g)
    ensures Within(g, Within(g, m, j, all), k, all) == Within(g, m, j + k, all)
  {
    if k > 0 { WithinAdd(g, m, j, k - 1, all); }
  }

  // There is a transition from s, which is in the state table, to t.
  ghost predicate Transition(g: Graph, s: StateId, t: StateId, all: bool)
    requires WellFormed(g)
  {
    (exists i :: 0 <= i < |Entries(g.table, all)| && Entries(g.table, all)[i].data == s) && t in Successors(g, s, all)
  }

  lemma TransitionAt(g: Graph, i: nat, t: StateId, all: bool)
    requires WellFormed(g) && i < |Entries(g.table, all)| && t in Successors(g, Entries(g.table, all)[i].data, all)
    ensures Transition(g, Entries(g.table, all)[i].data, t, all)
  {
  }

  // A walk along transitions that starts in m.
  ghost predicate IsPath(g: Graph, m: set<StateId>, path: seq<StateId>, all: bool)
    requires WellFormed(g)
  {
    path != [] && path[0] in m && forall i {:trigger Link(g, path, i, all)} :: 0 < i < |path| ==> Link(g, path, i, all)
  }

  // The i-th move of a walk is a transition.
  ghost predicate Link(g: Graph, path: seq<StateId>, i: nat, all: bool)
    requires WellFormed(g) && 0 < i < |path|
  {
    Transition(g, path[i - 1], path[i], all)
  }

  lemma StepMember(g: Graph, m: set<StateId>, all: bool, t: StateId)
    requires WellFormed(g)
    ensures t in Step(g, m, all) <==> t in m || exists s :: s in m && Transition(g, s, t, all)
  {
    var list := Entries(g.table, all);
    WaveMember(g, m, list, all, t);
    if i :| 0 <= i < |list| && list[i].data in m && t in Successors(g, list[i].data, all) {
      assert Transition(g, list[i].data, t, all);
    }
  }

  // A walk of k transitions stays within k transitions of where it started.
  lemma {:induction false} PathWithin(g: Graph, m: set<StateId>, path: seq<StateId>, all: bool)
    requires WellFormed(g) && IsPath(g, m, path, all)
    ensures path[|path| - 1] in Within(g, m, |path| - 1, all)
  {
    var last := |path| - 1;
    if last > 0 {
      var front := path[..last];
      forall i | 0 < i < |front|
        ensures Link(g, front, i, all)
      {
        assert Link(g, path, i, all);
      }
      assert Link(g, path, last, all);
      PathWithin(g, m, front, all);
      StepMember(g, Within(g, m, last - 1, all), all, path[last]);
    }
  }

  lemma PathSnoc(g: Graph, m: set<StateId>, path: seq<StateId>, x: StateId, all: bool)
    requires WellFormed(g) && IsPath(g, m, path, all) && Transition(g, path[|path| - 1], x, all)
    ensures IsPath(g, m, path + [x], all)
  {
    var path' := path + [x];
    forall i | 0 < i < |path'|
      ensures Link(g, path', i, all)
    {
      if i < |path| {
        assert Link(g, path, i, all);
        assert path'[i - 1] == path[i - 1] && path'[i] == path[i];
      } else {
        assert path'[i - 1] == path[i - 1] && path'[i] == x;
      }
    }
  }

  // What is within k transitions can be walked to in at most k transitions.
  lemma {:induction false} WithinPath(g: Graph, m: set<StateId>, k: nat, all: bool, x: StateId)
    returns (path: seq<StateId>)
    requires WellFormed(g) && x in Within(g, m, k, all)
    ensures IsPath(g, m, path, all) && path[|path| - 1] == x && |path| <= k + 1
  {
    if k == 0 {
      path := [x];
    } else {
      StepMember(g, Within(g, m, k - 1, all), all, x);
      if x in Within(g, m, k - 1, all) {
        path := WithinPath(g, m, k - 1, all, x);
      } else {
        var s :| s in Within(g, m, k - 1, all) && Transition(g, s, x, all);
        var front := WithinPath(g, m, k - 1, all, s);
        path := front + [x];
        PathSnoc(g, m, front, x, all);
      }
    }
  }

  // Nothing can be reached from m but what is in m.
  predicate Closed(g: Graph, m: set<StateId>, all: bool)
    requires WellFormed(g)
  {
    Step(g, m, all) == m
  }

  lemma {:induction false} ClosedWithin(g: Graph, m: set<StateId>, c: set<StateId>, k: nat, all: bool)
    requires WellFormed(g) && m <= c && Closed(g, c, all)
    ensures Within(g, m, k, all) <= c
  {
    if k > 0 {
      ClosedWithin(g, m, c, k - 1, all);
      WaveMonotone(g, Within(g, m, k - 1, all), c, Entries(g.table, all), all);
    }
  }

  // The states in a list.
  function Members(list: seq<Entry<nat, StateId>>): (r: set<StateId>)
    ensures |r| <= |list|
  {
    if list == [] then {} else {list[0].data} + Members(list[1..])
  }

  // Only the states in the list matter for the wave.
  lemma {:induction false} WaveOfMembers(
      g: Graph, m: set<StateId>, m': set<StateId>, list: seq<Entry<nat, StateId>>, all: bool)
    requires WellFormed(g) && m * Members(list) == m' * Members(list)
    ensures Wave(g, m, list, all) == Wave(g, m', list, all)
  {
    if list != [] {
      var rest := Members(list[1..]);
      assert m * rest == (m * Members(list)) * rest;
      assert m' * rest == (m' * Members(list)) * rest;
      assert list[0].data in m <==> list[0].data in m * Members(list);
      assert list[0].data in m' <==> list[0].data in m' * Members(list);
      WaveOfMembers(g, m, m', list[1..], all);
    }
  }

  // After as many steps as there are states nothing new can be reached.
  lemma {:induction false} WithinSettles(g: Graph, m: set<StateId>, all: bool)
    requires WellFormed(g)
    ensures Closed(g, Within(g, m, |Entries(g.table, all)|, all), all)
  {
    var list := Entries(g.table, all);
    var k := Settling(g, m, all, |list|);
    WithinAdd(g, m, k, |list| - k, all);
    StaysClosed(g, Within(g, m, k, all), |list| - k, all);
  }

  lemma {:induction false} StaysClosed(g: Graph, c: set<StateId>, k: nat, all: bool)
    requires WellFormed(g) && Closed(g, c, all)
    ensures Within(g, c, k, all) == c
  {
    if k > 0 { StaysClosed(g, c, k - 1, all); }
  }

  lemma StepGrowsOrSettles(g: Graph, a: set<StateId>, all: bool)
    requires WellFormed(g)
    ensures var v := Members(Entries(g.table, all));
      Closed(g, Step(g, a, all), all) || |Step(g, a, all) * v| > |a * v|
  {
    var list := Entries(g.table, all);
    var b, v := Step(g, a, all), Members(list);
    if a * v == b * v {
      WaveOfMembers(g, a, b, list, all);
    } else {
      SubsetSize(a * v, b * v);
    }
  }

  lemma OneMoreOrSettled(g: Graph, m: set<StateId>, all: bool, k: nat)
    requires WellFormed(g) && k > 0 && |Within(g, m, k - 1, all) * Members(Entries(g.table, all))| >= k
    ensures Closed(g, Within(g, m, k, all), all) || |Within(g, m, k, all) * Members(Entries(g.table, all))| >= k + 1
  {
    var a := Within(g, m, k - 1, all);
    StepGrowsOrSettles(g, a, all);
    assert Within(g, m, k, all) == Step(g, a, all);
  }

  // Within k steps, either the states stop changing or k + 1 of the listed
  // states have been reached.
  lemma {:induction false} GrowsOrSettles(g: Graph, m: set<StateId>, all: bool, k: nat) returns (settled: bool, j: nat)
    requires WellFormed(g) && m * Members(Entries(g.table, all)) != {}
    ensures settled ==> j <= k && Closed(g, Within(g, m, j, all), all)
    ensures !settled ==> |Within(g, m, k, all) * Members(Entries(g.table, all))| >= k + 1
  {
    if k == 0 {
      return false, 0;
    }
    settled, j := GrowsOrSettles(g, m, all, k - 1);
    if !settled {
      OneMoreOrSettled(g, m, all, k);
      if Closed(g, Within(g, m, k, all), all) {
        settled, j := true, k;
      }
    }
  }

  lemma Settling(g: Graph, m: set<StateId>, all: bool, n: nat) returns (k: nat)
    requires WellFormed(g) && n == |Entries(g.table, all)|
    ensures k <= n && Closed(g, Within(g, m, k, all), all)
  {
    var list := Entries(g.table, all);
    if m * Members(list) == {} {
      WaveOfMembers(g, m, {}, list, all);
      WaveOfNone(g, list, all);
      return 0;
    }
    var settled;
    settled, k := GrowsOrSettles(g, m, all, n);
    if !settled {
      SubsetSizeAtMost(Within(g, m, n, all) * Members(list), Members(list));
    }
  }

  lemma {:induction false} WaveOfNone(g: Graph, list: seq<Entry<nat, StateId>>, all: bool)
    requires WellFormed(g)
    ensures Wave(g, {}, list, all) == {}
  {
    if list != [] { WaveOfNone(g, list[1..], all); }
  }

  lemma SubsetSizeAtMost(a: set<StateId>, b: set<StateId>)
    requires a <= b
    ensures |a| <= |b|
  {
    assert b == a + (b - a);
  }

  lemma SubsetSize(a: set<StateId>, b: set<StateId>)
    requires a <= b && a != b
    ensures |a| < |b|
  {
    assert b == a + (b - a);
    assert b - a != {};
  }

  // ---------- one marking pass ----------

  // Marking the targets of one state after the other, as far as it is marked
  // itself by the time it is looked at.
  function MarkAll(g: Graph, m: set<StateId>, list: seq<Entry<nat, StateId>>): set<StateId>
    requires WellFormed(g)
    decreases |list|
  {
    if list == [] then m
    else MarkAll(g, m + if list[0].data in m then Successors(g, list[0].data, false) else {}, list[1..])
  }

  // One call of fsm_mark_reachable_states.
  function Pass(g: Graph, m: set<StateId>): set<StateId>
    requires WellFormed(g)
  {
    MarkAll(g, m, Visible(g.table))
  }

  // A pass marks at least what one transition reaches from the marked states.
  lemma {:induction false} MarkAllCovers(g: Graph, m: set<StateId>, m0: set<StateId>, list: seq<Entry<nat, StateId>>)
    requires WellFormed(g) && m0 <= m
    ensures m0 + Wave(g, m0, list, false) <= MarkAll(g, m, list) && m <= MarkAll(g, m, list)
    decreases |list|
  {
    if list != [] {
      var m' := m + if list[0].data in m then Successors(g, list[0].data, false) else {};
      MarkAllCovers(g, m', m0, list[1..]);
    }
  }

  // A pass marks nothing that cannot be reached.
  lemma {:induction false} MarkAllSound(g: Graph, m: set<StateId>, c: set<StateId>, list: seq<Entry<nat, StateId>>)
    requires WellFormed(g) && m <= c && Wave(g, c, list, false) <= c
    ensures MarkAll(g, m, list) <= c
    decreases |list|
  {
    if list != [] {
      MarkAllSound(g, m + if list[0].data in m then Successors(g, list[0].data, false) else {}, c, list[1..]);
    }
  }

  // A walk from m to x whose sources stand at the places w of the list, one
  // behind the other.
  ghost predicate Ascends(g: Graph, m: set<StateId>, list: seq<Entry<nat, StateId>>, w: seq<nat>, x: StateId)
    requires WellFormed(g)
    decreases |w|
  {
    w != [] &&
    var last := |w| - 1;
    && w[last] < |list| && x in Successors(g, list[w[last]].data, false)
    && if last == 0 then list[w[0]].data in m
       else w[last - 1] < w[last] && Ascends(g, m, list, w[..last], list[w[last]].data)
  }

  lemma {:induction false} MarkAllConcat(
      g: Graph, m: set<StateId>, a: seq<Entry<nat, StateId>>, b: seq<Entry<nat, StateId>>)
    requires WellFormed(g)
    ensures MarkAll(g, m, a + b) == MarkAll(g, MarkAll(g, m, a), b)
    decreases |a|
  {
    if a == [] {
      assert a + b == b;
    } else {
      assert (a + b)[1..] == a[1..] + b;
      MarkAllConcat(g, m + if a[0].data in m then Successors(g, a[0].data, false) else {}, a[1..], b);
    }
  }

  // The last of a list is marked from when its turn comes.
  lemma MarkAllLast(g: Graph, m: set<StateId>, list: seq<Entry<nat, StateId>>)
    requires WellFormed(g) && list != []
    ensures var n := |list| - 1; var before := MarkAll(g, m, list[..n]);
      MarkAll(g, m, list) == before + if list[n].data in before then Successors(g, list[n].data, false) else {}
  {
    var n := |list| - 1;
    assert list == list[..n] + [list[n]];
    MarkAllConcat(g, m, list[..n], [list[n]]);
    var before := MarkAll(g, m, list[..n]);
    assert [list[n]][1..] == [];
    assert MarkAll(g, before, [list[n]]) ==
           MarkAll(g, before + if list[n].data in before then Successors(g, list[n].data, false) else {}, []);
  }

  // The end of a longer list makes no difference to a walk.
  lemma {:induction false} AscendsPrefix(
      g: Graph, m: set<StateId>, a: seq<Entry<nat, StateId>>, b: seq<Entry<nat, StateId>>, w: seq<nat>, x: StateId)
    requires WellFormed(g) && a <= b && (w != [] ==> w[|w| - 1] < |a|)
    ensures Ascends(g, m, a, w, x) <==> Ascends(g, m, b, w, x)
    decreases |w|
  {
    if |w| > 1 && w[|w| - 2] < w[|w| - 1] {
      AscendsPrefix(g, m, a, b, w[..|w| - 1], a[w[|w| - 1]].data);
    }
  }

  lemma {:induction false} MarkedByWalk(g: Graph, m: set<StateId>, list: seq<Entry<nat, StateId>>, x: StateId)
    returns (w: seq<nat>)
    requires WellFormed(g) && x in MarkAll(g, m, list) && x !in m
    ensures Ascends(g, m, list, w, x)
    decreases |list|
  {
    var n := |list| - 1;
    MarkAllLast(g, m, list);
    if x in MarkAll(g, m, list[..n]) {
      w := MarkedByWalk(g, m, list[..n], x);
      AscendsPrefix(g, m, list[..n], list, w, x);
    } else if list[n].data in m {
      w := [n];
    } else {
      var w' := MarkedByWalk(g, m, list[..n], list[n].data);
      AscendsPrefix(g, m, list[..n], list, w', list[n].data);
      w := w' + [n];
      assert w[..|w'|] == w';
    }
  }

  lemma {:induction false} WalkIsMarked(
      g: Graph, m: set<StateId>, list: seq<Entry<nat, StateId>>, w: seq<nat>, x: StateId)
    requires WellFormed(g) && Ascends(g, m, list, w, x)
    ensures x in MarkAll(g, m, list)
    decreases |list|
  {
    var n, last := |list| - 1, |w| - 1;
    MarkAllLast(g, m, list);
    MarkAllCovers(g, m, m, list[..n]);
    if w[last] < n {
      AscendsPrefix(g, m, list[..n], list, w, x);
      WalkIsMarked(g, m, list[..n], w, x);
    } else if last > 0 {
      AscendsPrefix(g, m, list[..n], list, w[..last], list[n].data);
      WalkIsMarked(g, m, list[..n], w[..last], list[n].data);
    }
  }

  // x is in m, or can be walked to from m with all sources in the order of the
  // table.
  ghost predicate InOrder(g: Graph, m: set<StateId>, x: StateId)
    requires WellFormed(g)
  {
    x in m || exists w :: Ascends(g, m, Visible(g.table), w, x)
  }

  // Exactly what one pass marks.
  lemma PassMarks(g: Graph, m: set<StateId>, x: StateId)
    requires WellFormed(g)
    ensures x in Pass(g, m) <==> InOrder(g, m, x)
  {
    MarkAllCovers(g, m, m, Visible(g.table));
    if x !in m {
      if x in Pass(g, m) {
        var w := MarkedByWalk(g, m, Visible(g.table), x);
        assert InOrder(g, m, x);
      } else if InOrder(g, m, x) {
        var w :| Ascends(g, m, Visible(g.table), w, x);
        WalkIsMarked(g, m, Visible(g.table), w, x);
      }
    }
  }

  function Passes(g: Graph, m: set<StateId>, k: nat): set<StateId>
    requires WellFormed(g)
  {
    if k == 0 then m else Pass(g, Passes(g, m, k - 1))
  }

  // k passes mark everything within k transitions that the iterator shows ...
  lemma {:induction false} PassesCover(g: Graph, m: set<StateId>, k: nat)
    requires WellFormed(g)
    ensures Within(g, m, k, false) <= Passes(g, m, k)
  {
    if k > 0 {
      PassesCover(g, m, k - 1);
      var a, b := Within(g, m, k - 1, false), Passes(g, m, k - 1);
      WaveMonotone(g, a, b, Visible(g.table), false);
      MarkAllCovers(g, b, b, Visible(g.table));
    }
  }

  // ... and nothing but what can be reached from m at all.
  lemma {:induction false} PassesSound(g: Graph, m: set<StateId>, c: set<StateId>, k: nat)
    requires WellFormed(g) && m <= c && Closed(g, c, false)
    ensures Passes(g, m, k) <= c
  {
    if k > 0 {
      PassesSound(g, m, c, k - 1);
      MarkAllSound(g, Passes(g, m, k - 1), c, Visible(g.table));
    }
  }

  // Everything that can be reached from m.
  function Reach(g: Graph, m: set<StateId>, all: bool): set<StateId>
    requires WellFormed(g)
  {
    Within(g, m, |Entries(g.table, all)|, all)
  }

  // Reach is the least closed set that contains m.
  lemma ReachIsClosure(g: Graph, m: set<StateId>, all: bool)
    requires WellFormed(g)
    ensures m <= Reach(g, m, all) && Closed(g, Reach(g, m, all), all)
    ensures forall c :: m <= c && Closed(g, c, all) ==> Reach(g, m, all) <= c
  {
    WithinMonotone(g, m, m, 0, |Entries(g.table, all)|, all);
    WithinSettles(g, m, all);
    forall c | m <= c && Closed(g, c, all)
      ensures Reach(g, m, all) <= c
    {
      ClosedWithin(g, m, c, |Entries(g.table, all)|, all);
    }
  }

  // With as many passes as there are states, marking is exact with respect to
  // what the iterator shows.
  lemma PassesExact(g: Graph, m: set<StateId>, k: nat)
    requires WellFormed(g) && k >= |Visible(g.table)|
    ensures Passes(g, m, k) == Reach(g, m, false)
  {
    PassesCover(g, m, k);
    ReachIsClosure(g, m, false);
    WithinMonotone(g, m, m, |Visible(g.table)|, k, false);
    PassesSound(g, m, Reach(g, m, false), k);
  }

  // ---------- when one pass is enough ----------

  // From the marked states m, one pass is exact if and only if everything that
  // can be reached from m can be reached in the order of the table.
  lemma OnePassExactIff(g: Graph, m: set<StateId>)
    requires WellFormed(g)
    ensures Pass(g, m) == Reach(g, m, false) <==> forall x :: x in Reach(g, m, false) ==> InOrder(g, m, x)
  {
    ReachIsClosure(g, m, false);
    MarkAllSound(g, m, Reach(g, m, false), Visible(g.table));
    forall x
      ensures x in Pass(g, m) <==> InOrder(g, m, x)
    {
      PassMarks(g, m, x);
    }
  }

  // No state stands in the list twice.
  ghost predicate EachOnce(list: seq<Entry<nat, StateId>>) {
    forall i, j :: 0 <= i < j < |list| ==> list[i].data != list[j].data
  }

  // Whatever takes two transitions can also be reached in the order of the table.
  ghost predicate TwoStepsInOrder(g: Graph)
    requires WellFormed(g)
  {
    forall s, t, u {:trigger Transition(g, s, t, false), Transition(g, t, u, false)} ::
      Transition(g, s, t, false) && Transition(g, t, u, false) ==> InOrder(g, {s}, u)
  }

  lemma {:induction false} MarkAllMonotone(
      g: Graph, m: set<StateId>, m': set<StateId>, list: seq<Entry<nat, StateId>>)
    requires WellFormed(g) && m <= m'
    ensures MarkAll(g, m, list) <= MarkAll(g, m', list)
    decreases |list|
  {
    if list != [] {
      MarkAllMonotone(g, m + if list[0].data in m then Successors(g, list[0].data, false) else {},
                      m' + if list[0].data in m' then Successors(g, list[0].data, false) else {}, list[1..]);
    }
  }

  // Before its turn comes, a state marks nothing.
  lemma {:induction false} MarkAllIdle(g: Graph, s: StateId, list: seq<Entry<nat, StateId>>)
    requires WellFormed(g) && forall i :: 0 <= i < |list| ==> list[i].data != s
    ensures MarkAll(g, {s}, list) == {s}
    decreases |list|
  {
    if list != [] {
      assert {s} + {} == {s};
      MarkAllIdle(g, s, list[1..]);
    }
  }

  // What a pass marks is marked from some state, when its turn comes.
  lemma {:induction false} MarkedFrom(g: Graph, m: set<StateId>, list: seq<Entry<nat, StateId>>, x: StateId)
    returns (l: nat)
    requires WellFormed(g) && x in MarkAll(g, m, list) && x !in m
    ensures l < |list| && list[l].data in MarkAll(g, m, list[..l]) && x in Successors(g, list[l].data, false)
    decreases |list|
  {
    var n := |list| - 1;
    MarkAllLast(g, m, list);
    if x in MarkAll(g, m, list[..n]) {
      l := MarkedFrom(g, m, list[..n], x);
      assert list[..n][..l] == list[..l];
    } else {
      l := n;
    }
  }

  lemma StepStaysMarked(g: Graph, m: set<StateId>, x: StateId, y: StateId)
    requires WellFormed(g) && EachOnce(Visible(g.table)) && TwoStepsInOrder(g)
    requires x in Pass(g, m) && Transition(g, x, y, false)
    ensures y in Pass(g, m)
  {
    var list := Visible(g.table);
    MarkAllCovers(g, m, m, list);
    if x in m {
      StepMember(g, m, false, y);
    } else {
      var l := MarkedFrom(g, m, list, x);
      var s, before := list[l].data, MarkAll(g, m, list[..l]);
      assert Transition(g, s, x, false);
      PassMarks(g, {s}, y);
      assert list == list[..l] + list[l..];
      MarkAllConcat(g, m, list[..l], list[l..]);
      MarkAllConcat(g, {s}, list[..l], list[l..]);
      MarkAllIdle(g, s, list[..l]);
      MarkAllMonotone(g, {s}, before, list[l..]);
    }
  }

  // One pass is exact from whatever states if and only if everything that
  // takes two transitions can be reached in the order of the table.
  lemma OnePassAlwaysExactIff(g: Graph)
    requires WellFormed(g) && EachOnce(Visible(g.table))
    ensures (forall m :: Pass(g, m) == Reach(g, m, false)) <==> TwoStepsInOrder(g)
  {
    if TwoStepsInOrder(g) {
      forall m
        ensures Pass(g, m) == Reach(g, m, false)
      {
        PassIsClosed(g, m);
      }
    } else {
      var s, t, u :| Transition(g, s, t, false) && Transition(g, t, u, false) && !InOrder(g, {s}, u);
      PassMarks(g, {s}, u);
      ReachIsClosure(g, {s}, false);
      StepMember(g, Reach(g, {s}, false), false, t);
      StepMember(g, Reach(g, {s}, false), false, u);
    }
  }

  lemma PassIsClosed(g: Graph, m: set<StateId>)
    requires WellFormed(g) && EachOnce(Visible(g.table)) && TwoStepsInOrder(g)
    ensures Pass(g, m) == Reach(g, m, false)
  {
    var c := Pass(g, m);
    MarkAllCovers(g, m, m, Visible(g.table));
    forall y | y in Step(g, c, false)
      ensures y in c
    {
      StepMember(g, c, false, y);
      if x :| x in c && Transition(g, x, y, false) {
        StepStaysMarked(g, m, x, y);
      }
    }
    ReachIsClosure(g, m, false);
    MarkAllSound(g, m, Reach(g, m, false), Visible(g.table));
  }

  // ---------- what the iterator hides ----------

  lemma {:induction false} TargetsPrefix(a: seq<Entry<nat, Event>>, b: seq<Entry<nat, Event>>)
    requires a <= b
    ensures Targets(a) <= Targets(b)
  {
    if a != [] { TargetsPrefix(a[1..], b[1..]); }
  }

  lemma {:induction false} WaveHides(
      g: Graph, m: set<StateId>, a: seq<Entry<nat, StateId>>, b: seq<Entry<nat, StateId>>)
    requires WellFormed(g) && a <= b
    ensures Wave(g, m, a, false) <= Wave(g, m, b, true)
  {
    if a != [] {
      var s := a[0].data;
      if s in g.states {
        VisibleIsAll(g.states[s].events);
        TargetsPrefix(Visible(g.states[s].events), Flatten(g.states[s].events));
      }
      WaveHides(g, m, a[1..], b[1..]);
    }
  }

  lemma {:induction false} WithinHides(g: Graph, m: set<StateId>, k: nat)
    requires WellFormed(g)
    ensures Within(g, m, k, false) <= Within(g, m, k, true)
  {
    if k > 0 {
      WithinHides(g, m, k - 1);
      VisibleIsAll(g.table);
      WaveMonotone(g, Within(g, m, k - 1, false), Within(g, m, k - 1, true), Visible(g.table), false);
      WaveHides(g, Within(g, m, k - 1, true), Visible(g.table), Flatten(g.table));
    }
  }

  // What is hidden never makes marking mark too much; it marks all there is
  // when no transition leads out of what it marks.
  lemma RightIfClosed(g: Graph, m: set<StateId>)
    requires WellFormed(g)
    ensures Reach(g, m, false) <= Reach(g, m, true)
    ensures Reach(g, m, false) == Reach(g, m, true) <==> Closed(g, Reach(g, m, false), true)
  {
    var n := |Flatten(g.table)|;
    VisibleIsAll(g.table);
    WithinHides(g, m, |Visible(g.table)|);
    WithinMonotone(g, m, m, |Visible(g.table)|, n, true);
    ReachIsClosure(g, m, true);
    ReachIsClosure(g, m, false);
  }

  // Every hidden transition leads to where visible ones lead anyway.
  ghost predicate HiddenAreRedundant(g: Graph)
    requires WellFormed(g)
  {
    forall s :: s in Members(Flatten(g.table)) ==> Successors(g, s, true) <= Reach(g, {s}, false)
  }

  lemma {:induction false} InMembers(list: seq<Entry<nat, StateId>>, s: StateId)
    ensures s in Members(list) <==> exists i :: 0 <= i < |list| && list[i].data == s
  {
    if list != [] {
      InMembers(list[1..], s);
      if i :| 0 <= i < |list[1..]| && list[1..][i].data == s { assert list[i + 1].data == s; }
      if i :| 0 <= i < |list| && list[i].data == s && i > 0 { assert list[1..][i - 1].data == s; }
    }
  }

  // Repeated marking is right from whatever states if and only if every state
  // in the table reaches all its successors along what the iterator shows.
  lemma MarkingRightIff(g: Graph)
    requires WellFormed(g)
    ensures (forall m :: Reach(g, m, false) == Reach(g, m, true)) <==> HiddenAreRedundant(g)
  {
    if HiddenAreRedundant(g) {
      forall m
        ensures Reach(g, m, false) == Reach(g, m, true)
      {
        RedundantMeansClosed(g, m);
        RightIfClosed(g, m);
      }
    }
    if forall m :: Reach(g, m, false) == Reach(g, m, true) {
      forall s, t | s in Members(Flatten(g.table)) && t in Successors(g, s, true)
        ensures t in Reach(g, {s}, false)
      {
        InMembers(Flatten(g.table), s);
        assert Transition(g, s, t, true);
        ReachIsClosure(g, {s}, true);
        StepMember(g, Reach(g, {s}, true), true, t);
        assert Reach(g, {s}, false) == Reach(g, {s}, true);
      }
    }
  }

  lemma RedundantMeansClosed(g: Graph, m: set<StateId>)
    requires WellFormed(g) && HiddenAreRedundant(g)
    ensures Closed(g, Reach(g, m, false), true)
  {
    var c := Reach(g, m, false);
    ReachIsClosure(g, m, false);
    forall t | t in Step(g, c, true)
      ensures t in c
    {
      StepMember(g, c, true, t);
      if s :| s in c && Transition(g, s, t, true) {
        InMembers(Flatten(g.table), s);
        ReachIsClosure(g, {s}, false);
        assert Reach(g, {s}, false) <= c;
      }
    }
  }

  // The last chain of the state table, and of every event table, has at most
  // one entry.
  predicate NothingHidden(g: Graph)
    requires WellFormed(g)
  {
    && |g.table[|g.table| - 1]| <= 1
    && forall s :: s in g.states ==> |g.states[s].events[|g.states[s].events| - 1]| <= 1
  }

  lemma NothingHiddenExact(g: Graph, m: set<StateId>)
    requires WellFormed(g) && NothingHidden(g)
    ensures Reach(g, m, false) == Reach(g, m, true)
  {
    VisibleIsAll(g.table);
    forall s, t | s in Members(Flatten(g.table)) && t in Successors(g, s, true)
      ensures t in Reach(g, {s}, false)
    {
      InMembers(Flatten(g.table), s);
      var i :| 0 <= i < |Flatten(g.table)| && Flatten(g.table)[i].data == s;
      assert s in g.states by { assert Flatten(g.table)[i] in Flatten(g.table); }
      VisibleIsAll(g.states[s].events);
      TransitionAt(g, i, t, false);
      ReachIsClosure(g, {s}, false);
      StepMember(g, Reach(g, {s}, false), false, t);
    }
    MarkingRightIff(g);
  }

  // ---------- two machines that marking gets wrong ----------

  // Transitions on events 0, 1, 2, ... to the given states.
  function Arrows(targets: seq<StateId>): (r: seq<Entry<nat, Event>>)
    ensures |r| == |targets|
  {
    seq(|targets|, i requires 0 <= i < |targets| => Entry(i, Event(None, Some(targets[i]))))
  }

  // The chain 2 -> 1 -> 0, in a table of two chains that has the states in the
  // order 0, 1, 2.
  function Backwards(): Graph {
    Graph([[Entry(0, 0), Entry(2, 1), Entry(4, 2)], []],
          map[0 := StateRec(0, [Arrows([])]), 1 := StateRec(2, [Arrows([0])]), 2 := StateRec(4, [Arrows([1])])])
  }

  // State 0 leads to 1 and to 2; both transitions are in its only chain.
  function Crowded(): Graph {
    Graph([[Entry(0, 0)], [Entry(1, 1)], [Entry(2, 2)], []],
          map[0 := StateRec(0, [Arrows([1, 2])]), 1 := StateRec(1, [Arrows([])]), 2 := StateRec(2, [Arrows([])])])
  }

  lemma OneChain(targets: seq<StateId>)
    ensures Flatten([Arrows(targets)]) == Arrows(targets)
    ensures Visible([Arrows(targets)]) == Arrows(targets)[..if targets == [] then 0 else 1]
    ensures Targets(Visible([Arrows(targets)])) == if targets == [] then {} else {targets[0]}
  {
    assert [Arrows(targets)][..0] == [];
    if targets != [] {
      assert Arrows(targets)[..1] == [Arrows(targets)[0]] && [Arrows(targets)[0]][1..] == [];
    }
  }

  lemma BackwardsFacts()
    ensures var g := Backwards();
      && WellFormed(g) && Visible(g.table) == [Entry(0, 0), Entry(2, 1), Entry(4, 2)]
      && Successors(g, 1, false) == {0} && Successors(g, 2, false) == {1}
  {
    var t := Backwards().table;
    OneChain([]);
    OneChain([0]);
    OneChain([1]);
    FlattenTake(t, 0);
    FlattenTake(t, 1);
    assert t[..0] == [] && t[..2] == t;
  }

  // One pass does not mark everything that can be reached: from state 2, it
  // misses state 0, which takes two transitions.
  lemma OnePassMisses()
    ensures var g := Backwards(); WellFormed(g) && Pass(g, {2}) == {1, 2} && 0 in Within(g, {2}, 2, false)
  {
    var g, list := Backwards(), [Entry(0, 0), Entry(2, 1), Entry(4, 2)];
    BackwardsFacts();
    assert list[..2] == [list[0], list[1]];
    MarkAllIdle(g, 2, list[..2]);
    MarkAllLast(g, {2}, list);
    TransitionAt(g, 2, 1, false);
    TransitionAt(g, 1, 0, false);
    StepMember(g, {2}, false, 1);
    StepMember(g, Within(g, {2}, 1, false), false, 0);
  }

  lemma CrowdedFacts()
    ensures var g := Crowded();
      && WellFormed(g) && Visible(g.table) == Flatten(g.table) == [Entry(0, 0), Entry(1, 1), Entry(2, 2)]
      && Successors(g, 0, false) == {1} && Successors(g, 1, false) == {} && Successors(g, 2, false) == {}
      && Successors(g, 0, true) == {1, 2}
  {
    var g, t := Crowded(), Crowded().table;
    OneChain([]);
    OneChain([1, 2]);
    FlattenTake(t, 2);
    FlattenTake(t, 1);
    FlattenTake(t, 0);
    assert t[..0] == [] && Flatten(t[..3]) == [Entry(0, 0), Entry(1, 1), Entry(2, 2)];
    assert Flatten(t) == Flatten(t[..3]) + [];
    var a := Arrows([1, 2]);
    assert a[..1][1..] == [] && a[1..][1..] == [];
    assert Targets(a) == {1} + Targets(a[1..]);
  }

  // However often marking is repeated, a transition that the iterator hides is
  // never followed.
  lemma HiddenTransitionMissed(k: nat)
    ensures var g := Crowded(); WellFormed(g) && 2 in Within(g, {0}, 1, true) && 2 !in Passes(g, {0}, k)
  {
    var g, c := Crowded(), {0, 1};
    CrowdedFacts();
    TransitionAt(g, 0, 2, true);
    StepMember(g, {0}, true, 2);
    forall y | y in Step(g, c, false)
      ensures y in c
    {
      StepMember(g, c, false, y);
    }
    PassesSound(g, {0}, c, k);
  }
}
