// Machines and tables, built by the program's own operations, on which it does
// less than one would expect.
module FsmWitnesses {
  import opened Options
  import opened Powers
  import opened Chains
  import opened HTable
  import opened FsmGraph
  import opened FsmKeys
  import opened FsmTables

  // A table of one chain that holds two entries: the iterator shows one.
  method ShortEnumeration() returns (t: Table<nat, nat>, out: seq<Entry<nat, nat>>)
    ensures t.Valid() && t.model == map[0 := 10, 1 := 11] && out == [Entry(0, 10)] && !t.ListsAll(out)
  {
    t := TwoInOneChain();
    FirstOfChain(Entry(0, 10), Entry(1, 11));
    out := t.Enumerate();
  }

  lemma FirstOfChain<V>(a: Entry<nat, V>, b: Entry<nat, V>)
    ensures Visible([[a, b]]) == [a]
  {
    var chains := [[a, b]];
    assert chains[..0] == [];
  }

  method TwoInOneChain() returns (t: Table<nat, nat>)
    ensures t.Valid() && t.model == map[0 := 10, 1 := 11] && t.table[..] == [[Entry(0, 10), Entry(1, 11)]]
  {
    t := new Table<nat, nat>(1, 2, Identity, 0);
    assert t.table[..] == [[]];
    AppendOne(t, 0, 10);
    assert t.table[0] == [Entry(0, 10)] && t.model == map[0 := 10];
    AppendOne(t, 1, 11);
    assert [Entry(0, 10)] + [Entry(1, 11)] == [Entry(0, 10), Entry(1, 11)];
  }

  // htable_insert into a table of one chain, with room for one more entry.
  method AppendOne(t: Table<nat, nat>, k: nat, v: nat)
    requires t.Valid() && t.size == 1 && t.hashf == Identity && k !in t.model && t.used < t.limit
    modifies t, t.table
    ensures t.Valid() && t.size == 1 && t.table == old(t.table) && t.limit == old(t.limit) && t.used == old(t.used) + 1
    ensures t.model == old(t.model)[k := v] && t.table[..] == [old(t.table[0]) + [Entry(k, v)]]
  {
    var r := t.Insert(k, v);
  }

  // state_init and state_add_evt: a state with one chain of events, which lead
  // to the given states.
  method NewState(id: StateId, targets: seq<StateId>) returns (s: State)
    ensures fresh(s) && fresh(s.evttable) && fresh(s.evttable.table) && s.Valid() && s.id == id
    ensures s.evttable.table[..] == [Arrows(targets)]
    ensures forall k :: k in s.evttable.model ==>
      s.evttable.model[k].newstate.Some? && s.evttable.model[k].newstate.value in targets
  {
    s := new State(id, 1, |targets|, 0);
    assert targets[..0] == [];
    var i := 0;
    while i < |targets|
      invariant 0 <= i <= |targets|
      invariant fresh(s.evttable.table) && HasArrows(s, targets[..i], |targets|)
    {
      AddArrow(s, targets, i);
      i := i + 1;
    }
    assert targets[..i] == targets;
  }

  // State s has a transition to each of the given states, in one chain that
  // is to hold `limit` of them.
  ghost predicate HasArrows(s: State, targets: seq<StateId>, limit: nat)
    reads s.evttable, s.evttable.table
  {
    && s.Valid() && s.evttable.limit == limit && |s.evttable.model| == |targets|
    && s.evttable.table[..] == [Arrows(targets)]
    && forall k :: k in s.evttable.model ==>
         k < |targets| && s.evttable.model[k].newstate.Some? && s.evttable.model[k].newstate.value in targets
  }

  method AddArrow(s: State, targets: seq<StateId>, i: nat)
    requires i < |targets| && HasArrows(s, targets[..i], |targets|)
    modifies s.evttable, s.evttable.table
    ensures HasArrows(s, targets[..i + 1], |targets|)
    ensures s.evttable.table == old(s.evttable.table) || fresh(s.evttable.table)
  {
    var r := s.AddEvent(i, None, Some(targets[i]));
    ArrowsSnoc(targets[..i], targets[i]);
    assert targets[..i + 1] == targets[..i] + [targets[i]];
  }

  lemma ArrowsSnoc(targets: seq<StateId>, t: StateId)
    ensures Arrows(targets + [t]) == Arrows(targets) + [Entry(|targets|, Event(None, Some(t)))]
  {
  }

  // fsm_add_state of a new state under a new key, where the table has room.
  method AddOne(t: Tables, key: nat, s: State)
    requires t.Valid() && t.Placed() && s.id in t.states && t.states[s.id] == s && !InTable(t.sttable.table[..], s.id)
    requires Lookup(t.sttable.table[..], Identity, key).None? && t.sttable.used < t.sttable.limit
    modifies s`key, t.sttable, t.sttable.table
    ensures t.Valid() && t.Placed() && s.key == key && t.sttable.table == old(t.sttable.table)
    ensures t.sttable.used == old(t.sttable.used) + 1 && t.sttable.limit == old(t.sttable.limit)
    ensures t.sttable.table[..] == Appended(old(t.sttable.table[..]), Identity, key, s.id)
  {
    NothingRekeyed(t.sttable.table[..], t.Keys(), s.id, key);
    var r := t.AddState(key, s);
  }

  // After that, one more state is in the table, and one more key is known.
  lemma AfterOne(chains: seq<Chain>, key: nat, s: StateId, key': nat, s': StateId)
    requires |chains| > 0 && key' != key && s' != s
    ensures var chains' := Appended(chains, Identity, key, s);
      && (InTable(chains', s') <==> InTable(chains, s'))
      && Lookup(chains', Identity, key') == Lookup(chains, Identity, key')
  {
    var chains', b' := Appended(chains, Identity, key, s), Bucket(Identity, key', |chains|);
    if e :| e in Flatten(chains') && e.data == s' { AppendedMember(chains, key, s, e); }
    if e :| e in Flatten(chains) && e.data == s' { AppendedMember(chains, key, s, e); }
    FindConcat(chains[b'], [Entry(key, s)], key');
  }

  // Three states, with no key yet.
  method NewThree(t0: seq<StateId>, t1: seq<StateId>, t2: seq<StateId>) returns (s0: State, s1: State, s2: State)
    requires forall x :: x in t0 || x in t1 || x in t2 ==> x < 3
    ensures fresh(s0) && fresh(s1) && fresh(s2)
    ensures fresh(s0.evttable) && fresh(s1.evttable) && fresh(s2.evttable)
    ensures fresh(s0.evttable.table) && fresh(s1.evttable.table) && fresh(s2.evttable.table)
    ensures Outfitted(s0, 0, t0) && Outfitted(s1, 1, t1) && Outfitted(s2, 2, t2)
  {
    s0 := NewState(0, t0);
    s1 := NewState(1, t1);
    s2 := NewState(2, t2);
  }

  ghost predicate Outfitted(s: State, id: StateId, targets: seq<StateId>)
    reads s.evttable, s.evttable.table
  {
    && s.id == id && s.Valid() && s.evttable.table[..] == [Arrows(targets)]
    && forall k :: k in s.evttable.model ==> Targets3(s.evttable.model[k])
  }

  // A machine of three states that is yet to be given its state table.
  method Install(s0: State, s1: State, s2: State, t0: seq<StateId>, t1: seq<StateId>, t2: seq<StateId>,
                 e: nat, factor: nat)
    returns (t: Tables)
    requires Outfitted(s0, 0, t0) && Outfitted(s1, 1, t1) && Outfitted(s2, 2, t2)
    ensures fresh(t) && fresh(t.sttable) && fresh(t.sttable.table) && t.Valid() && t.Placed()
    ensures Separate(t, s0) && Separate(t, s1) && Separate(t, s2)
    ensures t.states == map[0 := s0, 1 := s1, 2 := s2] && t.sttable.used == 0
    ensures t.sttable.limit == factor * Pow2(e) && t.sttable.table[..] == seq(Pow2(e), _ => [])
  {
    t := new Tables(Pow2(e), factor, e, map[0 := s0, 1 := s1, 2 := s2]);
  }

  method Prepare(t0: seq<StateId>, t1: seq<StateId>, t2: seq<StateId>, e: nat, factor: nat)
    returns (t: Tables, s0: State, s1: State, s2: State)
    requires forall x :: x in t0 || x in t1 || x in t2 ==> x < 3
    ensures fresh(s0) && fresh(s1) && fresh(s2)
    ensures fresh(t) && fresh(t.sttable) && fresh(t.sttable.table) && t.Valid() && t.Placed()
    ensures Outfitted(s0, 0, t0) && Outfitted(s1, 1, t1) && Outfitted(s2, 2, t2)
    ensures Separate(t, s0) && Separate(t, s1) && Separate(t, s2)
    ensures t.states == map[0 := s0, 1 := s1, 2 := s2] && t.sttable.used == 0
    ensures t.sttable.limit == factor * Pow2(e) && t.sttable.table[..] == seq(Pow2(e), _ => [])
  {
    s0, s1, s2 := NewThree(t0, t1, t2);
    t := Install(s0, s1, s2, t0, t1, t2, e, factor);
  }

  // A state's event table is not the state table.
  ghost predicate Separate(t: Tables, s: State)
    reads t.sttable, s.evttable
  {
    (s.evttable as object) != t.sttable && (s.evttable.table as object) != t.sttable.table
  }

  // Its first two states, added under two keys.
  method AddTwo(t: Tables, s0: State, s1: State, k0: nat, k1: nat)
    requires t.Valid() && t.Placed() && s0 != s1
    requires 0 in t.states && t.states[0] == s0 && s0.id == 0 && 1 in t.states && t.states[1] == s1 && s1.id == 1
    requires Flatten(t.sttable.table[..]) == [] && t.sttable.used == 0 && t.sttable.limit >= 2 && k0 != k1
    modifies s0`key, s1`key, t.sttable, t.sttable.table
    ensures t.Valid() && t.Placed() && s0.key == k0 && s1.key == k1
    ensures t.sttable.table == old(t.sttable.table)
    ensures t.sttable.used == 2 && t.sttable.limit == old(t.sttable.limit)
    ensures t.sttable.table[..] == Appended(Appended(old(t.sttable.table[..]), Identity, k0, 0), Identity, k1, 1)
  {
    ghost var chains := t.sttable.table[..];
    NoneFound(chains, k0);
    NoneFound(chains, k1);
    AddOne(t, k0, s0);
    AfterOne(chains, k0, 0, k1, 1);
    AddOne(t, k1, s1);
  }

  // All three states.
  method AddAll(t: Tables, s0: State, s1: State, s2: State, k0: nat, k1: nat, k2: nat)
    requires t.Valid() && t.Placed() && t.states == map[0 := s0, 1 := s1, 2 := s2]
    requires s0.id == 0 && s1.id == 1 && s2.id == 2
    requires Flatten(t.sttable.table[..]) == [] && t.sttable.used == 0 && t.sttable.limit >= 3
    requires k0 != k1 && k0 != k2 && k1 != k2
    modifies s0`key, s1`key, s2`key, t.sttable, t.sttable.table
    ensures t.Valid() && t.Placed() && t.sttable.table == old(t.sttable.table)
    ensures s0.key == k0 && s1.key == k1 && s2.key == k2
    ensures t.sttable.table[..] == AddedThree(old(t.sttable.table[..]), k0, k1, k2)
  {
    ghost var chains := t.sttable.table[..];
    AddTwo(t, s0, s1, k0, k1);
    NoneFound(chains, k2);
    AfterOne(chains, k0, 0, k2, 2);
    AfterOne(Appended(chains, Identity, k0, 0), k1, 1, k2, 2);
    AddOne(t, k2, s2);
  }

  function AddedThree(chains: seq<Chain>, k0: nat, k1: nat, k2: nat): seq<Chain>
    requires |chains| > 0
  {
    Appended(Appended(Appended(chains, Identity, k0, 0), Identity, k1, 1), Identity, k2, 2)
  }

  lemma ViewOfThree(t: Tables, s0: State, s1: State, s2: State, r0: StateRec, r1: StateRec, r2: StateRec)
    requires t.states == map[0 := s0, 1 := s1, 2 := s2]
    requires s0.Record() == r0 && s1.Record() == r1 && s2.Record() == r2
    ensures t.View() == Graph(t.sttable.table[..], map[0 := r0, 1 := r1, 2 := r2])
  {
    assert t.View().states == map[0 := r0, 1 := r1, 2 := r2];
  }

  // All three states, which then have the records they should have.
  method Register(t: Tables, s0: State, s1: State, s2: State, t0: seq<StateId>, t1: seq<StateId>, t2: seq<StateId>,
                  k0: nat, k1: nat, k2: nat)
    requires t.Valid() && t.Placed() && t.states == map[0 := s0, 1 := s1, 2 := s2]
    requires Outfitted(s0, 0, t0) && Outfitted(s1, 1, t1) && Outfitted(s2, 2, t2)
    requires Separate(t, s0) && Separate(t, s1) && Separate(t, s2)
    requires Flatten(t.sttable.table[..]) == [] && t.sttable.used == 0 && t.sttable.limit >= 3
    requires k0 != k1 && k0 != k2 && k1 != k2
    modifies s0`key, s1`key, s2`key, t.sttable, t.sttable.table
    ensures t.Valid() && t.Placed()
    ensures s0.Record() == StateRec(k0, [Arrows(t0)])
    ensures s1.Record() == StateRec(k1, [Arrows(t1)])
    ensures s2.Record() == StateRec(k2, [Arrows(t2)])
    ensures t.sttable.table[..] == AddedThree(old(t.sttable.table[..]), k0, k1, k2)
  {
    AddAll(t, s0, s1, s2, k0, k1, k2);
  }

  function Records(t0: seq<StateId>, t1: seq<StateId>, t2: seq<StateId>,
                   k0: nat, k1: nat, k2: nat): map<StateId, StateRec> {
    map[0 := StateRec(k0, [Arrows(t0)]), 1 := StateRec(k1, [Arrows(t1)]), 2 := StateRec(k2, [Arrows(t2)])]
  }

  function Chains3(e: nat, k0: nat, k1: nat, k2: nat): seq<seq<Entry<nat, StateId>>> {
    AddedThree(seq(Pow2(e), _ => []), k0, k1, k2)
  }

  // A machine of three states with the given transitions, keys and table size.
  method BuildThree(t0: seq<StateId>, t1: seq<StateId>, t2: seq<StateId>,
                    k0: nat, k1: nat, k2: nat, e: nat, factor: nat)
    returns (t: Tables)
    requires forall x :: x in t0 || x in t1 || x in t2 ==> x < 3
    requires k0 != k1 && k0 != k2 && k1 != k2 && factor * Pow2(e) >= 3
    ensures t.Valid() && t.Placed()
    ensures t.View() == Graph(Chains3(e, k0, k1, k2), Records(t0, t1, t2, k0, k1, k2))
  {
    var s0, s1, s2;
    t, s0, s1, s2 := Prepare(t0, t1, t2, e, factor);
    NoEntries(t.sttable.table[..]);
    Register(t, s0, s1, s2, t0, t1, t2, k0, k1, k2);
    ViewOfThree(t, s0, s1, s2, s0.Record(), s1.Record(), s2.Record());
  }

  // The machine that one pass of marking gets wrong.
  method BuildBackwards() returns (t: Tables)
    ensures t.Valid() && t.Placed() && t.View() == Backwards()
  {
    BackwardsTable();
    t := BuildThree([], [0], [1], 0, 2, 4, 1, 2);
  }

  lemma AppendedAt<V>(chains: seq<seq<Entry<nat, V>>>, k: nat, v: V, b: nat, list: seq<Entry<nat, V>>)
    requires |chains| > 0 && b == Bucket(Identity, k, |chains|) && list == chains[b] + [Entry(k, v)]
    ensures Appended(chains, Identity, k, v) == chains[b := list]
  {
  }

  lemma BackwardsTable()
    ensures Backwards() == Graph(Chains3(1, 0, 2, 4), Records([], [0], [1], 0, 2, 4))
  {
    var c0: seq<seq<Entry<nat, StateId>>> := [[], []];
    assert seq(Pow2(1), _ => []) == c0;
    assert And(0, 1) == 0 && And(2, 1) == 2 * And(1, 0) && And(4, 1) == 2 * And(2, 0);
    var l1, l2 := [Entry(0, 0)], [Entry(0, 0), Entry(2, 1)];
    AppendedAt(c0, 0, 0, 0, l1);
    AppendedAt([l1, []], 2, 1, 0, l2);
    AppendedAt([l2, []], 4, 2, 0, [Entry(0, 0), Entry(2, 1), Entry(4, 2)]);
  }

  // The machine whose hidden transition no number of passes follows.
  method BuildCrowded() returns (t: Tables)
    ensures t.Valid() && t.Placed() && t.View() == Crowded()
  {
    CrowdedTable();
    t := BuildThree([1, 2], [], [], 0, 1, 2, 2, 1);
  }

  lemma CrowdedTable()
    ensures Crowded() == Graph(Chains3(2, 0, 1, 2), Records([1, 2], [], [], 0, 1, 2))
  {
    var c0: seq<seq<Entry<nat, StateId>>> := [[], [], [], []];
    assert seq(Pow2(2), _ => []) == c0;
    assert And(0, 3) == 0 && And(1, 3) == 2 * And(0, 1) + 1;
    assert And(2, 3) == 2 * And(1, 1) && And(1, 1) == 2 * And(0, 0) + 1;
    var l0, l1, l2 := [Entry(0, 0)], [Entry(1, 1)], [Entry(2, 2)];
    AppendedAt(c0, 0, 0, 0, l0);
    AppendedAt([l0, [], [], []], 1, 1, 1, l1);
    AppendedAt([l0, l1, [], []], 2, 2, 2, l2);
  }

  // ---------- a state that is added again ----------

  // Two chains, with state 0 under key 5.
  method UnderFive() returns (t: Tables, s0: State, s1: State)
    ensures fresh(t) && fresh(t.sttable) && fresh(t.sttable.table) && fresh(s0) && fresh(s1)
    ensures t.Valid() && t.Placed() && t.states.Keys == {0, 1, 2} && t.states[0] == s0 && t.states[1] == s1
    ensures s0.key == 5 && t.sttable.table[..] == [[], [Entry(5, 0)]]
    ensures t.sttable.used == 1 && t.sttable.limit == 4
  {
    var s2;
    t, s0, s1, s2 := Prepare([], [], [], 1, 2);
    AddFive(t, s0);
  }

  method AddFive(t: Tables, s0: State)
    requires t.Valid() && t.Placed() && 0 in t.states && t.states[0] == s0 && s0.id == 0
    requires t.sttable.table[..] == seq(2, _ => []) && t.sttable.used == 0 && t.sttable.limit == 4
    modifies s0`key, t.sttable, t.sttable.table
    ensures t.Valid() && t.Placed() && s0.key == 5 && t.sttable.table == old(t.sttable.table)
    ensures t.sttable.table[..] == [[], [Entry(5, 0)]] && t.sttable.used == 1 && t.sttable.limit == 4
  {
    NoEntries(t.sttable.table[..]);
    NoneFound(t.sttable.table[..], 5);
    Odd(5);
    AppendedAt([[], []], 5, 0, 1, [Entry(5, 0)]);
    AddOne(t, 5, s0);
  }

  // With two chains, the bucket of a key is its parity.
  lemma Odd(k: nat)
    ensures Bucket(Identity, k, 2) == k % 2
  {
    AndMask(k, 1);
  }

  lemma FlattenTwo(a: Chain, b: Chain)
    ensures Flatten([a, b]) == a + b
  {
    FlattenTake([a, b], 0);
    FlattenTake([a, b], 1);
    assert [a, b][..0] == [] && [a, b][..2] == [a, b] && [] + a == a;
  }

  // Added again under key 7, which is free and belongs into the same chain:
  // the call says that the key is taken, but the state is found under it now.
  method Renamed() returns (t: Tables, r: Status)
    ensures t.Valid() && r == Exists && t.Placed()
    ensures Lookup(t.View().table, Identity, 5) == None && Lookup(t.View().table, Identity, 7) == Some(0)
  {
    var s0, s1;
    t, s0, s1 := UnderFive();
    FlattenTwo([], [Entry(5, 0)]);
    Odd(5);
    Odd(7);
    assert Entry(5, 0) in Flatten(t.sttable.table[..]);
    r := t.AddState(7, s0);
  }

  // Added again under key 6, which is free and belongs into the other chain:
  // the state now stands in the table twice, once where it does not belong.
  method Doubled() returns (t: Tables, r: Status)
    ensures t.Valid() && r == Ok && !t.Placed()
    ensures Lookup(t.View().table, Identity, 5) == None && Lookup(t.View().table, Identity, 6) == Some(0)
  {
    var s0, s1;
    t, s0, s1 := UnderFive();
    FlattenTwo([], [Entry(5, 0)]);
    Odd(5);
    Odd(6);
    assert Entry(5, 0) in Flatten(t.sttable.table[..]);
    r := t.AddState(6, s0);
  }

  // Added again under key 6, which another state has: the call fails, and the
  // state cannot be found any more, under whatever key.
  method KeyLost() returns (t: Tables, r: Status)
    ensures t.Valid() && r == Exists && !t.Placed()
    ensures forall k: nat :: Lookup(t.View().table, Identity, k) != Some(0)
  {
    var s0;
    t, s0 := UnderFiveAndSix();
    Clashing();
    r := t.AddState(6, s0);
  }

  method UnderFiveAndSix() returns (t: Tables, s0: State)
    ensures t.Valid() && fresh(t.sttable) && fresh(t.sttable.table) && fresh(s0)
    ensures 0 in t.states && t.states[0] == s0 && s0.id == 0
    ensures t.sttable.table[..] == [[Entry(6, 1)], [Entry(5, 0)]]
  {
    var s1;
    t, s0, s1 := UnderFive();
    AddSix(t, s1);
  }

  method AddSix(t: Tables, s1: State)
    requires t.Valid() && t.Placed() && 1 in t.states && t.states[1] == s1 && s1.id == 1
    requires t.sttable.table[..] == [[], [Entry(5, 0)]] && t.sttable.used == 1 && t.sttable.limit == 4
    modifies s1`key, t.sttable, t.sttable.table
    ensures t.Valid() && t.Placed() && s1.key == 6 && t.sttable.table == old(t.sttable.table)
    ensures t.sttable.table[..] == [[Entry(6, 1)], [Entry(5, 0)]]
  {
    FlattenTwo([], [Entry(5, 0)]);
    Odd(6);
    AppendedAt([[], [Entry(5, 0)]], 6, 1, 0, [Entry(6, 1)]);
    AddOne(t, 6, s1);
  }

  lemma Clashing()
    ensures var chains := [[Entry(6, 1)], [Entry(5, 0)]];
      && InTable(chains, 0) && Lookup(chains, Identity, 6) == Some(1)
      && Lookup(RekeyedAll(chains, 0, 6), Identity, 6) == Some(1)
      && forall k: nat :: Lookup(RekeyedAll(chains, 0, 6), Identity, k) != Some(0)
  {
    var chains := [[Entry(6, 1)], [Entry(5, 0)]];
    FlattenTwo([Entry(6, 1)], [Entry(5, 0)]);
    assert Flatten(chains)[1] == Entry(5, 0);
    RekeyedSame(chains[0], 0, 6);
    RekeyedAt(chains[1], 0, 6, 0);
    assert Rekeyed(chains[1], 0, 6) == [Entry(6, 0)];
    assert RekeyedAll(chains, 0, 6) == [[Entry(6, 1)], [Entry(6, 0)]];
    Odd(6);
    forall k: nat
      ensures Lookup([[Entry(6, 1)], [Entry(6, 0)]], Identity, k) != Some(0)
    {
      Odd(k);
    }
  }

  predicate Targets3(e: Event) {
    e.newstate.Some? ==> e.newstate.value < 3
  }
}
