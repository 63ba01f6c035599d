// The tables of the machine as they are built up: each state has a hash table
// of the events it handles, and the machine has one of its states.
module FsmTables {
  import opened Options
  import opened Powers
  import opened Chains
  import opened FsmGraph
  import opened FsmKeys
  import opened HTable
  import Fsm

  // state_t, with a name for the object.  Its key is not set before the state
  // is added to a machine.
  class State {
    const id: StateId
    const evttable: Table<nat, Event>
    var key: nat

    ghost predicate Valid()
      reads evttable, evttable.table
    {
      evttable.Valid() && evttable.hashf == Identity
    }

    ghost function Record(): StateRec
      reads this, evttable, evttable.table
    {
      StateRec(key, evttable.table[..])
    }

    // state_init
    constructor (id: StateId, size: nat, factor: nat, ghost e: nat)
      requires size == Pow2(e)
      ensures Valid() && fresh(evttable) && fresh(evttable.table) && evttable.model == map[] && this.id == id
      ensures evttable.limit == factor * size && evttable.table[..] == seq(size, _ => [])
    {
      this.id := id;
      evttable := new Table<nat, Event>(size, factor, Identity, e);
    }

    // state_add_evt
    method AddEvent(evtkey: nat, action: Option<nat>, newstate: Option<StateId>) returns (r: Status)
      requires Valid()
      modifies evttable, evttable.table
      ensures Valid() && (evttable.table == old(evttable.table) || fresh(evttable.table))
      ensures r == if evtkey in old(evttable.model) then Exists else Ok
      ensures evttable.model ==
        if evtkey in old(evttable.model) then old(evttable.model)
        else old(evttable.model)[evtkey := Event(action, newstate)]
      ensures r == Ok && old(evttable.used) < old(evttable.limit) ==>
        && evttable.limit == old(evttable.limit)
        && evttable.table[..] == Appended(old(evttable.table[..]), Identity, evtkey, Event(action, newstate))
    {
      r := evttable.Insert(evtkey, Event(action, newstate));
    }

    // state_rem_evt
    method RemoveEvent(evtkey: nat) returns (r: Status)
      requires Valid()
      modifies evttable, evttable.table
      ensures Valid() && evttable.table == old(evttable.table)
      ensures r == if evtkey in old(evttable.model) then Ok else NotFound
      ensures evttable.model == old(evttable.model) - {evtkey}
    {
      r := evttable.Remove(evtkey);
    }
  }

  // The state table of a machine, and all state objects there are.
  class Tables {
    const sttable: Table<nat, StateId>
    const states: map<StateId, State>

    // Each node of the state table has the key of its state, because it has
    // the address of it.
    ghost predicate Valid()
      reads sttable, sttable.table
      reads set s | s in states :: states[s]
      reads set s | s in states :: states[s].evttable
      reads set s | s in states :: states[s].evttable.table
    {
      && sttable.Sound() && sttable.hashf == Identity && (Placed() ==> sttable.Valid())
      && Through(sttable.table[..], Keys()) && StatesValid()
    }

    ghost predicate StatesValid()
      reads set s | s in states :: states[s].evttable
      reads set s | s in states :: states[s].evttable.table
    {
      && (forall s :: s in states ==> states[s].id == s)
      && (forall s {:trigger StateValid(s)} :: s in states ==> StateValid(s))
    }

    // Every node is in the chain of its key, and no two have the same key.
    ghost predicate Placed()
      reads sttable, sttable.table
    {
      WellPlaced(sttable.table[..], Identity)
    }

    ghost predicate StateValid(s: StateId)
      requires s in states
      reads states[s].evttable, states[s].evttable.table
    {
      && states[s].Valid()
      && forall k :: k in states[s].evttable.model ==> TargetKnown(states[s].evttable.model[k])
    }

    predicate TargetKnown(e: Event) {
      e.newstate.Some? ==> e.newstate.value in states
    }

    // The machine that these tables describe.
    ghost function View(): Graph
      reads sttable, sttable.table
      reads set s | s in states :: states[s]
      reads set s | s in states :: states[s].evttable
      reads set s | s in states :: states[s].evttable.table
    {
      Graph(sttable.table[..], map s | s in states :: states[s].Record())
    }

    ghost function Keys(): map<StateId, nat>
      reads set s | s in states :: states[s]
    {
      map s | s in states :: states[s].key
    }

    // The state table of fsm_init.
    constructor (size: nat, factor: nat, ghost e: nat, states: map<StateId, State>)
      requires size == Pow2(e)
      requires forall s :: s in states ==> states[s].id == s && states[s].Valid()
      requires forall s, k :: s in states && k in states[s].evttable.model ==>
        var t := states[s].evttable.model[k].newstate; t.Some? ==> t.value in states
      ensures Valid() && Placed() && fresh(sttable) && fresh(sttable.table)
      ensures this.states == states && sttable.model == map[]
      ensures sttable.limit == factor * size && sttable.table[..] == seq(size, _ => [])
    {
      this.states := states;
      sttable := new Table<nat, StateId>(size, factor, Identity, e);
      new;
      NoEntries(sttable.table[..]);
    }

    // *pstate->st_key = key: the state and all of its nodes have a new key.
    method WriteKey(key: nat, pstate: State)
      requires Valid() && pstate.id in states && states[pstate.id] == pstate
      modifies pstate`key, sttable.table
      ensures pstate.key == key && Keys() == old(Keys())[pstate.id := key] && sttable.Sound() && StatesValid()
      ensures sttable.table[..] == RekeyedAll(old(sttable.table[..]), pstate.id, key)
    {
      ghost var chains := sttable.table[..];
      pstate.key := key;
      forall i | 0 <= i < sttable.size {
        sttable.table[i] := Rekeyed(sttable.table[i], pstate.id, key);
      }
      assert sttable.table[..] == RekeyedAll(chains, pstate.id, key);
      RekeyedTotal(chains, pstate.id, key);
    }

    // fsm_add_state.  The key is written into the state before the table is
    // asked whether it is taken.
    method AddState(key: nat, pstate: State) returns (r: Status)
      requires Valid() && pstate.id in states && states[pstate.id] == pstate
      modifies pstate`key, sttable, sttable.table
      ensures Valid() && pstate.key == key
      ensures sttable.table == old(sttable.table) || fresh(sttable.table)
      ensures r ==
        if Lookup(RekeyedAll(old(sttable.table[..]), pstate.id, key), Identity, key).Some? then Exists else Ok
      ensures InsertedInto(RekeyedAll(old(sttable.table[..]), pstate.id, key), sttable.table[..], key, pstate.id)
      ensures old(Placed()) ==>
        Outcome(old(sttable.table[..]), sttable.table[..], old(Keys()), pstate.id, key, r == Exists)
      ensures r == Ok && old(sttable.used) < old(sttable.limit) ==>
        && sttable.limit == old(sttable.limit) && sttable.used == old(sttable.used) + 1
        && sttable.table == old(sttable.table)
        && sttable.table[..] ==
           Appended(RekeyedAll(old(sttable.table[..]), pstate.id, key), Identity, key, pstate.id)
    {
      ghost var chains, keys, e := sttable.table[..], Keys(), sttable.log;
      ghost var placed := Placed();
      WriteKey(key, pstate);
      r := Store(key, pstate.id);
      ThroughAfter(chains, sttable.table[..], keys, pstate.id, key);
      if placed {
        AddingHasOutcome(chains, sttable.table[..], keys, pstate.id, key, e);
      }
    }

    method Store(key: nat, s: StateId) returns (r: Status)
      requires sttable.Sound() && sttable.hashf == Identity && StatesValid()
      modifies sttable, sttable.table
      ensures sttable.Sound() && StatesValid() && (Placed() ==> sttable.Valid()) && Keys() == old(Keys())
      ensures sttable.table == old(sttable.table) || fresh(sttable.table)
      ensures r == if Lookup(old(sttable.table[..]), Identity, key).Some? then Exists else Ok
      ensures InsertedInto(old(sttable.table[..]), sttable.table[..], key, s)
      ensures r == Ok && old(sttable.used) < old(sttable.limit) ==>
        && sttable.limit == old(sttable.limit) && sttable.used == old(sttable.used) + 1
        && sttable.table == old(sttable.table)
        && sttable.table[..] == Appended(old(sttable.table[..]), Identity, key, s)
    {
      r := sttable.Insert(key, s);
      sttable.Resync();
    }

    // The engine's tables are as it expects them ...
    lemma ViewWellFormed()
      requires Valid()
      ensures WellFormed(View())
    {
      var g := View();
      forall e | e in Flatten(g.table)
        ensures e.data in g.states
      {
        assert e.data in Keys();
      }
      forall s | s in g.states
        ensures |g.states[s].events| > 0
      {
        assert StateValid(s);
      }
      forall s, e | s in g.states && e in Flatten(g.states[s].events) && e.data.newstate.Some?
        ensures e.data.newstate.value in g.states
      {
        assert StateValid(s);
        FlattenIsMap(g.states[s].events, Identity, states[s].evttable.model, e);
        assert TargetKnown(e.data);
      }
    }

    lemma EventLookup(s: StateId, evtkey: nat)
      requires Valid() && s in states
      ensures var m, chains := states[s].evttable.model, View().states[s].events;
        |chains| > 0 && Lookup(chains, Identity, evtkey) == if evtkey in m then Some(m[evtkey]) else None
    {
      assert StateValid(s);
    }

    // The search for the key in the state table finds something.
    ghost predicate Known(key: nat)
      requires sttable.Sound()
      reads sttable, sttable.table
    {
      Lookup(sttable.table[..], Identity, key).Some?
    }

    // ... and it takes exactly the transitions that were added to the states,
    // wherever the tables keep them and however often these have grown.
    lemma EngineFollowsTables(s: StateId, evtkey: nat)
      requires Valid() && s in states
      ensures WellFormed(View()) && StateValid(s)
      ensures var m := states[s].evttable.model;
        && Fsm.Handler(View(), s, evtkey) == (if evtkey in m then Some(m[evtkey]) else None)
        && (Fsm.Leads(View(), s, evtkey) <==>
              evtkey in m && m[evtkey].newstate.Some? && Known(states[m[evtkey].newstate.value].key))
        && Fsm.Next(View(), s, evtkey) ==
           if evtkey in m && m[evtkey].newstate.Some? && Known(states[m[evtkey].newstate.value].key)
           then m[evtkey].newstate.value else s
    {
      ViewWellFormed();
      var g, m := View(), states[s].evttable.model;
      EventLookup(s, evtkey);
      if evtkey in m && m[evtkey].newstate.Some? {
        var t := m[evtkey].newstate.value;
        assert StateValid(s) && TargetKnown(m[evtkey]);
        assert g.states[t].key == states[t].key;
      }
    }

    // fsm_set_state finds a state that has the key, whatever has been done to
    // the keys, so fsm_get_current_state gives the key back; and in a table
    // that is well placed it finds one whenever there is one.
    lemma FoundUnderItsKey(key: nat)
      requires Valid()
      ensures var s := Lookup(View().table, Identity, key);
        && (s.Some? ==> s.value in states && states[s.value].key == key && InTable(View().table, s.value))
        && (Placed() ==>
              forall s' :: s' in states && InTable(View().table, s') && states[s'].key == key ==> s == Some(s'))
    {
      var chains := sttable.table[..];
      var b := Bucket(Identity, key, |chains|);
      if Lookup(chains, Identity, key).Some? {
        var e := FoundIn(chains[b], key);
        ChainMember(chains, b, e);
        assert Keys()[e.data] == states[e.data].key;
      }
      if Placed() {
        forall s' | s' in states && InTable(chains, s') && states[s'].key == key
          ensures Lookup(chains, Identity, key) == Some(s')
        {
          NodeOf(chains, Keys(), s');
          assert GoodChain(chains, Identity, b);
          FindMember(chains[b], Entry(key, s'));
        }
      }
    }

    // In a table that is well placed, no state stands twice.
    lemma PlacedMeansEachOnce()
      requires Valid() && Placed()
      ensures WellFormed(View()) && EachOnce(Visible(View().table))
    {
      ViewWellFormed();
      var all, list := Flatten(sttable.table[..]), Visible(sttable.table[..]);
      FlattenUnique(sttable.table[..], Identity, sttable.size);
      assert sttable.table[..][..sttable.size] == sttable.table[..];
      VisibleIsAll(sttable.table[..]);
      forall i, j | 0 <= i < j < |list|
        ensures list[i].data != list[j].data
      {
        UniqueKeys(all, i, j);
        assert list[i] in all && list[j] in all;
      }
    }
  }
}
