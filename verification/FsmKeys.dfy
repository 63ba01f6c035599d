// What happens to the state table when the key of a state is changed.  A node
// of the table holds the address of the key, which is a field of the state, so
// the node's key changes with it, while the node stays where it is.
module FsmKeys {
  import opened Options
  import opened Powers
  import opened Chains
  import opened FsmGraph

  type Chain = seq<Entry<nat, StateId>>

  // The key of state s becomes k, wherever it stands in the chain.
  function Rekeyed(chain: Chain, s: StateId, k: nat): (r: Chain)
    ensures |r| == |chain|
  {
    if chain == [] then []
    else [if chain[0].data == s then Entry(k, s) else chain[0]] + Rekeyed(chain[1..], s, k)
  }

  function RekeyedAll(chains: seq<Chain>, s: StateId, k: nat): (r: seq<Chain>)
    ensures |r| == |chains|
  {
    seq(|chains|, i requires 0 <= i < |chains| => Rekeyed(chains[i], s, k))
  }

  // All nodes have the keys of their states.
  ghost predicate Through(chains: seq<Chain>, keys: map<StateId, nat>) {
    forall e :: e in Flatten(chains) ==> e.data in keys && e.key == keys[e.data]
  }

  ghost predicate InTable(chains: seq<Chain>, s: StateId) {
    exists e :: e in Flatten(chains) && e.data == s
  }

  // What htable_insert makes of any chains.
  ghost predicate InsertedInto(chains: seq<Chain>, chains': seq<Chain>, k: nat, s: StateId) {
    && |chains| > 0
    && if Lookup(chains, Identity, k).Some? then chains' == chains
       else
         || chains' == Appended(chains, Identity, k, s)
         || Redistributed(Appended(chains, Identity, k, s), chains', Identity)
  }

  // ---------- members ----------

  lemma {:induction false} RekeyedAt(chain: Chain, s: StateId, k: nat, j: nat)
    requires j < |chain|
    ensures Rekeyed(chain, s, k)[j] == if chain[j].data == s then Entry(k, s) else chain[j]
  {
    if j > 0 { RekeyedAt(chain[1..], s, k, j - 1); }
  }

  lemma RekeyedMember(chain: Chain, s: StateId, k: nat, e: Entry<nat, StateId>)
    requires e in chain
    ensures (if e.data == s then Entry(k, s) else e) in Rekeyed(chain, s, k)
  {
    var j :| 0 <= j < |chain| && chain[j] == e;
    RekeyedAt(chain, s, k, j);
  }

  lemma MemberRekeyed(chain: Chain, s: StateId, k: nat, e: Entry<nat, StateId>) returns (e': Entry<nat, StateId>)
    requires e in Rekeyed(chain, s, k)
    ensures e' in chain && e'.data == e.data && e == if e'.data == s then Entry(k, s) else e'
  {
    var j :| 0 <= j < |chain| && Rekeyed(chain, s, k)[j] == e;
    RekeyedAt(chain, s, k, j);
    e' := chain[j];
  }

  lemma RekeyedSame(chain: Chain, s: StateId, k: nat)
    requires forall e :: e in chain && e.data == s ==> e.key == k
    ensures Rekeyed(chain, s, k) == chain
  {
    forall j | 0 <= j < |chain|
      ensures Rekeyed(chain, s, k)[j] == chain[j]
    {
      assert chain[j] in chain;
      RekeyedAt(chain, s, k, j);
    }
  }

  lemma {:induction false} RekeyedConcat(a: Chain, b: Chain, s: StateId, k: nat)
    ensures Rekeyed(a + b, s, k) == Rekeyed(a, s, k) + Rekeyed(b, s, k)
  {
    if a == [] {
      assert a + b == b;
    } else {
      assert (a + b)[1..] == a[1..] + b;
      RekeyedConcat(a[1..], b, s, k);
    }
  }

  lemma {:induction false} RekeyedFlatten(chains: seq<Chain>, s: StateId, k: nat)
    ensures Flatten(RekeyedAll(chains, s, k)) == Rekeyed(Flatten(chains), s, k)
    decreases |chains|
  {
    if chains != [] {
      var n := |chains| - 1;
      RekeyedFlatten(chains[..n], s, k);
      RekeyedConcat(Flatten(chains[..n]), chains[n], s, k);
      assert RekeyedAll(chains, s, k)[..n] == RekeyedAll(chains[..n], s, k);
    }
  }

  lemma {:induction false} ChainMember(chains: seq<Chain>, i: nat, e: Entry<nat, StateId>)
    requires i < |chains| && e in chains[i]
    ensures e in Flatten(chains)
    decreases |chains|
  {
    var n := |chains| - 1;
    if i < n { ChainMember(chains[..n], i, e); }
  }

  lemma {:induction false} KeepMember(list: Chain, mask: nat, j: nat, e: Entry<nat, StateId>)
    ensures e in Keep(list, Identity, mask, j) <==> e in list && And(e.key, mask) == j
  {
    if list != [] { KeepMember(list[1..], mask, j, e); }
  }

  lemma AppendedMember(chains: seq<Chain>, k: nat, s: StateId, e: Entry<nat, StateId>)
    requires |chains| > 0
    ensures e in Flatten(Appended(chains, Identity, k, s)) <==> e in Flatten(chains) || e == Entry(k, s)
  {
    var chains', b := Appended(chains, Identity, k, s), Bucket(Identity, k, |chains|);
    if e in Flatten(chains') {
      var i := InSomeChain(chains', e);
      if e in chains[i] { ChainMember(chains, i, e); }
    }
    if e in Flatten(chains) {
      var i := InSomeChain(chains, e);
      ChainMember(chains', i, e);
    }
    assert Entry(k, s) in chains'[b];
    ChainMember(chains', b, Entry(k, s));
  }

  lemma RedistributedMember(chains: seq<Chain>, chains': seq<Chain>, e: Entry<nat, StateId>)
    requires Redistributed(chains, chains', Identity) && e in Flatten(chains')
    ensures e in Flatten(chains)
  {
    var i := InSomeChain(chains', e);
    assert chains'[i] == Keep(Flatten(chains), Identity, |chains'| - 1, i);
    KeepMember(Flatten(chains), |chains'| - 1, i, e);
  }

  lemma MemberRedistributed(chains: seq<Chain>, chains': seq<Chain>, e: Entry<nat, StateId>)
    requires Redistributed(chains, chains', Identity) && e in Flatten(chains)
    ensures e in chains'[Bucket(Identity, e.key, |chains'|)]
  {
    var i := Bucket(Identity, e.key, |chains'|);
    assert chains'[i] == Keep(Flatten(chains), Identity, |chains'| - 1, i);
    KeepMember(Flatten(chains), |chains'| - 1, i, e);
  }

  lemma InsertedMember(chains: seq<Chain>, chains': seq<Chain>, k: nat, s: StateId, e: Entry<nat, StateId>)
    requires InsertedInto(chains, chains', k, s)
    ensures e in Flatten(chains') ==> e in Flatten(chains) || e == Entry(k, s)
  {
    AppendedMember(chains, k, s, e);
    if Lookup(chains, Identity, k).None? && chains' != Appended(chains, Identity, k, s) && e in Flatten(chains') {
      RedistributedMember(Appended(chains, Identity, k, s), chains', e);
    }
  }

  // An entry that is in the chain of its key is still there after an insertion.
  lemma InsertedKeeps(chains: seq<Chain>, chains': seq<Chain>, k: nat, s: StateId, e: Entry<nat, StateId>)
    requires InsertedInto(chains, chains', k, s) && e in chains[Bucket(Identity, e.key, |chains|)]
    ensures |chains'| > 0 && e in chains'[Bucket(Identity, e.key, |chains'|)]
  {
    if Lookup(chains, Identity, k).None? && chains' != Appended(chains, Identity, k, s) {
      ChainMember(chains, Bucket(Identity, e.key, |chains|), e);
      AppendedMember(chains, k, s, e);
      MemberRedistributed(Appended(chains, Identity, k, s), chains', e);
    }
  }

  // ---------- counting keys ----------

  function Count(chain: Chain, k: nat): nat {
    if chain == [] then 0 else (if chain[0].key == k then 1 else 0) + Count(chain[1..], k)
  }

  lemma {:induction false} CountConcat(a: Chain, b: Chain, k: nat)
    ensures Count(a + b, k) == Count(a, k) + Count(b, k)
  {
    if a == [] {
      assert a + b == b;
    } else {
      assert (a + b)[1..] == a[1..] + b;
      CountConcat(a[1..], b, k);
    }
  }

  lemma {:induction false} CountFound(chain: Chain, k: nat)
    ensures Count(chain, k) == 0 <==> Find(chain, k).None?
    ensures Unique(chain) ==> Count(chain, k) <= 1
  {
    if chain != [] { CountFound(chain[1..], k); }
  }

  lemma {:induction false} CountKeep(list: Chain, mask: nat, k: nat)
    ensures Count(Keep(list, Identity, mask, And(k, mask)), k) == Count(list, k)
  {
    if list != [] {
      var rest := Keep(list[1..], Identity, mask, And(k, mask));
      CountKeep(list[1..], mask, k);
      assert ([list[0]] + rest)[1..] == rest && [] + rest == rest;
    }
  }

  lemma {:induction false} CountRekeyed(chain: Chain, s: StateId, k: nat, e: Entry<nat, StateId>)
    ensures Count(Rekeyed(chain, s, k), k) >= Count(chain, k)
    ensures e in chain && e.data == s && e.key != k ==> Count(Rekeyed(chain, s, k), k) > Count(chain, k)
  {
    if chain != [] { CountRekeyed(chain[1..], s, k, e); }
  }

  lemma {:induction false} CountUpdate(chains: seq<Chain>, i: nat, c: Chain, k: nat)
    requires i < |chains|
    ensures Count(Flatten(chains[i := c]), k) == Count(Flatten(chains), k) - Count(chains[i], k) + Count(c, k)
    decreases |chains|
  {
    var n := |chains| - 1;
    CountConcat(Flatten(chains[..n]), chains[n], k);
    if i == n {
      assert chains[i := c][..n] == chains[..n];
      CountConcat(Flatten(chains[..n]), c, k);
    } else {
      assert chains[i := c][..n] == chains[..n][i := c];
      CountUpdate(chains[..n], i, c, k);
      CountConcat(Flatten(chains[..n][i := c]), chains[n], k);
    }
  }

  lemma CountAppended(chains: seq<Chain>, k: nat, s: StateId)
    requires |chains| > 0
    ensures Count(Flatten(Appended(chains, Identity, k, s)), k) == Count(Flatten(chains), k) + 1
  {
    var b := Bucket(Identity, k, |chains|);
    CountConcat(chains[b], [Entry(k, s)], k);
    CountUpdate(chains, b, chains[b] + [Entry(k, s)], k);
  }

  lemma PlacedOnce(chains: seq<Chain>, k: nat)
    requires WellPlaced(chains, Identity)
    ensures Count(Flatten(chains), k) <= 1
  {
    FlattenUnique(chains, Identity, |chains|);
    assert chains[..|chains|] == chains;
    CountFound(Flatten(chains), k);
  }

  // A key that two nodes had before growing is a key that two nodes have.
  lemma OnceBeforeGrowing(chains: seq<Chain>, chains': seq<Chain>, k: nat)
    requires Redistributed(chains, chains', Identity) && WellPlaced(chains', Identity)
    ensures Count(Flatten(chains), k) <= 1
  {
    var j := Bucket(Identity, k, |chains'|);
    CountKeep(Flatten(chains), |chains'| - 1, k);
    CountFound(chains'[j], k);
    assert GoodChain(chains', Identity, j);
  }

  // ---------- the key of a state is changed, and the state inserted ----------

  lemma ThroughAfter(chains: seq<Chain>, chains': seq<Chain>, keys: map<StateId, nat>, s: StateId, k: nat)
    requires Through(chains, keys) && s in keys && InsertedInto(RekeyedAll(chains, s, k), chains', k, s)
    ensures Through(chains', keys[s := k])
  {
    var chains1 := RekeyedAll(chains, s, k);
    RekeyedFlatten(chains, s, k);
    forall e | e in Flatten(chains')
      ensures e.data in keys[s := k] && e.key == keys[s := k][e.data]
    {
      InsertedMember(chains1, chains', k, s, e);
      if e in Flatten(chains1) { var e' := MemberRekeyed(Flatten(chains), s, k, e); }
    }
  }

  // A state that is new, or keeps its key, changes no node.
  lemma NothingRekeyed(chains: seq<Chain>, keys: map<StateId, nat>, s: StateId, k: nat)
    requires Through(chains, keys) && s in keys && (!InTable(chains, s) || keys[s] == k)
    ensures RekeyedAll(chains, s, k) == chains
  {
    forall i | 0 <= i < |chains|
      ensures Rekeyed(chains[i], s, k) == chains[i]
    {
      forall e | e in chains[i] && e.data == s
        ensures e.key == k
      {
        ChainMember(chains, i, e);
      }
      RekeyedSame(chains[i], s, k);
    }
  }

  // Where the node of a state stands in a table that is well placed.
  lemma NodeOf(chains: seq<Chain>, keys: map<StateId, nat>, s: StateId)
    requires WellPlaced(chains, Identity) && Through(chains, keys) && s in keys && InTable(chains, s)
    ensures Entry(keys[s], s) in Flatten(chains)
    ensures Entry(keys[s], s) in chains[Bucket(Identity, keys[s], |chains|)]
    ensures forall i, e :: 0 <= i < |chains| && e in chains[i] && e.data == s ==>
      e.key == keys[s] && i == Bucket(Identity, keys[s], |chains|)
    ensures forall e :: e in Flatten(chains) && e.key == keys[s] ==> e.data == s
  {
    forall i, e | 0 <= i < |chains| && e in chains[i] && e.data == s
      ensures e.key == keys[s] && i == Bucket(Identity, keys[s], |chains|)
    {
      ChainMember(chains, i, e);
      assert GoodChain(chains, Identity, i);
      InBucketIn(chains[i], Identity, |chains| - 1, i, e);
    }
    var e :| e in Flatten(chains) && e.data == s;
    var i := InSomeChain(chains, e);
    assert e == Entry(keys[s], s) && e in chains[i];
    FlattenUnique(chains, Identity, |chains|);
    assert chains[..|chains|] == chains;
    FindMember(Flatten(chains), e);
    forall e' | e' in Flatten(chains) && e'.key == keys[s]
      ensures e'.data == s
    {
      FindMember(Flatten(chains), e');
    }
  }

  // The new key is free, and belongs into the chain in which the node stands.
  predicate Harmless(chains: seq<Chain>, from: nat, to: nat)
    requires |chains| > 0
  {
    Lookup(chains, Identity, to).None? && Bucket(Identity, from, |chains|) == Bucket(Identity, to, |chains|)
  }

  lemma NoneFound(chains: seq<Chain>, k: nat)
    requires |chains| > 0 && forall e :: e in Flatten(chains) ==> e.key != k
    ensures Lookup(chains, Identity, k) == None
  {
    var b := Bucket(Identity, k, |chains|);
    if Find(chains[b], k).Some? { FoundInFlatten(chains, b, k); }
  }

  // A state that is given another key is not found under its old key any more.
  lemma OldKeyLost(chains: seq<Chain>, chains': seq<Chain>, keys: map<StateId, nat>, s: StateId, k: nat)
    requires WellPlaced(chains, Identity) && Through(chains, keys) && s in keys && InTable(chains, s) && keys[s] != k
    requires InsertedInto(RekeyedAll(chains, s, k), chains', k, s) && |chains'| > 0
    ensures Lookup(chains', Identity, keys[s]) == None
  {
    var chains1 := RekeyedAll(chains, s, k);
    RekeyedFlatten(chains, s, k);
    NodeOf(chains, keys, s);
    forall e | e in Flatten(chains')
      ensures e.key != keys[s]
    {
      InsertedMember(chains1, chains', k, s, e);
      if e in Flatten(chains1) { var e' := MemberRekeyed(Flatten(chains), s, k, e); }
    }
    NoneFound(chains', keys[s]);
  }

  lemma NotThere(chains: seq<Chain>, k: nat)
    requires WellPlaced(chains, Identity) && Lookup(chains, Identity, k).None?
    ensures forall e :: e in Flatten(chains) ==> e.key != k
  {
    LookupIsFind(chains, Identity, k);
    forall e | e in Flatten(chains)
      ensures e.key != k
    {
      if e.key == k { MemberFound(Flatten(chains), e); }
    }
  }

  // Unless the change is harmless, two nodes have the new key, or its node
  // stands in the wrong chain and another one is inserted.
  lemma Misplaced(chains: seq<Chain>, chains': seq<Chain>, keys: map<StateId, nat>, s: StateId, k: nat)
    requires WellPlaced(chains, Identity) && Through(chains, keys) && s in keys && InTable(chains, s) && keys[s] != k
    requires InsertedInto(RekeyedAll(chains, s, k), chains', k, s) && !Harmless(chains, keys[s], k)
    ensures !WellPlaced(chains', Identity)
  {
    var chains1, all := RekeyedAll(chains, s, k), Flatten(chains);
    RekeyedFlatten(chains, s, k);
    NodeOf(chains, keys, s);
    CountRekeyed(all, s, k, Entry(keys[s], s));
    LookupIsFind(chains, Identity, k);
    CountFound(all, k);
    if Lookup(chains, Identity, k).Some? {
      FoundAfterRekeying(chains, keys, s, k);
      PlacedOnceNot(chains', k);
    } else {
      NotFoundElsewhere(chains, keys, s, k);
      CountAppended(chains1, k, s);
      var app := Appended(chains1, Identity, k, s);
      if chains' == app {
        PlacedOnceNot(chains', k);
      } else if WellPlaced(chains', Identity) {
        OnceBeforeGrowing(app, chains', k);
      }
    }
  }

  lemma PlacedOnceNot(chains: seq<Chain>, k: nat)
    requires Count(Flatten(chains), k) >= 2
    ensures !WellPlaced(chains, Identity)
  {
    if WellPlaced(chains, Identity) { PlacedOnce(chains, k); }
  }

  // A key that another state has is found after the change, too.
  lemma FoundAfterRekeying(chains: seq<Chain>, keys: map<StateId, nat>, s: StateId, k: nat)
    requires WellPlaced(chains, Identity) && Through(chains, keys) && s in keys && keys[s] != k
    requires Lookup(chains, Identity, k).Some?
    ensures Lookup(RekeyedAll(chains, s, k), Identity, k).Some?
  {
    var b := Bucket(Identity, k, |chains|);
    var e := FoundIn(chains[b], k);
    RekeyedMember(chains[b], s, k, e);
    MemberFound(Rekeyed(chains[b], s, k), if e.data == s then Entry(k, s) else e);
  }

  lemma {:induction false} MemberFound(chain: Chain, e: Entry<nat, StateId>)
    requires e in chain
    ensures Find(chain, e.key).Some?
  {
    if chain[0] != e { MemberFound(chain[1..], e); }
  }

  // A free key that belongs into another chain is not found after the change.
  lemma NotFoundElsewhere(chains: seq<Chain>, keys: map<StateId, nat>, s: StateId, k: nat)
    requires WellPlaced(chains, Identity) && Through(chains, keys) && s in keys && InTable(chains, s)
    requires Lookup(chains, Identity, k).None?
    requires Bucket(Identity, keys[s], |chains|) != Bucket(Identity, k, |chains|)
    ensures Lookup(RekeyedAll(chains, s, k), Identity, k).None?
  {
    var b := Bucket(Identity, k, |chains|);
    NodeOf(chains, keys, s);
    RekeyedSame(chains[b], s, k);
  }

  // After a harmless change, the node is where it should be, and the insertion
  // finds it.
  lemma HarmlessKeeps(chains: seq<Chain>, keys: map<StateId, nat>, s: StateId, k: nat)
    requires WellPlaced(chains, Identity) && Through(chains, keys) && s in keys && InTable(chains, s) && keys[s] != k
    requires Harmless(chains, keys[s], k)
    ensures WellPlaced(RekeyedAll(chains, s, k), Identity)
    ensures Lookup(RekeyedAll(chains, s, k), Identity, k) == Some(s)
  {
    var chains1, b := RekeyedAll(chains, s, k), Bucket(Identity, k, |chains|);
    NodeOf(chains, keys, s);
    forall i | 0 <= i < |chains1|
      ensures GoodChain(chains1, Identity, i)
    {
      assert GoodChain(chains, Identity, i);
      if i == b {
        RekeyedGood(chains[b], |chains| - 1, b, keys[s], s, k);
      } else {
        RekeyedSame(chains[i], s, k);
      }
    }
    RekeyedMember(chains[b], s, k, Entry(keys[s], s));
    assert GoodChain(chains1, Identity, b);
    FindMember(chains1[b], Entry(k, s));
  }

  lemma {:induction false} RekeyedGood(chain: Chain, mask: nat, b: nat, from: nat, s: StateId, k: nat)
    requires Unique(chain) && InBucket(chain, Identity, mask, b) && And(k, mask) == b && Find(chain, k).None?
    requires forall e :: e in chain && e.data == s ==> e.key == from
    ensures Unique(Rekeyed(chain, s, k)) && InBucket(Rekeyed(chain, s, k), Identity, mask, b)
  {
    if chain != [] {
      var rest := chain[1..];
      RekeyedGood(rest, mask, b, from, s, k);
      RekeyedElsewhere(rest, from, s, k, chain[0].key);
      if chain[0].data == s {
        CountFound(rest, from);
        forall e | e in rest
          ensures e.data != s
        {
          if e.data == s { MemberFound(rest, e); }
        }
        RekeyedSame(rest, s, k);
      }
      assert Rekeyed(chain, s, k)[1..] == Rekeyed(rest, s, k);
    }
  }

  lemma {:induction false} RekeyedElsewhere(chain: Chain, from: nat, s: StateId, k: nat, x: nat)
    requires x != k && Find(chain, x).None?
    ensures Find(Rekeyed(chain, s, k), x).None?
  {
    if chain != [] { RekeyedElsewhere(chain[1..], from, s, k, x); }
  }

  // The new key is found in any case.
  lemma NewKeyFound(chains: seq<Chain>, chains': seq<Chain>, s: StateId, k: nat)
    requires InsertedInto(chains, chains', k, s)
    ensures |chains'| > 0 && Lookup(chains', Identity, k).Some?
  {
    var e, b := Entry(k, s), Bucket(Identity, k, |chains|);
    if Lookup(chains, Identity, k).None? {
      var app := Appended(chains, Identity, k, s);
      assert app[b][|chains[b]|] == e;
      if chains' == app {
        MemberFound(app[b], e);
      } else {
        ChainMember(app, b, e);
        MemberRedistributed(app, chains', e);
        MemberFound(chains'[Bucket(Identity, k, |chains'|)], e);
      }
    }
  }

  // ... and finds the state, if no state had this key before.
  lemma NewKeyFinds(chains: seq<Chain>, chains': seq<Chain>, s: StateId, k: nat)
    requires InsertedInto(RekeyedAll(chains, s, k), chains', k, s)
    requires forall e :: e in Flatten(chains) ==> e.key != k
    ensures |chains'| > 0 && Lookup(chains', Identity, k) == Some(s)
  {
    NewKeyFound(RekeyedAll(chains, s, k), chains', s, k);
    RekeyedFlatten(chains, s, k);
    var b := Bucket(Identity, k, |chains'|);
    var e := FoundIn(chains'[b], k);
    ChainMember(chains', b, e);
    InsertedMember(RekeyedAll(chains, s, k), chains', k, s, e);
    if e != Entry(k, s) { var e' := MemberRekeyed(Flatten(chains), s, k, e); }
  }

  // Whoever has another key is found as before.
  lemma OthersFound(chains: seq<Chain>, chains': seq<Chain>, keys: map<StateId, nat>, s: StateId, k: nat, x: nat)
    requires WellPlaced(chains, Identity) && Through(chains, keys) && s in keys && x != k
    requires InTable(chains, s) ==> x != keys[s]
    requires InsertedInto(RekeyedAll(chains, s, k), chains', k, s) && |chains'| > 0
    ensures Lookup(chains', Identity, x) == Lookup(chains, Identity, x)
  {
    var chains1, all := RekeyedAll(chains, s, k), Flatten(chains);
    RekeyedFlatten(chains, s, k);
    LookupIsFind(chains, Identity, x);
    forall e | e in Flatten(chains') && e.key == x
      ensures e in all && e.data != s
    {
      InsertedMember(chains1, chains', k, s, e);
      var e' := MemberRekeyed(all, s, k, e);
    }
    if Find(all, x).None? {
      forall e | e in Flatten(chains')
        ensures e.key != x
      {
        if e.key == x { MemberFound(all, e); }
      }
      NoneFound(chains', x);
    } else {
      OtherFound(chains, chains', keys, s, k, x);
    }
  }

  lemma OtherFound(chains: seq<Chain>, chains': seq<Chain>, keys: map<StateId, nat>, s: StateId, k: nat, x: nat)
    requires WellPlaced(chains, Identity) && Through(chains, keys) && s in keys && x != k
    requires InTable(chains, s) ==> x != keys[s]
    requires InsertedInto(RekeyedAll(chains, s, k), chains', k, s) && |chains'| > 0
    requires Lookup(chains, Identity, x).Some?
    requires forall e :: e in Flatten(chains') && e.key == x ==> e in Flatten(chains)
    ensures Lookup(chains', Identity, x) == Lookup(chains, Identity, x)
  {
    var b, b' := Bucket(Identity, x, |chains|), Bucket(Identity, x, |chains'|);
    var e := FoundIn(chains[b], x);
    ChainMember(chains, b, e);
    RekeyedMember(chains[b], s, k, e);
    InsertedKeeps(RekeyedAll(chains, s, k), chains', k, s, e);
    MemberFound(chains'[b'], e);
    var e' := FoundIn(chains'[b'], x);
    ChainMember(chains', b', e');
    FlattenUnique(chains, Identity, |chains|);
    assert chains[..|chains|] == chains;
    FindMember(Flatten(chains), e);
    FindMember(Flatten(chains), e');
  }

  // ---------- what fsm_add_state does to a table that is well placed ----------

  // State s, whose key was keys[s], has been given key k and been inserted.
  ghost predicate Outcome(chains: seq<Chain>, chains': seq<Chain>, keys: map<StateId, nat>, s: StateId, k: nat,
                          taken: bool)
    requires |chains| > 0 && |chains'| > 0 && s in keys
  {
    // the key is reported taken if it is, or if the node of s itself stands
    // in its chain
    && (taken <==> Lookup(chains, Identity, k).Some? ||
                   (InTable(chains, s) && Bucket(Identity, keys[s], |chains|) == Bucket(Identity, k, |chains|)))
    // the table is still well placed if and only if s is new, or keeps its
    // key, or stays in its chain under a key that is free
    && (WellPlaced(chains', Identity) <==> !InTable(chains, s) || keys[s] == k || Harmless(chains, keys[s], k))
    // a key that s has lost is not found, the new one is, and finds s if no
    // other state had it, and all others are found as before
    && (InTable(chains, s) && keys[s] != k ==> Lookup(chains', Identity, keys[s]) == None)
    && Lookup(chains', Identity, k).Some?
    && (Lookup(chains, Identity, k).None? ==> Lookup(chains', Identity, k) == Some(s))
    && forall x: nat {:trigger Lookup(chains', Identity, x)} :: x != k && (InTable(chains, s) ==> x != keys[s]) ==>
         Lookup(chains', Identity, x) == Lookup(chains, Identity, x)
  }

  lemma InsertPlaced(chains: seq<Chain>, chains': seq<Chain>, k: nat, s: StateId, e: nat)
    requires WellPlaced(chains, Identity) && |chains| == Pow2(e) && InsertedInto(chains, chains', k, s)
    ensures WellPlaced(chains', Identity)
  {
    var model := PlacedRepresents(chains, Identity);
    assert Lookup(chains, Identity, k) == if k in model then Some(model[k]) else None;
    if k !in model {
      var app := Appended(chains, Identity, k, s);
      InsertRepresents(chains, Identity, model, k, s);
      if chains' != app {
        RedistributedIsRehashed(app, chains', Identity, e);
        RehashedRepresents(app, chains', Identity, model[k := s], e);
      }
    }
  }

  lemma Taken(chains: seq<Chain>, keys: map<StateId, nat>, s: StateId, k: nat)
    requires WellPlaced(chains, Identity) && Through(chains, keys) && s in keys
    ensures Lookup(RekeyedAll(chains, s, k), Identity, k).Some? <==>
            Lookup(chains, Identity, k).Some? ||
            (InTable(chains, s) && Bucket(Identity, keys[s], |chains|) == Bucket(Identity, k, |chains|))
  {
    if !InTable(chains, s) || keys[s] == k {
      NothingRekeyed(chains, keys, s, k);
      if InTable(chains, s) {
        NodeOf(chains, keys, s);
        MemberFound(chains[Bucket(Identity, k, |chains|)], Entry(k, s));
      }
    } else if Lookup(chains, Identity, k).Some? {
      FoundAfterRekeying(chains, keys, s, k);
    } else if Harmless(chains, keys[s], k) {
      HarmlessKeeps(chains, keys, s, k);
    } else {
      NotFoundElsewhere(chains, keys, s, k);
    }
  }

  lemma PlacedIff(chains: seq<Chain>, chains': seq<Chain>, keys: map<StateId, nat>, s: StateId, k: nat, e: nat)
    requires WellPlaced(chains, Identity) && Through(chains, keys) && s in keys && |chains| == Pow2(e)
    requires InsertedInto(RekeyedAll(chains, s, k), chains', k, s)
    ensures WellPlaced(chains', Identity) <==> !InTable(chains, s) || keys[s] == k || Harmless(chains, keys[s], k)
  {
    if !InTable(chains, s) || keys[s] == k {
      NothingRekeyed(chains, keys, s, k);
      InsertPlaced(chains, chains', k, s, e);
    } else if Harmless(chains, keys[s], k) {
      HarmlessKeeps(chains, keys, s, k);
    } else {
      Misplaced(chains, chains', keys, s, k);
    }
  }

  lemma AddingHasOutcome(chains: seq<Chain>, chains': seq<Chain>, keys: map<StateId, nat>, s: StateId, k: nat, e: nat)
    requires WellPlaced(chains, Identity) && Through(chains, keys) && s in keys && |chains| == Pow2(e)
    requires InsertedInto(RekeyedAll(chains, s, k), chains', k, s)
    ensures |chains'| > 0
    ensures Outcome(chains, chains', keys, s, k, Lookup(RekeyedAll(chains, s, k), Identity, k).Some?)
  {
    NewKeyFound(RekeyedAll(chains, s, k), chains', s, k);
    if Lookup(chains, Identity, k).None? {
      NotThere(chains, k);
      NewKeyFinds(chains, chains', s, k);
    }
    Taken(chains, keys, s, k);
    PlacedIff(chains, chains', keys, s, k, e);
    if InTable(chains, s) && keys[s] != k { OldKeyLost(chains, chains', keys, s, k); }
    forall x: nat | x != k && (InTable(chains, s) ==> x != keys[s])
      ensures Lookup(chains', Identity, x) == Lookup(chains, Identity, x)
    {
      OthersFound(chains, chains', keys, s, k, x);
    }
  }

  lemma NoEntries(chains: seq<Chain>)
    requires |chains| > 0 && forall i {:trigger chains[i]} :: 0 <= i < |chains| ==> chains[i] == []
    ensures Flatten(chains) == [] && WellPlaced(chains, Identity)
  {
    TotalEmpty(chains);
    FlattenTotal(chains);
    forall i | 0 <= i < |chains|
      ensures GoodChain(chains, Identity, i)
    {
    }
  }

  lemma {:induction false} RekeyedTotal(chains: seq<Chain>, s: StateId, k: nat)
    ensures Total(RekeyedAll(chains, s, k)) == Total(chains)
  {
    if chains != [] {
      RekeyedTotal(chains[1..], s, k);
      assert RekeyedAll(chains, s, k)[1..] == RekeyedAll(chains[1..], s, k);
    }
  }
}
