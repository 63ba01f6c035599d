// Hash chains as values: what a lookup finds, how a rehash distributes a
// chain, and in what order the entries of a table are visited.
module Chains {
  import opened Options
  import opened Powers

  datatype Entry<K, V> = Entry(key: K, data: V)

  // ---------- the bucket of a hash value ----------

  // Bitwise and.
  function And(a: nat, b: nat): (r: nat)
    ensures r <= a && r <= b
  {
    if a == 0 || b == 0 then 0
    else 2 * And(a / 2, b / 2) + if a % 2 == 1 && b % 2 == 1 then 1 else 0
  }

  // Masking with size - 1 is the remainder modulo size if size is a power of 2.
  lemma {:induction false} AndMask(h: nat, e: nat)
    ensures And(h, Pow2(e) - 1) == h % Pow2(e)
    decreases e
  {
    if e == 0 {
      DivModUnique(h, 1, h, 0);
    } else if h == 0 {
      DivModUnique(0, Pow2(e), 0, 0);
    } else {
      AndMask(h / 2, e - 1);
      DoubleMod(h, Pow2(e - 1));
      assert (Pow2(e) - 1) / 2 == Pow2(e - 1) - 1 && (Pow2(e) - 1) % 2 == 1;
    }
  }

  lemma DoubleMod(h: nat, m: nat)
    requires m > 0
    ensures h % (2 * m) == 2 * ((h / 2) % m) + h % 2
  {
    var q, r := (h / 2) / m, (h / 2) % m;
    assert h / 2 == m * q + r;
    assert m * q == q * m && q * (2 * m) == 2 * (q * m);
    DivModUnique(h, 2 * m, q, 2 * r + h % 2);
  }

  // The bucket in a table of double size leads back to the bucket before.
  lemma ModOfMod(h: nat, n: nat)
    requires n > 0
    ensures (h % (2 * n)) % n == h % n
  {
    var q, r := h / (2 * n), h % (2 * n);
    assert h == (2 * n) * q + r;
    var q', r' := r / n, r % n;
    assert r == n * q' + r';
    assert h == (2 * q + q') * n + r' by {
      assert (2 * q + q') * n == (2 * n) * q + n * q';
    }
    DivModUnique(h, n, 2 * q + q', r');
  }

  // ---------- one chain ----------

  // The data of the first entry with key k.
  function Find<K(==), V>(chain: seq<Entry<K, V>>, k: K): Option<V> {
    if chain == [] then None
    else if chain[0].key == k then Some(chain[0].data)
    else Find(chain[1..], k)
  }

  // No two entries have the same key.
  predicate Unique<K(==), V>(chain: seq<Entry<K, V>>) {
    chain != [] ==> Find(chain[1..], chain[0].key).None? && Unique(chain[1..])
  }

  // All entries hash to bucket b under a mask.
  predicate InBucket<K, V>(chain: seq<Entry<K, V>>, hash: K -> nat, mask: nat, b: nat) {
    chain != [] ==> And(hash(chain[0].key), mask) == b && InBucket(chain[1..], hash, mask, b)
  }

  // The chain with the first entry with key k unlinked.
  function Unlink<K(==), V>(chain: seq<Entry<K, V>>, k: K): seq<Entry<K, V>> {
    if chain == [] then [] else if chain[0].key == k then chain[1..] else [chain[0]] + Unlink(chain[1..], k)
  }

  lemma {:induction false} AppendFind<K, V>(chain: seq<Entry<K, V>>, e: Entry<K, V>, k: K)
    requires Find(chain, e.key).None?
    ensures Find(chain + [e], k) == if k == e.key then Some(e.data) else Find(chain, k)
    ensures Unique(chain) ==> Unique(chain + [e])
  {
    if chain != [] {
      assert (chain + [e])[1..] == chain[1..] + [e];
      AppendFind(chain[1..], e, k);
      AppendFind(chain[1..], e, chain[0].key);
    }
  }

  lemma {:induction false} AppendInBucket<K, V>(
      chain: seq<Entry<K, V>>, e: Entry<K, V>, hash: K -> nat, mask: nat, b: nat)
    requires InBucket(chain, hash, mask, b) && And(hash(e.key), mask) == b
    ensures InBucket(chain + [e], hash, mask, b)
  {
    if chain != [] {
      assert (chain + [e])[1..] == chain[1..] + [e];
      AppendInBucket(chain[1..], e, hash, mask, b);
    }
  }

  lemma {:induction false} UnlinkFind<K, V>(chain: seq<Entry<K, V>>, k: K, k': K)
    requires Unique(chain)
    ensures Find(Unlink(chain, k), k') == if k' == k then None else Find(chain, k')
    ensures Unique(Unlink(chain, k))
    ensures |Unlink(chain, k)| == |chain| - if Find(chain, k).Some? then 1 else 0
  {
    if chain != [] && chain[0].key != k {
      UnlinkFind(chain[1..], k, k');
      UnlinkFind(chain[1..], k, chain[0].key);
    }
  }

  lemma {:induction false} UnlinkInBucket<K, V>(chain: seq<Entry<K, V>>, k: K, hash: K -> nat, mask: nat, b: nat)
    requires InBucket(chain, hash, mask, b)
    ensures InBucket(Unlink(chain, k), hash, mask, b)
  {
    if chain != [] && chain[0].key != k {
      UnlinkInBucket(chain[1..], k, hash, mask, b);
    }
  }

  // ---------- rehashing ----------

  // The entries of a chain that go to bucket j, in order.
  function Keep<K, V>(chain: seq<Entry<K, V>>, hash: K -> nat, mask: nat, j: nat): seq<Entry<K, V>> {
    if chain == [] then []
    else (if And(hash(chain[0].key), mask) == j then [chain[0]] else []) + Keep(chain[1..], hash, mask, j)
  }

  lemma {:induction false} KeepAppend<K, V>(
      chain: seq<Entry<K, V>>, e: Entry<K, V>, hash: K -> nat, mask: nat, j: nat)
    ensures Keep(chain + [e], hash, mask, j) ==
            Keep(chain, hash, mask, j) + if And(hash(e.key), mask) == j then [e] else []
  {
    if chain == [] {
      assert [e][1..] == [];
      assert chain + [e] == [e];
    } else {
      var x := if And(hash(chain[0].key), mask) == j then [chain[0]] else [];
      assert (chain + [e])[1..] == chain[1..] + [e];
      KeepAppend(chain[1..], e, hash, mask, j);
      assert Keep(chain + [e], hash, mask, j) == x + Keep(chain[1..] + [e], hash, mask, j);
    }
  }

  lemma {:induction false} KeepFind<K, V>(chain: seq<Entry<K, V>>, hash: K -> nat, mask: nat, j: nat, k: K)
    ensures And(hash(k), mask) == j ==> Find(Keep(chain, hash, mask, j), k) == Find(chain, k)
    ensures Find(chain, k).None? ==> Find(Keep(chain, hash, mask, j), k).None?
    ensures Unique(chain) ==> Unique(Keep(chain, hash, mask, j))
    ensures InBucket(Keep(chain, hash, mask, j), hash, mask, j)
  {
    if chain != [] {
      KeepFind(chain[1..], hash, mask, j, k);
      KeepFind(chain[1..], hash, mask, j, chain[0].key);
      var rest := Keep(chain[1..], hash, mask, j);
      assert ([chain[0]] + rest)[1..] == rest;
      assert [] + rest == rest;
    }
  }

  // ---------- all chains ----------

  function Total<K, V>(chains: seq<seq<Entry<K, V>>>): nat {
    if chains == [] then 0 else |chains[0]| + Total(chains[1..])
  }

  lemma {:induction false} TotalUpdate<K, V>(chains: seq<seq<Entry<K, V>>>, i: nat, c: seq<Entry<K, V>>)
    requires i < |chains|
    ensures Total(chains[i := c]) == Total(chains) - |chains[i]| + |c|
  {
    if i == 0 {
      assert chains[i := c][1..] == chains[1..];
    } else {
      assert chains[i := c][1..] == chains[1..][i - 1 := c];
      TotalUpdate(chains[1..], i - 1, c);
    }
  }

  lemma {:induction false} TotalEmpty<K, V>(chains: seq<seq<Entry<K, V>>>)
    requires forall i {:trigger chains[i]} :: 0 <= i < |chains| ==> chains[i] == []
    ensures Total(chains) == 0
  {
    if chains != [] {
      forall i | 0 <= i < |chains[1..]|
        ensures chains[1..][i] == []
      {
        assert chains[1..][i] == chains[i + 1];
      }
      TotalEmpty(chains[1..]);
    }
  }

  // The entries in the order of htable_traverse: chain by chain.
  function Flatten<K, V>(chains: seq<seq<Entry<K, V>>>): seq<Entry<K, V>> {
    if chains == [] then [] else Flatten(chains[..|chains| - 1]) + chains[|chains| - 1]
  }

  lemma {:induction false} FlattenTotal<K, V>(chains: seq<seq<Entry<K, V>>>)
    ensures |Flatten(chains)| == Total(chains)
  {
    if chains != [] {
      var n := |chains| - 1;
      FlattenTotal(chains[..n]);
      TotalSnoc(chains[..n], chains[n]);
      assert chains == chains[..n] + [chains[n]];
    }
  }

  lemma {:induction false} TotalSnoc<K, V>(chains: seq<seq<Entry<K, V>>>, c: seq<Entry<K, V>>)
    ensures Total(chains + [c]) == Total(chains) + |c|
  {
    if chains == [] {
      assert Total([c]) == |c| + Total([c][1..]);
    } else {
      assert (chains + [c])[1..] == chains[1..] + [c];
      TotalSnoc(chains[1..], c);
    }
  }

  lemma FlattenTake<K, V>(chains: seq<seq<Entry<K, V>>>, i: nat)
    requires i < |chains|
    ensures Flatten(chains[..i + 1]) == Flatten(chains[..i]) + chains[i]
  {
    assert chains[..i + 1][..i] == chains[..i];
  }

  // What the iterator yields: the last chain is left after its first entry.
  function Visible<K, V>(chains: seq<seq<Entry<K, V>>>): seq<Entry<K, V>>
    requires |chains| > 0
  {
    var last := |chains| - 1;
    Flatten(chains[..last]) + if chains[last] == [] then [] else [chains[last][0]]
  }

  // The iterator visits everything exactly when the last chain has at most one entry.
  lemma VisibleIsAll<K, V>(chains: seq<seq<Entry<K, V>>>)
    requires |chains| > 0
    ensures Visible(chains) == Flatten(chains) <==> |chains[|chains| - 1]| <= 1
    ensures Visible(chains) <= Flatten(chains)
    ensures var last := |chains[|chains| - 1]|;
      |Flatten(chains)| - |Visible(chains)| == if last <= 1 then 0 else last - 1
  {
  }

  // ---------- a table as a map ----------

  function Bucket<K>(hash: K -> nat, k: K, size: nat): (b: nat)
    requires size > 0
    ensures b < size
  {
    And(hash(k), size - 1)
  }

  function Lookup<K(==), V>(chains: seq<seq<Entry<K, V>>>, hash: K -> nat, k: K): Option<V>
    requires |chains| > 0
  {
    Find(chains[Bucket(hash, k, |chains|)], k)
  }

  predicate GoodChain<K(==), V>(chains: seq<seq<Entry<K, V>>>, hash: K -> nat, i: nat)
    requires i < |chains|
  {
    Unique(chains[i]) && InBucket(chains[i], hash, |chains| - 1, i)
  }

  // Every entry is in the chain of its key, and no two have the same key.
  ghost predicate WellPlaced<K, V>(chains: seq<seq<Entry<K, V>>>, hash: K -> nat) {
    |chains| > 0 && forall i {:trigger GoodChain(chains, hash, i)} :: 0 <= i < |chains| ==> GoodChain(chains, hash, i)
  }

  // The table holds exactly the entries of the map, each in the chain of its key.
  ghost predicate Represents<K(!new), V>(chains: seq<seq<Entry<K, V>>>, hash: K -> nat, model: map<K, V>) {
    && WellPlaced(chains, hash)
    && (forall k {:trigger Lookup(chains, hash, k)} ::
         Lookup(chains, hash, k) == if k in model then Some(model[k]) else None)
    && Total(chains) == |model|
  }

  // An entry appended to the chain of its key.
  function Appended<K, V>(chains: seq<seq<Entry<K, V>>>, hash: K -> nat, k: K, v: V): seq<seq<Entry<K, V>>>
    requires |chains| > 0
  {
    var b := Bucket(hash, k, |chains|);
    chains[b := chains[b] + [Entry(k, v)]]
  }

  lemma InsertRepresents<K(!new), V>(
      chains: seq<seq<Entry<K, V>>>, hash: K -> nat, model: map<K, V>, k: K, v: V)
    requires Represents(chains, hash, model) && k !in model
    ensures Represents(Appended(chains, hash, k, v), hash, model[k := v])
  {
    var b, e := Bucket(hash, k, |chains|), Entry(k, v);
    var chains' := chains[b := chains[b] + [e]];
    assert Lookup(chains, hash, k) == None;
    TotalUpdate(chains, b, chains[b] + [e]);
    forall i | 0 <= i < |chains'|
      ensures GoodChain(chains', hash, i)
    {
      assert GoodChain(chains, hash, i);
      if i == b {
        AppendFind(chains[b], e, k);
        AppendInBucket(chains[b], e, hash, |chains| - 1, b);
      }
    }
    forall k'
      ensures Lookup(chains', hash, k') == if k' in model[k := v] then Some(model[k := v][k']) else None
    {
      assert Lookup(chains, hash, k') == if k' in model then Some(model[k']) else None;
      AppendFind(chains[b], e, k');
    }
  }

  lemma RemoveRepresents<K(!new), V>(chains: seq<seq<Entry<K, V>>>, hash: K -> nat, model: map<K, V>, k: K)
    requires Represents(chains, hash, model) && k in model
    ensures var b := Bucket(hash, k, |chains|); Represents(chains[b := Unlink(chains[b], k)], hash, model - {k})
  {
    var b := Bucket(hash, k, |chains|);
    var chains' := chains[b := Unlink(chains[b], k)];
    assert Lookup(chains, hash, k) == Some(model[k]);
    assert GoodChain(chains, hash, b);
    UnlinkFind(chains[b], k, k);
    TotalUpdate(chains, b, Unlink(chains[b], k));
    assert |model| == |model - {k}| + 1 by {
      assert model == (model - {k})[k := model[k]];
    }
    forall i | 0 <= i < |chains'|
      ensures GoodChain(chains', hash, i)
    {
      assert GoodChain(chains, hash, i);
      if i == b { UnlinkInBucket(chains[b], k, hash, |chains| - 1, b); }
    }
    forall k'
      ensures Lookup(chains', hash, k') == if k' in model - {k} then Some((model - {k})[k']) else None
    {
      assert Lookup(chains, hash, k') == if k' in model then Some(model[k']) else None;
      UnlinkFind(chains[b], k, k');
    }
  }

  lemma {:induction false} UniqueConcat<K, V>(a: seq<Entry<K, V>>, c: seq<Entry<K, V>>)
    requires Unique(a) && Unique(c) && forall e :: e in a ==> Find(c, e.key).None?
    ensures Unique(a + c)
  {
    if a == [] {
      assert a + c == c;
    } else {
      assert (a + c)[1..] == a[1..] + c;
      assert a[0] in a;
      UniqueConcat(a[1..], c);
      FindConcat(a[1..], c, a[0].key);
    }
  }

  lemma {:induction false} FindConcat<K, V>(a: seq<Entry<K, V>>, c: seq<Entry<K, V>>, k: K)
    ensures Find(a + c, k) == if Find(a, k).Some? then Find(a, k) else Find(c, k)
  {
    if a == [] {
      assert a + c == c;
    } else {
      assert (a + c)[1..] == a[1..] + c;
      FindConcat(a[1..], c, k);
    }
  }

  lemma UniquePrefix<K, V>(a: seq<Entry<K, V>>, c: seq<Entry<K, V>>)
    requires a <= c && Unique(c)
    ensures Unique(a)
  {
    if a != [] {
      UniquePrefix(a[1..], c[1..]);
      assert c[1..] == a[1..] + c[|a|..];
      FindConcat(a[1..], c[|a|..], a[0].key);
    }
  }

  lemma {:induction false} InBucketIn<K, V>(chain: seq<Entry<K, V>>, hash: K -> nat, mask: nat, b: nat, e: Entry<K, V>)
    requires InBucket(chain, hash, mask, b) && e in chain
    ensures And(hash(e.key), mask) == b
  {
    if chain[0] != e { InBucketIn(chain[1..], hash, mask, b, e); }
  }

  lemma {:induction false} InBucketFind<K, V>(chain: seq<Entry<K, V>>, hash: K -> nat, mask: nat, b: nat, k: K)
    requires InBucket(chain, hash, mask, b) && And(hash(k), mask) != b
    ensures Find(chain, k).None?
  {
    if chain != [] { InBucketFind(chain[1..], hash, mask, b, k); }
  }

  // ---------- the entries of a table ----------

  lemma {:induction false} FoundIn<K, V>(chain: seq<Entry<K, V>>, k: K) returns (e: Entry<K, V>)
    requires Find(chain, k).Some?
    ensures e in chain && e.key == k && e.data == Find(chain, k).value
  {
    if chain[0].key == k {
      e := chain[0];
    } else {
      e := FoundIn(chain[1..], k);
    }
  }

  lemma {:induction false} FoundInFlatten<K, V>(chains: seq<seq<Entry<K, V>>>, b: nat, k: K)
    requires b < |chains| && Find(chains[b], k).Some?
    ensures Entry(k, Find(chains[b], k).value) in Flatten(chains)
    decreases |chains|
  {
    var n := |chains| - 1;
    if b == n {
      var e := FoundIn(chains[n], k);
      assert e in Flatten(chains);
    } else {
      FoundInFlatten(chains[..n], b, k);
    }
  }

  lemma {:induction false} InSomeChain<K, V>(chains: seq<seq<Entry<K, V>>>, e: Entry<K, V>) returns (i: nat)
    requires e in Flatten(chains)
    ensures i < |chains| && e in chains[i]
    decreases |chains|
  {
    i := |chains| - 1;
    if e !in chains[i] {
      i := InSomeChain(chains[..i], e);
    }
  }

  lemma {:induction false} FindMember<K, V>(chain: seq<Entry<K, V>>, e: Entry<K, V>)
    requires Unique(chain) && e in chain
    ensures Find(chain, e.key) == Some(e.data)
  {
    if chain[0] != e {
      FindMember(chain[1..], e);
    }
  }

  lemma {:induction false} UniqueKeys<K, V>(chain: seq<Entry<K, V>>, i: nat, j: nat)
    requires Unique(chain) && i < j < |chain|
    ensures chain[i].key != chain[j].key
  {
    if i > 0 {
      UniqueKeys(chain[1..], i - 1, j - 1);
    } else {
      AbsentKey(chain[1..], chain[0].key, j - 1);
    }
  }

  lemma {:induction false} AbsentKey<K, V>(chain: seq<Entry<K, V>>, k: K, j: nat)
    requires Find(chain, k).None? && j < |chain|
    ensures chain[j].key != k
  {
    if j > 0 { AbsentKey(chain[1..], k, j - 1); }
  }

  // The entries that a traversal meets are exactly those of the map.
  lemma FlattenIsMap<K(!new), V>(chains: seq<seq<Entry<K, V>>>, hash: K -> nat, model: map<K, V>, e: Entry<K, V>)
    requires Represents(chains, hash, model)
    ensures e in Flatten(chains) <==> e.key in model && model[e.key] == e.data
  {
    var b := Bucket(hash, e.key, |chains|);
    assert Lookup(chains, hash, e.key) == if e.key in model then Some(model[e.key]) else None;
    if e in Flatten(chains) {
      var i := InSomeChain(chains, e);
      assert GoodChain(chains, hash, i);
      InBucketIn(chains[i], hash, |chains| - 1, i, e);
      FindMember(chains[i], e);
    } else if e.key in model && model[e.key] == e.data {
      FoundInFlatten(chains, b, e.key);
    }
  }

  lemma AllInBucket<K, V>(chain: seq<Entry<K, V>>, hash: K -> nat, mask: nat, b: nat)
    requires InBucket(chain, hash, mask, b)
    ensures forall e :: e in chain ==> And(hash(e.key), mask) == b
  {
    forall e | e in chain
      ensures And(hash(e.key), mask) == b
    {
      InBucketIn(chain, hash, mask, b, e);
    }
  }

  // The next chain shares no key with the chains before it.
  lemma UniqueNext<K, V>(front: seq<Entry<K, V>>, chain: seq<Entry<K, V>>, hash: K -> nat, mask: nat, i: nat)
    requires Unique(front) && Unique(chain) && InBucket(chain, hash, mask, i)
    requires forall e :: e in front ==> And(hash(e.key), mask) < i
    ensures Unique(front + chain)
    ensures forall e :: e in front + chain ==> And(hash(e.key), mask) <= i
  {
    forall e | e in front
      ensures Find(chain, e.key).None?
    {
      InBucketFind(chain, hash, mask, i, e.key);
    }
    UniqueConcat(front, chain);
    AllInBucket(chain, hash, mask, i);
  }

  // No key occurs twice in the first i chains.
  lemma {:induction false} FlattenUnique<K, V>(chains: seq<seq<Entry<K, V>>>, hash: K -> nat, i: nat)
    requires WellPlaced(chains, hash) && i <= |chains|
    ensures Unique(Flatten(chains[..i]))
    ensures forall e :: e in Flatten(chains[..i]) ==> And(hash(e.key), |chains| - 1) < i
  {
    if i > 0 {
      FlattenUnique(chains, hash, i - 1);
      FlattenTake(chains, i - 1);
      assert GoodChain(chains, hash, i - 1);
      UniqueNext(Flatten(chains[..i - 1]), chains[i - 1], hash, |chains| - 1, i - 1);
    }
  }

  // A table whose entries are well placed represents a map.
  lemma PlacedRepresents<K(!new), V>(chains: seq<seq<Entry<K, V>>>, hash: K -> nat) returns (model: map<K, V>)
    requires WellPlaced(chains, hash)
    ensures Represents(chains, hash, model)
  {
    var all := Flatten(chains);
    FlattenUnique(chains, hash, |chains|);
    assert chains[..|chains|] == chains;
    model := MapOf(all);
    MapOfSize(all);
    FlattenTotal(chains);
    forall k
      ensures Lookup(chains, hash, k) == if k in model then Some(model[k]) else None
    {
      MapOfFind(all, k);
      LookupIsFind(chains, hash, k);
    }
  }

  function MapOf<K, V>(list: seq<Entry<K, V>>): map<K, V> {
    if list == [] then map[] else MapOf(list[1..])[list[0].key := list[0].data]
  }

  lemma {:induction false} MapOfFind<K, V>(list: seq<Entry<K, V>>, k: K)
    ensures Find(list, k) == if k in MapOf(list) then Some(MapOf(list)[k]) else None
  {
    if list != [] { MapOfFind(list[1..], k); }
  }

  lemma {:induction false} MapOfSize<K, V>(list: seq<Entry<K, V>>)
    requires Unique(list)
    ensures |MapOf(list)| == |list|
  {
    if list != [] {
      MapOfSize(list[1..]);
      MapOfFind(list[1..], list[0].key);
    }
  }

  // Looking in the chain of a key is looking everywhere.
  lemma LookupIsFind<K, V>(chains: seq<seq<Entry<K, V>>>, hash: K -> nat, k: K)
    requires WellPlaced(chains, hash)
    ensures Lookup(chains, hash, k) == Find(Flatten(chains), k)
  {
    var all, b := Flatten(chains), Bucket(hash, k, |chains|);
    FlattenUnique(chains, hash, |chains|);
    assert chains[..|chains|] == chains;
    if Find(chains[b], k).Some? {
      FoundInFlatten(chains, b, k);
      FindMember(all, Entry(k, Find(chains[b], k).value));
    } else if Find(all, k).Some? {
      var e := FoundIn(all, k);
      var i := InSomeChain(chains, e);
      assert GoodChain(chains, hash, i);
      InBucketIn(chains[i], hash, |chains| - 1, i, e);
      FindMember(chains[i], e);
    }
  }

  // The old chain of new chain j.
  function Home(j: nat, n: nat): (i: nat)
    requires n > 0
    ensures i < n
  {
    j % n
  }

  // A key's bucket in the table of twice the size comes from its bucket before.
  lemma HomeOfBucket(h: nat, e: nat)
    ensures Home(And(h, 2 * Pow2(e) - 1), Pow2(e)) == And(h, Pow2(e) - 1)
  {
    AndMask(h, e);
    AndMask(h, e + 1);
    ModOfMod(h, Pow2(e));
  }

  // Each chain of a table of twice the size is the part of its old chain that
  // belongs there, in the old order.
  ghost predicate Rehashed<K, V>(chains: seq<seq<Entry<K, V>>>, chains': seq<seq<Entry<K, V>>>, hash: K -> nat) {
    && |chains| > 0 && |chains'| == 2 * |chains| && Total(chains') == Total(chains)
    && forall j {:trigger chains'[j]} :: 0 <= j < |chains'| ==>
         chains'[j] == Keep(chains[Home(j, |chains|)], hash, |chains'| - 1, j)
  }

  // The chains hold the entries of a list, each in the chain of its key, and
  // in the order of the list.
  ghost predicate Distributes<K, V>(chains: seq<seq<Entry<K, V>>>, list: seq<Entry<K, V>>, hash: K -> nat) {
    |chains| > 0 && forall j {:trigger chains[j]} :: 0 <= j < |chains| ==>
      chains[j] == Keep(list, hash, |chains| - 1, j)
  }

  lemma DistributeNext<K, V>(chains: seq<seq<Entry<K, V>>>, list: seq<Entry<K, V>>, hash: K -> nat, x: Entry<K, V>)
    requires Distributes(chains, list, hash)
    ensures var t := Bucket(hash, x.key, |chains|);
      Distributes(chains[t := chains[t] + [x]], list + [x], hash)
  {
    var t := Bucket(hash, x.key, |chains|);
    var chains' := chains[t := chains[t] + [x]];
    forall j | 0 <= j < |chains'|
      ensures chains'[j] == Keep(list + [x], hash, |chains'| - 1, j)
    {
      KeepAppend(list, x, hash, |chains| - 1, j);
      assert chains[j] == Keep(list, hash, |chains| - 1, j);
    }
  }

  // A table of twice the size that holds the same entries, chain by chain in
  // the order in which a traversal meets them.
  ghost predicate Redistributed<K, V>(
      chains: seq<seq<Entry<K, V>>>, chains': seq<seq<Entry<K, V>>>, hash: K -> nat)
  {
    |chains'| == 2 * |chains| && Total(chains') == Total(chains) && Distributes(chains', Flatten(chains), hash)
  }

  lemma TotalMove<K, V>(chains: seq<seq<Entry<K, V>>>, i: nat, x: Entry<K, V>)
    requires i < |chains|
    ensures chains[i] != [] ==> Total(chains[i := chains[i][1..]]) == Total(chains) - 1
    ensures Total(chains[i := chains[i] + [x]]) == Total(chains) + 1
  {
    if chains[i] != [] { TotalUpdate(chains, i, chains[i][1..]); }
    TotalUpdate(chains, i, chains[i] + [x]);
  }

  lemma ShiftHead<T>(a: seq<T>, b: seq<T>)
    requires b != []
    ensures (a + [b[0]]) + b[1..] == a + b
  {
  }

  lemma {:induction false} KeepConcat<K, V>(
      a: seq<Entry<K, V>>, c: seq<Entry<K, V>>, hash: K -> nat, mask: nat, j: nat)
    ensures Keep(a + c, hash, mask, j) == Keep(a, hash, mask, j) + Keep(c, hash, mask, j)
  {
    if a == [] {
      assert a + c == c;
    } else {
      var x := if And(hash(a[0].key), mask) == j then [a[0]] else [];
      KeepConcat(a[1..], c, hash, mask, j);
      assert Keep(a + c, hash, mask, j) == x + Keep(a[1..] + c, hash, mask, j) by {
        assert (a + c)[1..] == a[1..] + c && (a + c)[0] == a[0];
      }
    }
  }

  // A chain all of whose entries go elsewhere gives nothing to new chain j.
  lemma {:induction false} KeepNone<K, V>(chain: seq<Entry<K, V>>, hash: K -> nat, e: nat, i: nat, j: nat)
    requires InBucket(chain, hash, Pow2(e) - 1, i) && Home(j, Pow2(e)) != i
    ensures Keep(chain, hash, 2 * Pow2(e) - 1, j) == []
  {
    if chain != [] {
      HomeOfBucket(hash(chain[0].key), e);
      KeepNone(chain[1..], hash, e, i, j);
    }
  }

  lemma KeepNext<K, V>(chains: seq<seq<Entry<K, V>>>, hash: K -> nat, mask: nat, j: nat, i: nat)
    requires i < |chains|
    ensures Keep(Flatten(chains[..i + 1]), hash, mask, j) ==
            Keep(Flatten(chains[..i]), hash, mask, j) + Keep(chains[i], hash, mask, j)
  {
    FlattenTake(chains, i);
    KeepConcat(Flatten(chains[..i]), chains[i], hash, mask, j);
  }

  // If no chain but one gives anything to new chain j, that one gives all of it.
  lemma {:induction false} KeepOne<K, V>(
      chains: seq<seq<Entry<K, V>>>, hash: K -> nat, mask: nat, j: nat, src: nat, i: nat)
    requires src < |chains| && i <= |chains|
    requires forall x {:trigger chains[x]} :: 0 <= x < |chains| && x != src ==> Keep(chains[x], hash, mask, j) == []
    ensures Keep(Flatten(chains[..i]), hash, mask, j) == if src < i then Keep(chains[src], hash, mask, j) else []
  {
    if i > 0 {
      KeepOne(chains, hash, mask, j, src, i - 1);
      KeepNext(chains, hash, mask, j, i - 1);
    }
  }

  // In a table that is well placed, new chain j comes from one old chain only.
  lemma RedistributedIsRehashed<K, V>(
      chains: seq<seq<Entry<K, V>>>, chains': seq<seq<Entry<K, V>>>, hash: K -> nat, e: nat)
    requires WellPlaced(chains, hash) && |chains| == Pow2(e) && Redistributed(chains, chains', hash)
    ensures Rehashed(chains, chains', hash)
  {
    assert chains[..|chains|] == chains;
    forall j | 0 <= j < |chains'|
      ensures chains'[j] == Keep(chains[Home(j, |chains|)], hash, |chains'| - 1, j)
    {
      forall x | 0 <= x < |chains| && x != Home(j, |chains|)
        ensures Keep(chains[x], hash, |chains'| - 1, j) == []
      {
        assert GoodChain(chains, hash, x);
        KeepNone(chains[x], hash, e, x, j);
      }
      KeepOne(chains, hash, |chains'| - 1, j, Home(j, |chains|), |chains|);
    }
  }

  lemma RehashedRepresents<K(!new), V>(
      chains: seq<seq<Entry<K, V>>>, chains': seq<seq<Entry<K, V>>>, hash: K -> nat, model: map<K, V>, e: nat)
    requires Represents(chains, hash, model) && |chains| == Pow2(e) && Rehashed(chains, chains', hash)
    ensures Represents(chains', hash, model)
  {
    var n := |chains|;
    forall j | 0 <= j < |chains'|
      ensures GoodChain(chains', hash, j)
    {
      var old' := chains[Home(j, n)];
      assert GoodChain(chains, hash, Home(j, n));
      if old' != [] { KeepFind(old', hash, 2 * n - 1, j, old'[0].key); }
    }
    forall k
      ensures Lookup(chains', hash, k) == if k in model then Some(model[k]) else None
    {
      HomeOfBucket(hash(k), e);
      var j := Bucket(hash, k, 2 * n);
      assert Home(j, n) == Bucket(hash, k, n);
      KeepFind(chains[Home(j, n)], hash, 2 * n - 1, j, k);
      assert Lookup(chains, hash, k) == if k in model then Some(model[k]) else None;
    }
  }
}
