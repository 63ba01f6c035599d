// The chained hash table: entries are appended to the chain of their bucket,
// and the table doubles when it holds more than `factor` entries per chain.
module HTable {
  import opened Options
  import opened Powers
  import opened Chains

  datatype Status = Ok | Exists | NotFound

  // Where an entry is: its chain and its place in it.
  datatype Place = Place(chain: nat, index: nat)

  // htable_iterator_t: how far the search for chains has got, and the node
  // returned last.
  class Iterator {
    var pos: nat
    var pnode: Option<Place>

    // htable_iterator_init
    constructor ()
      ensures pos == 0 && pnode == None
    {
      pos, pnode := 0, None;
    }
  }

  class Table<K(==, !new), V> {
    const hashf: K -> nat
    const factor: nat
    var table: array<seq<Entry<K, V>>>
    var size: nat
    var used: nat
    var limit: nat
    var grows: nat
    ghost var model: map<K, V>   // what the table means
    ghost var log: nat           // size == 2^log
    ghost const log0: nat        // the same, when the table was made
    ghost var inserts: nat       // successful inserts so far
    ghost var moved: nat         // times that a node has been moved to a new table

    // The fields agree.  This is all that holds when keys have been changed
    // behind the table's back.
    ghost predicate Sound()
      reads this, table
    {
      table.Length == size == Pow2(log) && limit == factor * size && used == Total(table[..])
    }

    ghost predicate Valid()
      reads this, table
    {
      Sound() && Represents(table[..], hashf, model)
    }

    ghost function Counts(): (nat, nat, nat, nat)
      reads this
    {
      (size, grows, inserts, moved)
    }

    // htable_init; size must be a power of 2.
    constructor (size: nat, factor: nat, hashf: K -> nat, ghost e: nat)
      requires size == Pow2(e)
      ensures Valid() && fresh(table)
      ensures this.size == size && this.factor == factor && this.hashf == hashf && log == log0 == e
      ensures table[..] == seq(size, _ => [])
      ensures model == map[] && grows == inserts == moved == 0
      ensures factor >= 1 ==> Economical()
    {
      this.hashf, this.factor := hashf, factor;
      this.size, used, limit, grows := size, 0, factor * size, 0;
      model, log, log0, inserts, moved := map[], e, e, 0, 0;
      table := new seq<Entry<K, V>>[size](_ => []);
      new;
      TotalEmpty(table[..]);
    }

    // htable_search
    method Search(key: K) returns (r: Option<V>)
      requires Sound()
      ensures r == Lookup(table[..], hashf, key)
      ensures Valid() ==> r == if key in model then Some(model[key]) else None
    {
      var hash := hashf(key);
      var chain := table[And(hash, size - 1)];
      assert Lookup(table[..], hashf, key) == Find(chain, key);
      var i := Scan(chain, key);
      return if i < |chain| then Some(chain[i].data) else None;
    }

    // htable_grow: move every node to a table of twice the size.
    method Grow()
      requires Sound()
      modifies this, table
      ensures Sound() && fresh(table) && model == old(model)
      ensures Redistributed(old(table[..]), table[..], hashf)
      ensures old(Valid()) ==> Valid() && Rehashed(old(table[..]), table[..], hashf)
      ensures size == 2 * old(size) && log == old(log) + 1 && limit == 2 * old(limit)
      ensures used == old(used) && grows == old(grows) && inserts == old(inserts)
      ensures moved == old(moved) + used
    {
      ghost var chains := table[..];
      var newsize := size * 2;
      var pnew := Rehash(newsize);
      if old(Valid()) {
        RedistributedIsRehashed(chains, pnew[..], hashf, log);
        RehashedRepresents(chains, pnew[..], hashf, model, log);
      }
      MulTwice(factor, size);
      table := pnew;
      size := newsize;
      limit := factor * newsize;
      log := log + 1;
    }

    // The nodes of all chains, in order, moved to a new table.
    method Rehash(newsize: nat) returns (pnew: array<seq<Entry<K, V>>>)
      requires Sound() && newsize == 2 * size
      modifies table, this`moved
      ensures fresh(pnew) && Redistributed(old(table[..]), pnew[..], hashf)
      ensures moved == old(moved) + used
    {
      pnew := new seq<Entry<K, V>>[newsize](_ => []);
      ghost var chains := table[..];
      TotalEmpty(pnew[..]);
      var i := 0;
      while i < size
        modifies table, pnew, this`moved
        invariant 0 <= i <= size
        invariant forall j :: i <= j < size ==> table[j] == chains[j]
        invariant forall j :: 0 <= j < i ==> table[j] == []
        invariant Distributes(pnew[..], Flatten(chains[..i]), hashf)
        invariant Total(table[..]) + Total(pnew[..]) == Total(chains)
        invariant moved + Total(table[..]) == old(moved) + Total(chains)
      {
        FlattenTake(chains, i);
        MoveChain(i, pnew, Flatten(chains[..i]));
        i := i + 1;
      }
      TotalEmpty(table[..]);
      assert chains[..i] == chains;
    }

    method MoveChain(i: nat, pnew: array<seq<Entry<K, V>>>, ghost before: seq<Entry<K, V>>)
      requires pnew != table && i < size == table.Length && pnew.Length == 2 * size
      requires Distributes(pnew[..], before, hashf)
      modifies table, pnew, this`moved
      ensures table[i] == [] && forall j :: 0 <= j < size && j != i ==> table[j] == old(table[j])
      ensures Distributes(pnew[..], before + old(table[i]), hashf)
      ensures Total(table[..]) + Total(pnew[..]) == old(Total(table[..]) + Total(pnew[..]))
      ensures moved + Total(table[..]) == old(moved + Total(table[..]))
    {
      ghost var done := before;
      while table[i] != []
        invariant done + table[i] == before + old(table[i])
        invariant forall j :: 0 <= j < size && j != i ==> table[j] == old(table[j])
        invariant Distributes(pnew[..], done, hashf)
        invariant Total(table[..]) + Total(pnew[..]) == old(Total(table[..]) + Total(pnew[..]))
        invariant moved + Total(table[..]) == old(moved + Total(table[..]))
        decreases |table[i]|
      {
        done := MoveFirst(i, pnew, done);
      }
      assert done + [] == done;
    }

    // Move the first node of chain i to the tail of its new chain.
    method MoveFirst(i: nat, pnew: array<seq<Entry<K, V>>>, ghost done: seq<Entry<K, V>>)
      returns (ghost done': seq<Entry<K, V>>)
      requires pnew != table && i < size == table.Length && pnew.Length == 2 * size
      requires table[i] != [] && Distributes(pnew[..], done, hashf)
      modifies table, pnew, this`moved
      ensures done' + table[i] == done + old(table[i]) && |table[i]| == |old(table[i])| - 1
      ensures forall j :: 0 <= j < size && j != i ==> table[j] == old(table[j])
      ensures Distributes(pnew[..], done', hashf)
      ensures Total(table[..]) + Total(pnew[..]) == old(Total(table[..]) + Total(pnew[..]))
      ensures moved == old(moved) + 1 && Total(table[..]) == old(Total(table[..])) - 1
    {
      var pnode := table[i][0];
      var newhash := hashf(pnode.key);
      var t := And(newhash, size * 2 - 1);
      ghost var tab0, new0 := table[..], pnew[..];
      table[i] := table[i][1..];
      pnew[t] := pnew[t] + [pnode];
      done' := done + [pnode];
      moved := moved + 1;
      assert table[..] == tab0[i := tab0[i][1..]];
      assert pnew[..] == new0[t := new0[t] + [pnode]];
      DistributeNext(new0, done, hashf, pnode);
      TotalMove(tab0, i, pnode);
      TotalMove(new0, t, pnode);
      ShiftHead(done, tab0[i]);
    }

    // htable_insert.  The first clauses hold of any table, those about the map
    // of one whose keys have not been changed behind its back.
    method Insert(key: K, data: V) returns (r: Status)
      requires Sound()
      modifies this, table
      ensures Sound() && (table == old(table) || fresh(table))
      ensures r == if Lookup(old(table[..]), hashf, key).Some? then Exists else Ok
      ensures r == Exists ==> table == old(table) && table[..] == old(table[..]) && Counts() == old(Counts())
      ensures r == Ok ==>
        var appended := Appended(old(table[..]), hashf, key, data);
        && inserts == old(inserts) + 1 && used == old(used) + 1
        && if old(used) < old(limit) then
             table == old(table) && table[..] == appended && size == old(size) && limit == old(limit)
             && grows == old(grows) && moved == old(moved)
           else
             Redistributed(appended, table[..], hashf) && size == 2 * old(size)
             && grows == old(grows) + 1 && moved == old(moved) + old(used) + 1
             && (old(Valid()) ==> Rehashed(appended, table[..], hashf))
      ensures old(Valid()) ==>
        && Valid() && r == (if key in old(model) then Exists else Ok)
        && model == if key in old(model) then old(model) else old(model)[key := data]
      ensures old(Economical()) ==> Economical()
    {
      var hash := hashf(key);
      var pos := And(hash, size - 1);
      var found := Search(key);
      if found.Some? {
        return Exists;
      }
      AppendNode(pos, key, data);
      if used > limit {
        Grow();
        grows := grows + 1;
      }
      return Ok;
    }

    // A new node at the tail of the chain of its key, which is not found there.
    method AppendNode(pos: nat, key: K, data: V)
      requires Sound() && pos == Bucket(hashf, key, size) && Lookup(table[..], hashf, key).None?
      modifies this`model, this`inserts, this`used, table
      ensures Sound() && table[..] == Appended(old(table[..]), hashf, key, data)
      ensures inserts == old(inserts) + 1 && used == old(used) + 1 && model == old(model)[key := data]
      ensures old(Valid()) ==> Valid() && key !in old(model)
    {
      ghost var chains := table[..];
      TotalUpdate(chains, pos, chains[pos] + [Entry(key, data)]);
      if old(Valid()) {
        assert key !in model;
        InsertRepresents(chains, hashf, model, key, data);
      }
      table[pos] := table[pos] + [Entry(key, data)];
      assert table[..] == Appended(chains, hashf, key, data);
      model := model[key := data];
      inserts := inserts + 1;
      used := used + 1;
    }

    // What the table means after keys have been changed behind its back, if it
    // means anything.
    ghost method Resync()
      requires Sound()
      modifies this`model
      ensures Sound() && (WellPlaced(table[..], hashf) ==> Valid())
    {
      if WellPlaced(table[..], hashf) {
        model := PlacedRepresents(table[..], hashf);
      }
    }

    // htable_remove
    method Remove(key: K) returns (r: Status)
      requires Valid()
      modifies this, table
      ensures Valid() && table == old(table) && Counts() == old(Counts())
      ensures r == if key in old(model) then Ok else NotFound
      ensures model == old(model) - {key}
      ensures var b := Bucket(hashf, key, size);
        table[..] == old(table[..])[b := Unlink(old(table[b]), key)]
      ensures old(Economical()) ==> Economical()
    {
      var hash := hashf(key);
      var pos := And(hash, size - 1);
      ghost var chains := table[..];
      assert Lookup(chains, hashf, key) == Find(chains[pos], key);
      var chain := table[pos];
      var i := Scan(chain, key);
      if i == |chain| {
        assert model - {key} == model;
        assert chains == chains[pos := Unlink(chains[pos], key)];
        return NotFound;
      }
      RemoveRepresents(chains, hashf, model, key);
      table[pos] := chain[..i] + chain[i + 1..];
      assert table[..] == chains[pos := Unlink(chains[pos], key)];
      model := model - {key};
      used := used - 1;
      return Ok;
    }

    static lemma ScanPast(chain: seq<Entry<K, V>>, key: K, i: nat)
      requires i < |chain| && chain[i].key != key
      ensures Find(chain[i..], key) == Find(chain[i + 1..], key)
      ensures chain[..i] + Unlink(chain[i..], key) == chain[..i + 1] + Unlink(chain[i + 1..], key)
    {
      assert chain[i..] == [chain[i]] + chain[i + 1..];
      assert chain[..i + 1] == chain[..i] + [chain[i]];
    }

    // The place of the first entry with a key, or the length of the chain.
    method Scan(chain: seq<Entry<K, V>>, key: K) returns (i: nat)
      ensures i <= |chain|
      ensures i < |chain| ==>
        Find(chain, key) == Some(chain[i].data) && Unlink(chain, key) == chain[..i] + chain[i + 1..]
      ensures i == |chain| ==> Find(chain, key) == None && Unlink(chain, key) == chain
    {
      i := 0;
      while i < |chain|
        invariant 0 <= i <= |chain|
        invariant Find(chain, key) == Find(chain[i..], key)
        invariant Unlink(chain, key) == chain[..i] + Unlink(chain[i..], key)
      {
        if chain[i].key == key {
          return;
        }
        ScanPast(chain, key, i);
        i := i + 1;
      }
    }

    // ---------- the cost of growing ----------

    // A table that has only grown on insertion: the nodes moved so far are
    // exactly what the growth of the limit and the number of grows say.
    ghost predicate Economical()
      reads this
    {
      && factor >= 1 && used <= limit && used <= inserts
      && log == log0 + grows && limit == factor * Pow2(log)
      && moved == (limit - factor * Pow2(log0)) + grows
      && grows <= inserts
      && (grows > 0 ==> limit <= 2 * (inserts - 1))
    }

    // All grows together have moved fewer than 3 nodes per insertion.
    lemma AmortisedGrowth()
      requires Valid() && Economical()
      ensures moved <= 3 * inserts && (inserts > 0 ==> moved < 3 * inserts)
      ensures used <= limit && size == Pow2(log0) * Pow2(grows)
    {
      Pow2Sum(log0, grows);
    }

    // ---------- visiting all entries ----------

    // The entries in `out` are exactly those of the table, each of them once.
    ghost predicate ListsAll(out: seq<Entry<K, V>>)
      reads this
    {
      && Unique(out) && |out| == used
      && (forall e :: e in out ==> e.key in model && model[e.key] == e.data)
      && (forall k :: k in model ==> Entry(k, model[k]) in out)
    }

    lemma FlattenListsAll()
      requires Valid()
      ensures ListsAll(Flatten(table[..]))
    {
      var out := Flatten(table[..]);
      FlattenTotal(table[..]);
      FlattenUnique(table[..], hashf, size);
      assert table[..][..size] == table[..];
      forall e | e in out
        ensures e.key in model && model[e.key] == e.data
      {
        FlattenIsMap(table[..], hashf, model, e);
      }
      forall k | k in model
        ensures Entry(k, model[k]) in out
      {
        FlattenIsMap(table[..], hashf, model, Entry(k, model[k]));
      }
    }

    // htable_traverse, with the entries it hands to its callback.
    method Traverse() returns (out: seq<Entry<K, V>>)
      requires Sound()
      ensures out == Flatten(table[..])
      ensures Valid() ==> ListsAll(out)
    {
      out := [];
      var i := 0;
      while i < size
        invariant 0 <= i <= size && out == Flatten(table[..][..i])
      {
        FlattenTake(table[..], i);
        out := out + table[i];
        i := i + 1;
      }
      assert table[..][..size] == table[..];
      if Valid() { FlattenListsAll(); }
    }

    // The entries up to and including the given place, chain by chain.
    ghost function UpTo(at: Place): seq<Entry<K, V>>
      reads this, table
      requires at.chain < table.Length && at.index < |table[at.chain]|
    {
      Flatten(table[..][..at.chain]) + table[at.chain][..at.index + 1]
    }

    // Chains i to j - 1 are empty.
    ghost predicate EmptyFrom(i: nat, j: nat)
      reads this, table
      requires j <= table.Length
    {
      forall k :: i <= k < j ==> table[k] == []
    }

    // Skip to the first chain from it.pos on that is not empty.
    method SkipEmpty(it: Iterator) returns (r: Option<Place>)
      requires Sound() && it.pos <= size
      modifies it`pos
      ensures r.Some? ==> r.value.index == 0 && old(it.pos) <= r.value.chain < size && it.pos == r.value.chain + 1
      ensures r.Some? ==> table[r.value.chain] != [] && EmptyFrom(old(it.pos), r.value.chain)
      ensures r.None? ==> it.pos == size && EmptyFrom(old(it.pos), size)
    {
      var i := it.pos;
      while i < size
        invariant old(it.pos) <= i == it.pos <= size && EmptyFrom(old(it.pos), i)
      {
        it.pos := it.pos + 1;
        if table[i] != [] {
          return Some(Place(i, 0));
        }
        i := i + 1;
      }
      return None;
    }

    // htable_get_next_elm
    method GetNext(it: Iterator) returns (r: Option<Place>)
      requires Sound() && it.pos <= size
      requires it.pnode.Some? ==>
        it.pnode.value.chain + 1 == it.pos && it.pnode.value.index < |table[it.pnode.value.chain]|
      modifies it`pos
      ensures old(it.pos) <= it.pos <= size
      ensures r.Some? ==> r.value.chain + 1 == it.pos && r.value.index < |table[r.value.chain]|
      ensures it.pnode.None? && r.Some? ==>
        r.value.index == 0 && r.value.chain >= old(it.pos) && EmptyFrom(old(it.pos), r.value.chain)
      ensures it.pnode.None? && r.None? ==> EmptyFrom(old(it.pos), size)
      ensures it.pnode.Some? && r.Some? ==>
        var c, i := it.pnode.value.chain, it.pnode.value.index;
        c < size - 1 &&
        if i + 1 < |table[c]| then r.value == Place(c, i + 1)
        else r.value.index == 0 && r.value.chain > c && EmptyFrom(c + 1, r.value.chain)
      ensures it.pnode.Some? && r.None? ==>
        var c, i := it.pnode.value.chain, it.pnode.value.index;
        c == size - 1 || (i + 1 == |table[c]| && EmptyFrom(c + 1, size))
    {
      if it.pos > size - 1 {
        return None;
      }
      if it.pos == 0 || it.pnode.None? {
        r := SkipEmpty(it);
        return;
      }
      var at := it.pnode.value;
      if at.index + 1 < |table[at.chain]| {
        return Some(Place(at.chain, at.index + 1));
      }
      r := SkipEmpty(it);
    }

    lemma FlattenEmpty(i: nat, j: nat)
      requires i <= j <= table.Length && EmptyFrom(i, j)
      ensures Flatten(table[..][..j]) == Flatten(table[..][..i])
      decreases j
    {
      if i < j {
        FlattenEmpty(i, j - 1);
        FlattenTake(table[..], j - 1);
      }
    }

    // The loop all callers of the iterator run: keep asking until nothing is
    // returned.  It sees every chain but the last in full, and of the last one
    // only the first entry.
    method Enumerate() returns (out: seq<Entry<K, V>>)
      requires Sound()
      ensures out == Visible(table[..])
    {
      var it := new Iterator();
      out := [];
      it.pnode := GetNext(it);
      VisitStart(it.pnode);
      while it.pnode.Some?
        invariant it.pos <= size
        invariant it.pnode.Some? ==>
          && it.pnode.value.chain + 1 == it.pos && it.pnode.value.index < |table[it.pnode.value.chain]|
          && out + [table[it.pnode.value.chain][it.pnode.value.index]] == UpTo(it.pnode.value)
          && (it.pos == size ==> it.pnode.value.index == 0)
        invariant it.pnode.None? ==> out == Visible(table[..])
        decreases it.pnode.Some?, size - it.pos,
          if it.pnode.Some? then |table[it.pnode.value.chain]| - it.pnode.value.index else 0
      {
        var at := it.pnode.value;
        out := out + [table[at.chain][at.index]];
        var next := GetNext(it);
        VisitStep(at, next);
        it.pnode := next;
      }
    }

    // No entry is enumerated twice, none that is not in the table, and all of
    // them are exactly when the last chain has at most one entry.
    lemma EnumerationLists()
      requires Valid()
      ensures var out := Visible(table[..]);
        && Unique(out) && (forall e :: e in out ==> e.key in model && model[e.key] == e.data)
        && (ListsAll(out) <==> |table[size - 1]| <= 1)
    {
      FlattenListsAll();
      VisibleIsAll(table[..]);
      UniquePrefix(Visible(table[..]), Flatten(table[..]));
    }

    lemma VisitChain(at: Place)
      requires Sound() && at.chain < size && at.index + 1 < |table[at.chain]|
      ensures UpTo(at) + [table[at.chain][at.index + 1]] == UpTo(Place(at.chain, at.index + 1))
    {
      var chain := table[at.chain];
      assert chain[..at.index + 2] == chain[..at.index + 1] + [chain[at.index + 1]];
    }

    lemma VisitNextChain(at: Place, c: nat)
      requires Sound() && at.chain < c < size && at.index + 1 == |table[at.chain]| && table[c] != []
      requires EmptyFrom(at.chain + 1, c)
      ensures UpTo(at) + [table[c][0]] == UpTo(Place(c, 0))
    {
      FlattenTake(table[..], at.chain);
      assert table[at.chain][..at.index + 1] == table[at.chain];
      FlattenEmpty(at.chain + 1, c);
      assert table[c][..1] == [table[c][0]];
    }

    lemma VisitStart(first: Option<Place>)
      requires Sound() && size > 0
      requires first.Some? ==>
        var c := first.value.chain; first.value.index == 0 && c < size && table[c] != [] && EmptyFrom(0, c)
      requires first.None? ==> EmptyFrom(0, size)
      ensures first.Some? ==> [] + [table[first.value.chain][0]] == UpTo(first.value)
      ensures first.None? ==> [] == Visible(table[..])
    {
      FlattenEmpty(0, if first.Some? then first.value.chain else size - 1);
      assert table[..][..0] == [];
    }

    lemma VisitEnd(at: Place)
      requires Sound() && at.chain < size && at.index < |table[at.chain]|
      requires if at.chain == size - 1 then at.index == 0
               else at.index + 1 == |table[at.chain]| && EmptyFrom(at.chain + 1, size)
      ensures UpTo(at) == Visible(table[..])
    {
      if at.chain < size - 1 {
        FlattenTake(table[..], at.chain);
        assert table[at.chain][..at.index + 1] == table[at.chain];
        FlattenEmpty(at.chain + 1, size - 1);
      }
    }

    lemma VisitStep(at: Place, next: Option<Place>)
      requires Sound() && at.chain < size && at.index < |table[at.chain]|
      requires at.chain == size - 1 ==> at.index == 0
      requires next.Some? ==>
        && at.chain < size - 1 && next.value.chain < size && next.value.index < |table[next.value.chain]|
        && if at.index + 1 < |table[at.chain]| then next.value == Place(at.chain, at.index + 1)
           else next.value.index == 0 && next.value.chain > at.chain && EmptyFrom(at.chain + 1, next.value.chain)
      requires next.None? ==>
        at.chain == size - 1 || (at.index + 1 == |table[at.chain]| && EmptyFrom(at.chain + 1, size))
      ensures next.Some? ==> UpTo(at) + [table[next.value.chain][next.value.index]] == UpTo(next.value)
      ensures next.None? ==> UpTo(at) == Visible(table[..])
    {
      if next.None? {
        VisitEnd(at);
      } else if at.index + 1 < |table[at.chain]| {
        VisitChain(at);
      } else {
        VisitNextChain(at, next.value.chain);
      }
    }
  }
}
