// The lifetime simulation that drives the pool: blocks of random sizes are
// allocated, kept in a list sorted by the epoch at which they die, and freed.
module BuddySim {
  import opened Powers
  import opened BuddyTree
  import opened BuddyTheory
  import opened BuddyPool
  import opened BuddyPromises

  const MAX_EPOCHS := 20000
  const MAX_LIFETIME := 1000
  const MAX_LOGSIZE := 5
  const POOL_LOGSIZE := 25
  const MIN_LOGSIZE := 5

  // A block of the simulation: the epoch it was allocated in names it.
  datatype SimNode = SimNode(id: nat, ptr: nat, lifetime: nat)

  // The block id was freed in epoch `at`.
  datatype Death = Death(id: nat, at: nat)

  // ---------- the sorted list ----------

  ghost predicate Sorted(list: seq<SimNode>) {
    forall i, j :: 0 <= i < j < |list| ==> list[i].lifetime <= list[j].lifetime
  }

  // The place of a node: after all nodes that die no later.
  function Place(list: seq<SimNode>, lifetime: nat): (i: nat)
    ensures i <= |list|
  {
    if list == [] || lifetime < list[0].lifetime then 0 else 1 + Place(list[1..], lifetime)
  }

  lemma {:induction false} PlaceBounds(list: seq<SimNode>, lifetime: nat, i: nat)
    requires i <= |list|
    requires forall j :: 0 <= j < i ==> list[j].lifetime <= lifetime
    requires i < |list| ==> lifetime < list[i].lifetime
    ensures Place(list, lifetime) == i
  {
    if i > 0 {
      PlaceBounds(list[1..], lifetime, i - 1);
    }
  }

  // The addresses of the blocks of the list.
  function Offsets(list: seq<SimNode>, overhead: nat): set<int> {
    if list == [] then {} else {list[0].ptr - overhead} + Offsets(list[1..], overhead)
  }

  lemma {:induction false} OffsetsSize(list: seq<SimNode>, overhead: nat)
    ensures |Offsets(list, overhead)| <= |list|
  {
    if list != [] { OffsetsSize(list[1..], overhead); }
  }

  function Ids(list: seq<SimNode>): set<nat> {
    if list == [] then {} else {list[0].id} + Ids(list[1..])
  }

  lemma {:induction false} InsertedSets(list: seq<SimNode>, i: nat, node: SimNode, overhead: nat)
    requires i <= |list|
    ensures Offsets(list[..i] + [node] + list[i..], overhead) == Offsets(list, overhead) + {node.ptr - overhead}
    ensures Ids(list[..i] + [node] + list[i..]) == Ids(list) + {node.id}
  {
    var list' := list[..i] + [node] + list[i..];
    if i == 0 {
      assert list'[1..] == list && list'[0] == node;
    } else {
      InsertedSets(list[1..], i - 1, node, overhead);
      InsertedTail(list, i, node);
    }
  }

  lemma InsertedTail(list: seq<SimNode>, i: nat, node: SimNode)
    requires 0 < i <= |list|
    ensures (list[..i] + [node] + list[i..])[0] == list[0]
    ensures (list[..i] + [node] + list[i..])[1..] == list[1..][..i - 1] + [node] + list[1..][i - 1..]
  {
  }

  // The list holds exactly the used blocks of the pool, each of them once.
  ghost predicate Tracks(list: seq<SimNode>, m: map<nat, Block>, overhead: nat) {
    Offsets(list, overhead) == Used(m) && |Used(m)| == |list|
  }

  lemma TracksAdd(list: seq<SimNode>, m: map<nat, Block>, m': map<nat, Block>, overhead: nat, i: nat, node: SimNode)
    requires Tracks(list, m, overhead) && i <= |list| && node.ptr >= overhead
    requires var p := node.ptr - overhead; p !in Used(m) && Used(m') == Used(m) + {p}
    ensures Tracks(list[..i] + [node] + list[i..], m', overhead)
  {
    InsertedSets(list, i, node, overhead);
  }

  lemma TracksDrop(list: seq<SimNode>, m: map<nat, Block>, m': map<nat, Block>, overhead: nat)
    requires Tracks(list, m, overhead) && list != [] && list[0].ptr >= overhead
    requires Used(m') == Used(m) - {list[0].ptr - overhead}
    ensures Tracks(list[1..], m', overhead)
  {
    var p, rest := list[0].ptr - overhead, Offsets(list[1..], overhead);
    assert Offsets(list, overhead) == {p} + rest;
    OffsetsSize(list[1..], overhead);
    assert p in rest ==> {p} + rest == rest;
  }

  // ---------- the run ----------

  // All blocks allocated before epoch t are either in the list or have died in
  // the epoch that was drawn for them.
  ghost predicate Accounted(list: seq<SimNode>, deaths: seq<Death>, lives: seq<nat>, t: nat)
    requires t <= |lives|
  {
    && |list| + |deaths| == t
    && (forall i :: 0 <= i < |list| ==> list[i].id < t && list[i].lifetime == list[i].id + lives[list[i].id])
    && (forall id: nat :: id < t ==> id in Ids(list) || Death(id, id + lives[id]) in deaths)
  }

  // The lifetimes of the list lie between two epochs.
  predicate Between(list: seq<SimNode>, lo: nat, hi: nat) {
    list != [] ==> lo <= list[0].lifetime <= hi && Between(list[1..], lo, hi)
  }

  lemma AccountedAdd(list: seq<SimNode>, deaths: seq<Death>, lives: seq<nat>, t: nat, i: nat, node: SimNode)
    requires t < |lives| && i <= |list| && Accounted(list, deaths, lives, t)
    requires node.id == t && node.lifetime == t + lives[t]
    ensures Accounted(list[..i] + [node] + list[i..], deaths, lives, t + 1)
  {
    var list' := list[..i] + [node] + list[i..];
    InsertedSets(list, i, node, 0);
    forall j | 0 <= j < |list'|
      ensures list'[j].id < t + 1 && list'[j].lifetime == list'[j].id + lives[list'[j].id]
    {
      assert list'[j] == if j < i then list[j] else if j == i then node else list[j - 1];
    }
  }

  lemma {:induction false} BetweenAdd(list: seq<SimNode>, lo: nat, hi: nat, i: nat, node: SimNode)
    requires Between(list, lo, hi) && i <= |list| && lo <= node.lifetime <= hi
    ensures Between(list[..i] + [node] + list[i..], lo, hi)
  {
    var list' := list[..i] + [node] + list[i..];
    if i == 0 {
      assert list'[1..] == list;
    } else {
      BetweenAdd(list[1..], lo, hi, i - 1, node);
      InsertedTail(list, i, node);
    }
  }

  // If the first of a sorted list lives longer, so do all others.
  lemma {:induction false} BetweenLater(list: seq<SimNode>, lo: nat, lo': nat, hi: nat)
    requires Sorted(list) && Between(list, lo, hi) && (list != [] ==> lo' <= list[0].lifetime)
    ensures Between(list, lo', hi)
  {
    if list != [] {
      BetweenLater(list[1..], lo, lo', hi);
    }
  }

  // No used block is larger than 2^k bytes.
  ghost predicate AtMost(m: map<nat, Block>, k: nat) {
    forall p :: p in Used(m) ==> m[p].log <= k
  }

  // The list is in order: it holds the used blocks, and accounts for all
  // blocks of the first t epochs.
  ghost predicate Books(list: seq<SimNode>, deaths: seq<Death>, lives: seq<nat>, t: nat,
                        m: map<nat, Block>, overhead: nat) {
    Sorted(list) && t <= |lives| && Tracks(list, m, overhead) && Accounted(list, deaths, lives, t)
  }

  lemma BooksAdd(list: seq<SimNode>, deaths: seq<Death>, lives: seq<nat>, t: nat,
                 m: map<nat, Block>, m': map<nat, Block>, overhead: nat, i: nat, node: SimNode)
    requires t < |lives| && i <= |list| && node.ptr >= overhead
    requires Books(list, deaths, lives, t, m, overhead) && Between(list, t + 1, MAX_EPOCHS)
    requires var p := node.ptr - overhead; p !in Used(m) && Used(m') == Used(m) + {p}
    requires node.id == t && node.lifetime == t + lives[t] && t + 1 <= node.lifetime <= MAX_EPOCHS
    requires Sorted(list[..i] + [node] + list[i..])
    ensures Books(list[..i] + [node] + list[i..], deaths, lives, t + 1, m', overhead)
    ensures Between(list[..i] + [node] + list[i..], t + 1, MAX_EPOCHS)
  {
    TracksAdd(list, m, m', overhead, i, node);
    AccountedAdd(list, deaths, lives, t, i, node);
    BetweenAdd(list, t + 1, MAX_EPOCHS, i, node);
  }

  // The first block of the list is in use, and once it is freed the rest is
  // the list.
  lemma BooksDrop(list: seq<SimNode>, deaths: seq<Death>, lives: seq<nat>, t: nat, m: map<nat, Block>, overhead: nat)
    requires list != [] && Books(list, deaths, lives, t, m, overhead)
    ensures list[0].ptr >= overhead && list[0].ptr - overhead in Used(m)
    ensures forall m': map<nat, Block> :: Used(m') == Used(m) - {list[0].ptr - overhead} ==>
      Books(list[1..], deaths + [Death(list[0].id, list[0].lifetime)], lives, t, m', overhead)
  {
    var node := list[0];
    assert node.ptr - overhead in Offsets(list, overhead);
    AccountedDrop(list, deaths, lives, t);
    forall m': map<nat, Block> | Used(m') == Used(m) - {node.ptr - overhead}
      ensures Tracks(list[1..], m', overhead)
    {
      TracksDrop(list, m, m', overhead);
    }
  }

  lemma AccountedDrop(list: seq<SimNode>, deaths: seq<Death>, lives: seq<nat>, t: nat)
    requires list != [] && t <= |lives| && Accounted(list, deaths, lives, t)
    ensures Accounted(list[1..], deaths + [Death(list[0].id, list[0].lifetime)], lives, t)
  {
    var node, deaths' := list[0], deaths + [Death(list[0].id, list[0].lifetime)];
    assert Ids(list) == {node.id} + Ids(list[1..]);
    forall id: nat | id < t && id !in Ids(list[1..])
      ensures Death(id, id + lives[id]) in deaths'
    {
      if id == node.id { assert deaths'[|deaths|] == Death(id, id + lives[id]); }
    }
  }

  // The lifetimes that the program draws: at least 1, at most MAX_LIFETIME,
  // and not beyond the last epoch.
  ghost predicate Drawn(lives: seq<nat>) {
    |lives| == MAX_EPOCHS && forall t :: 0 <= t < |lives| ==>
      1 <= lives[t] <= if t < MAX_EPOCHS - MAX_LIFETIME then MAX_LIFETIME else MAX_EPOCHS - t
  }

  lemma SmallPowers()
    ensures Pow2(5) == 32 && Pow2(6) == 64
  {
    assert Pow2(2) == 4;
    assert Pow2(4) == 16;
  }

  lemma ManyWindows()
    ensures Pow2(POOL_LOGSIZE - (MAX_LOGSIZE + 1)) > MAX_EPOCHS
  {
    SmallPowers();
    Pow2Sum(6, 6);
    Pow2Sum(12, 6);
    Pow2Monotone(18, 19);
  }

  // A request of at most 2^MAX_LOGSIZE bytes gets a block of at most twice that.
  lemma RequestIsSmall(pool: MPool, e: nat)
    requires pool.Sized() && e <= MAX_LOGSIZE && pool.minlogsize == MIN_LOGSIZE && pool.maxlogsize == POOL_LOGSIZE
    ensures pool.RequestLog(Pow2(e)) <= MAX_LOGSIZE + 1 && Pow2(e) < Pow2(pool.wordBits)
  {
    SmallPowers();
    Pow2Monotone(e, MAX_LOGSIZE);
    Pow2Monotone(MAX_LOGSIZE + 1, pool.wordBits);
    pool.RequestLogLeast(Pow2(e), MAX_LOGSIZE + 1);
  }

  // An allocation that cannot fail and keeps all used blocks small.
  method AllocServed(pool: MPool, blksize: nat, ghost k: nat) returns (ptr: nat)
    requires pool.Valid() && AtMost(pool.blocks, k) && pool.RequestLog(blksize) <= k
    requires blksize < Pow2(pool.wordBits)
    requires exists w: nat :: OpenWindow(pool.blocks, pool.maxlogsize, pool.RequestLog(blksize), w)
    modifies pool, pool.mem, pool.blktable, pool.blktable.heads, pool.blktable.links
    ensures pool.Valid() && AtMost(pool.blocks, k)
    ensures ptr >= pool.overhead && ptr - pool.overhead !in Used(old(pool.blocks))
    ensures Used(pool.blocks) == Used(old(pool.blocks)) + {ptr - pool.overhead}
    ensures pool.blocks[ptr - pool.overhead].log == pool.RequestLog(blksize)
  {
    var p := pool.Alloc(blksize);
    if p.None? {
      // "no available block"
      assert false;
    }
    return p.value;
  }

  // A deallocation, as far as the simulation is concerned.
  method FreeUsed(pool: MPool, ptr: nat, ghost k: nat)
    requires pool.Valid() && AtMost(pool.blocks, k)
    requires ptr >= pool.overhead && ptr - pool.overhead in Used(pool.blocks)
    modifies pool, pool.mem, pool.blktable, pool.blktable.heads, pool.blktable.links
    ensures pool.Valid() && AtMost(pool.blocks, k)
    ensures Used(pool.blocks) == Used(old(pool.blocks)) - {ptr - pool.overhead}
  {
    pool.Free(ptr);
  }

  class Simulation {
    const pool: MPool
    var list: seq<SimNode>
    ghost var births: seq<nat>    // the log size of the block that each epoch got
    ghost var deaths: seq<Death>

    constructor (pool: MPool)
      ensures this.pool == pool && list == [] && births == [] && deaths == []
    {
      this.pool := pool;
      list, births, deaths := [], [], [];
    }

    ghost predicate Valid(lives: seq<nat>, t: nat)
      reads this, pool, pool.mem, pool.blktable, pool.blktable.heads, pool.blktable.links
    {
      && pool.Valid() && AtMost(pool.blocks, MAX_LOGSIZE + 1)
      && Books(list, deaths, lives, t, pool.blocks, pool.overhead)
    }

    // sim_add_to_list
    method AddToList(node: SimNode)
      requires Sorted(list)
      modifies this`list
      ensures var i := Place(old(list), node.lifetime); list == old(list)[..i] + [node] + old(list)[i..]
      ensures Sorted(list)
    {
      var i := 0;
      while i < |list|
        invariant 0 <= i <= |list| && list == old(list)
        invariant forall j :: 0 <= j < i ==> list[j].lifetime <= node.lifetime
      {
        if node.lifetime < list[i].lifetime {
          PlaceBounds(list, node.lifetime, i);
          list := list[..i] + [node] + list[i..];
          return;
        }
        i := i + 1;
      }
      PlaceBounds(list, node.lifetime, i);
      list := list + [node];
    }

    // sim_free_from_list: free all blocks that die in epoch t.
    method FreeFromList(t: nat, ghost lives: seq<nat>, ghost now: nat)
      requires Valid(lives, now) && Between(list, t, MAX_EPOCHS)
      modifies this, pool, pool.mem, pool.blktable, pool.blktable.heads, pool.blktable.links
      ensures Valid(lives, now) && Between(list, t + 1, MAX_EPOCHS) && births == old(births)
    {
      while |list| > 0 && list[0].lifetime == t
        invariant Valid(lives, now) && Between(list, t, MAX_EPOCHS) && births == old(births)
        decreases |list|
      {
        FreeFirst(t, lives, now);
      }
      BetweenLater(list, t, t + 1, MAX_EPOCHS);
    }

    method FreeFirst(t: nat, ghost lives: seq<nat>, ghost now: nat)
      requires Valid(lives, now) && |list| > 0 && list[0].lifetime == t
      modifies this, pool, pool.mem, pool.blktable, pool.blktable.heads, pool.blktable.links
      ensures Valid(lives, now) && births == old(births)
      ensures list == old(list)[1..] && deaths == old(deaths) + [Death(old(list)[0].id, t)]
    {
      var node := list[0];
      BooksDrop(list, deaths, lives, now, pool.blocks, pool.overhead);
      FreeUsed(pool, node.ptr, MAX_LOGSIZE + 1);
      list := list[1..];
      deaths := deaths + [Death(node.id, t)];
    }

    // One epoch: bury the dead, then allocate a block of 2^e bytes that is to
    // live for `life` epochs.  The pool never runs out of blocks.
    method Epoch(t: nat, e: nat, life: nat, ghost lives: seq<nat>)
      requires Valid(lives, t) && Drawn(lives) && t < MAX_EPOCHS && life == lives[t] && e <= MAX_LOGSIZE
      requires pool.maxlogsize == POOL_LOGSIZE && pool.minlogsize == MIN_LOGSIZE
      requires Between(list, t, MAX_EPOCHS)
      modifies this, pool, pool.mem, pool.blktable, pool.blktable.heads, pool.blktable.links
      ensures Valid(lives, t + 1) && Between(list, t + 1, MAX_EPOCHS)
      ensures births == old(births) + [pool.RequestLog(Pow2(e))]
    {
      FreeFromList(t, lives, t);
      Birth(t, e, life, lives);
    }

    method Birth(t: nat, e: nat, life: nat, ghost lives: seq<nat>)
      requires Valid(lives, t) && t < |lives| && t < MAX_EPOCHS && life == lives[t] && e <= MAX_LOGSIZE
      requires pool.maxlogsize == POOL_LOGSIZE && pool.minlogsize == MIN_LOGSIZE
      requires Between(list, t + 1, MAX_EPOCHS) && t + 1 <= t + life <= MAX_EPOCHS
      modifies this, pool, pool.mem, pool.blktable, pool.blktable.heads, pool.blktable.links
      ensures Valid(lives, t + 1) && Between(list, t + 1, MAX_EPOCHS)
      ensures births == old(births) + [pool.RequestLog(Pow2(e))]
    {
      ghost var m := pool.blocks;
      RequestIsSmall(pool, e);
      EnoughBlocks(lives, t, e);
      var ptr := AllocServed(pool, Pow2(e), MAX_LOGSIZE + 1);
      births := births + [pool.blocks[ptr - pool.overhead].log];
      Admit(SimNode(t, ptr, t + life), lives, t, m);
    }

    // The new node finds its place in the list.
    method Admit(node: SimNode, ghost lives: seq<nat>, ghost t: nat, ghost m: map<nat, Block>)
      requires pool.Valid() && AtMost(pool.blocks, MAX_LOGSIZE + 1) && t < |lives|
      requires Books(list, deaths, lives, t, m, pool.overhead) && Between(list, t + 1, MAX_EPOCHS)
      requires node.id == t && node.lifetime == t + lives[t] && t + 1 <= node.lifetime <= MAX_EPOCHS
      requires node.ptr >= pool.overhead && node.ptr - pool.overhead !in Used(m)
      requires Used(pool.blocks) == Used(m) + {node.ptr - pool.overhead}
      modifies this`list
      ensures Valid(lives, t + 1) && Between(list, t + 1, MAX_EPOCHS)
    {
      ghost var before := list;
      AddToList(node);
      BooksAdd(before, deaths, lives, t, m, pool.blocks, pool.overhead, Place(before, node.lifetime), node);
    }

    // All epochs, and a last burial.
    method AllEpochs(sizes: seq<nat>, lives: seq<nat>)
      requires |sizes| == MAX_EPOCHS && forall t :: 0 <= t < MAX_EPOCHS ==> sizes[t] <= MAX_LOGSIZE
      requires Drawn(lives) && Valid(lives, 0) && list == [] && births == []
      requires pool.maxlogsize == POOL_LOGSIZE && pool.minlogsize == MIN_LOGSIZE
      modifies this, pool, pool.mem, pool.blktable, pool.blktable.heads, pool.blktable.links
      ensures list == [] && |births| == |deaths| == MAX_EPOCHS
      ensures forall id: nat :: id < MAX_EPOCHS ==> births[id] == pool.RequestLog(Pow2(sizes[id]))
      ensures forall id: nat :: id < MAX_EPOCHS ==> Death(id, id + lives[id]) in deaths
      ensures pool.tree == Leaf(true) && pool.nsplits == pool.nmerges
    {
      var t := 0;
      while t < MAX_EPOCHS
        invariant 0 <= t <= MAX_EPOCHS && Valid(lives, t) && Between(list, t, MAX_EPOCHS)
        invariant |births| == t && forall id: nat :: id < t ==> births[id] == pool.RequestLog(Pow2(sizes[id]))
      {
        Epoch(t, sizes[t], lives[t], lives);
        t := t + 1;
      }
      LastBurial(t, lives);
    }

    method LastBurial(t: nat, ghost lives: seq<nat>)
      requires t == MAX_EPOCHS == |lives| && Valid(lives, t) && Between(list, t, MAX_EPOCHS)
      modifies this, pool, pool.mem, pool.blktable, pool.blktable.heads, pool.blktable.links
      ensures list == [] && |deaths| == MAX_EPOCHS && births == old(births)
      ensures forall id: nat :: id < MAX_EPOCHS ==> Death(id, id + lives[id]) in deaths
      ensures pool.tree == Leaf(true) && pool.nsplits == pool.nmerges
    {
      FreeFromList(t, lives, t);
      DrainedPool(pool);
    }

    lemma EnoughBlocks(lives: seq<nat>, t: nat, e: nat)
      requires Valid(lives, t) && t < MAX_EPOCHS && e <= MAX_LOGSIZE
      requires pool.maxlogsize == POOL_LOGSIZE && pool.minlogsize == MIN_LOGSIZE
      ensures exists w: nat :: OpenWindow(pool.blocks, pool.maxlogsize, pool.RequestLog(Pow2(e)), w)
    {
      RequestIsSmall(pool, e);
      ManyWindows();
      GuaranteedService(pool, MAX_LOGSIZE + 1);
      ServiceMonotone(pool, pool.RequestLog(Pow2(e)), MAX_LOGSIZE + 1);
    }
  }

  // The whole simulation.  If the pool can be created at all, every request is
  // served with a block of the right size, every block is freed exactly once (there are as many deaths as
  // blocks, and one for each block) in the epoch drawn for it, and the pool
  // ends up undivided.
  method Simulate(wordBits: nat, overhead: nat, sizes: seq<nat>, lives: seq<nat>)
    returns (r: InitResult, sim: Simulation?)
    requires overhead >= 1
    requires |sizes| == MAX_EPOCHS && forall t :: 0 <= t < MAX_EPOCHS ==> sizes[t] <= MAX_LOGSIZE
    requires Drawn(lives)
    ensures r == if POOL_LOGSIZE > wordBits then OutOfRange else if Pow2(MIN_LOGSIZE) <= overhead then BadValue else Ok
    ensures r == Ok <==> sim != null
    ensures sim != null ==>
      && sim.list == []
      && |sim.births| == |sim.deaths| == MAX_EPOCHS
      && (forall id: nat :: id < MAX_EPOCHS ==> sim.births[id] == sim.pool.RequestLog(Pow2(sizes[id])))
      && (forall id: nat :: id < MAX_EPOCHS ==> Death(id, id + lives[id]) in sim.deaths)
      && sim.pool.tree == Leaf(true) && sim.pool.nsplits == sim.pool.nmerges
  {
    sim := null;
    var pool: MPool?;
    r, pool := MPool.Init(wordBits, overhead, POOL_LOGSIZE, MIN_LOGSIZE);
    if r != Ok {
      return;
    }
    sim := new Simulation(pool);
    assert Used(pool.blocks) == {};
    sim.AllEpochs(sizes, lives);
  }
}
