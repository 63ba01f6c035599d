// What a user of the pool may rely on, in every state that mpool_alloc and
// mpool_free can lead to.
module BuddyPromises {
  import opened Options
  import opened Powers
  import opened BuddyTree
  import opened BuddyTheory
  import opened BuddyLists
  import opened BuddyPool

  // ---------- tiling ----------

  // Every byte of the pool belongs to exactly one block.
  lemma BlocksTile(pool: MPool, a: nat)
    requires pool.Valid() && a < Pow2(pool.maxlogsize)
    ensures var m := pool.blocks; var o := Owner(pool.tree, pool.Pool(), a);
      && o in m && o <= a < o + Pow2(m[o].log)
      && forall p :: p in m && p <= a < p + Pow2(m[p].log) ==> p == o
  {
    var m, o := pool.blocks, Owner(pool.tree, pool.Pool(), a);
    OwnerCovers(pool.tree, pool.Pool(), a);
    assert At(pool.tree, pool.Pool(), o) == if o in m then Some(m[o]) else None;
    forall p | p in m && p <= a < p + Pow2(m[p].log)
      ensures p == o
    {
      DescribesOwner(pool.tree, pool.Pool(), m, p, a);
    }
  }

  // Every block is on the list for its size, once, and on no other list.
  lemma BlockOnOneList(pool: MPool, p: nat, i: nat)
    requires pool.Valid() && p in pool.blocks && i < |pool.blktable.lists|
    ensures multiset(pool.blktable.lists[i])[p] == if pool.blocks[p].log + i == pool.maxlogsize then 1 else 0
  {
    var list := pool.blktable.lists[i];
    assert NoDup(list);
    assert p in pool.blktable.lists[i] <==> OnList(pool.blocks, pool.maxlogsize, i, p);
    NoDupCount(list, p);
  }

  lemma {:induction false} NoDupCount(s: seq<nat>, p: nat)
    requires NoDup(s)
    ensures multiset(s)[p] == if p in s then 1 else 0
  {
    if s != [] {
      assert s == [s[0]] + s[1..];
      NoDupCount(s[1..], p);
    }
  }

  // Every block is aligned to its own size, its LR bit tells odd from even
  // multiples of it, and its PARENT bit is a function of its position.
  lemma FlagsTellPosition(pool: MPool, p: nat)
    requires pool.Valid() && p in pool.blocks
    ensures var b := pool.blocks[p];
      && b.log <= pool.maxlogsize
      && p % Pow2(b.log) == 0
      && (b.lr <==> (p / Pow2(b.log)) % 2 == 1)
      && (b.parent <==> ParentBit(p / Pow2(b.log), pool.maxlogsize - b.log))
  {
    assert At(pool.tree, pool.Pool(), p) == Some(pool.blocks[p]);
    var idx := AtAligned(pool.tree, pool.Pool(), 0, pool.maxlogsize, p);
    MultipleOf(idx, Pow2(pool.blocks[p].log));
  }

  // ---------- coalescing ----------

  // No available block is left next to an available buddy of its own size.
  lemma NoAvailableBuddies(pool: MPool, p: nat)
    requires pool.Valid() && p in pool.blocks && pool.blocks[p].avail && pool.blocks[p].log < pool.maxlogsize
    ensures var m := pool.blocks; var b := BuddyOf(p, m[p]);
      b >= 0 && b in m && !(m[b].log == m[p].log && m[b].avail)
  {
    assert At(pool.tree, pool.Pool(), p) == Some(pool.blocks[p]);
    DescribesBuddy(pool.tree, pool.Pool(), pool.blocks, p);
    var b := BuddyOf(p, pool.blocks[p]);
    assert At(pool.tree, pool.Pool(), b) == Some(pool.blocks[b]);
    CoalescedAt(pool.tree, pool.Pool(), p, b);
  }

  lemma {:induction false} CoalescedAt(t: Tree, s: Slot, p: nat, q: nat)
    requires Fits(t, s.log) && Coalesced(t)
    requires At(t, s, p).Some? && At(t, s, p).value.avail && At(t, s, p).value.log < s.log
    requires q == BuddyOf(p, At(t, s, p).value) && At(t, s, q).Some?
    ensures !(At(t, s, q).value.avail && At(t, s, q).value.log == At(t, s, p).value.log)
  {
    var b := At(t, s, p).value;
    if p < s.Mid() {
      AtBounds(t.left, s.Left(), p);
      if b.log < s.log - 1 {
        BuddyIsLive(t.left, s.Left(), p);
        CoalescedAt(t.left, s.Left(), p, q);
      } else if At(t, s, q).value.log == b.log {
        AtBounds(t.right, s.Right(), q);
      }
    } else {
      AtBounds(t.right, s.Right(), p);
      if b.log < s.log - 1 {
        BuddyIsLive(t.right, s.Right(), p);
        CoalescedAt(t.right, s.Right(), p, q);
      } else if At(t, s, q).value.log == b.log {
        AtBounds(t.left, s.Left(), q);
      }
    }
  }

  // The blocks in use determine everything else: which blocks are available,
  // their sizes and all flag bits.  The history of the pool leaves no trace.
  lemma UsedBlocksDeterminePool(t: Tree, m: map<nat, Block>, t': Tree, m': map<nat, Block>, max: nat)
    requires Describes(t, Root(max), m) && Coalesced(t)
    requires Describes(t', Root(max), m') && Coalesced(t')
    requires Used(m) == Used(m') && forall p :: p in Used(m) ==> m[p].log == m'[p].log
    ensures t == t' && m == m'
  {
    var s := Root(max);
    forall p: nat
      ensures UsedAt(t, s, p) == UsedAt(t', s, p)
    {
      assert At(t, s, p) == if p in m then Some(m[p]) else None;
      assert At(t', s, p) == if p in m' then Some(m'[p]) else None;
      assert p in Used(m) <==> p in Used(m');
    }
    Canonical(t, t', s);
    assert forall p: nat :: p in m <==> At(t, s, p).Some?;
    forall p: nat
      ensures p in m <==> p in m'
      ensures p in m ==> m[p] == m'[p]
    {
      assert At(t, s, p) == if p in m then Some(m[p]) else None;
      assert At(t', s, p) == if p in m' then Some(m'[p]) else None;
    }
  }

  // Once every block has been freed, in whatever order, the pool is one
  // available block again, and there have been as many merges as splits.
  lemma DrainedPool(pool: MPool)
    requires pool.Valid() && Used(pool.blocks) == {}
    ensures pool.tree == Leaf(true) && pool.nsplits == pool.nmerges
    ensures pool.blocks == map[0 := Block(pool.maxlogsize, true, false, true)]
  {
    var m0 := map[0 := Block(pool.maxlogsize, true, false, true)];
    assert Used(m0) == {};
    UsedBlocksDeterminePool(pool.tree, pool.blocks, Leaf(true), m0, pool.maxlogsize);
  }

  // ---------- isolation ----------

  // The bytes of a block that its user gets.
  ghost predicate InPayload(pool: MPool, p: nat, a: nat)
    requires p in pool.blocks
    reads pool
  {
    p + pool.overhead <= a < p + Pow2(pool.blocks[p].log)
  }

  predicate InHeader(pool: MPool, p: nat, a: nat) {
    p <= a < p + pool.overhead
  }

  // No byte of a payload belongs to the header of any live block or to the
  // payload of another one, and every header lies inside its own block.
  lemma PayloadsIsolated(pool: MPool, p: nat, q: nat, a: nat)
    requires pool.Valid() && p in pool.blocks && q in pool.blocks && InPayload(pool, p, a)
    ensures !InHeader(pool, q, a) && (p != q ==> !InPayload(pool, q, a))
    ensures a < pool.mem.Length
  {
    pool.BlockBounds(p);
    pool.BlockBounds(q);
    if p < q { DescribesDisjoint(pool.tree, pool.Pool(), pool.blocks, p, q); }
    if q < p { DescribesDisjoint(pool.tree, pool.Pool(), pool.blocks, q, p); }
  }

  // ---------- service ----------

  // While fewer blocks are in use than there are windows of 2^k bytes, and
  // none of them is larger than that, a request for 2^k bytes is served.
  lemma GuaranteedService(pool: MPool, k: nat)
    requires pool.Valid() && k <= pool.maxlogsize
    requires |Used(pool.blocks)| < Pow2(pool.maxlogsize - k)
    requires forall p :: p in pool.blocks && !pool.blocks[p].avail ==> pool.blocks[p].log <= k
    ensures exists w: nat :: OpenWindow(pool.blocks, pool.maxlogsize, k, w)
  {
    var t, m, s := pool.tree, pool.blocks, pool.Pool();
    forall p: nat
      ensures UsedAt(t, s, p) == if p in m && !m[p].avail then Some(m[p].log) else None
      ensures p in m ==> p < s.End()
    {
      assert At(t, s, p) == if p in m then Some(m[p]) else None;
      if p in m { AtBounds(t, s, p); }
    }
    assert UsedSet(t, s) == Used(m);
    SpoiledIsCount(t, s, k);
    if !Fitting(t, pool.maxlogsize, k) {
      FullMeansSpoiled(t, pool.maxlogsize, k);
    }
    FittingIffOpenWindow(t, m, pool.maxlogsize, k);
  }

  // The block that a request gets has room for its header and the bytes asked
  // for exactly when adding the two does not overflow a machine word.
  lemma RoomIffNoOverflow(pool: MPool, blksize: nat)
    requires pool.Sized() && pool.minlogsize < pool.wordBits && blksize < Pow2(pool.wordBits)
    ensures blksize + pool.overhead <= Pow2(pool.RequestLog(blksize)) <==>
            blksize + pool.overhead < Pow2(pool.wordBits)
  {
    Pow2Monotone(pool.minlogsize, pool.wordBits);
    pool.RequestLogLeast(blksize, pool.RequestLog(blksize));
    pool.RequestLogLeast(blksize, pool.minlogsize);
  }

  // The largest request of all overflows, and is rounded to the smallest size.
  lemma OverflowRequest(pool: MPool)
    requires pool.Sized() && pool.minlogsize < pool.wordBits
    ensures var n := Pow2(pool.wordBits) - 1;
      pool.RequestLog(n) == pool.minlogsize && Pow2(pool.RequestLog(n)) < n + pool.overhead
  {
    Pow2Monotone(pool.minlogsize, pool.wordBits);
    pool.RequestLogLeast(Pow2(pool.wordBits) - 1, pool.minlogsize);
  }

  // A pool of 128 bytes "serves" it with a block of 32 bytes.
  method OverflowServed() returns (pool: MPool, ptr: Option<nat>)
    ensures pool.Valid() && pool.wordBits == 32 && pool.maxlogsize == 7
    ensures ptr.Some? && ptr.value >= pool.overhead && ptr.value - pool.overhead in pool.blocks
    ensures pool.blocks[ptr.value - pool.overhead].log == 5
  {
    assert Pow2(2) == 4;
    assert Pow2(5) == 32;
    pool := new MPool(32, 20, 7, 5);
    OverflowRequest(pool);
    assert OpenWindow(pool.blocks, 7, 5, 0);
    ptr := pool.Alloc(Pow2(32) - 1);
  }

  // A pool that can serve a large request can serve a smaller one.
  lemma ServiceMonotone(pool: MPool, k: nat, k': nat)
    requires pool.Valid() && k <= k'
    requires exists w: nat :: OpenWindow(pool.blocks, pool.maxlogsize, k', w)
    ensures exists w: nat :: OpenWindow(pool.blocks, pool.maxlogsize, k, w)
  {
    FittingIffOpenWindow(pool.tree, pool.blocks, pool.maxlogsize, k');
    var p := FittingFound(pool.tree, pool.Pool(), k');
    FoundFitting(pool.tree, pool.Pool(), k, p);
    FittingIffOpenWindow(pool.tree, pool.blocks, pool.maxlogsize, k);
  }

  // ---------- round trip ----------

  // Allocating a block and freeing it again restores the pool: the same
  // blocks, sizes, availability and flags, and as many merges as splits.
  method AllocThenFree(pool: MPool, blksize: nat) returns (served: bool)
    requires pool.Valid() && blksize < Pow2(pool.wordBits)
    modifies pool, pool.mem, pool.blktable, pool.blktable.heads, pool.blktable.links
    ensures pool.Valid()
    ensures pool.tree == old(pool.tree) && pool.blocks == old(pool.blocks)
    ensures pool.nsplits - old(pool.nsplits) == pool.nmerges - old(pool.nmerges)
    ensures served <==> exists w: nat :: OpenWindow(old(pool.blocks), pool.maxlogsize, pool.RequestLog(blksize), w)
  {
    ghost var t, m := pool.tree, pool.blocks;
    var ptr := pool.Alloc(blksize);
    if ptr.None? {
      SameTreeSameBlocks(t, m, pool.blocks, pool.maxlogsize);
      return false;
    }
    ghost var p := ptr.value - pool.overhead;
    assert At(t, pool.Pool(), p) == Some(m[p]);
    ReleaseCarve(t, pool.Pool(), p, pool.RequestLog(blksize));
    pool.Free(ptr.value);
    SameTreeSameBlocks(t, m, pool.blocks, pool.maxlogsize);
    return true;
  }

  lemma SameTreeSameBlocks(t: Tree, m: map<nat, Block>, m': map<nat, Block>, max: nat)
    requires Describes(t, Root(max), m) && Describes(t, Root(max), m')
    ensures m == m'
  {
    forall p: nat
      ensures p in m <==> p in m'
      ensures p in m ==> m[p] == m'[p]
    {
      assert At(t, Root(max), p) == if p in m then Some(m[p]) else None;
      assert At(t, Root(max), p) == if p in m' then Some(m'[p]) else None;
    }
  }
}
