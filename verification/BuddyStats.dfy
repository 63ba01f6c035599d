// The statistics of the pool, taken by walking all block lists.
module BuddyStats {
  import opened Options
  import opened Powers
  import opened BuddyTree
  import opened BuddyTheory
  import opened BuddyLists
  import opened BuddyHeaders
  import opened BuddyPool

  // The available, or used, leaves whose addresses are in `seen`: how many
  // they are, or how many bytes they have.
  ghost function Tally(t: Tree, s: Slot, seen: set<nat>, avail: bool, bytes: bool): nat
    requires Fits(t, s.log)
  {
    match t
    case Leaf(a) => if s.off in seen && a == avail then Weight(s.log, bytes) else 0
    case Node(x, y) => Tally(x, s.Left(), seen, avail, bytes) + Tally(y, s.Right(), seen, avail, bytes)
  }

  function Weight(log: nat, bytes: bool): nat {
    if bytes then Pow2(log) else 1
  }

  lemma {:induction false} TallyNone(t: Tree, s: Slot, avail: bool, bytes: bool)
    requires Fits(t, s.log)
    ensures Tally(t, s, {}, avail, bytes) == 0
  {
    if t.Node? {
      TallyNone(t.left, s.Left(), avail, bytes);
      TallyNone(t.right, s.Right(), avail, bytes);
    }
  }

  // An address outside the region does not count.
  lemma {:induction false} TallyOther(t: Tree, s: Slot, seen: set<nat>, p: nat, avail: bool, bytes: bool)
    requires Fits(t, s.log) && !(s.off <= p < s.End())
    ensures Tally(t, s, seen + {p}, avail, bytes) == Tally(t, s, seen, avail, bytes)
  {
    if t.Node? {
      TallyOther(t.left, s.Left(), seen, p, avail, bytes);
      TallyOther(t.right, s.Right(), seen, p, avail, bytes);
    }
  }

  lemma {:induction false} TallyAdd(t: Tree, s: Slot, seen: set<nat>, p: nat, avail: bool, bytes: bool)
    requires Fits(t, s.log) && At(t, s, p).Some? && p !in seen
    ensures var b := At(t, s, p).value;
      Tally(t, s, seen + {p}, avail, bytes) ==
      Tally(t, s, seen, avail, bytes) + if b.avail == avail then Weight(b.log, bytes) else 0
  {
    if t.Node? {
      if p < s.Mid() {
        TallyAdd(t.left, s.Left(), seen, p, avail, bytes);
        TallyOther(t.right, s.Right(), seen, p, avail, bytes);
      } else {
        AtBounds(t.right, s.Right(), p);
        TallyAdd(t.right, s.Right(), seen, p, avail, bytes);
        TallyOther(t.left, s.Left(), seen, p, avail, bytes);
      }
    }
  }

  // Everything seen: the whole region is accounted for.
  lemma {:induction false} TallyAll(t: Tree, s: Slot, seen: set<nat>)
    requires Fits(t, s.log)
    requires forall p: nat {:trigger At(t, s, p)} :: At(t, s, p).Some? ==> p in seen
    ensures Tally(t, s, seen, true, false) + Tally(t, s, seen, false, false) == Leaves(t)
    ensures forall avail :: Tally(t, s, seen, avail, true) == Bytes(t, s.log, avail)
  {
    if t.Leaf? {
      assert At(t, s, s.off).Some?;
    } else {
      forall p: nat
        ensures At(t.left, s.Left(), p).Some? ==> p in seen
        ensures At(t.right, s.Right(), p).Some? ==> p in seen
      {
        if At(t.left, s.Left(), p).Some? {
          AtBounds(t.left, s.Left(), p);
          assert At(t, s, p).Some?;
        }
        if At(t.right, s.Right(), p).Some? {
          AtBounds(t.right, s.Right(), p);
          assert At(t, s, p).Some?;
        }
      }
      TallyAll(t.left, s.Left(), seen);
      TallyAll(t.right, s.Right(), seen);
    }
  }

  // The addresses of the blocks on lists 0 to i - 1 and the first j of list i.
  ghost predicate SeenUpTo(pool: MPool, seen: set<nat>, i: nat, j: nat)
    reads pool, pool.mem, pool.blktable, pool.blktable.heads, pool.blktable.links
  {
    pool.Valid() && i <= pool.blktable.heads.Length &&
    forall p :: p in seen <==>
      p in pool.blocks &&
      (pool.maxlogsize - pool.blocks[p].log < i ||
       (i < pool.blktable.heads.Length && pool.maxlogsize - pool.blocks[p].log == i &&
        j <= |pool.blktable.lists[i]| && p in pool.blktable.lists[i][..j]))
  }

  lemma SeenNone(pool: MPool)
    requires pool.Valid()
    ensures SeenUpTo(pool, {}, 0, 0)
  {
    forall p | p in pool.blocks
      ensures 0 <= pool.maxlogsize - pool.blocks[p].log
    {
      pool.BlockBounds(p);
    }
  }

  lemma SeenNext(pool: MPool, seen: set<nat>, i: nat, j: nat)
    requires SeenUpTo(pool, seen, i, j) && i < pool.blktable.heads.Length && j < |pool.blktable.lists[i]|
    ensures var p := pool.blktable.lists[i][j];
      p in pool.blocks && p !in seen && SeenUpTo(pool, seen + {p}, i, j + 1)
      && At(pool.tree, pool.Pool(), p) == Some(pool.blocks[p])
      && p < pool.mem.Length && pool.mem[p].Block() == pool.blocks[p]
  {
    var list := pool.blktable.lists[i];
    pool.ListElement(i, j);
    assert NoDup(list);
    NoDupIndex(list, j);
    assert list[..j + 1] == list[..j] + [list[j]];
  }

  lemma {:induction false} NoDupIndex(s: seq<nat>, j: nat)
    requires NoDup(s) && j < |s|
    ensures s[j] !in s[..j]
  {
    if j > 0 {
      NoDupIndex(s[1..], j - 1);
      assert s[..j] == [s[0]] + s[1..][..j - 1];
    }
  }

  lemma SeenList(pool: MPool, seen: set<nat>, i: nat)
    requires i < |pool.blktable.lists| && SeenUpTo(pool, seen, i, |pool.blktable.lists[i]|)
    ensures SeenUpTo(pool, seen, i + 1, 0)
  {
    forall p | p in pool.blocks
      ensures p in pool.blktable.lists[i] <==> pool.maxlogsize - pool.blocks[p].log == i
    {
      assert p in pool.blktable.lists[i] <==> OnList(pool.blocks, pool.maxlogsize, i, p);
    }
    assert pool.blktable.lists[i][..|pool.blktable.lists[i]|] == pool.blktable.lists[i];
  }

  lemma SeenAll(pool: MPool, seen: set<nat>)
    requires SeenUpTo(pool, seen, pool.blktable.heads.Length, 0)
    ensures forall p: nat {:trigger At(pool.tree, pool.Pool(), p)} :: At(pool.tree, pool.Pool(), p).Some? ==> p in seen
    ensures seen == pool.blocks.Keys
  {
    forall p: nat | At(pool.tree, pool.Pool(), p).Some?
      ensures p in seen
    {
      assert p in pool.blocks;
      pool.BlockBounds(p);
    }
    forall p | p in pool.blocks
      ensures p in seen
    {
      pool.BlockBounds(p);
    }
  }

  // mpool_stat_get_bytes: the two totals are those of the blocks in the pool
  // and never add up to anything but its size.
  method GetBytes(pool: MPool) returns (avail: nat, used: nat)
    requires pool.Valid()
    ensures avail == Bytes(pool.tree, pool.maxlogsize, true) && used == Bytes(pool.tree, pool.maxlogsize, false)
    ensures avail + used == Pow2(pool.maxlogsize)
  {
    avail, used := 0, 0;
    ghost var seen, t, s := {}, pool.tree, pool.Pool();
    SeenNone(pool);
    TallyNone(t, s, true, true);
    TallyNone(t, s, false, true);
    var i := 0;
    while i < pool.blktable.heads.Length
      invariant 0 <= i <= pool.blktable.heads.Length && SeenUpTo(pool, seen, i, 0)
      invariant avail == Tally(t, s, seen, true, true) && used == Tally(t, s, seen, false, true)
    {
      var pnode := pool.blktable.FirstOf(i);
      ghost var j := 0;
      while pnode.Some?
        invariant 0 <= j <= |pool.blktable.lists[i]| && pnode == pool.blktable.Node(i, j) && SeenUpTo(pool, seen, i, j)
        invariant avail == Tally(t, s, seen, true, true) && used == Tally(t, s, seen, false, true)
        decreases |pool.blktable.lists[i]| - j
      {
        var p := pnode.value;
        SeenNext(pool, seen, i, j);
        TallyAdd(t, s, seen, p, true, true);
        TallyAdd(t, s, seen, p, false, true);
        if IsAvail(pool.mem[p].flags) {
          avail := avail + Pow2(pool.mem[p].logsize);
        } else {
          used := used + Pow2(pool.mem[p].logsize);
        }
        seen := seen + {p};
        pnode := pool.blktable.NextOf(p, i, j);
        j := j + 1;
      }
      SeenList(pool, seen, i);
      i := i + 1;
    }
    SeenAll(pool, seen);
    TallyAll(t, s, seen);
    BytesConserved(t, pool.maxlogsize);
  }

  // The blocks seen so far that are available, or used.
  ghost function Marked(pool: MPool, seen: set<nat>, avail: bool): set<nat>
    reads pool
  {
    set p | p in seen && p in pool.blocks && pool.blocks[p].avail == avail
  }

  lemma MarkedAdd(pool: MPool, seen: set<nat>, p: nat, avail: bool)
    requires p in pool.blocks && p !in seen
    ensures |Marked(pool, seen + {p}, avail)| ==
            |Marked(pool, seen, avail)| + if pool.blocks[p].avail == avail then 1 else 0
  {
    if pool.blocks[p].avail == avail {
      assert Marked(pool, seen + {p}, avail) == Marked(pool, seen, avail) + {p};
    } else {
      assert Marked(pool, seen + {p}, avail) == Marked(pool, seen, avail);
    }
  }

  lemma {:induction false} MarkedIsTally(pool: MPool, seen: set<nat>, avail: bool)
    requires pool.Valid() && seen <= pool.blocks.Keys
    ensures |Marked(pool, seen, avail)| == Tally(pool.tree, pool.Pool(), seen, avail, false)
    decreases |seen|
  {
    if seen == {} {
      TallyNone(pool.tree, pool.Pool(), avail, false);
    } else {
      var p :| p in seen;
      var rest := seen - {p};
      assert seen == rest + {p} && At(pool.tree, pool.Pool(), p) == Some(pool.blocks[p]);
      MarkedIsTally(pool, rest, avail);
      MarkedAdd(pool, rest, p, avail);
      TallyAdd(pool.tree, pool.Pool(), rest, p, avail, false);
    }
  }

  // mpool_stat_get_nodes: every split has added a block and every merge has
  // taken one away.
  method GetNodes(pool: MPool) returns (avail: nat, used: nat)
    requires pool.Valid()
    ensures avail == |Marked(pool, pool.blocks.Keys, true)| && used == |Marked(pool, pool.blocks.Keys, false)|
    ensures avail + used + pool.nmerges == 1 + pool.nsplits
  {
    avail, used := 0, 0;
    ghost var seen: set<nat> := {};
    SeenNone(pool);
    var i := 0;
    while i < pool.blktable.heads.Length
      invariant 0 <= i <= pool.blktable.heads.Length && SeenUpTo(pool, seen, i, 0)
      invariant avail == |Marked(pool, seen, true)|
      invariant used == |Marked(pool, seen, false)|
    {
      var pnode := pool.blktable.FirstOf(i);
      ghost var j := 0;
      while pnode.Some?
        invariant 0 <= j <= |pool.blktable.lists[i]| && pnode == pool.blktable.Node(i, j) && SeenUpTo(pool, seen, i, j)
        invariant avail == |Marked(pool, seen, true)|
        invariant used == |Marked(pool, seen, false)|
        decreases |pool.blktable.lists[i]| - j
      {
        var p := pnode.value;
        SeenNext(pool, seen, i, j);
        MarkedAdd(pool, seen, p, true);
        MarkedAdd(pool, seen, p, false);
        if IsAvail(pool.mem[p].flags) {
          avail := avail + 1;
        } else {
          used := used + 1;
        }
        seen := seen + {p};
        pnode := pool.blktable.NextOf(p, i, j);
        j := j + 1;
      }
      SeenList(pool, seen, i);
      i := i + 1;
    }
    SeenAll(pool, seen);
    MarkedIsTally(pool, seen, true);
    MarkedIsTally(pool, seen, false);
    TallyAll(pool.tree, pool.Pool(), seen);
  }

  // mpool_stat_get_block_length: the number of blocks of one size.
  method GetBlockLength(pool: MPool, pos: nat) returns (length: nat)
    requires pool.Valid()
    ensures length == |set p | p in pool.blocks && pool.blocks[p].log + pos == pool.maxlogsize|
  {
    ghost var all := set p | p in pool.blocks && pool.blocks[p].log + pos == pool.maxlogsize;
    if pos >= pool.blktable.heads.Length {
      forall p | p in pool.blocks
        ensures p !in all
      {
        pool.BlockBounds(p);
      }
      assert all == {};
      return 0;
    }
    length := 0;
    ghost var list, seen: set<nat> := pool.blktable.lists[pos], {};
    var pnode := pool.blktable.FirstOf(pos);
    assert NoDup(list);
    while pnode.Some?
      invariant 0 <= length <= |list| && |seen| == length && pnode == pool.blktable.Node(pos, length)
      invariant forall p :: p in seen <==> p in list[..length]
      decreases |list| - length
    {
      NoDupIndex(list, length);
      assert list[..length + 1] == list[..length] + [list[length]];
      seen := seen + {list[length]};
      pnode := pool.blktable.NextOf(pnode.value, pos, length);
      length := length + 1;
    }
    assert list[..length] == list;
    forall p: nat
      ensures p in seen <==> p in all
    {
      assert p in pool.blktable.lists[pos] <==> OnList(pool.blocks, pool.maxlogsize, pos, p);
    }
    assert seen == all;
  }
}
