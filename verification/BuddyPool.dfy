// The allocator itself: block headers kept in place in the pool's memory, one
// list of blocks per block size, a split loop and a coalescing loop.
module BuddyPool {
  import opened Options
  import opened Powers
  import opened BuddyTree
  import opened BuddyTheory
  import opened BuddyLists
  import opened BuddyLinks
  import opened BuddyHeaders
  import opened BuddySteps

  datatype InitResult = Ok | OutOfRange | BadValue

  class MPool {
    const wordBits: nat   // bits of a size_t
    const overhead: nat   // sizeof(blknode_t)
    const maxlogsize: nat
    const minlogsize: nat
    const mem: array<Header>      // the header last written at each address
    const blktable: BlockTable    // list i has the blocks of log size maxlogsize - i
    var nsplits: nat
    var nmerges: nat
    ghost var written: seq<nat>   // the address of every assignment to mem
    ghost var tree: Tree
    ghost var blocks: map<nat, Block>

    ghost function Pool(): Slot {
      Root(maxlogsize)
    }

    ghost predicate Sized() {
      && 1 <= overhead < Pow2(minlogsize) && minlogsize <= maxlogsize <= wordBits
      && mem.Length == blktable.links.Length == Pow2(maxlogsize)
      && blktable.heads.Length == maxlogsize - minlogsize + 1
    }

    ghost function Now(): State
      reads this, mem, blktable, blktable.links
    {
      State(tree, blocks, nsplits, nmerges, mem[..], written, blktable.links[..], blktable.written, blktable.lists)
    }

    // Memory and lists agree with the tree of blocks, which may not be coalesced.
    ghost predicate Shape()
      reads this, mem, blktable, blktable.heads, blktable.links
    {
      Sized() && blktable.Valid() && WellShaped(Now(), maxlogsize, maxlogsize - minlogsize, overhead)
    }

    ghost predicate Valid()
      reads this, mem, blktable, blktable.heads, blktable.links
    {
      Shape() && Coalesced(tree)
    }

    constructor (wordBits: nat, overhead: nat, maxlogsize: nat, minlogsize: nat)
      requires 1 <= overhead < Pow2(minlogsize) && minlogsize <= maxlogsize <= wordBits
      ensures Valid() && fresh(mem) && fresh(blktable) && fresh(blktable.heads) && fresh(blktable.links)
      ensures this.wordBits == wordBits && this.overhead == overhead
      ensures this.maxlogsize == maxlogsize && this.minlogsize == minlogsize
      ensures tree == Leaf(true) && nsplits == 0 && nmerges == 0
      ensures blocks == map[0 := Block(maxlogsize, true, false, true)]
    {
      this.wordBits, this.overhead := wordBits, overhead;
      this.maxlogsize, this.minlogsize := maxlogsize, minlogsize;
      nsplits, nmerges := 0, 0;
      var m := new Header[Pow2(maxlogsize)];
      var t := new BlockTable(maxlogsize - minlogsize + 1, Pow2(maxlogsize));
      m[0] := BlockInit(m[0], overhead, true, false, true, maxlogsize);
      t.InsertHead(0, 0, {0});
      mem, blktable, written := m, t, [0];
      tree := Leaf(true);
      blocks := map[0 := Block(maxlogsize, true, false, true)];
    }

    // mpool_init: the pool is created only if the sizes make sense.
    static method Init(wordBits: nat, overhead: nat, maxlogsize: nat, minlogsize: nat)
      returns (r: InitResult, pool: MPool?)
      requires overhead >= 1
      ensures r == if maxlogsize > wordBits then OutOfRange
                   else if maxlogsize < minlogsize || Pow2(minlogsize) <= overhead then BadValue
                   else Ok
      ensures r == Ok <==> pool != null
      ensures pool != null ==>
        && fresh(pool) && fresh(pool.mem) && pool.Valid()
        && fresh(pool.blktable) && fresh(pool.blktable.heads) && fresh(pool.blktable.links)
        && pool.wordBits == wordBits && pool.overhead == overhead
        && pool.maxlogsize == maxlogsize && pool.minlogsize == minlogsize
        && pool.tree == Leaf(true) && pool.nsplits == 0 && pool.nmerges == 0
        && pool.blocks == map[0 := Block(maxlogsize, true, false, true)]
    {
      if maxlogsize > wordBits {
        return OutOfRange, null;
      }
      if maxlogsize < minlogsize || Pow2(minlogsize) <= overhead {
        return BadValue, null;
      }
      pool := new MPool(wordBits, overhead, maxlogsize, minlogsize);
      r := Ok;
    }

    // Every block has a sensible size and its header lies in the pool.
    lemma BlockBounds(p: nat)
      requires Shape() && p in blocks
      ensures minlogsize <= blocks[p].log <= maxlogsize && p + Pow2(blocks[p].log) <= mem.Length && p < mem.Length
      ensures overhead < Pow2(blocks[p].log)
      ensures minlogsize < blocks[p].log ==> overhead < Pow2(blocks[p].log - 1)
      ensures mem[p].Block() == blocks[p] && mem[p].ptr == p + overhead
    {
      DescribesBounds(tree, Pool(), blocks, p, maxlogsize - minlogsize);
      assert HeaderAt(mem[..], blocks, p, overhead);
      Pow2Monotone(minlogsize, blocks[p].log);
      if minlogsize < blocks[p].log { Pow2Monotone(minlogsize, blocks[p].log - 1); }
    }

    lemma ListElement(i: nat, j: nat)
      requires Shape() && i < |blktable.lists| && j < |blktable.lists[i]|
      ensures var p := blktable.lists[i][j];
        p in blocks && blocks[p].log == maxlogsize - i && p < mem.Length && mem[p].Block() == blocks[p]
    {
      var p := blktable.lists[i][j];
      assert p in blktable.lists[i];
      assert OnList(blocks, maxlogsize, i, p);
      BlockBounds(p);
    }

    // The search of mpool_alloc: the first available block on the list of the
    // smallest sufficient size that has one.
    method FindBest(size: nat) returns (found: Option<nat>)
      requires Shape()
      ensures found.Some? ==> BestFit(blktable.lists, blocks, maxlogsize, size, found.value)
      ensures found.None? ==> forall q: nat :: !Candidate(blocks, size, q)
    {
      forall q: nat | q in blocks
        ensures 0 <= maxlogsize - blocks[q].log < blktable.heads.Length
      {
        BlockBounds(q);
      }
      found := None;
      var i := 0;
      while i < blktable.heads.Length
        invariant 0 <= i <= blktable.heads.Length
        invariant found.None? ==> forall q: nat :: Candidate(blocks, size, q) ==> i <= maxlogsize - blocks[q].log
        invariant found.Some? ==>
          && Candidate(blocks, size, found.value)
          && 0 <= maxlogsize - blocks[found.value].log < i
          && FirstOnList(blktable.lists[maxlogsize - blocks[found.value].log], blocks, size, found.value)
          && forall q: nat :: Candidate(blocks, size, q) ==>
               blocks[found.value].log <= blocks[q].log || i <= maxlogsize - blocks[q].log
      {
        var onList := FirstAvailable(i, size);
        forall q: nat | Candidate(blocks, size, q) && onList.None?
          ensures maxlogsize - blocks[q].log != i
        {
          assert q in blktable.lists[i] <==> OnList(blocks, maxlogsize, i, q);
        }
        if onList.Some? {
          found := onList;
        }
        i := i + 1;
      }
    }

    method FirstAvailable(i: nat, size: nat) returns (found: Option<nat>)
      requires Shape() && i < blktable.heads.Length
      ensures found.Some? ==>
        && Candidate(blocks, size, found.value) && blocks[found.value].log == maxlogsize - i
        && FirstOnList(blktable.lists[i], blocks, size, found.value)
      ensures found.None? ==> forall q :: q in blktable.lists[i] ==> !Candidate(blocks, size, q)
    {
      found := None;
      ghost var list := blktable.lists[i];
      var pnode := blktable.FirstOf(i);
      if pnode.None? {
        return;
      }
      ListElement(i, 0);
      if Pow2(mem[pnode.value].logsize) >= size {
        ghost var j := 0;
        while pnode.Some?
          invariant 0 <= j <= |list| && pnode == blktable.Node(i, j)
          invariant forall n :: 0 <= n < j ==> !Candidate(blocks, size, list[n])
          decreases |list| - j
        {
          ListElement(i, j);
          if IsAvail(mem[pnode.value].flags) {
            return pnode;
          }
          pnode := blktable.NextOf(pnode.value, i, j);
          j := j + 1;
        }
      } else {
        forall q | q in list
          ensures !Candidate(blocks, size, q)
        {
          var j :| 0 <= j < |list| && list[j] == q;
          ListElement(i, j);
        }
      }
    }

    // Split the available block at p in two.
    method SplitBlock(p: nat)
      requires Shape()
      requires p in blocks && blocks[p].avail && minlogsize < blocks[p].log <= maxlogsize
      modifies this, mem, blktable, blktable.heads, blktable.links
      ensures Shape() && SplitInTwo(old(Now()), Now(), maxlogsize, p)
      ensures p < mem.Length && mem[p].Block() == blocks[p]
    {
      BlockBounds(p);
      ghost var n, r := Now(), p + Pow2(blocks[p].log - 1);
      SplitPlan(n, maxlogsize, maxlogsize - minlogsize, overhead, p);
      SplitHeader(p, SplitMap(blocks, p).Keys);
      assert mem[..] == n.mem[p := mem[p]][r := mem[r]];
      tree, blocks := Split(tree, Pool(), p), SplitMap(blocks, p);
      SplitKeepsShape(n, Now(), maxlogsize, maxlogsize - minlogsize, overhead, p);
    }

    // What a split writes: two headers, two lists and a counter.
    method SplitHeader(p: nat, ghost live: set<nat>)
      requires p < mem.Length == blktable.links.Length && 0 < mem[p].logsize <= maxlogsize
      requires p + Pow2(mem[p].logsize - 1) < mem.Length && IsAvail(mem[p].flags)
      requires blktable.Valid() && maxlogsize - mem[p].logsize + 1 < |blktable.lists|
      requires p in blktable.lists[maxlogsize - mem[p].logsize] && Nowhere(blktable.lists, p + Pow2(mem[p].logsize - 1))
      requires AllLive(blktable.lists, live) && p in live && p + Pow2(mem[p].logsize - 1) in live
      modifies this`nsplits, this`written, mem, blktable, blktable.heads, blktable.links
      ensures nsplits == old(nsplits) + 1 && blktable.Valid()
      ensures blktable.lists == SplitLists(old(blktable.lists), maxlogsize, old(mem[p].logsize), p)
      ensures ChangedOnly(old(blktable.links[..]), blktable.links[..], live)
      ensures WroteOnly(old(blktable.written), blktable.written, live)
      ensures var b := old(mem[p].Block()); var r := p + Pow2(b.log - 1);
        && mem[..] == old(mem[..])[p := mem[p]][r := mem[r]] && WroteOnly(old(written), written, {p, r})
        && mem[p].ptr == old(mem[p].ptr) && mem[p].Block() == Block(b.log - 1, true, false, b.lr)
        && mem[r].ptr == r + overhead && mem[r].Block() == Block(b.log - 1, true, true, b.parent)
    {
      ghost var links, r := blktable.links[..], p + Pow2(mem[p].logsize - 1);
      nsplits := nsplits + 1;
      var flag := ShrinkLeft(p, r, live);
      ghost var links', l := blktable.links[..], blktable.lists[maxlogsize - mem[p].logsize];
      AddRight(p, flag, live);
      assert [r] + l == [r, p] + l[1..];
      ChangedTwice(links, links', blktable.links[..], live);
    }

    // The old chunk, made smaller, goes to the next list.
    method ShrinkLeft(p: nat, ghost r: nat, ghost live: set<nat>) returns (flag: bv8)
      requires p < mem.Length == blktable.links.Length && 0 < mem[p].logsize <= maxlogsize && p != r
      requires blktable.Valid() && maxlogsize - mem[p].logsize + 1 < |blktable.lists|
      requires p in blktable.lists[maxlogsize - mem[p].logsize] && Nowhere(blktable.lists, r)
      requires AllLive(blktable.lists, live) && p in live
      modifies this`written, mem, blktable, blktable.heads, blktable.links
      ensures flag == old(mem[p].flags) && blktable.Valid()
      ensures Nowhere(blktable.lists, r) && AllLive(blktable.lists, live)
      ensures var i := maxlogsize - old(mem[p].logsize);
        blktable.lists ==
        old(blktable.lists)[i := Without(old(blktable.lists)[i], p)][i + 1 := [p] + old(blktable.lists)[i + 1]]
      ensures ChangedOnly(old(blktable.links[..]), blktable.links[..], live)
      ensures WroteOnly(old(blktable.written), blktable.written, live)
      ensures var b := old(mem[p].Block());
        && mem[..] == old(mem[..])[p := mem[p]] && WroteOnly(old(written), written, {p})
        && mem[p].ptr == old(mem[p].ptr) && mem[p].Block() == Block(b.log - 1, b.avail, false, b.lr)
    {
      ghost var i := maxlogsize - mem[p].logsize;
      WithoutKeeps(blktable.lists, i, p, r, live);
      blktable.Remove(p, i, live);
      mem[p] := mem[p].(logsize := mem[p].logsize - 1);
      written := written + [p];
      flag := mem[p].flags;
      mem[p] := mem[p].(flags := MarkRight(MarkParent(mem[p].flags, IsRight(mem[p].flags)), false));
      written := written + [p];
      var newpos := maxlogsize - mem[p].logsize;
      blktable.InsertHead(newpos, p, live);
    }

    // Its right half gets a header of its own, on the same list.
    method AddRight(p: nat, flag: bv8, ghost live: set<nat>)
      requires p < mem.Length == blktable.links.Length && mem[p].logsize <= maxlogsize
      requires p + Pow2(mem[p].logsize) < mem.Length
      requires blktable.Valid() && maxlogsize - mem[p].logsize < |blktable.lists|
      requires Nowhere(blktable.lists, p + Pow2(mem[p].logsize))
      requires AllLive(blktable.lists, live) && p + Pow2(mem[p].logsize) in live
      modifies this`written, mem, blktable, blktable.heads, blktable.links
      ensures blktable.Valid() && ChangedOnly(old(blktable.links[..]), blktable.links[..], live)
      ensures WroteOnly(old(blktable.written), blktable.written, live)
      ensures var b := old(mem[p].Block()); var r := p + Pow2(b.log);
        && blktable.lists == old(blktable.lists)[maxlogsize - b.log := [r] + old(blktable.lists)[maxlogsize - b.log]]
        && mem[..] == old(mem[..])[r := mem[r]] && WroteOnly(old(written), written, {r})
        && mem[r].ptr == r + overhead && mem[r].Block() == Block(b.log, true, true, IsParent(flag))
    {
      var r := p + Pow2(mem[p].logsize);
      mem[r] := BlockInit(mem[r], r + overhead, true, true, IsParent(flag), mem[p].logsize);
      written := written + [r];
      blktable.InsertHead(maxlogsize - mem[p].logsize, r, live);
    }

    // The log size of the block that a request gets.
    function RequestLog(blksize: nat): nat {
      LogFrom(TotalSize(blksize, overhead, wordBits), minlogsize)
    }

    // It is the least one with room for the request and the header; when
    // adding the two overflows, any block is large enough for what is left.
    lemma RequestLogLeast(blksize: nat, k: nat)
      requires Sized() && blksize < Pow2(wordBits) && k >= minlogsize
      ensures k >= RequestLog(blksize) <==> Pow2(k) >= blksize + overhead || blksize + overhead >= Pow2(wordBits)
    {
      var n, word := blksize + overhead, Pow2(wordBits);
      Pow2Monotone(minlogsize, wordBits);
      Pow2Monotone(minlogsize, k);
      if n < word {
        DivModUnique(n, word, 0, n);
      } else {
        DivModUnique(n, word, 1, n - word);
      }
      LogFromLeast(TotalSize(blksize, overhead, wordBits), minlogsize, k);
    }

    method Alloc(blksize: nat) returns (ptr: Option<nat>)
      requires Valid()
      requires blksize < Pow2(wordBits)
      modifies this, mem, blktable, blktable.heads, blktable.links
      ensures Valid() && nmerges == old(nmerges)
      ensures ptr.Some? <==> exists w: nat :: OpenWindow(old(blocks), maxlogsize, RequestLog(blksize), w)
      ensures ptr.None? ==> Now() == old(Now())
      ensures ptr.Some? ==>
        && ptr.value >= overhead
        && BestFit(old(blktable.lists), old(blocks), maxlogsize,
                   TotalSize(blksize, overhead, wordBits), ptr.value - overhead)
        && Carved(old(Now()), Now(), maxlogsize, overhead, ptr.value - overhead, RequestLog(blksize))
        && AddsOne(old(blocks), blocks, ptr.value - overhead, RequestLog(blksize))
        && PayloadsSpared(old(Now()), Now(), overhead, blocks)
    {
      var size := TotalSize(blksize, overhead, wordBits);
      CandidateFits(tree, maxlogsize, maxlogsize - minlogsize, blocks, size);
      FittingIffOpenWindow(tree, blocks, maxlogsize, RequestLog(blksize));
      var avail := FindBest(size);
      if avail.None? {
        return None;
      }
      ghost var o := Now();
      CarveCoalesced(tree, Pool(), avail.value, RequestLog(blksize));
      var p := CarveBlock(avail.value, size);
      AllocAddsOne(o.tree, o.blocks, blocks, maxlogsize, avail.value, RequestLog(blksize));
      HeadersSparePayloads(o, Now(), overhead, tree, Pool(), blocks);
      return Some(p);
    }

    // The split loop of mpool_alloc, and handing out what it ends with.
    method CarveBlock(p: nat, size: nat) returns (ptr: nat)
      requires Shape()
      requires p in blocks && blocks[p].avail
      requires LogFrom(size, minlogsize) <= blocks[p].log
      modifies this, mem, blktable, blktable.heads, blktable.links
      ensures Shape() && ptr == p + overhead
      ensures Carved(old(Now()), Now(), maxlogsize, overhead, p, LogFrom(size, minlogsize))
    {
      ghost var k, o := LogFrom(size, minlogsize), Now();
      BlockBounds(p);
      while !(size == Pow2(mem[p].logsize) || size > Pow2(mem[p].logsize - 1) || minlogsize > mem[p].logsize - 1)
        invariant Shape() && Carving(o, Now(), maxlogsize, overhead, p, k)
        invariant p < mem.Length && mem[p].Block() == blocks[p]
        decreases mem[p].logsize
      {
        StopsAtLeast(size, minlogsize, mem[p].logsize);
        CarveStep(o, p, k);
      }
      StopsAtLeast(size, minlogsize, mem[p].logsize);
      ptr := HandOut(o, p);
    }

    // One turn of the split loop.
    method CarveStep(ghost o: State, p: nat, ghost k: nat)
      requires Shape() && Carving(o, Now(), maxlogsize, overhead, p, k)
      requires k < blocks[p].log && minlogsize < blocks[p].log
      modifies this, mem, blktable, blktable.heads, blktable.links
      ensures Shape() && Carving(o, Now(), maxlogsize, overhead, p, k)
      ensures p < mem.Length && mem[p].Block() == blocks[p] && blocks[p].log == old(blocks[p].log) - 1
    {
      ghost var n := Now();
      BlockBounds(p);
      SplitBlock(p);
      CarvingStep(o, n, Now(), maxlogsize, overhead, p, k);
    }

    // The block has the right size: mark it used.
    method HandOut(ghost o: State, p: nat) returns (ptr: nat)
      requires Shape() && p in blocks && Carving(o, Now(), maxlogsize, overhead, p, blocks[p].log)
      modifies this`tree, this`blocks, this`written, mem
      ensures Shape() && Carved(o, Now(), maxlogsize, overhead, p, old(blocks)[p].log) && ptr == p + overhead
    {
      ghost var n := Now();
      BlockBounds(p);
      MarkUsed(p);
      CarvingEnds(o, n, Now(), maxlogsize, overhead, p, mem[p]);
      return mem[p].ptr;
    }

    // MPOOL_MARK_USED
    method MarkUsed(p: nat)
      requires Shape() && p in blocks && p < mem.Length
      modifies this`tree, this`blocks, this`written, mem
      ensures Shape() && mem[p].ptr == p + overhead
      ensures Now() == old(Now()).(tree := SetAvail(old(tree), Pool(), p, false), mem := old(mem[..])[p := mem[p]],
                                   memWritten := old(written) + [p],
                                   blocks := old(blocks)[p := old(blocks)[p].(avail := false)])
    {
      ghost var n := Now();
      assert HeaderAt(n.mem, blocks, p, overhead);
      mem[p] := mem[p].(flags := MarkAvail(mem[p].flags, false));
      written := written + [p];
      tree, blocks := SetAvail(tree, Pool(), p, false), blocks[p := blocks[p].(avail := false)];
      assert mem[..] == n.mem[p := mem[p]];
      MarkKeepsShape(n, Now(), maxlogsize, maxlogsize - minlogsize, overhead, p, mem[p], false);
    }

    // MPOOL_MARK_AVAIL
    method MarkAvailable(p: nat)
      requires Shape() && p in blocks && p < mem.Length
      modifies this`tree, this`blocks, this`written, mem
      ensures Shape() && mem[p].ptr == p + overhead
      ensures Now() == old(Now()).(tree := SetAvail(old(tree), Pool(), p, true), mem := old(mem[..])[p := mem[p]],
                                   memWritten := old(written) + [p],
                                   blocks := old(blocks)[p := old(blocks)[p].(avail := true)])
    {
      ghost var n := Now();
      assert HeaderAt(n.mem, blocks, p, overhead);
      mem[p] := mem[p].(flags := MarkAvail(mem[p].flags, true));
      written := written + [p];
      tree, blocks := SetAvail(tree, Pool(), p, true), blocks[p := blocks[p].(avail := true)];
      assert mem[..] == n.mem[p := mem[p]];
      MarkKeepsShape(n, Now(), maxlogsize, maxlogsize - minlogsize, overhead, p, mem[p], true);
    }

    method Free(ptr: nat)
      requires Valid()
      requires ptr >= overhead && ptr - overhead in blocks && !blocks[ptr - overhead].avail
      modifies this, mem, blktable, blktable.heads, blktable.links
      ensures Valid()
      ensures Freed(old(Now()), Now(), maxlogsize, overhead, ptr - overhead)
      ensures RemovesOne(old(blocks), blocks, ptr - overhead)
      ensures PayloadsSpared(old(Now()), Now(), overhead, old(blocks))
    {
      var p: nat := ptr - overhead;
      ghost var p0, o := p, Now();
      ReleaseCoalesced(tree, Pool(), p);
      FreeingStarts(o, maxlogsize, overhead, p);
      var merging := true;
      while merging
        invariant Shape() && (if merging then Freeing(o, Now(), maxlogsize, overhead, p0, p)
                              else Coalesced(tree) && Freed(o, Now(), maxlogsize, overhead, p0))
        decreases merging, if merging then maxlogsize - blocks[p].log else 0
      {
        BlockBounds(p);
        var buddy := FindBuddy(p);
        if buddy.None? {
          Finish(o, p0, p);
          merging := false;
        } else {
          p := GrowBlock(o, p0, p, buddy.value);
          BlockBounds(p);
        }
      }
      FreeRemovesOne(o.tree, o.blocks, blocks, maxlogsize, p0);
      HeadersSparePayloads(o, Now(), overhead, o.tree, Pool(), o.blocks);
    }

    // The buddy that the block at p can be merged with.
    method FindBuddy(p: nat) returns (r: Option<nat>)
      requires Shape() && p in blocks
      ensures r.Some? ==>
        && blocks[p].log < maxlogsize && r.value == BuddyOf(p, blocks[p]) && r.value in blocks
        && blocks[r.value].log == blocks[p].log && blocks[r.value].avail && blocks[r.value].lr != blocks[p].lr
      ensures r.None? ==> At(tree, Pool(), p).Some? && Unmergeable(tree, Pool(), p)
    {
      BlockBounds(p);
      assert At(tree, Pool(), p) == Some(blocks[p]);
      if mem[p].logsize == maxlogsize {
        return None;
      }
      DescribesBuddy(tree, Pool(), blocks, p);
      var buddy: int;
      if IsRight(mem[p].flags) {
        buddy := p - Pow2(mem[p].logsize);
        if buddy < 0 {
          // "buddy out of pool"
          assert false;
        }
      } else {
        buddy := p + Pow2(mem[p].logsize);
        if buddy > Pow2(maxlogsize) - 1 {
          // "buddy out of pool"
          assert false;
        }
      }
      // the header about to be read is that of a live block
      assert buddy in blocks;
      BlockBounds(buddy);
      assert At(tree, Pool(), buddy) == Some(blocks[buddy]);
      if mem[buddy].logsize != mem[p].logsize || !IsAvail(mem[buddy].flags) {
        return None;
      }
      return Some(buddy);
    }

    // No merge is possible any more: mark the block available.
    method Finish(ghost o: State, ghost p0: nat, p: nat)
      requires Shape() && Freeing(o, Now(), maxlogsize, overhead, p0, p) && Coalesced(Release(o.tree, Pool(), p0))
      requires At(tree, Pool(), p).Some? && Unmergeable(tree, Pool(), p)
      modifies this`tree, this`blocks, this`written, mem
      ensures Valid() && Freed(o, Now(), maxlogsize, overhead, p0)
    {
      ghost var n := Now();
      BlockBounds(p);
      MarkAvailable(p);
      FreeingEnds(o, n, Now(), maxlogsize, overhead, p0, p, mem[p]);
    }

    // One merge of the block p that is being freed with its available buddy.
    method GrowBlock(ghost o: State, ghost p0: nat, p: nat, b: nat) returns (q: nat)
      requires Shape() && Freeing(o, Now(), maxlogsize, overhead, p0, p)
      requires Describes(o.tree, Pool(), o.blocks) && Listed(o.lists, o.blocks, maxlogsize)
      requires Buddies(blocks, maxlogsize, p, b, if blocks[p].lr then b else p)
      modifies this, mem, blktable, blktable.heads, blktable.links
      ensures Shape() && Freeing(o, Now(), maxlogsize, overhead, p0, q)
      ensures blocks[q].log == old(blocks)[p].log + 1
    {
      ghost var n := Now();
      BlockBounds(p);
      Pow2Monotone(blocks[p].log, blocks[p].log + 1);
      q := MergeBlocks(p, b);
      FreeingStep(o, n, Now(), maxlogsize, overhead, p0, p, b, q);
    }

    // Merge the block at p with its buddy at b.
    method MergeBlocks(p: nat, b: nat) returns (q: nat)
      requires Shape() && p in blocks
      requires Buddies(blocks, maxlogsize, p, b, if blocks[p].lr then b else p)
      modifies this, mem, blktable, blktable.heads, blktable.links
      ensures Shape() && q == if old(blocks)[p].lr then b else p
      ensures MergedInto(old(Now()), Now(), maxlogsize, p, b, q)
    {
      BlockBounds(p);
      BlockBounds(b);
      ghost var n := Now();
      MergePlan(n, maxlogsize, maxlogsize - minlogsize, overhead, p, b, if blocks[p].lr then b else p);
      q := MergeHeaders(p, b, blocks.Keys);
      tree, blocks := Merge(tree, Pool(), q), MergeMap(blocks, q);
      MergeKeepsShape(n, Now(), maxlogsize, maxlogsize - minlogsize, overhead, p, b, q);
    }

    // What a merge writes: one header, two lists and a counter.
    method MergeHeaders(pnode: nat, pbuddy: nat, ghost live: set<nat>) returns (pmerged: nat)
      requires pnode < mem.Length == blktable.links.Length && pbuddy < mem.Length && pnode != pbuddy
      requires mem[pnode].logsize == mem[pbuddy].logsize < maxlogsize
      requires blktable.Valid() && maxlogsize - mem[pnode].logsize < |blktable.lists|
      requires pnode in blktable.lists[maxlogsize - mem[pnode].logsize]
      requires pbuddy in blktable.lists[maxlogsize - mem[pnode].logsize]
      requires AllLive(blktable.lists, live)
      requires IsRight(mem[pnode].flags) != IsRight(mem[pbuddy].flags)
      modifies this`nmerges, this`written, mem, blktable, blktable.heads, blktable.links
      ensures nmerges == old(nmerges) + 1 && blktable.Valid()
      ensures pmerged == if old(IsRight(mem[pnode].flags)) then pbuddy else pnode
      ensures blktable.lists ==
        MergeLists(old(blktable.lists), maxlogsize, old(mem[pnode].logsize), pmerged, pnode, pbuddy)
      ensures ChangedOnly(old(blktable.links[..]), blktable.links[..], live)
      ensures WroteOnly(old(blktable.written), blktable.written, live)
      ensures mem[..] == old(mem[..])[pmerged := mem[pmerged]] && WroteOnly(old(written), written, {pmerged})
      ensures mem[pmerged].ptr == old(mem[..])[pmerged].ptr
      ensures var right := if pmerged == pnode then pbuddy else pnode;
        mem[pmerged].Block() ==
        Block(old(mem[pnode].logsize) + 1, true,
              old(mem[..])[pmerged].Block().parent, old(mem[..])[right].Block().parent)
    {
      nmerges := nmerges + 1;
      ghost var pos := maxlogsize - mem[pnode].logsize;
      RemoveBoth(pnode, pbuddy, pos, live);
      var pright;
      if !IsRight(mem[pnode].flags) {
        pmerged, pright := pnode, pbuddy;
      } else if !IsRight(mem[pbuddy].flags) {
        pmerged, pright := pbuddy, pnode;
      } else {
        // "wrong LR relation"
        assert false;
        pmerged, pright := pnode, pbuddy;
      }
      MergedHeader(pnode, pmerged, pright);
      blktable.InsertHead(maxlogsize - mem[pmerged].logsize, pmerged, live);
    }

    // The header of the merged block is made from those of its halves.
    method MergedHeader(pnode: nat, pmerged: nat, pright: nat)
      requires pnode < mem.Length && pmerged < mem.Length && pright < mem.Length && pmerged != pright
      modifies mem, this`written
      ensures mem[..] == old(mem[..])[pmerged := mem[pmerged]] && WroteOnly(old(written), written, {pmerged})
      ensures mem[pmerged].ptr == old(mem[pmerged].ptr)
      ensures mem[pmerged].Block() ==
        Block(old(mem[pnode].logsize) + 1, true,
              old(mem[pmerged].Block().parent), old(mem[pright].Block().parent))
    {
      var flags := MarkRight(mem[pmerged].flags, IsParent(mem[pmerged].flags));
      mem[pmerged] := mem[pmerged].(flags := MarkParent(flags, IsParent(mem[pright].flags)));
      written := written + [pmerged];
      mem[pmerged] := mem[pmerged].(logsize := mem[pnode].logsize + 1);
      written := written + [pmerged];
      mem[pmerged] := mem[pmerged].(flags := MarkAvail(mem[pmerged].flags, true));
      written := written + [pmerged];
    }

    method RemoveBoth(p: nat, b: nat, ghost i: nat, ghost live: set<nat>)
      requires blktable.Valid() && i < |blktable.lists| && p != b
      requires p in blktable.lists[i] && b in blktable.lists[i] && AllLive(blktable.lists, live)
      modifies blktable, blktable.heads, blktable.links
      ensures blktable.Valid() && AllLive(blktable.lists, live)
      ensures blktable.lists == old(blktable.lists)[i := Without(Without(old(blktable.lists)[i], p), b)]
      ensures Nowhere(blktable.lists, p) && Nowhere(blktable.lists, b) && p in live && b in live
      ensures ChangedOnly(old(blktable.links[..]), blktable.links[..], live)
      ensures WroteOnly(old(blktable.written), blktable.written, live)
    {
      WithoutElements(blktable.lists[i], p, b);
      blktable.Remove(p, i, live);
      WithoutKeeps(blktable.lists, i, b, p, live);
      blktable.Remove(b, i, live);
    }
  }
}
