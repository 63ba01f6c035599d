// Block headers as they are kept in the pool's memory, and how large a block a
// request needs.
module BuddyHeaders {
  import opened Options
  import opened Powers
  import opened BuddyTree
  import opened BuddyTheory
  import opened BuddyLists

  // ---------- block headers ----------

  // The flags byte: only the three low bits mean anything.
  predicate IsAvail(f: bv8) { f & 1 != 0 }
  predicate IsRight(f: bv8) { f & 2 != 0 }
  predicate IsParent(f: bv8) { f & 4 != 0 }

  function SetFlag(f: bv8, bit: bv8, on: bool): bv8 {
    if on then f | bit else f & !bit
  }

  function MarkAvail(f: bv8, on: bool): (r: bv8)
    ensures IsAvail(r) == on && IsRight(r) == IsRight(f) && IsParent(r) == IsParent(f) && r | 1 == f | 1
  {
    SetFlag(f, 1, on)
  }

  function MarkRight(f: bv8, on: bool): (r: bv8)
    ensures IsRight(r) == on && IsAvail(r) == IsAvail(f) && IsParent(r) == IsParent(f) && r | 2 == f | 2
  {
    SetFlag(f, 2, on)
  }

  function MarkParent(f: bv8, on: bool): (r: bv8)
    ensures IsParent(r) == on && IsAvail(r) == IsAvail(f) && IsRight(r) == IsRight(f) && r | 4 == f | 4
  {
    SetFlag(f, 4, on)
  }

  // blknode_t without its LIST_ENTRY, which BuddyLinks keeps by address: flags,
  // size, and what the user gets.
  datatype Header = Header(flags: bv8, logsize: nat, ptr: nat) {
    function Block(): Block {
      BuddyTree.Block(logsize, IsAvail(flags), IsRight(flags), IsParent(flags))
    }
  }

  // A fresh header over whatever the memory held before.
  function BlockInit(was: Header, ptr: nat, avail: bool, right: bool, parent: bool, logsize: nat): (h: Header)
    ensures h.Block() == BuddyTree.Block(logsize, avail, right, parent) && h.ptr == ptr
  {
    Header(MarkParent(MarkRight(MarkAvail(was.flags, avail), right), parent), logsize, ptr)
  }

  // Every live block has its header in place.
  ghost predicate Headed(mem: seq<Header>, m: map<nat, Block>, overhead: nat) {
    forall p {:trigger HeaderAt(mem, m, p, overhead)} :: p in m ==> HeaderAt(mem, m, p, overhead)
  }

  predicate HeaderAt(mem: seq<Header>, m: map<nat, Block>, p: nat, overhead: nat)
    requires p in m
  {
    p < |mem| && mem[p].Block() == m[p] && mem[p].ptr == p + overhead
  }

  lemma HeadedSplit(mem: seq<Header>, h: Header, h': Header, m: map<nat, Block>, p: nat, overhead: nat)
    requires Headed(mem, m, overhead) && p in m && m[p].log > 0 && p + Pow2(m[p].log - 1) < |mem|
    requires h.ptr == p + overhead && h.Block() == Block(m[p].log - 1, true, false, m[p].lr)
    requires h'.ptr == p + Pow2(m[p].log - 1) + overhead && h'.Block() == Block(m[p].log - 1, true, true, m[p].parent)
    ensures Headed(mem[p := h][p + Pow2(m[p].log - 1) := h'], SplitMap(m, p), overhead)
  {
    forall q | q in SplitMap(m, p)
      ensures HeaderAt(mem[p := h][p + Pow2(m[p].log - 1) := h'], SplitMap(m, p), q, overhead)
    {
      assert q in m ==> HeaderAt(mem, m, q, overhead);
    }
  }

  lemma HeadedMark(mem: seq<Header>, h: Header, m: map<nat, Block>, p: nat, a: bool, overhead: nat)
    requires Headed(mem, m, overhead) && p in m && p < |mem|
    requires h.ptr == p + overhead && h.Block() == m[p].(avail := a)
    ensures Headed(mem[p := h], m[p := m[p].(avail := a)], overhead)
  {
    forall q | q in m
      ensures HeaderAt(mem[p := h], m[p := m[p].(avail := a)], q, overhead)
    {
      assert HeaderAt(mem, m, q, overhead);
    }
  }

  lemma HeadedMerge(mem: seq<Header>, h: Header, m: map<nat, Block>, p: nat, l: nat, overhead: nat)
    requires Headed(mem, m, overhead) && MergeablePair(m, l, p) && p < |mem|
    requires h.ptr == p + overhead
    requires h.Block() == Block(m[p].log + 1, true, m[p].parent, m[p + Pow2(m[p].log)].parent)
    ensures Headed(mem[p := h], MergeMap(m, p), overhead)
  {
    forall q | q in MergeMap(m, p)
      ensures HeaderAt(mem[p := h], MergeMap(m, p), q, overhead)
    {
      assert q in m ==> HeaderAt(mem, m, q, overhead);
    }
  }

  // ---------- request sizes ----------

  // The smallest k from `from` on with 2^k >= size.
  function LogFrom(size: nat, from: nat): (k: nat)
    ensures k >= from && Pow2(k) >= size
    ensures k > from ==> Pow2(k - 1) < size
    decreases size - Pow2(from)
  {
    if Pow2(from) >= size then from else LogFrom(size, from + 1)
  }

  lemma {:induction false} LogFromLeast(size: nat, from: nat, k: nat)
    requires k >= from
    ensures Pow2(k) >= size <==> k >= LogFrom(size, from)
    decreases k
  {
    var j := LogFrom(size, from);
    if k >= j {
      Pow2Monotone(j, k);
    } else {
      Pow2Monotone(k, j - 1);
    }
  }

  // The split loop stops exactly at the least sufficient size.
  lemma StopsAtLeast(size: nat, from: nat, l: nat)
    requires l >= LogFrom(size, from) && l > 0
    ensures (size == Pow2(l) || size > Pow2(l - 1) || from > l - 1) <==> l == LogFrom(size, from)
  {
    LogFromLeast(size, from, l);
    if l > from { LogFromLeast(size, from, l - 1); }
  }

  // Having a candidate block for size bytes and fitting 2^k bytes is the same.
  lemma CandidateFits(t: Tree, max: nat, d: nat, m: map<nat, Block>, size: nat)
    requires d <= max && Fits(t, d) && Describes(t, Root(max), m)
    ensures Fitting(t, max, LogFrom(size, max - d)) <==> exists p: nat :: Candidate(m, size, p)
    ensures forall p: nat :: Candidate(m, size, p) ==> m[p].log >= LogFrom(size, max - d)
  {
    var k := LogFrom(size, max - d);
    if Fitting(t, max, k) {
      var p := FittingFound(t, Root(max), k);
      assert At(t, Root(max), p) == Some(m[p]);
      Pow2Monotone(k, m[p].log);
      assert Candidate(m, size, p);
    }
    forall p: nat | Candidate(m, size, p)
      ensures m[p].log >= k && Fitting(t, max, k)
    {
      DescribesBounds(t, Root(max), m, p, d);
      LogFromLeast(size, max - d, m[p].log);
      assert At(t, Root(max), p) == Some(m[p]);
      FoundFitting(t, Root(max), k, p);
    }
  }

  // The sum of the request and the header, in machine arithmetic.
  function TotalSize(blksize: nat, overhead: nat, wordBits: nat): nat {
    (blksize + overhead) % Pow2(wordBits)
  }
}
