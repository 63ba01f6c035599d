// One state of a pool after another: what is written, and what every turn of
// the split loop and of the coalescing loop keeps.
module BuddySteps {
  import opened Options
  import opened Powers
  import opened BuddyTree
  import opened BuddyTheory
  import opened BuddyLists
  import opened BuddyLinks
  import opened BuddyHeaders

  // ---------- what is written ----------

  // The whole state of a pool, as a value.  memWritten and linksWritten have the
  // address of every assignment to mem and links, whether or not it changes them.
  datatype State = State(
    tree: Tree, blocks: map<nat, Block>, nsplits: nat, nmerges: nat,
    mem: seq<Header>, memWritten: seq<nat>, links: seq<Link>, linksWritten: seq<nat>, lists: seq<seq<nat>>)

  // From o to n, flags, sizes and pointers are written only at the given addresses.
  ghost predicate WroteMem(o: State, n: State, at: set<nat>) {
    ChangedOnly(o.mem, n.mem, at) && WroteOnly(o.memWritten, n.memWritten, at)
  }

  ghost predicate WroteLinks(o: State, n: State, at: set<nat>) {
    ChangedOnly(o.links, n.links, at) && WroteOnly(o.linksWritten, n.linksWritten, at)
  }

  // From o to n, nothing is written but headers at the given addresses.
  ghost predicate WroteHeaders(o: State, n: State, at: set<nat>) {
    WroteMem(o, n, at) && WroteLinks(o, n, at)
  }

  lemma WroteTwice(o: State, n: State, n': State, at: set<nat>)
    ensures WroteMem(o, n, at) && WroteMem(n, n', at) ==> WroteMem(o, n', at)
    ensures WroteLinks(o, n, at) && WroteLinks(n, n', at) ==> WroteLinks(o, n', at)
  {
    if WroteMem(o, n, at) && WroteMem(n, n', at) { ChangedTwice(o.mem, n.mem, n'.mem, at); }
    if WroteLinks(o, n, at) && WroteLinks(n, n', at) { ChangedTwice(o.links, n.links, n'.links, at); }
  }

  // From o to n, flags, sizes and pointers are written only in headers of h
  // bytes that fit into the len bytes from a on.
  ghost predicate WrittenInside(o: State, n: State, h: nat, a: nat, len: nat) {
    WroteMem(o, n, Fitting(h, a, len))
  }

  predicate FitsAt(h: nat, q: nat, a: nat, len: nat) {
    a <= q && q + h <= a + len
  }

  function Fitting(h: nat, a: nat, len: nat): set<nat> {
    set q: nat {:trigger FitsAt(h, q, a, len)} | q <= a + len && FitsAt(h, q, a, len)
  }

  // From o to n, byte a is written as part of a header of h bytes.
  ghost predicate Touched(o: State, n: State, h: nat, a: nat) {
    exists x: nat :: x <= a < x + h && HeaderWritten(o, n, x)
  }

  ghost predicate HeaderWritten(o: State, n: State, x: nat) {
    || (exists i :: |o.memWritten| <= i < |n.memWritten| && n.memWritten[i] == x)
    || (exists i :: |o.linksWritten| <= i < |n.linksWritten| && n.linksWritten[i] == x)
  }

  // From o to n, no byte that the user of a block of m has been given is written.
  ghost predicate PayloadsSpared(o: State, n: State, h: nat, m: map<nat, Block>) {
    forall q, a: nat {:trigger Touched(o, n, h, a), m[q]} ::
      q in m && q + h <= a < q + Pow2(m[q].log) ==> !Touched(o, n, h, a)
  }

  lemma HeadersSparePayloads(o: State, n: State, h: nat, t: Tree, s: Slot, m: map<nat, Block>)
    requires Describes(t, s, m) && WroteHeaders(o, n, m.Keys)
    ensures PayloadsSpared(o, n, h, m)
  {
    forall q, a: nat | q in m && q + h <= a < q + Pow2(m[q].log)
      ensures !Touched(o, n, h, a)
    {
      if x: nat :| x <= a < x + h && HeaderWritten(o, n, x) {
        assert x in m;
        DescribesDisjoint(t, s, m, q, x);
      }
    }
  }

  // Every block of m' outside the n bytes from a on is a block of m.
  ghost predicate BlocksOutside(m: map<nat, Block>, m': map<nat, Block>, a: nat, n: nat) {
    forall x {:trigger SameBlock(m, m', x)} :: x in m' && !(a <= x < a + n) ==> SameBlock(m, m', x)
  }

  predicate SameBlock(m: map<nat, Block>, m': map<nat, Block>, x: nat) {
    x in m && x in m' && m[x] == m'[x]
  }

  lemma BlocksOutsideGrows(m: map<nat, Block>, m': map<nat, Block>, l: nat, p: nat, b: nat, q: nat)
    requires MergeablePair(m', l, q)
    requires var r := q + Pow2(m'[q].log); (p == q && b == r) || (p == r && b == q)
    requires BlocksOutside(m, m', p, Pow2(m'[q].log)) && p in m' && m'[p].log == m'[q].log
    ensures BlocksOutside(m, MergeMap(m', q), q, Pow2(m'[q].log + 1))
  {
    forall x | x in MergeMap(m', q) && !(q <= x < q + Pow2(m'[q].log + 1))
      ensures SameBlock(m, MergeMap(m', q), x)
    {
      assert SameBlock(m, m', x);
    }
  }

  // Tree, blocks, headers, lists and counters agree.
  ghost predicate WellShaped(n: State, max: nat, d: nat, h: nat) {
    && d <= max && Fits(n.tree, d) && Describes(n.tree, Root(max), n.blocks)
    && Headed(n.mem, n.blocks, h) && Listed(n.lists, n.blocks, max)
    && Leaves(n.tree) + n.nmerges == 1 + n.nsplits
  }

  lemma MarkKeepsShape(n: State, n': State, max: nat, d: nat, h: nat, p: nat, x: Header, a: bool)
    requires WellShaped(n, max, d, h) && p in n.blocks && p < |n.mem|
    requires x.ptr == p + h && x.Block() == n.blocks[p].(avail := a)
    requires n' == n.(tree := SetAvail(n.tree, Root(max), p, a), mem := n.mem[p := x],
                      memWritten := n'.memWritten, blocks := n.blocks[p := n.blocks[p].(avail := a)])
    ensures WellShaped(n', max, d, h)
  {
    HeadedMark(n.mem, x, n.blocks, p, a, h);
    DescribesMark(n.tree, Root(max), n.blocks, p, a, d);
    SetAvailLeaves(n.tree, Root(max), p, a);
    ListedMark(n.lists, n.blocks, max, p, a);
  }

  // ---------- the split loop ----------

  // From n to n', the block p has been split.
  ghost predicate SplitInTwo(n: State, n': State, max: nat, p: nat) {
    && Fits(n.tree, max) && p in n.blocks && 0 < n.blocks[p].log <= max && max - n.blocks[p].log + 1 < |n.lists|
    && n'.tree == Split(n.tree, Root(max), p) && n'.blocks == SplitMap(n.blocks, p)
    && n'.nsplits == n.nsplits + 1 && n'.nmerges == n.nmerges
    && n'.lists == SplitLists(n.lists, max, n.blocks[p].log, p)
    && (var r := p + Pow2(n.blocks[p].log - 1);
        && r < |n.mem| == |n'.mem| && n'.mem == n.mem[p := n'.mem[p]][r := n'.mem[r]]
        && WroteOnly(n.memWritten, n'.memWritten, {p, r}))
    && WroteLinks(n, n', n'.blocks.Keys)
  }

  // What a split needs to know.
  lemma SplitPlan(n: State, max: nat, d: nat, h: nat, p: nat)
    requires WellShaped(n, max, d, h) && p in n.blocks
    requires max - d < n.blocks[p].log <= max && max - n.blocks[p].log < |n.lists|
    ensures p in n.lists[max - n.blocks[p].log] && Fits(n.tree, max) && HeaderAt(n.mem, n.blocks, p, h)
    ensures Nowhere(n.lists, p + Pow2(n.blocks[p].log - 1)) && AllLive(n.lists, SplitMap(n.blocks, p).Keys)
  {
    DescribesSplit(n.tree, Root(max), n.blocks, p, d);
    ListedLive(n.lists, n.blocks, max, p + Pow2(n.blocks[p].log - 1));
    assert OnList(n.blocks, max, max - n.blocks[p].log, p);
  }

  lemma SplitKeepsShape(n: State, n': State, max: nat, d: nat, h: nat, p: nat)
    requires WellShaped(n, max, d, h) && SplitInTwo(n, n', max, p) && n.blocks[p].log > max - d
    requires var b := n.blocks[p]; var r := p + Pow2(b.log - 1);
      && n'.mem[p].ptr == p + h && n'.mem[p].Block() == Block(b.log - 1, true, false, b.lr)
      && n'.mem[r].ptr == r + h && n'.mem[r].Block() == Block(b.log - 1, true, true, b.parent)
    ensures WellShaped(n', max, d, h)
  {
    DescribesSplit(n.tree, Root(max), n.blocks, p, d);
    SplitLeaves(n.tree, Root(max), p);
    ListedSplit(n.lists, n.blocks, max, p);
    HeadedSplit(n.mem, n'.mem[p], n'.mem[p + Pow2(n.blocks[p].log - 1)], n.blocks, p, h);
  }

  // Part-way through carving 2^k bytes out of the block p of o.
  ghost predicate Carving(o: State, n: State, max: nat, h: nat, p: nat, k: nat) {
    && p in n.blocks && p in o.blocks && n.blocks[p].avail && k <= n.blocks[p].log <= o.blocks[p].log <= max
    && Fits(o.tree, max) && Fits(n.tree, max) && Carve(n.tree, Root(max), p, k) == Carve(o.tree, Root(max), p, k)
    && n.nsplits == o.nsplits + o.blocks[p].log - n.blocks[p].log && n.nmerges == o.nmerges
    && max - n.blocks[p].log < |o.lists|
    && n.lists == CarveLists(o.lists, max, o.blocks[p].log, n.blocks[p].log, p)
    && WrittenInside(o, n, h, p, Pow2(o.blocks[p].log)) && WroteHeaders(o, n, n.blocks.Keys)
  }

  // A block of 2^k bytes has been carved out of the block p of o, and nothing
  // else has changed.
  ghost predicate Carved(o: State, n: State, max: nat, h: nat, p: nat, k: nat) {
    && p in n.blocks && p in o.blocks && k == n.blocks[p].log <= o.blocks[p].log <= max && !n.blocks[p].avail
    && Fits(o.tree, max) && n.tree == Carve(o.tree, Root(max), p, k)
    && n.nsplits == o.nsplits + o.blocks[p].log - k && n.nmerges == o.nmerges
    && max - k < |o.lists| && n.lists == CarveLists(o.lists, max, o.blocks[p].log, k, p)
    && WrittenInside(o, n, h, p, Pow2(o.blocks[p].log)) && WroteHeaders(o, n, n.blocks.Keys)
  }

  lemma CarvingStep(o: State, n: State, n': State, max: nat, h: nat, p: nat, k: nat)
    requires Carving(o, n, max, h, p, k) && SplitInTwo(n, n', max, p) && k < n.blocks[p].log
    requires Describes(n.tree, Root(max), n.blocks) && Fits(n'.tree, max) && h <= Pow2(n.blocks[p].log - 1)
    ensures Carving(o, n', max, h, p, k) && n'.blocks[p].log == n.blocks[p].log - 1
  {
    var half, l := Pow2(n.blocks[p].log - 1), o.blocks[p].log;
    assert At(n.tree, Root(max), p) == Some(n.blocks[p]);
    CarveAfterSplit(n.tree, Root(max), p, k);
    Pow2Monotone(n.blocks[p].log, l);
    WroteTwice(o, n, n', Fitting(h, p, Pow2(l)));
    WroteTwice(o, n, n', n'.blocks.Keys);
  }

  lemma CarvingEnds(o: State, n: State, n': State, max: nat, h: nat, p: nat, x: Header)
    requires p in n.blocks && Carving(o, n, max, h, p, n.blocks[p].log) && p < |n.mem| && h <= Pow2(n.blocks[p].log)
    requires Describes(n.tree, Root(max), n.blocks)
    requires n' == n.(tree := SetAvail(n.tree, Root(max), p, false), mem := n.mem[p := x],
                      memWritten := n.memWritten + [p], blocks := n.blocks[p := n.blocks[p].(avail := false)])
    ensures Carved(o, n', max, h, p, n.blocks[p].log)
  {
    assert At(n.tree, Root(max), p) == Some(n.blocks[p]);
    CarveExact(n.tree, Root(max), p);
    Pow2Monotone(n.blocks[p].log, o.blocks[p].log);
    WroteTwice(o, n, n', Fitting(h, p, Pow2(o.blocks[p].log)));
    WroteTwice(o, n, n', n.blocks.Keys);
  }

  // ---------- the coalescing loop ----------

  // b is the buddy that the block p can be merged with, into the block q.
  predicate Buddies(m: map<nat, Block>, max: nat, p: nat, b: nat, q: nat) {
    && p in m && b in m && m[p].log < max && b == BuddyOf(p, m[p])
    && m[b].log == m[p].log && m[b].avail && m[b].lr != m[p].lr
    && q == if m[p].lr then b else p
  }

  // From n to n', the block p has been merged with its buddy b into q.
  ghost predicate MergedInto(n: State, n': State, max: nat, p: nat, b: nat, q: nat) {
    && Fits(n.tree, max) && MergeablePair(n.blocks, max, q) && p in n.blocks && n.blocks[p].log < max
    && n'.tree == Merge(n.tree, Root(max), q) && n'.blocks == MergeMap(n.blocks, q)
    && n'.nsplits == n.nsplits && n'.nmerges == n.nmerges + 1
    && max - n.blocks[p].log < |n.lists| && n'.lists == MergeLists(n.lists, max, n.blocks[p].log, q, p, b)
    && q < |n.mem| == |n'.mem| && n'.mem == n.mem[q := n'.mem[q]] && WroteOnly(n.memWritten, n'.memWritten, {q})
    && WroteLinks(n, n', n.blocks.Keys)
  }

  lemma MergeKeepsShape(n: State, n': State, max: nat, d: nat, h: nat, p: nat, b: nat, q: nat)
    requires WellShaped(n, max, d, h) && Buddies(n.blocks, max, p, b, q) && MergedInto(n, n', max, p, b, q)
    requires n'.mem[q].ptr == q + h && n'.mem[q].Block() == n'.blocks[q]
    ensures WellShaped(n', max, d, h)
  {
    DescribesMerge(n.tree, Root(max), n.blocks, q, d);
    MergeLeaves(n.tree, Root(max), q);
    ListedMerge(n.lists, n.blocks, max, q, p, b);
    HeadedMerge(n.mem, n'.mem[q], n.blocks, q, max, h);
  }

  // What a merge needs to know.
  lemma MergePlan(n: State, max: nat, d: nat, h: nat, p: nat, b: nat, q: nat)
    requires WellShaped(n, max, d, h) && Buddies(n.blocks, max, p, b, q)
    requires max - n.blocks[p].log < |n.lists|
    ensures MergeablePair(n.blocks, max, q) && p != b && Fits(n.tree, max)
    ensures p in n.lists[max - n.blocks[p].log] && b in n.lists[max - n.blocks[p].log]
    ensures AllLive(n.lists, n.blocks.Keys) && HeaderAt(n.mem, n.blocks, p, h) && HeaderAt(n.mem, n.blocks, b, h)
  {
    var i := max - n.blocks[p].log;
    assert OnList(n.blocks, max, i, p) && OnList(n.blocks, max, i, b);
    ListedLive(n.lists, n.blocks, max, p);
  }

  // Outside the block p, n still is what o was; the block p has grown from p0,
  // which is being freed.
  ghost predicate Freeing(o: State, n: State, max: nat, h: nat, p0: nat, p: nat) {
    && p in n.blocks && p0 in o.blocks && p <= p0 < p + Pow2(n.blocks[p].log)
    && o.blocks[p0].log <= n.blocks[p].log && (o.blocks[p0].log == n.blocks[p].log ==> p == p0)
    && Fits(o.tree, max) && Fits(n.tree, max) && Release(n.tree, Root(max), p) == Release(o.tree, Root(max), p0)
    && BlocksOutside(o.blocks, n.blocks, p, Pow2(n.blocks[p].log)) && n.blocks.Keys <= o.blocks.Keys
    && n.nsplits == o.nsplits
    && n.lists == FreedLists(o.lists, max, o.blocks[p0].log, p, n.blocks[p].log)
    && WrittenInside(o, n, h, p, Pow2(n.blocks[p].log)) && WroteHeaders(o, n, o.blocks.Keys)
  }

  // The block p0 of o has been given back and coalesced, and nothing else has
  // changed.
  ghost predicate Freed(o: State, n: State, max: nat, h: nat, p0: nat) {
    && p0 in o.blocks && Fits(o.tree, max) && n.tree == Release(o.tree, Root(max), p0) && Fits(n.tree, max)
    && n.nsplits == o.nsplits
    && (var q := Owner(n.tree, Root(max), p0);
        && q in n.blocks && n.blocks[q].avail && q <= p0 < q + Pow2(n.blocks[q].log)
        && n.lists == FreedLists(o.lists, max, o.blocks[p0].log, q, n.blocks[q].log)
        && WrittenInside(o, n, h, q, Pow2(n.blocks[q].log)))
    && WroteHeaders(o, n, o.blocks.Keys)
  }

  lemma FreeingStarts(o: State, max: nat, h: nat, p: nat)
    requires Fits(o.tree, max) && p in o.blocks
    ensures Freeing(o, o, max, h, p, p)
  {
    var l := o.blocks[p].log;
    assert o.lists == FreedLists(o.lists, max, l, p, l);
  }

  lemma GrowthOfTree(o: State, n: State, max: nat, h: nat, p0: nat, p: nat, b: nat, q: nat)
    requires Freeing(o, n, max, h, p0, p) && Buddies(n.blocks, max, p, b, q)
    requires Describes(n.tree, Root(max), n.blocks)
    ensures var l := n.blocks[p].log;
      && MergeablePair(n.blocks, max, q)
      && Fits(Merge(n.tree, Root(max), q), max)
      && Release(Merge(n.tree, Root(max), q), Root(max), q) == Release(o.tree, Root(max), p0)
      && q <= p0 < q + Pow2(l + 1) && q <= p && p + Pow2(l) <= q + Pow2(l + 1)
      && BlocksOutside(o.blocks, MergeMap(n.blocks, q), q, Pow2(l + 1))
  {
    DescribesMerge(n.tree, Root(max), n.blocks, q, max);
    assert At(n.tree, Root(max), b) == Some(n.blocks[b]) && At(n.tree, Root(max), q) == Some(n.blocks[q]);
    ReleaseAfterMerge(n.tree, Root(max), q, p, b);
    BlocksOutsideGrows(o.blocks, n.blocks, max, p, b, q);
  }

  lemma GrowthOfLists(o: State, n: State, max: nat, h: nat, p0: nat, p: nat, b: nat, q: nat)
    requires Freeing(o, n, max, h, p0, p) && Buddies(n.blocks, max, p, b, q)
    requires Describes(o.tree, Root(max), o.blocks) && Listed(o.lists, o.blocks, max)
    requires max - n.blocks[p].log < |n.lists|
    ensures MergeLists(n.lists, max, n.blocks[p].log, q, p, b) ==
            FreedLists(o.lists, max, o.blocks[p0].log, q, n.blocks[p].log + 1)
  {
    assert SameBlock(o.blocks, n.blocks, b);
    BlocksAlone(o.tree, Root(max), o.blocks, p0);
    BlocksAlone(o.tree, Root(max), o.blocks, b);
    FreedStep(o.lists, o.blocks, max, p0, p, n.blocks[p].log, b, q);
  }

  lemma FreeingStep(o: State, n: State, n': State, max: nat, h: nat, p0: nat, p: nat, b: nat, q: nat)
    requires Freeing(o, n, max, h, p0, p) && Buddies(n.blocks, max, p, b, q) && MergedInto(n, n', max, p, b, q)
    requires Describes(n.tree, Root(max), n.blocks) && h <= Pow2(n.blocks[p].log + 1)
    requires Describes(o.tree, Root(max), o.blocks) && Listed(o.lists, o.blocks, max)
    ensures Freeing(o, n', max, h, p0, q) && n'.blocks[q].log == n.blocks[p].log + 1
  {
    var l := n.blocks[p].log;
    GrowthOfTree(o, n, max, h, p0, p, b, q);
    GrowthOfLists(o, n, max, h, p0, p, b, q);
    WroteTwice(o, n, n', Fitting(h, q, Pow2(l + 1)));
    WroteTwice(o, n, n', o.blocks.Keys);
  }

  lemma FreeingEnds(o: State, n: State, n': State, max: nat, h: nat, p0: nat, p: nat, x: Header)
    requires Freeing(o, n, max, h, p0, p) && p < |n.mem| && h <= Pow2(n.blocks[p].log) && p0 < Pow2(max)
    requires At(n.tree, Root(max), p).Some? && Unmergeable(n.tree, Root(max), p)
    requires n' == n.(tree := SetAvail(n.tree, Root(max), p, true), mem := n.mem[p := x],
                      memWritten := n.memWritten + [p], blocks := n.blocks[p := n.blocks[p].(avail := true)])
    requires Describes(n'.tree, Root(max), n'.blocks)
    ensures Freed(o, n', max, h, p0)
  {
    ReleaseExact(n.tree, Root(max), p);
    DescribesOwner(n'.tree, Root(max), n'.blocks, p, p0);
    WroteTwice(o, n, n', Fitting(h, p, Pow2(n.blocks[p].log)));
    WroteTwice(o, n, n', o.blocks.Keys);
  }
}
