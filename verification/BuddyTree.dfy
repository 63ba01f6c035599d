// The buddy system seen from above: a binary tree whose leaves are the blocks
// of the pool.  The allocator itself never builds this tree; it is the shape
// that its block headers and block lists have to agree with.
module BuddyTree {
  import opened Options
  import opened Powers

  datatype Tree = Leaf(avail: bool) | Node(left: Tree, right: Tree)

  // What a block header says about a block.
  datatype Block = Block(log: nat, avail: bool, lr: bool, parent: bool)

  // A place in the tree: the bytes it spans and the flag bits it hands down.
  // A left child keeps its parent's LR bit as its own PARENT bit, a right
  // child its parent's PARENT bit.
  datatype Slot = Slot(off: nat, log: nat, lr: bool, parent: bool) {
    function Mid(): nat
      requires log > 0
    {
      off + Pow2(log - 1)
    }

    function End(): nat {
      off + Pow2(log)
    }

    function Left(): Slot
      requires log > 0
    {
      Slot(off, log - 1, false, lr)
    }

    function Right(): Slot
      requires log > 0
    {
      Slot(Mid(), log - 1, true, parent)
    }
  }

  // No leaf of t is more than l levels below its root.
  predicate Fits(t: Tree, l: nat) {
    t.Node? ==> l > 0 && Fits(t.left, l - 1) && Fits(t.right, l - 1)
  }

  // The block that starts at address p, if there is one.
  function At(t: Tree, s: Slot, p: nat): Option<Block>
    requires Fits(t, s.log)
  {
    match t
    case Leaf(a) => if p == s.off then Some(Block(s.log, a, s.lr, s.parent)) else None
    case Node(x, y) => if p < s.Mid() then At(x, s.Left(), p) else At(y, s.Right(), p)
  }

  // ---------- tiling ----------

  lemma {:induction false} AtBounds(t: Tree, s: Slot, p: nat)
    requires Fits(t, s.log)
    requires At(t, s, p).Some?
    ensures var b := At(t, s, p).value;
      s.off <= p && p + Pow2(b.log) <= s.End() && b.log <= s.log && (t.Node? ==> b.log < s.log)
  {
    if t.Node? {
      if p < s.Mid() { AtBounds(t.left, s.Left(), p); } else { AtBounds(t.right, s.Right(), p); }
    }
  }

  // No leaf is smaller than the tree's depth allows.
  lemma {:induction false} AtMinimum(t: Tree, s: Slot, p: nat, d: nat)
    requires d <= s.log && Fits(t, d) && Fits(t, s.log)
    requires At(t, s, p).Some?
    ensures s.log - d <= At(t, s, p).value.log
  {
    if t.Node? {
      if p < s.Mid() {
        AtMinimum(t.left, s.Left(), p, d - 1);
      } else {
        AtMinimum(t.right, s.Right(), p, d - 1);
      }
    }
  }

  lemma {:induction false} AtStart(t: Tree, s: Slot)
    requires Fits(t, s.log)
    ensures At(t, s, s.off).Some?
  {
    if t.Node? { AtStart(t.left, s.Left()); }
  }

  lemma {:induction false} AtDisjoint(t: Tree, s: Slot, p: nat, q: nat)
    requires Fits(t, s.log)
    requires At(t, s, p).Some? && At(t, s, q).Some? && p < q
    ensures p + Pow2(At(t, s, p).value.log) <= q
  {
    if t.Node? {
      if q < s.Mid() {
        AtDisjoint(t.left, s.Left(), p, q);
      } else if p >= s.Mid() {
        AtDisjoint(t.right, s.Right(), p, q);
      } else {
        AtBounds(t.left, s.Left(), p);
      }
    }
  }

  // The start of the block that byte a belongs to.
  function Owner(t: Tree, s: Slot, a: nat): nat
    requires Fits(t, s.log)
  {
    match t
    case Leaf(_) => s.off
    case Node(x, y) => if a < s.Mid() then Owner(x, s.Left(), a) else Owner(y, s.Right(), a)
  }

  lemma {:induction false} OwnerCovers(t: Tree, s: Slot, a: nat)
    requires Fits(t, s.log) && s.off <= a < s.End()
    ensures var p := Owner(t, s, a);
      At(t, s, p).Some? && p <= a < p + Pow2(At(t, s, p).value.log)
  {
    if t.Node? {
      if a < s.Mid() {
        OwnerCovers(t.left, s.Left(), a);
        AtBounds(t.left, s.Left(), Owner(t, s, a));
      } else {
        OwnerCovers(t.right, s.Right(), a);
        AtBounds(t.right, s.Right(), Owner(t, s, a));
      }
    }
  }

  // ---------- buddies ----------

  // The buddy of a block of 2^log bytes at p.
  function BuddyOf(p: nat, b: Block): int {
    if b.lr then p - Pow2(b.log) else p + Pow2(b.log)
  }

  ghost predicate HasBuddy(t: Tree, s: Slot, p: nat)
    requires Fits(t, s.log) && At(t, s, p).Some?
  {
    var b := At(t, s, p).value;
    var q := BuddyOf(p, b);
    && s.off <= q && q + Pow2(b.log) <= s.End()
    && At(t, s, q).Some?
    && At(t, s, q).value.log <= b.log
    && (At(t, s, q).value.log == b.log ==> At(t, s, q).value.lr != b.lr)
  }

  // The address a block finds its buddy at is in the pool and always holds a
  // live header; that block is no larger, and if it is equally large it has
  // the opposite LR bit.
  lemma {:induction false} BuddyIsLive(t: Tree, s: Slot, p: nat)
    requires Fits(t, s.log)
    requires At(t, s, p).Some? && At(t, s, p).value.log < s.log
    ensures HasBuddy(t, s, p)
  {
    if p < s.Mid() {
      AtBounds(t.left, s.Left(), p);
      if At(t, s, p).value.log < s.log - 1 {
        BuddyIsLive(t.left, s.Left(), p);
        BuddyUpLeft(t, s, p);
      } else {
        AtStart(t.right, s.Right());
        AtBounds(t.right, s.Right(), s.Mid());
      }
    } else {
      AtBounds(t.right, s.Right(), p);
      if At(t, s, p).value.log < s.log - 1 {
        BuddyIsLive(t.right, s.Right(), p);
      } else {
        AtStart(t.left, s.Left());
        AtBounds(t.left, s.Left(), s.off);
      }
    }
  }

  lemma BuddyUpLeft(t: Tree, s: Slot, p: nat)
    requires Fits(t, s.log) && t.Node? && p < s.Mid()
    requires At(t.left, s.Left(), p).Some? && HasBuddy(t.left, s.Left(), p)
    ensures HasBuddy(t, s, p)
  {
  }

  // p is a left block and its buddy has the same size.
  predicate Mergeable(t: Tree, s: Slot, p: nat)
    requires Fits(t, s.log)
  {
    && At(t, s, p).Some? && At(t, s, p).value.log < s.log && !At(t, s, p).value.lr
    && At(t, s, p + Pow2(At(t, s, p).value.log)).Some?
    && At(t, s, p + Pow2(At(t, s, p).value.log)).value.log == At(t, s, p).value.log
  }

  // Two equal-sized buddies are the two leaves of one node.
  lemma {:induction false} MergeableDown(t: Tree, s: Slot, p: nat)
    requires Fits(t, s.log) && Mergeable(t, s, p)
    ensures t.Node?
    ensures At(t, s, p).value.log == s.log - 1 ==> p == s.off && t.left.Leaf? && t.right.Leaf?
    ensures At(t, s, p).value.log < s.log - 1 ==>
      if p < s.Mid() then Mergeable(t.left, s.Left(), p) && t.left.Node?
      else Mergeable(t.right, s.Right(), p) && t.right.Node?
  {
    var b := At(t, s, p).value;
    var q := p + Pow2(b.log);
    if p < s.Mid() {
      AtBounds(t.left, s.Left(), p);
      if b.log < s.log - 1 {
        BuddyIsLive(t.left, s.Left(), p);
        assert q < s.Mid();
        assert At(t, s, q) == At(t.left, s.Left(), q);
      } else {
        AtBounds(t.right, s.Right(), q);
      }
    } else {
      AtBounds(t.right, s.Right(), p);
      assert At(t, s, q) == At(t.right, s.Right(), q);
    }
  }

  // ---------- one step of the allocator ----------

  function SetAvail(t: Tree, s: Slot, p: nat, a: bool): Tree
    requires Fits(t, s.log)
  {
    match t
    case Leaf(_) => Leaf(a)
    case Node(x, y) =>
      if p < s.Mid() then Node(SetAvail(x, s.Left(), p, a), y)
      else Node(x, SetAvail(y, s.Right(), p, a))
  }

  lemma {:induction false} SetAvailAt(t: Tree, s: Slot, p: nat, a: bool, d: nat, q: nat)
    requires Fits(t, s.log) && Fits(t, d)
    requires At(t, s, p).Some?
    ensures Fits(SetAvail(t, s, p, a), s.log) && Fits(SetAvail(t, s, p, a), d)
    ensures At(SetAvail(t, s, p, a), s, q) ==
      if q == p then Some(At(t, s, p).value.(avail := a)) else At(t, s, q)
  {
    if t.Node? {
      if p < s.Mid() {
        SetAvailAt(t.left, s.Left(), p, a, d - 1, q);
      } else {
        SetAvailAt(t.right, s.Right(), p, a, d - 1, q);
      }
    }
  }

  // Split the leaf at p into two available halves.
  function Split(t: Tree, s: Slot, p: nat): Tree
    requires Fits(t, s.log)
  {
    match t
    case Leaf(_) => Node(Leaf(true), Leaf(true))
    case Node(x, y) =>
      if p < s.Mid() then Node(Split(x, s.Left(), p), y)
      else Node(x, Split(y, s.Right(), p))
  }

  lemma {:induction false} SplitFits(t: Tree, s: Slot, p: nat, d: nat)
    requires d <= s.log && Fits(t, s.log) && Fits(t, d)
    requires At(t, s, p).Some? && At(t, s, p).value.log > s.log - d
    ensures Fits(Split(t, s, p), d)
  {
    if t.Node? {
      if p < s.Mid() { SplitFits(t.left, s.Left(), p, d - 1); } else { SplitFits(t.right, s.Right(), p, d - 1); }
    }
  }

  lemma {:induction false} SplitAt(t: Tree, s: Slot, p: nat, q: nat)
    requires Fits(t, s.log) && Fits(Split(t, s, p), s.log)
    requires At(t, s, p).Some? && At(t, s, p).value.log > 0
    ensures var b := At(t, s, p).value; var r := p + Pow2(b.log - 1);
      At(Split(t, s, p), s, q) ==
      if q == p then Some(Block(b.log - 1, true, false, b.lr))
      else if q == r then Some(Block(b.log - 1, true, true, b.parent))
      else At(t, s, q)
  {
    if t.Node? {
      if p < s.Mid() {
        AtBounds(t.left, s.Left(), p);
        SplitAt(t.left, s.Left(), p, q);
      } else {
        SplitAt(t.right, s.Right(), p, q);
      }
    }
  }

  // Merge the two sibling leaves the first of which is at p.
  function Merge(t: Tree, s: Slot, p: nat): Tree
    requires Fits(t, s.log)
  {
    match t
    case Leaf(_) => t
    case Node(x, y) =>
      if x.Leaf? && y.Leaf? then Leaf(true)
      else if p < s.Mid() then Node(Merge(x, s.Left(), p), y)
      else Node(x, Merge(y, s.Right(), p))
  }

  lemma {:induction false} MergeFits(t: Tree, s: Slot, p: nat, d: nat)
    requires Fits(t, s.log) && Fits(t, d)
    ensures Fits(Merge(t, s, p), d)
  {
    if t.Node? && !(t.left.Leaf? && t.right.Leaf?) {
      if p < s.Mid() { MergeFits(t.left, s.Left(), p, d - 1); } else { MergeFits(t.right, s.Right(), p, d - 1); }
    }
  }

  lemma {:induction false} MergeAt(t: Tree, s: Slot, p: nat, q: nat)
    requires Fits(t, s.log) && Mergeable(t, s, p) && Fits(Merge(t, s, p), s.log)
    ensures var b := At(t, s, p).value; var r := p + Pow2(b.log);
      At(Merge(t, s, p), s, q) ==
      if q == p then Some(Block(b.log + 1, true, b.parent, At(t, s, r).value.parent))
      else if q == r then None
      else At(t, s, q)
  {
    MergeableDown(t, s, p);
    if At(t, s, p).value.log < s.log - 1 {
      if p < s.Mid() {
        AtBounds(t.left, s.Left(), p + Pow2(At(t, s, p).value.log));
        MergeAt(t.left, s.Left(), p, q);
      } else {
        MergeAt(t.right, s.Right(), p, q);
      }
    }
  }

  // ---------- the blocks as a map ----------

  // m is the map of the blocks of t by address.
  ghost predicate Describes(t: Tree, s: Slot, m: map<nat, Block>) {
    Fits(t, s.log) && forall q: nat {:trigger At(t, s, q)} :: At(t, s, q) == if q in m then Some(m[q]) else None
  }

  // The blocks after p has been split.
  function SplitMap(m: map<nat, Block>, p: nat): map<nat, Block>
    requires p in m && m[p].log > 0
  {
    m[p := Block(m[p].log - 1, true, false, m[p].lr)]
     [p + Pow2(m[p].log - 1) := Block(m[p].log - 1, true, true, m[p].parent)]
  }

  // p is a left block smaller than 2^l bytes and its buddy has the same size.
  predicate MergeablePair(m: map<nat, Block>, l: nat, p: nat) {
    p in m && m[p].log < l && !m[p].lr && p + Pow2(m[p].log) in m && m[p + Pow2(m[p].log)].log == m[p].log
  }

  // The blocks after p has been merged with its right buddy.
  function MergeMap(m: map<nat, Block>, p: nat): map<nat, Block>
    requires p in m && p + Pow2(m[p].log) in m
  {
    (m - {p + Pow2(m[p].log)})[p := Block(m[p].log + 1, true, m[p].parent, m[p + Pow2(m[p].log)].parent)]
  }

  lemma DescribesSplit(t: Tree, s: Slot, m: map<nat, Block>, p: nat, d: nat)
    requires d <= s.log && Fits(t, d) && Describes(t, s, m)
    requires p in m && m[p].log > s.log - d
    ensures Fits(Split(t, s, p), d) && Describes(Split(t, s, p), s, SplitMap(m, p))
    ensures p + Pow2(m[p].log - 1) !in m
  {
    var r := p + Pow2(m[p].log - 1);
    assert At(t, s, p) == Some(m[p]);
    if r in m {
      assert At(t, s, r) == Some(m[r]);
      AtDisjoint(t, s, p, r);
    }
    SplitFits(t, s, p, d);
    SplitFits(t, s, p, s.log);
    forall q: nat
      ensures At(Split(t, s, p), s, q) == if q in SplitMap(m, p) then Some(SplitMap(m, p)[q]) else None
    {
      SplitAt(t, s, p, q);
    }
  }

  lemma DescribesMerge(t: Tree, s: Slot, m: map<nat, Block>, p: nat, d: nat)
    requires Fits(t, d) && Describes(t, s, m) && MergeablePair(m, s.log, p)
    ensures Mergeable(t, s, p)
    ensures Fits(Merge(t, s, p), d) && Describes(Merge(t, s, p), s, MergeMap(m, p))
  {
    var r := p + Pow2(m[p].log);
    assert At(t, s, p) == Some(m[p]) && At(t, s, r) == Some(m[r]);
    MergeFits(t, s, p, d);
    MergeFits(t, s, p, s.log);
    forall q: nat
      ensures At(Merge(t, s, p), s, q) == if q in MergeMap(m, p) then Some(MergeMap(m, p)[q]) else None
    {
      MergeAt(t, s, p, q);
    }
  }

  lemma DescribesMark(t: Tree, s: Slot, m: map<nat, Block>, p: nat, a: bool, d: nat)
    requires Fits(t, d) && Describes(t, s, m) && p in m
    ensures Fits(SetAvail(t, s, p, a), d) && Describes(SetAvail(t, s, p, a), s, m[p := m[p].(avail := a)])
  {
    assert At(t, s, p) == Some(m[p]);
    SetAvailAt(t, s, p, a, d, p);
    forall q: nat
      ensures At(SetAvail(t, s, p, a), s, q) ==
        if q in m[p := m[p].(avail := a)] then Some(m[p := m[p].(avail := a)][q]) else None
    {
      SetAvailAt(t, s, p, a, d, q);
    }
  }

  lemma DescribesBounds(t: Tree, s: Slot, m: map<nat, Block>, p: nat, d: nat)
    requires d <= s.log && Fits(t, d) && Describes(t, s, m) && p in m
    ensures s.log - d <= m[p].log <= s.log && s.off <= p && p + Pow2(m[p].log) <= s.End()
  {
    assert At(t, s, p) == Some(m[p]);
    AtBounds(t, s, p);
    AtMinimum(t, s, p, d);
  }

  lemma DescribesDisjoint(t: Tree, s: Slot, m: map<nat, Block>, p: nat, q: nat)
    requires Describes(t, s, m) && p in m && q in m && p < q
    ensures p + Pow2(m[p].log) <= q
  {
    assert At(t, s, p) == Some(m[p]) && At(t, s, q) == Some(m[q]);
    AtDisjoint(t, s, p, q);
  }

  // The address at which a block looks for its buddy holds a live header.
  lemma DescribesBuddy(t: Tree, s: Slot, m: map<nat, Block>, p: nat)
    requires Describes(t, s, m) && p in m && m[p].log < s.log
    ensures HasBuddy(t, s, p)
    ensures var b := BuddyOf(p, m[p]);
      s.off <= b && b + Pow2(m[p].log) <= s.End() && b in m && m[b].log <= m[p].log
      && (m[b].log == m[p].log ==> m[b].lr != m[p].lr)
  {
    assert At(t, s, p) == Some(m[p]);
    BuddyIsLive(t, s, p);
    var b := BuddyOf(p, m[p]);
    assert At(t, s, b) == Some(m[b]);
  }

  // Only the block at p contains byte a.
  lemma DescribesOwner(t: Tree, s: Slot, m: map<nat, Block>, p: nat, a: nat)
    requires Describes(t, s, m) && p in m && s.off <= a < s.End() && p <= a < p + Pow2(m[p].log)
    ensures Owner(t, s, a) == p
  {
    var q := Owner(t, s, a);
    OwnerCovers(t, s, a);
    assert At(t, s, q) == Some(m[q]);
    if p < q { DescribesDisjoint(t, s, m, p, q); }
    if q < p { DescribesDisjoint(t, s, m, q, p); }
  }
}
