// What the buddy system promises, stated on the tree of blocks: carving a
// block out of the pool, giving it back, when a request can be served, and
// what the flag bits of a header mean.
module BuddyTheory {
  import opened Options
  import opened Powers
  import opened BuddyTree

  // The whole pool.  The flags of the undivided pool are never looked at, but
  // its PARENT bit is handed down to right descendants.
  function Root(max: nat): Slot {
    Slot(0, max, false, true)
  }

  // ---------- coalescing ----------

  // No two available buddies of the same size are left side by side.
  predicate Coalesced(t: Tree) {
    t.Node? ==>
      Coalesced(t.left) && Coalesced(t.right) && !(t.left == Leaf(true) && t.right == Leaf(true))
  }

  predicate NoUsed(t: Tree) {
    match t
    case Leaf(a) => a
    case Node(x, y) => NoUsed(x) && NoUsed(y)
  }

  lemma {:induction false} CoalescedNoUsed(t: Tree)
    requires Coalesced(t) && NoUsed(t)
    ensures t == Leaf(true)
  {
    if t.Node? {
      CoalescedNoUsed(t.left);
      CoalescedNoUsed(t.right);
    }
  }

  // The block of log size k in use at the left end of a region of log size l.
  function Spine(l: nat, k: nat): Tree {
    if l <= k then Leaf(false) else Node(Spine(l - 1, k), Leaf(true))
  }

  // Take a block of log size k out of the available block at p.
  function Carve(t: Tree, s: Slot, p: nat, k: nat): Tree
    requires Fits(t, s.log)
  {
    match t
    case Leaf(_) => Spine(s.log, k)
    case Node(x, y) =>
      if p < s.Mid() then Node(Carve(x, s.Left(), p, k), y)
      else Node(x, Carve(y, s.Right(), p, k))
  }

  function Join(x: Tree, y: Tree): Tree {
    if x == Leaf(true) && y == Leaf(true) then Leaf(true) else Node(x, y)
  }

  // Give the block at p back and coalesce on the way up.
  function Release(t: Tree, s: Slot, p: nat): Tree
    requires Fits(t, s.log)
  {
    match t
    case Leaf(_) => Leaf(true)
    case Node(x, y) =>
      if p < s.Mid() then Join(Release(x, s.Left(), p), y)
      else Join(x, Release(y, s.Right(), p))
  }

  // One split does not change what is carved out in the end.
  lemma {:induction false} CarveAfterSplit(t: Tree, s: Slot, p: nat, k: nat)
    requires Fits(t, s.log) && Fits(Split(t, s, p), s.log)
    requires At(t, s, p).Some? && At(t, s, p).value.log > k
    ensures Carve(Split(t, s, p), s, p, k) == Carve(t, s, p, k)
  {
    if t.Node? {
      if p < s.Mid() {
        CarveAfterSplit(t.left, s.Left(), p, k);
      } else {
        CarveAfterSplit(t.right, s.Right(), p, k);
      }
    }
  }

  lemma {:induction false} CarveExact(t: Tree, s: Slot, p: nat)
    requires Fits(t, s.log)
    requires At(t, s, p).Some?
    ensures Carve(t, s, p, At(t, s, p).value.log) == SetAvail(t, s, p, false)
  {
    if t.Node? {
      if p < s.Mid() { CarveExact(t.left, s.Left(), p); } else { CarveExact(t.right, s.Right(), p); }
    }
  }

  // Merging p with its available buddy does not change what is released in the end.
  lemma {:induction false} ReleaseAfterMerge(t: Tree, s: Slot, m: nat, p: nat, q: nat)
    requires Fits(t, s.log) && Mergeable(t, s, m) && Fits(Merge(t, s, m), s.log)
    requires var r := m + Pow2(At(t, s, m).value.log); (p == m && q == r) || (p == r && q == m)
    requires At(t, s, q).Some? && At(t, s, q).value.avail
    ensures Release(Merge(t, s, m), s, m) == Release(t, s, p)
  {
    var b := At(t, s, m).value;
    var r := m + Pow2(b.log);
    MergeableDown(t, s, m);
    if b.log < s.log - 1 {
      if m < s.Mid() {
        AtBounds(t.left, s.Left(), r);
        ReleaseAfterMerge(t.left, s.Left(), m, p, q);
      } else {
        ReleaseAfterMerge(t.right, s.Right(), m, p, q);
      }
    } else {
      AtBounds(t.left, s.Left(), m);
    }
  }

  // The block at p has no available buddy of its own size.
  ghost predicate Unmergeable(t: Tree, s: Slot, p: nat)
    requires Fits(t, s.log) && At(t, s, p).Some?
  {
    var b := At(t, s, p).value;
    b.log < s.log ==>
      HasBuddy(t, s, p) && !(At(t, s, BuddyOf(p, b)).value.log == b.log && At(t, s, BuddyOf(p, b)).value.avail)
  }

  lemma UnmergeableDown(t: Tree, s: Slot, p: nat)
    requires Fits(t, s.log) && At(t, s, p).Some? && t.Node? && Unmergeable(t, s, p)
    ensures if p < s.Mid() then Unmergeable(t.left, s.Left(), p) else Unmergeable(t.right, s.Right(), p)
  {
    var b := At(t, s, p).value;
    var q := BuddyOf(p, b);
    AtBounds(t, s, p);
    if p < s.Mid() {
      AtBounds(t.left, s.Left(), p);
      if b.log < s.log - 1 {
        BuddyIsLive(t.left, s.Left(), p);
        AtBounds(t.left, s.Left(), q);
        assert At(t, s, q) == At(t.left, s.Left(), q);
      }
    } else {
      AtBounds(t.right, s.Right(), p);
      if b.log < s.log - 1 {
        BuddyIsLive(t.right, s.Right(), p);
        assert At(t, s, q) == At(t.right, s.Right(), q);
      }
    }
  }

  // A block that cannot be merged is released by marking it available.
  lemma {:induction false} ReleaseExact(t: Tree, s: Slot, p: nat)
    requires Fits(t, s.log) && At(t, s, p).Some? && Unmergeable(t, s, p)
    ensures Release(t, s, p) == SetAvail(t, s, p, true)
  {
    if t.Node? {
      UnmergeableDown(t, s, p);
      if p < s.Mid() {
        ReleaseExact(t.left, s.Left(), p);
        if t.left.Leaf? { AtStart(t.right, s.Right()); }
      } else {
        ReleaseExact(t.right, s.Right(), p);
        if t.right.Leaf? { AtStart(t.left, s.Left()); }
      }
    }
  }

  lemma {:induction false} SpineFits(l: nat, k: nat, d: nat)
    requires l - k <= d
    ensures Fits(Spine(l, k), d) && Coalesced(Spine(l, k)) && !NoUsed(Spine(l, k))
  {
    if l > k { SpineFits(l - 1, k, d - 1); }
  }

  lemma {:induction false} CarveCoalesced(t: Tree, s: Slot, p: nat, k: nat)
    requires Fits(t, s.log) && Coalesced(t)
    ensures Coalesced(Carve(t, s, p, k)) && !NoUsed(Carve(t, s, p, k))
  {
    if t.Leaf? {
      SpineFits(s.log, k, s.log);
    } else if p < s.Mid() {
      CarveCoalesced(t.left, s.Left(), p, k);
    } else {
      CarveCoalesced(t.right, s.Right(), p, k);
    }
  }

  lemma {:induction false} ReleaseCoalesced(t: Tree, s: Slot, p: nat)
    requires Fits(t, s.log) && Coalesced(t)
    ensures Coalesced(Release(t, s, p))
  {
    if t.Node? {
      if p < s.Mid() { ReleaseCoalesced(t.left, s.Left(), p); } else { ReleaseCoalesced(t.right, s.Right(), p); }
    }
  }

  // ---------- round trip ----------

  lemma {:induction false} ReleaseSpine(s: Slot, k: nat)
    requires Fits(Spine(s.log, k), s.log)
    ensures Release(Spine(s.log, k), s, s.off) == Leaf(true)
    decreases s.log
  {
    if s.log > k { ReleaseSpine(s.Left(), k); }
  }

  // Freeing what was just allocated restores the pool.
  lemma {:induction false} ReleaseCarve(t: Tree, s: Slot, p: nat, k: nat)
    requires Fits(t, s.log) && Coalesced(t)
    requires At(t, s, p).Some? && At(t, s, p).value.avail
    ensures Fits(Carve(t, s, p, k), s.log)
    ensures Release(Carve(t, s, p, k), s, p) == t
  {
    if t.Leaf? {
      SpineFits(s.log, k, s.log);
      ReleaseSpine(s, k);
    } else if p < s.Mid() {
      ReleaseCarve(t.left, s.Left(), p, k);
    } else {
      ReleaseCarve(t.right, s.Right(), p, k);
    }
  }

  // ---------- the blocks in use determine the pool ----------

  // The log size of the used block at p, if there is one.
  function UsedAt(t: Tree, s: Slot, p: nat): Option<nat>
    requires Fits(t, s.log)
  {
    var b := At(t, s, p);
    if b.Some? && !b.value.avail then Some(b.value.log) else None
  }

  lemma NodeUsedAt(x: Tree, y: Tree, s: Slot, q: nat)
    requires s.log > 0 && Fits(x, s.log - 1) && Fits(y, s.log - 1)
    ensures UsedAt(Node(x, y), s, q) ==
      if q < s.Mid() then UsedAt(x, s.Left(), q) else UsedAt(y, s.Right(), q)
  {
  }

  lemma {:induction false} SpineUsedAt(s: Slot, k: nat, q: nat)
    requires Fits(Spine(s.log, k), s.log) && k <= s.log
    ensures UsedAt(Spine(s.log, k), s, q) == if q == s.off then Some(k) else None
    decreases s.log
  {
    if s.log > k {
      SpineUsedAt(s.Left(), k, q);
      NodeUsedAt(Spine(s.log - 1, k), Leaf(true), s, q);
      assert UsedAt(Leaf(true), s.Right(), q).None?;
    }
  }

  lemma {:induction false} CarveUsedAt(t: Tree, s: Slot, p: nat, k: nat, q: nat)
    requires Fits(t, s.log) && Fits(Carve(t, s, p, k), s.log)
    requires At(t, s, p).Some? && At(t, s, p).value.avail && k <= At(t, s, p).value.log
    ensures UsedAt(Carve(t, s, p, k), s, q) == if q == p then Some(k) else UsedAt(t, s, q)
  {
    if t.Leaf? {
      SpineUsedAt(s, k, q);
    } else if p < s.Mid() {
      CarveUsedAt(t.left, s.Left(), p, k, q);
    } else {
      CarveUsedAt(t.right, s.Right(), p, k, q);
    }
  }

  lemma {:induction false} ReleaseFits(t: Tree, s: Slot, p: nat, d: nat)
    requires Fits(t, s.log) && Fits(t, d)
    ensures Fits(Release(t, s, p), d)
  {
    if t.Node? {
      if p < s.Mid() { ReleaseFits(t.left, s.Left(), p, d - 1); } else { ReleaseFits(t.right, s.Right(), p, d - 1); }
    }
  }

  lemma JoinUsedAt(x: Tree, y: Tree, s: Slot, q: nat)
    requires s.log > 0 && Fits(x, s.log - 1) && Fits(y, s.log - 1)
    ensures UsedAt(Join(x, y), s, q) ==
      if q < s.Mid() then UsedAt(x, s.Left(), q) else UsedAt(y, s.Right(), q)
  {
  }

  lemma {:induction false} ReleaseUsedAt(t: Tree, s: Slot, p: nat, q: nat)
    requires Fits(t, s.log) && Fits(Release(t, s, p), s.log)
    requires UsedAt(t, s, p).Some?
    ensures UsedAt(Release(t, s, p), s, q) == if q == p then None else UsedAt(t, s, q)
  {
    if t.Node? {
      if p < s.Mid() {
        ReleaseFits(t.left, s.Left(), p, s.log - 1);
        ReleaseUsedAt(t.left, s.Left(), p, q);
        JoinUsedAt(Release(t.left, s.Left(), p), t.right, s, q);
      } else {
        ReleaseFits(t.right, s.Right(), p, s.log - 1);
        ReleaseUsedAt(t.right, s.Right(), p, q);
        JoinUsedAt(t.left, Release(t.right, s.Right(), p), s, q);
      }
    }
  }

  // Two pools have the same used blocks.
  ghost predicate SameUsed(t: Tree, t': Tree, s: Slot)
    requires Fits(t, s.log) && Fits(t', s.log)
  {
    forall p: nat :: s.off <= p < s.End() ==> UsedAt(t, s, p) == UsedAt(t', s, p)
  }

  lemma {:induction false} UsedFound(t: Tree, s: Slot) returns (p: nat)
    requires Fits(t, s.log) && !NoUsed(t)
    ensures s.off <= p < s.End() && UsedAt(t, s, p).Some?
    ensures t.Node? ==> UsedAt(t, s, p).value < s.log
  {
    if t.Leaf? {
      p := s.off;
    } else if !NoUsed(t.left) {
      p := UsedFound(t.left, s.Left());
      AtBounds(t.left, s.Left(), p);
    } else {
      p := UsedFound(t.right, s.Right());
      AtBounds(t.right, s.Right(), p);
    }
  }

  // A pool in which everything is coalesced is determined by its used blocks:
  // neither the order of the requests nor freed blocks leave any trace.
  lemma {:induction false} Canonical(t: Tree, t': Tree, s: Slot)
    requires Fits(t, s.log) && Fits(t', s.log) && Coalesced(t) && Coalesced(t')
    requires SameUsed(t, t', s)
    ensures t == t'
  {
    if NoUsed(t) || NoUsed(t') {
      if !NoUsed(t) { var p := UsedFound(t, s); UnusedAt(t', s, p); }
      if !NoUsed(t') { var p := UsedFound(t', s); UnusedAt(t, s, p); }
      CoalescedNoUsed(t);
      CoalescedNoUsed(t');
    } else if t.Leaf? || t'.Leaf? {
      var p := UsedFound(t, s);
      var p' := UsedFound(t', s);
      assert UsedAt(t, s, p') == UsedAt(t', s, p');
    } else {
      assert SameUsed(t.left, t'.left, s.Left()) by {
        forall p: nat | s.off <= p < s.Mid()
          ensures UsedAt(t.left, s.Left(), p) == UsedAt(t'.left, s.Left(), p)
        {
          assert UsedAt(t, s, p) == UsedAt(t', s, p);
        }
      }
      assert SameUsed(t.right, t'.right, s.Right()) by {
        forall p: nat | s.Mid() <= p < s.End()
          ensures UsedAt(t.right, s.Right(), p) == UsedAt(t'.right, s.Right(), p)
        {
          assert UsedAt(t, s, p) == UsedAt(t', s, p);
        }
      }
      Canonical(t.left, t'.left, s.Left());
      Canonical(t.right, t'.right, s.Right());
    }
  }

  lemma {:induction false} UnusedAt(t: Tree, s: Slot, p: nat)
    requires Fits(t, s.log) && NoUsed(t)
    ensures UsedAt(t, s, p).None?
  {
    if t.Node? {
      if p < s.Mid() { UnusedAt(t.left, s.Left(), p); } else { UnusedAt(t.right, s.Right(), p); }
    }
  }

  // The addresses of the blocks in use.
  function Used(m: map<nat, Block>): set<nat> {
    set p | p in m && !m[p].avail
  }

  // ---------- what one request changes ----------

  ghost predicate AddsOne(m: map<nat, Block>, m': map<nat, Block>, p: nat, k: nat) {
    && p !in Used(m) && Used(m') == Used(m) + {p} && m'[p].log == k
    && forall q :: q in Used(m) ==> m'[q].log == m[q].log
  }

  ghost predicate RemovesOne(m: map<nat, Block>, m': map<nat, Block>, p: nat) {
    && p in Used(m) && Used(m') == Used(m) - {p}
    && forall q :: q in Used(m') ==> m'[q].log == m[q].log
  }

  // An allocation puts exactly one more block into use.
  lemma AllocAddsOne(t: Tree, m: map<nat, Block>, m': map<nat, Block>, max: nat, p: nat, k: nat)
    requires Describes(t, Root(max), m) && Describes(Carve(t, Root(max), p, k), Root(max), m')
    requires p in m && m[p].avail && k <= m[p].log
    ensures AddsOne(m, m', p, k)
  {
    var s, t' := Root(max), Carve(t, Root(max), p, k);
    forall q: nat
      ensures q in Used(m') <==> q in Used(m) || q == p
      ensures q in Used(m') ==> m'[q].log == if q == p then k else m[q].log
    {
      assert At(t, s, p) == Some(m[p]);
      CarveUsedAt(t, s, p, k, q);
      UsedIsUsedAt(t, s, m, q);
      UsedIsUsedAt(t', s, m', q);
    }
    assert p in Used(m');
  }

  // Freeing takes exactly one block out of use.
  lemma FreeRemovesOne(t: Tree, m: map<nat, Block>, m': map<nat, Block>, max: nat, p: nat)
    requires Describes(t, Root(max), m) && Describes(Release(t, Root(max), p), Root(max), m')
    requires p in Used(m)
    ensures RemovesOne(m, m', p)
  {
    var s, t' := Root(max), Release(t, Root(max), p);
    forall q: nat
      ensures q in Used(m') <==> q in Used(m) && q != p
      ensures q in Used(m') ==> m'[q].log == m[q].log
    {
      UsedIsUsedAt(t, s, m, p);
      ReleaseUsedAt(t, s, p, q);
      UsedIsUsedAt(t, s, m, q);
      UsedIsUsedAt(t', s, m', q);
    }
  }

  lemma UsedIsUsedAt(t: Tree, s: Slot, m: map<nat, Block>, p: nat)
    requires Describes(t, s, m)
    ensures UsedAt(t, s, p) == if p in Used(m) then Some(m[p].log) else None
  {
  }

  // ---------- when a request can be served ----------

  // Some available block has log size at least k.
  predicate Fitting(t: Tree, l: nat, k: nat)
    requires Fits(t, l)
  {
    match t
    case Leaf(a) => a && k <= l
    case Node(x, y) => Fitting(x, l - 1, k) || Fitting(y, l - 1, k)
  }

  lemma {:induction false} FittingFound(t: Tree, s: Slot, k: nat) returns (p: nat)
    requires Fits(t, s.log) && Fitting(t, s.log, k)
    ensures s.off <= p < s.End() && At(t, s, p).Some? && At(t, s, p).value.avail && At(t, s, p).value.log >= k
  {
    if t.Leaf? {
      p := s.off;
    } else if Fitting(t.left, s.log - 1, k) {
      p := FittingFound(t.left, s.Left(), k);
    } else {
      p := FittingFound(t.right, s.Right(), k);
    }
  }

  lemma {:induction false} FoundFitting(t: Tree, s: Slot, k: nat, p: nat)
    requires Fits(t, s.log)
    requires At(t, s, p).Some? && At(t, s, p).value.avail && At(t, s, p).value.log >= k
    ensures Fitting(t, s.log, k)
  {
    if t.Node? {
      if p < s.Mid() { FoundFitting(t.left, s.Left(), k, p); } else { FoundFitting(t.right, s.Right(), k, p); }
    }
  }

  // No used block meets the n bytes from address a on.
  ghost predicate FreeWindow(t: Tree, s: Slot, a: nat, n: nat)
    requires Fits(t, s.log)
  {
    forall p: nat :: UsedAt(t, s, p).Some? ==> p + Pow2(UsedAt(t, s, p).value) <= a || a + n <= p
  }

  lemma FreeWindowDown(t: Tree, s: Slot, a: nat, n: nat)
    requires Fits(t, s.log) && t.Node? && FreeWindow(t, s, a, n)
    ensures FreeWindow(t.left, s.Left(), a, n) && FreeWindow(t.right, s.Right(), a, n)
  {
    forall p: nat | UsedAt(t.left, s.Left(), p).Some?
      ensures p + Pow2(UsedAt(t.left, s.Left(), p).value) <= a || a + n <= p
    {
      AtBounds(t.left, s.Left(), p);
      assert UsedAt(t, s, p) == UsedAt(t.left, s.Left(), p);
    }
    forall p: nat | UsedAt(t.right, s.Right(), p).Some?
      ensures p + Pow2(UsedAt(t.right, s.Right(), p).value) <= a || a + n <= p
    {
      AtBounds(t.right, s.Right(), p);
      assert UsedAt(t, s, p) == UsedAt(t.right, s.Right(), p);
    }
  }

  // In a coalesced region, a window without used blocks, the w-th one of its
  // size, lies inside one available block.
  lemma {:induction false} FreeWindowFits(t: Tree, s: Slot, k: nat, w: nat, a: nat)
    requires Fits(t, s.log) && Coalesced(t) && k <= s.log && w < Pow2(s.log - k)
    requires a == s.off + w * Pow2(k) && FreeWindow(t, s, a, Pow2(k))
    ensures Fitting(t, s.log, k)
    decreases t
  {
    if s.log == k {
      if !NoUsed(t) {
        var p := UsedFound(t, s);
        AtBounds(t, s, p);
      }
      CoalescedNoUsed(t);
    } else if t.Leaf? {
      WindowInside(s.log - k, k, w);
      assert UsedAt(t, s, s.off).Some? <==> !t.avail;
    } else {
      var half := Pow2(s.log - 1 - k);
      FreeWindowDown(t, s, a, Pow2(k));
      if w < half {
        FreeWindowFits(t.left, s.Left(), k, w, a);
      } else {
        WindowInRight(s, k, w, a);
        FreeWindowFits(t.right, s.Right(), k, w - half, a);
      }
    }
  }

  lemma WindowInRight(s: Slot, k: nat, w: nat, a: nat)
    requires k < s.log && Pow2(s.log - 1 - k) <= w && a == s.off + w * Pow2(k)
    ensures a == s.Mid() + (w - Pow2(s.log - 1 - k)) * Pow2(k)
  {
    Pow2Sum(s.log - 1 - k, k);
    MulDistribute(w, Pow2(s.log - 1 - k), Pow2(k));
  }

  lemma WindowInside(n: nat, k: nat, w: nat)
    requires w < Pow2(n)
    ensures w * Pow2(k) + Pow2(k) <= Pow2(n + k)
  {
    Pow2Sum(n, k);
    MulMonotone(w + 1, Pow2(n), Pow2(k));
    MulSuccessor(w, Pow2(k));
  }

  // The w-th window of 2^k bytes lies in the pool and is free of used blocks.
  ghost predicate FreeAligned(t: Tree, max: nat, k: nat, w: nat)
    requires Fits(t, max)
  {
    k <= max && w < Pow2(max - k) && FreeWindow(t, Root(max), w * Pow2(k), Pow2(k))
  }

  // An available block of at least 2^k bytes is at the start of a free window.
  lemma FittingStartsWindow(t: Tree, max: nat, k: nat, p: nat) returns (w: nat)
    requires Fits(t, max)
    requires At(t, Root(max), p).Some? && At(t, Root(max), p).value.avail && k <= At(t, Root(max), p).value.log
    ensures w * Pow2(k) == p && FreeAligned(t, max, k, w)
  {
    var s := Root(max);
    var l := At(t, s, p).value.log;
    AtBounds(t, s, p);
    var idx := AtAligned(t, s, 0, max, p);
    Pow2Sum(l - k, k);
    Pow2Monotone(k, l);
    w := idx * Pow2(l - k);
    MulAssoc(idx, Pow2(l - k), Pow2(k));
    Pow2Sum(max - k, k);
    if w >= Pow2(max - k) {
      MulMonotone(Pow2(max - k), w, Pow2(k));
      assert false;
    }
    forall q: nat | UsedAt(t, s, q).Some?
      ensures q + Pow2(UsedAt(t, s, q).value) <= p || p + Pow2(k) <= q
    {
      if q < p { AtDisjoint(t, s, q, p); } else { AtDisjoint(t, s, p, q); }
    }
  }

  lemma WindowServes(t: Tree, max: nat, k: nat, w: nat)
    requires Fits(t, max) && Coalesced(t) && FreeAligned(t, max, k, w)
    ensures Fitting(t, max, k)
  {
    FreeWindowFits(t, Root(max), k, w, w * Pow2(k));
  }

  // An available block of at least 2^k bytes exists exactly when some aligned
  // window of 2^k bytes is free of used blocks.
  lemma ServableIffFreeWindow(t: Tree, max: nat, k: nat)
    requires Fits(t, max) && Coalesced(t)
    ensures Fitting(t, max, k) <==> exists w: nat :: FreeAligned(t, max, k, w)
  {
    if Fitting(t, max, k) {
      var p := FittingFound(t, Root(max), k);
      var w := FittingStartsWindow(t, max, k, p);
    } else {
      forall w: nat
        ensures !FreeAligned(t, max, k, w)
      {
        if FreeAligned(t, max, k, w) { WindowServes(t, max, k, w); }
      }
    }
  }

  // The w-th window of 2^k bytes lies in the pool, and no used block of m meets it.
  ghost predicate OpenWindow(m: map<nat, Block>, max: nat, k: nat, w: nat) {
    && k <= max && w < Pow2(max - k)
    && forall p :: p in m && !m[p].avail ==> p + Pow2(m[p].log) <= w * Pow2(k) || w * Pow2(k) + Pow2(k) <= p
  }

  lemma OpenIsFree(t: Tree, m: map<nat, Block>, max: nat, k: nat, w: nat)
    requires Describes(t, Root(max), m)
    ensures OpenWindow(m, max, k, w) <==> FreeAligned(t, max, k, w)
  {
    var a := w * Pow2(k);
    forall p | p in m && !m[p].avail && FreeWindow(t, Root(max), a, Pow2(k))
      ensures p + Pow2(m[p].log) <= a || a + Pow2(k) <= p
    {
      assert UsedAt(t, Root(max), p) == Some(m[p].log);
    }
    forall p: nat | UsedAt(t, Root(max), p).Some?
      ensures p in m && !m[p].avail && UsedAt(t, Root(max), p) == Some(m[p].log)
    {
      assert At(t, Root(max), p) == if p in m then Some(m[p]) else None;
    }
  }

  // A coalesced pool can serve 2^k bytes exactly when there is an open window
  // of that size.
  lemma FittingIffOpenWindow(t: Tree, m: map<nat, Block>, max: nat, k: nat)
    requires Describes(t, Root(max), m) && Coalesced(t)
    ensures Fitting(t, max, k) <==> exists w: nat :: OpenWindow(m, max, k, w)
  {
    ServableIffFreeWindow(t, max, k);
    forall w: nat
      ensures OpenWindow(m, max, k, w) <==> FreeAligned(t, max, k, w)
    {
      OpenIsFree(t, m, max, k, w);
    }
  }

  // How many windows of 2^k bytes the used blocks spoil.
  function Spoiled(t: Tree, l: nat, k: nat): nat
    requires Fits(t, l)
  {
    match t
    case Leaf(a) => if a then 0 else if l <= k then 1 else Pow2(l - k)
    case Node(x, y) => Spoiled(x, l - 1, k) + Spoiled(y, l - 1, k)
  }

  // Pigeonhole: a pool that cannot serve 2^k bytes has every window spoiled.
  lemma {:induction false} FullMeansSpoiled(t: Tree, l: nat, k: nat)
    requires Fits(t, l) && Coalesced(t) && k <= l && !Fitting(t, l, k)
    ensures Spoiled(t, l, k) >= Pow2(l - k)
  {
    if t.Node? {
      if l == k {
        if NoUsed(t) { CoalescedNoUsed(t); }
        SomeSpoiled(t, l, k);
      } else {
        FullMeansSpoiled(t.left, l - 1, k);
        FullMeansSpoiled(t.right, l - 1, k);
        assert l - 1 - k == (l - k) - 1;
      }
    }
  }

  lemma {:induction false} SomeSpoiled(t: Tree, l: nat, k: nat)
    requires Fits(t, l) && !NoUsed(t)
    ensures Spoiled(t, l, k) >= 1
  {
    if t.Node? {
      if !NoUsed(t.left) { SomeSpoiled(t.left, l - 1, k); } else { SomeSpoiled(t.right, l - 1, k); }
    }
  }

  // The used blocks of a tree.
  function UsedSet(t: Tree, s: Slot): set<nat>
    requires Fits(t, s.log)
  {
    set p: nat | s.off <= p < s.End() && UsedAt(t, s, p).Some?
  }

  lemma UsedSetLeaf(a: bool, s: Slot)
    ensures UsedSet(Leaf(a), s) == if a then {} else {s.off}
  {
    assert UsedAt(Leaf(a), s, s.off) == if a then None else Some(s.log);
    forall p: nat
      ensures p in UsedSet(Leaf(a), s) <==> !a && p == s.off
    {
    }
  }

  lemma UsedSetNode(x: Tree, y: Tree, s: Slot)
    requires s.log > 0 && Fits(x, s.log - 1) && Fits(y, s.log - 1)
    ensures UsedSet(Node(x, y), s) == UsedSet(x, s.Left()) + UsedSet(y, s.Right())
    ensures UsedSet(x, s.Left()) !! UsedSet(y, s.Right())
  {
    forall p: nat
      ensures p in UsedSet(Node(x, y), s) <==> p in UsedSet(x, s.Left()) + UsedSet(y, s.Right())
    {
      NodeUsedAt(x, y, s, p);
    }
  }

  // No used block has a log size above k.
  ghost predicate UsedUpTo(t: Tree, s: Slot, k: nat)
    requires Fits(t, s.log)
  {
    forall p: nat {:trigger UsedAt(t, s, p)} :: UsedAt(t, s, p).Some? ==> UsedAt(t, s, p).value <= k
  }

  lemma UsedUpToDown(t: Tree, s: Slot, k: nat)
    requires Fits(t, s.log) && t.Node? && UsedUpTo(t, s, k)
    ensures UsedUpTo(t.left, s.Left(), k) && UsedUpTo(t.right, s.Right(), k)
  {
    forall p: nat
      ensures UsedAt(t.left, s.Left(), p).Some? ==> UsedAt(t.left, s.Left(), p).value <= k
      ensures UsedAt(t.right, s.Right(), p).Some? ==> UsedAt(t.right, s.Right(), p).value <= k
    {
      NodeUsedAt(t.left, t.right, s, p);
      if At(t.left, s.Left(), p).Some? { AtBounds(t.left, s.Left(), p); }
      if At(t.right, s.Right(), p).Some? { AtBounds(t.right, s.Right(), p); }
    }
  }

  // Blocks of at most 2^k bytes spoil one window each.
  lemma {:induction false} SpoiledIsCount(t: Tree, s: Slot, k: nat)
    requires Fits(t, s.log) && UsedUpTo(t, s, k)
    ensures Spoiled(t, s.log, k) == |UsedSet(t, s)|
  {
    match t
    case Leaf(a) =>
      UsedSetLeaf(a, s);
      assert !a ==> UsedAt(t, s, s.off) == Some(s.log);
    case Node(x, y) =>
      UsedUpToDown(t, s, k);
      SpoiledIsCount(x, s.Left(), k);
      SpoiledIsCount(y, s.Right(), k);
      UsedSetNode(x, y, s);
  }

  // ---------- the meaning of the flag bits ----------

  // The PARENT bit of the i-th block of a size that is n levels below the
  // undivided pool: the LR bit of the parent of the nearest ancestor-or-self
  // that is a left child.
  function ParentBit(i: nat, n: nat): bool {
    if n == 0 then true
    else if i % 2 == 1 then ParentBit(i / 2, n - 1)
    else (i / 2) % 2 == 1
  }

  lemma {:induction false} AtAligned(t: Tree, s: Slot, i: nat, max: nat, p: nat) returns (idx: nat)
    requires Fits(t, s.log) && s.log <= max
    requires s.off == i * Pow2(s.log) && s.lr == (i % 2 == 1) && s.parent == ParentBit(i, max - s.log)
    requires At(t, s, p).Some?
    ensures var b := At(t, s, p).value;
      b.log <= s.log && p == idx * Pow2(b.log) && b.lr == (idx % 2 == 1) && b.parent == ParentBit(idx, max - b.log)
  {
    if t.Leaf? {
      idx := i;
    } else {
      MulHalves(i, Pow2(s.log - 1));
      assert (2 * i) % 2 == 0 && (2 * i) / 2 == i;
      assert (2 * i + 1) % 2 == 1 && (2 * i + 1) / 2 == i;
      if p < s.Mid() {
        idx := AtAligned(t.left, s.Left(), 2 * i, max, p);
      } else {
        idx := AtAligned(t.right, s.Right(), 2 * i + 1, max, p);
      }
    }
  }

  // ---------- counting ----------

  function Leaves(t: Tree): nat {
    if t.Leaf? then 1 else Leaves(t.left) + Leaves(t.right)
  }

  function Bytes(t: Tree, l: nat, avail: bool): nat
    requires Fits(t, l)
  {
    match t
    case Leaf(a) => if a == avail then Pow2(l) else 0
    case Node(x, y) => Bytes(x, l - 1, avail) + Bytes(y, l - 1, avail)
  }

  lemma {:induction false} BytesConserved(t: Tree, l: nat)
    requires Fits(t, l)
    ensures Bytes(t, l, true) + Bytes(t, l, false) == Pow2(l)
  {
    if t.Node? {
      BytesConserved(t.left, l - 1);
      BytesConserved(t.right, l - 1);
    }
  }

  lemma {:induction false} SpineBytes(l: nat, k: nat)
    requires k <= l
    ensures Fits(Spine(l, k), l) && Bytes(Spine(l, k), l, false) == Pow2(k)
  {
    if l > k { SpineBytes(l - 1, k); }
  }

  // An allocation puts 2^k bytes into use, whatever is split for it.
  lemma {:induction false} CarveBytes(t: Tree, s: Slot, p: nat, k: nat)
    requires Fits(t, s.log) && At(t, s, p).Some? && At(t, s, p).value.avail && k <= At(t, s, p).value.log
    ensures Fits(Carve(t, s, p, k), s.log)
    ensures Bytes(Carve(t, s, p, k), s.log, false) == Bytes(t, s.log, false) + Pow2(k)
  {
    if t.Leaf? {
      SpineBytes(s.log, k);
    } else if p < s.Mid() {
      CarveBytes(t.left, s.Left(), p, k);
    } else {
      CarveBytes(t.right, s.Right(), p, k);
    }
  }

  // Freeing takes as many out of use as the block has, whatever is merged.
  lemma {:induction false} ReleaseBytes(t: Tree, s: Slot, p: nat)
    requires Fits(t, s.log) && At(t, s, p).Some? && !At(t, s, p).value.avail
    ensures Fits(Release(t, s, p), s.log)
    ensures Bytes(Release(t, s, p), s.log, false) == Bytes(t, s.log, false) - Pow2(At(t, s, p).value.log)
  {
    ReleaseFits(t, s, p, s.log);
    if t.Node? {
      if p < s.Mid() {
        ReleaseBytes(t.left, s.Left(), p);
      } else {
        ReleaseBytes(t.right, s.Right(), p);
      }
    }
  }

  lemma {:induction false} SplitLeaves(t: Tree, s: Slot, p: nat)
    requires Fits(t, s.log)
    ensures Leaves(Split(t, s, p)) == Leaves(t) + 1
  {
    if t.Node? {
      if p < s.Mid() { SplitLeaves(t.left, s.Left(), p); } else { SplitLeaves(t.right, s.Right(), p); }
    }
  }

  lemma {:induction false} SetAvailLeaves(t: Tree, s: Slot, p: nat, a: bool)
    requires Fits(t, s.log)
    ensures Leaves(SetAvail(t, s, p, a)) == Leaves(t)
  {
    if t.Node? {
      if p < s.Mid() { SetAvailLeaves(t.left, s.Left(), p, a); } else { SetAvailLeaves(t.right, s.Right(), p, a); }
    }
  }

  lemma {:induction false} MergeLeaves(t: Tree, s: Slot, p: nat)
    requires Fits(t, s.log) && Mergeable(t, s, p)
    ensures Leaves(Merge(t, s, p)) == Leaves(t) - 1
  {
    MergeableDown(t, s, p);
    AtBounds(t, s, p);
    if At(t, s, p).value.log < s.log - 1 {
      if p < s.Mid() { MergeLeaves(t.left, s.Left(), p); } else { MergeLeaves(t.right, s.Right(), p); }
    }
  }
}
