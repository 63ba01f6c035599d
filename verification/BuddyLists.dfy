// The block lists of the pool: one list of block addresses per block size.
module BuddyLists {
  import opened Powers
  import opened BuddyTree

  predicate NoDup(s: seq<nat>) {
    s != [] ==> s[0] !in s[1..] && NoDup(s[1..])
  }

  lemma NoDupCons(x: nat, s: seq<nat>)
    requires NoDup(s) && x !in s
    ensures NoDup([x] + s)
  {
    assert ([x] + s)[1..] == s;
  }

  // s with its element p unlinked
  function Without(s: seq<nat>, p: nat): seq<nat> {
    if s == [] then [] else if s[0] == p then s[1..] else [s[0]] + Without(s[1..], p)
  }

  lemma {:induction false} WithoutElements(s: seq<nat>, p: nat, q: nat)
    requires NoDup(s)
    ensures NoDup(Without(s, p))
    ensures q in Without(s, p) <==> q in s && q != p
    ensures p !in s ==> Without(s, p) == s
  {
    if s != [] {
      assert s == [s[0]] + s[1..];
      if s[0] != p {
        WithoutElements(s[1..], p, q);
        WithoutElements(s[1..], p, s[0]);
        assert s[0] !in Without(s[1..], p);
      }
    }
  }

  // the elements of s that are not addresses in the n bytes from a on
  function Outside(s: seq<nat>, a: nat, n: nat): seq<nat> {
    if s == [] then [] else
    (if a <= s[0] < a + n then [] else [s[0]]) + Outside(s[1..], a, n)
  }

  // Widening the window to one that takes in exactly one more list element.
  lemma {:induction false} OutsideWiden(s: seq<nat>, a: nat, n: nat, a': nat, n': nat, b: nat)
    requires NoDup(s)
    requires a' <= a && a + n <= a' + n' && a' <= b < a' + n' && !(a <= b < a + n)
    requires forall x :: x in s && a' <= x < a' + n' ==> a <= x < a + n || x == b
    ensures Outside(s, a', n') == Without(Outside(s, a, n), b)
  {
    if s != [] {
      assert s[0] in s;
      assert forall x :: x in s[1..] ==> x in s;
      if s[0] == b {
        OutsideSame(s[1..], a, n, a', n');
        assert Outside(s, a, n) == [b] + Outside(s[1..], a, n);
      } else {
        OutsideWiden(s[1..], a, n, a', n', b);
        if a <= s[0] < a + n {
          assert Outside(s, a, n) == Outside(s[1..], a, n);
          assert Outside(s, a', n') == Outside(s[1..], a', n');
        } else {
          assert Outside(s, a, n) == [s[0]] + Outside(s[1..], a, n);
          assert Outside(s, a, n)[1..] == Outside(s[1..], a, n);
        }
      }
    }
  }

  lemma {:induction false} OutsideSame(s: seq<nat>, a: nat, n: nat, a': nat, n': nat)
    requires forall x :: x in s ==> (a' <= x < a' + n' <==> a <= x < a + n)
    ensures Outside(s, a', n') == Outside(s, a, n)
  {
    if s != [] {
      assert s[0] in s;
      assert forall x :: x in s[1..] ==> x in s;
      OutsideSame(s[1..], a, n, a', n');
    }
  }

  // A window that contains no element but p.
  lemma {:induction false} OutsideOne(s: seq<nat>, p: nat, n: nat)
    requires NoDup(s) && n > 0
    requires forall x :: x in s && p <= x < p + n ==> x == p
    ensures Outside(s, p, n) == Without(s, p)
  {
    if s != [] {
      assert s[0] in s;
      assert forall x :: x in s[1..] ==> x in s;
      OutsideOne(s[1..], p, n);
      if s[0] == p { WithoutElements(s[1..], p, p); }
    }
  }

  lemma {:induction false} OutsideElements(s: seq<nat>, a: nat, n: nat, b: nat)
    requires NoDup(s)
    ensures NoDup(Outside(s, a, n))
    ensures b in Outside(s, a, n) <==> b in s && !(a <= b < a + n)
  {
    if s != [] {
      assert s == [s[0]] + s[1..];
      OutsideElements(s[1..], a, n, b);
      OutsideElements(s[1..], a, n, s[0]);
      if a <= s[0] < a + n {
        assert Outside(s, a, n) == Outside(s[1..], a, n);
      } else {
        NoDupCons(s[0], Outside(s[1..], a, n));
      }
    }
  }

  // There is a block of log size max - i at p: it belongs on list i.
  predicate OnList(m: map<nat, Block>, max: nat, i: int, p: nat) {
    p in m && m[p].log == max - i
  }

  // Every block is exactly once on the list for its size, and nothing else is.
  ghost predicate Listed(tab: seq<seq<nat>>, m: map<nat, Block>, max: nat) {
    && (forall i {:trigger NoDup(tab[i])} :: 0 <= i < |tab| ==> NoDup(tab[i]))
    && (forall i, p {:trigger OnList(m, max, i, p)} :: 0 <= i < |tab| ==> (p in tab[i] <==> OnList(m, max, i, p)))
  }

  // The lists after the block p of log size l is split: p moves to the head of
  // the next list, with its new right buddy before it.
  function SplitLists(tab: seq<seq<nat>>, max: nat, l: nat, p: nat): seq<seq<nat>>
    requires 0 < l <= max && max - l + 1 < |tab|
  {
    tab[max - l := Without(tab[max - l], p)]
       [max - l + 1 := [p + Pow2(l - 1), p] + tab[max - l + 1]]
  }

  lemma ListedSplit(tab: seq<seq<nat>>, m: map<nat, Block>, max: nat, p: nat)
    requires Listed(tab, m, max)
    requires p in m && 0 < m[p].log <= max && max - m[p].log + 1 < |tab| && p + Pow2(m[p].log - 1) !in m
    ensures Listed(SplitLists(tab, max, m[p].log, p), SplitMap(m, p), max)
  {
    var i := max - m[p].log;
    var r := p + Pow2(m[p].log - 1);
    var tab' := SplitLists(tab, max, m[p].log, p);
    WithoutElements(tab[i], p, p);
    assert NoDup(tab'[i + 1]) by {
      assert !OnList(m, max, i + 1, p) && !OnList(m, max, i + 1, r);
      NoDupCons(p, tab[i + 1]);
      NoDupCons(r, [p] + tab[i + 1]);
      assert [r] + ([p] + tab[i + 1]) == [r, p] + tab[i + 1];
    }
    forall j, q: nat | 0 <= j < |tab'|
      ensures q in tab'[j] <==> OnList(SplitMap(m, p), max, j, q)
    {
      WithoutElements(tab[j], p, q);
      assert q in tab[j] <==> OnList(m, max, j, q);
    }
  }

  // The lists after a block of log size k has been carved out of the block p
  // of log size l.
  function CarveLists(tab: seq<seq<nat>>, max: nat, l: nat, k: nat, p: nat): (r: seq<seq<nat>>)
    requires k <= l <= max && max - k < |tab|
    ensures |r| == |tab|
    decreases l - k
  {
    if k == l then tab else SplitLists(CarveLists(tab, max, l, k + 1, p), max, k + 1, p)
  }

  // In one step: p moves down to the list of its new size, and the lists in
  // between get the right halves that are split off.
  function CarvedList(list: seq<nat>, i: nat, max: nat, l: nat, k: nat, p: nat): seq<nat>
    requires k <= l <= max
  {
    if l == k || i < max - l || i > max - k then list
    else if i == max - l then Without(list, p)
    else if i < max - k then [p + Pow2(max - i)] + list
    else [p + Pow2(k), p] + list
  }

  lemma {:induction false} CarveListsClosed(tab: seq<seq<nat>>, max: nat, l: nat, k: nat, p: nat, i: nat)
    requires k <= l <= max && max - k < |tab| && i < |tab|
    ensures CarveLists(tab, max, l, k, p)[i] == CarvedList(tab[i], i, max, l, k, p)
    decreases l - k
  {
    if k < l {
      CarveListsClosed(tab, max, l, k + 1, p, i);
      if i == max - k - 1 && k + 1 < l {
        WithoutSecond(p + Pow2(k + 1), p, tab[i]);
      }
    }
  }

  lemma WithoutSecond(r: nat, p: nat, s: seq<nat>)
    requires r != p
    ensures Without([r, p] + s, p) == [r] + s
  {
    assert ([r, p] + s)[1..] == [p] + s;
    assert ([p] + s)[1..] == s;
  }

  // The lists after the buddies p and q of log size l are merged into the
  // block m, which goes to the head of the list before.
  function MergeLists(tab: seq<seq<nat>>, max: nat, l: nat, m: nat, p: nat, q: nat): seq<seq<nat>>
    requires l < max && max - l < |tab|
  {
    tab[max - l := Without(Without(tab[max - l], p), q)]
       [max - l - 1 := [m] + tab[max - l - 1]]
  }

  lemma ListedMerge(tab: seq<seq<nat>>, m: map<nat, Block>, max: nat, o: nat, p: nat, q: nat)
    requires Listed(tab, m, max) && MergeablePair(m, max, o)
    requires max - m[o].log < |tab|
    requires var r := o + Pow2(m[o].log); (p == o && q == r) || (p == r && q == o)
    ensures Listed(MergeLists(tab, max, m[o].log, o, p, q), MergeMap(m, o), max)
  {
    var i := max - m[o].log;
    var tab' := MergeLists(tab, max, m[o].log, o, p, q);
    WithoutElements(tab[i], p, p);
    WithoutElements(Without(tab[i], p), q, q);
    assert NoDup(tab'[i - 1]) by {
      assert !OnList(m, max, i - 1, o);
      NoDupCons(o, tab[i - 1]);
    }
    forall j, x: nat | 0 <= j < |tab'|
      ensures x in tab'[j] <==> OnList(MergeMap(m, o), max, j, x)
    {
      WithoutElements(tab[i], p, x);
      WithoutElements(Without(tab[i], p), q, x);
      assert x in tab[j] <==> OnList(m, max, j, x);
    }
  }

  lemma ListedMark(tab: seq<seq<nat>>, m: map<nat, Block>, max: nat, p: nat, a: bool)
    requires Listed(tab, m, max) && p in m
    ensures Listed(tab, m[p := m[p].(avail := a)], max)
  {
    forall j, q: nat | 0 <= j < |tab|
      ensures q in tab[j] <==> OnList(m[p := m[p].(avail := a)], max, j, q)
    {
      assert q in tab[j] <==> OnList(m, max, j, q);
    }
  }

  // List i after the block of log size l0 has grown to the block q of log size
  // l: all blocks inside q are gone, and q is at the head of its list.
  function FreedList(list: seq<nat>, i: nat, max: nat, l0: nat, q: nat, l: nat): seq<nat> {
    if l == l0 then list
    else if i + l == max then [q] + Outside(list, q, Pow2(l))
    else Outside(list, q, Pow2(l))
  }

  function FreedLists(tab: seq<seq<nat>>, max: nat, l0: nat, q: nat, l: nat): (r: seq<seq<nat>>)
    ensures |r| == |tab|
  {
    seq(|tab|, i requires 0 <= i < |tab| => FreedList(tab[i], i, max, l0, q, l))
  }

  // Nothing but block b of m starts in the bytes of b.
  ghost predicate Alone(m: map<nat, Block>, b: nat) {
    b in m && forall x :: x in m && b <= x < b + Pow2(m[b].log) ==> x == b
  }

  lemma BlocksAlone(t: Tree, s: Slot, m: map<nat, Block>, b: nat)
    requires Describes(t, s, m) && b in m
    ensures Alone(m, b)
  {
    forall x | x in m && b <= x < b + Pow2(m[b].log)
      ensures x == b
    {
      if b < x { DescribesDisjoint(t, s, m, b, x); }
    }
  }

  // Taking the block p, grown from p0, off list i leaves what lies outside p.
  lemma FreedWithoutSelf(tab: seq<seq<nat>>, m: map<nat, Block>, max: nat, p0: nat, p: nat, l: nat, i: nat)
    requires Listed(tab, m, max) && l < max && i < |tab|
    requires Alone(m, p0) && m[p0].log <= l && (m[p0].log == l ==> p == p0)
    ensures var list := FreedList(tab[i], i, max, m[p0].log, p, l);
      (if i == max - l then Without(list, p) else list) == Outside(tab[i], p, Pow2(l))
  {
    if l == m[p0].log {
      forall x | x in tab[i] && p <= x < p + Pow2(l)
        ensures x == p
      {
        assert OnList(m, max, i, x);
      }
      OutsideOne(tab[i], p, Pow2(l));
      assert p in tab[i] <==> OnList(m, max, i, p);
      WithoutElements(tab[i], p, p);
    }
  }

  // Taking its buddy b off list i as well leaves what lies outside both.
  lemma FreedWithoutBuddy(tab: seq<seq<nat>>, m: map<nat, Block>, max: nat, p: nat, l: nat, b: nat, q: nat, i: nat)
    requires Listed(tab, m, max) && l < max && i < |tab|
    requires Alone(m, b) && m[b].log == l
    requires (p == q && b == q + Pow2(l)) || (b == q && p == q + Pow2(l))
    ensures var list := Outside(tab[i], p, Pow2(l));
      (if i == max - l then Without(list, b) else list) == Outside(tab[i], q, Pow2(l + 1))
  {
    forall x | x in tab[i] && q <= x < q + Pow2(l + 1)
      ensures p <= x < p + Pow2(l) || x == b
    {
      assert OnList(m, max, i, x);
    }
    OutsideWiden(tab[i], p, Pow2(l), q, Pow2(l + 1), b);
    OutsideElements(tab[i], p, Pow2(l), b);
    assert b in tab[i] <==> OnList(m, max, i, b);
    if i != max - l { WithoutElements(Outside(tab[i], p, Pow2(l)), b, b); }
  }

  lemma FreedListStep(
      tab: seq<seq<nat>>, m: map<nat, Block>, max: nat, p0: nat, p: nat, l: nat, b: nat, q: nat, i: nat)
    requires Listed(tab, m, max) && l < max && i < |tab|
    requires Alone(m, p0) && m[p0].log <= l && (m[p0].log == l ==> p == p0)
    requires Alone(m, b) && m[b].log == l
    requires (p == q && b == q + Pow2(l)) || (b == q && p == q + Pow2(l))
    ensures var list := FreedList(tab[i], i, max, m[p0].log, p, l);
      FreedList(tab[i], i, max, m[p0].log, q, l + 1) ==
      if i == max - l then Without(Without(list, p), b) else if i == max - l - 1 then [q] + list else list
  {
    FreedWithoutSelf(tab, m, max, p0, p, l, i);
    FreedWithoutBuddy(tab, m, max, p, l, b, q, i);
  }

  // One more merge, of the block p grown from p0 with its untouched buddy b into q.
  lemma FreedStep(tab: seq<seq<nat>>, m: map<nat, Block>, max: nat, p0: nat, p: nat, l: nat, b: nat, q: nat)
    requires Listed(tab, m, max) && l < max && max - l < |tab|
    requires Alone(m, p0) && m[p0].log <= l && (m[p0].log == l ==> p == p0)
    requires Alone(m, b) && m[b].log == l
    requires (p == q && b == q + Pow2(l)) || (b == q && p == q + Pow2(l))
    ensures MergeLists(FreedLists(tab, max, m[p0].log, p, l), max, l, q, p, b) ==
            FreedLists(tab, max, m[p0].log, q, l + 1)
  {
    var l0 := m[p0].log;
    var new' := MergeLists(FreedLists(tab, max, l0, p, l), max, l, q, p, b);
    forall i | 0 <= i < |tab|
      ensures new'[i] == FreedList(tab[i], i, max, l0, q, l + 1)
    {
      FreedListStep(tab, m, max, p0, p, l, b, q, i);
    }
    assert new' == FreedLists(tab, max, l0, q, l + 1);
  }

  // ---------- best fit ----------

  // The block at p is available and can hold size bytes.
  predicate Candidate(m: map<nat, Block>, size: nat, p: nat) {
    p in m && m[p].avail && Pow2(m[p].log) >= size
  }

  // p is on the list, and no candidate comes before it.
  ghost predicate FirstOnList(list: seq<nat>, m: map<nat, Block>, size: nat, p: nat) {
    exists j :: 0 <= j < |list| && list[j] == p && forall i :: 0 <= i < j ==> !Candidate(m, size, list[i])
  }

  // p is the block that a best-fit search takes: no candidate is smaller,
  // and no candidate of the same size is listed before p.
  ghost predicate BestFit(tab: seq<seq<nat>>, m: map<nat, Block>, max: nat, size: nat, p: nat) {
    && Candidate(m, size, p)
    && (forall q: nat :: Candidate(m, size, q) ==> m[p].log <= m[q].log)
    && 0 <= max - m[p].log < |tab|
    && FirstOnList(tab[max - m[p].log], m, size, p)
  }
}
