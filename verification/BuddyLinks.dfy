// The block lists in memory: LIST_HEAD and LIST_ENTRY of <sys/queue.h>.  A
// list is a chain of links kept in the headers of the blocks that are on it.
module BuddyLinks {
  import opened Options
  import opened BuddyTree
  import opened BuddyLists

  // What le_prev points at: the first-element pointer of list i, or the
  // le_next field in the header of the block at p.
  datatype Prev = FromHead(i: nat) | FromNode(p: nat)

  // The LIST_ENTRY field of a header.
  datatype Link = Link(next: Option<nat>, prev: Prev)

  function First(list: seq<nat>): Option<nat> {
    if list == [] then None else Some(list[0])
  }

  // The links of the blocks in `list` chain them up in this order.
  predicate Chained(list: seq<nat>, prev: Prev, links: seq<Link>) {
    list != [] ==>
      && list[0] < |links| && links[list[0]] == Link(First(list[1..]), prev)
      && Chained(list[1..], FromNode(list[0]), links)
  }

  // No address is on two lists, or twice on one.
  ghost predicate Apart(lists: seq<seq<nat>>) {
    && (forall i {:trigger lists[i]} :: 0 <= i < |lists| ==> NoDup(lists[i]))
    && (forall i, j, p {:trigger p in lists[i], p in lists[j]} ::
         0 <= i < |lists| && 0 <= j < |lists| && p in lists[i] && p in lists[j] ==> i == j)
  }

  ghost predicate AllChained(lists: seq<seq<nat>>, heads: seq<Option<nat>>, links: seq<Link>) {
    && |heads| == |lists|
    && forall i {:trigger lists[i]} :: 0 <= i < |lists| ==>
         heads[i] == First(lists[i]) && Chained(lists[i], FromHead(i), links)
  }

  // p is on no list.
  ghost predicate Nowhere(lists: seq<seq<nat>>, p: nat) {
    forall i {:trigger lists[i]} :: 0 <= i < |lists| ==> p !in lists[i]
  }

  // Only addresses in `live` are on a list.
  ghost predicate AllLive(lists: seq<seq<nat>>, live: set<nat>) {
    forall i, p {:trigger p in lists[i]} :: 0 <= i < |lists| && p in lists[i] ==> p in live
  }

  // Nothing differs between was and now but what is at the given addresses.
  ghost predicate ChangedOnly<T>(was: seq<T>, now: seq<T>, at: set<nat>) {
    |now| == |was| && forall x {:trigger now[x]} :: 0 <= x < |was| && now[x] != was[x] ==> x in at
  }

  // What has been written since `was` is at the given addresses.
  ghost predicate WroteOnly(was: seq<nat>, now: seq<nat>, at: set<nat>) {
    was <= now && forall i {:trigger now[i]} :: |was| <= i < |now| ==> now[i] in at
  }

  // Links of other blocks do not matter.
  lemma {:induction false} ChainedFrame(list: seq<nat>, prev: Prev, links: seq<Link>, links': seq<Link>)
    requires Chained(list, prev, links) && |links'| == |links|
    requires forall p :: p in list && p < |links| ==> links'[p] == links[p]
    ensures Chained(list, prev, links')
  {
    if list != [] {
      ChainedFrame(list[1..], FromNode(list[0]), links, links');
    }
  }

  lemma {:induction false} ChainedAt(list: seq<nat>, prev: Prev, links: seq<Link>, j: nat)
    requires Chained(list, prev, links) && j < |list|
    ensures list[j] < |links| && links[list[j]].next == First(list[j + 1..])
    ensures links[list[j]].prev == if j == 0 then prev else FromNode(list[j - 1])
  {
    if j > 0 {
      ChainedAt(list[1..], FromNode(list[0]), links, j - 1);
      assert list[1..][j..] == list[j + 1..];
    }
  }

  // ---------- LIST_INSERT_HEAD ----------

  // The links after p has been put before `first` on list i.
  function LinkedIn(links: seq<Link>, i: nat, p: nat, first: Option<nat>): seq<Link>
    requires p < |links| && (first.Some? ==> first.value < |links|)
  {
    var links' := links[p := Link(first, FromHead(i))];
    if first.Some? && first.value != p then links'[first.value := links[first.value].(prev := FromNode(p))] else links'
  }

  lemma ChainedCons(list: seq<nat>, i: nat, p: nat, links: seq<Link>)
    requires Chained(list, FromHead(i), links) && NoDup(list) && p !in list && p < |links|
    ensures Chained([p] + list, FromHead(i), LinkedIn(links, i, p, First(list)))
  {
    var links' := LinkedIn(links, i, p, First(list));
    assert ([p] + list)[1..] == list;
    if list != [] {
      ChainedFrame(list[1..], FromNode(list[0]), links, links');
    }
  }

  // ---------- LIST_REMOVE ----------

  // The links after the block with link e has been taken out.
  function LinkedOut(links: seq<Link>, e: Link): seq<Link>
    requires e.next.Some? ==> e.next.value < |links|
    requires e.prev.FromNode? ==> e.prev.p < |links|
  {
    var links' := if e.next.Some? then links[e.next.value := links[e.next.value].(prev := e.prev)] else links;
    if e.prev.FromNode? then links'[e.prev.p := links'[e.prev.p].(next := e.next)] else links'
  }

  // The neighbours of p are on its list, or before it.
  lemma {:induction false} Neighbours(list: seq<nat>, prev: Prev, links: seq<Link>, p: nat)
    requires Chained(list, prev, links) && NoDup(list) && p in list
    ensures p < |links|
    ensures var e := links[p];
      && (e.next.Some? ==> e.next.value in list && e.next.value != p && e.next.value < |links|)
      && if p == list[0] then e.prev == prev
         else e.prev.FromNode? && e.prev.p in list && e.prev.p != p && e.prev.p < |links| && Some(e.prev.p) != e.next
  {
    if p == list[0] {
      if list[1..] != [] { assert list[1..][0] in list[1..]; }
    } else {
      Neighbours(list[1..], FromNode(list[0]), links, p);
    }
  }

  lemma {:induction false} ChainedWithout(list: seq<nat>, prev: Prev, links: seq<Link>, p: nat)
    requires Chained(list, prev, links) && NoDup(list) && p in list
    requires prev.FromNode? ==> prev.p !in list && prev.p < |links|
    ensures p < |links|
    ensures links[p].next.Some? ==> links[p].next.value < |links|
    ensures links[p].prev.FromNode? ==> links[p].prev.p < |links|
    ensures Chained(Without(list, p), prev, LinkedOut(links, links[p]))
  {
    Neighbours(list, prev, links, p);
    var links', rest := LinkedOut(links, links[p]), list[1..];
    if p == list[0] {
      if rest != [] {
        ChainedFrame(rest[1..], FromNode(rest[0]), links, links');
      }
    } else {
      Neighbours(rest, FromNode(list[0]), links, p);
      ChainedWithout(rest, FromNode(list[0]), links, p);
      assert ([list[0]] + Without(rest, p))[1..] == Without(rest, p);
    }
  }

  // ---------- all lists ----------

  lemma ApartCons(lists: seq<seq<nat>>, i: nat, p: nat)
    requires Apart(lists) && i < |lists| && Nowhere(lists, p)
    ensures Apart(lists[i := [p] + lists[i]])
  {
    NoDupCons(p, lists[i]);
    var lists' := lists[i := [p] + lists[i]];
    forall j, k, q | 0 <= j < |lists'| && 0 <= k < |lists'| && q in lists'[j] && q in lists'[k]
      ensures j == k
    {
      assert q != p ==> q in lists[j] && q in lists[k];
    }
  }

  lemma ApartWithout(lists: seq<seq<nat>>, i: nat, p: nat)
    requires Apart(lists) && i < |lists| && p in lists[i]
    ensures Apart(lists[i := Without(lists[i], p)]) && Nowhere(lists[i := Without(lists[i], p)], p)
  {
    WithoutElements(lists[i], p, p);
    var lists' := lists[i := Without(lists[i], p)];
    forall j | 0 <= j < |lists'|
      ensures p !in lists'[j]
    {
      assert p in lists[j] ==> j == i;
    }
    forall j, k, q | 0 <= j < |lists'| && 0 <= k < |lists'| && q in lists'[j] && q in lists'[k]
      ensures j == k
    {
      WithoutElements(lists[i], p, q);
      assert q in lists[j] && q in lists[k];
    }
  }

  // One list changes, by links that no other list has.
  lemma AllChainedUpdate(lists: seq<seq<nat>>, heads: seq<Option<nat>>, links: seq<Link>,
                         i: nat, list: seq<nat>, links': seq<Link>, at: set<nat>)
    requires Apart(lists) && AllChained(lists, heads, links) && i < |lists|
    requires Chained(list, FromHead(i), links') && ChangedOnly(links, links', at)
    requires forall j, p {:trigger p in lists[j]} :: 0 <= j < |lists| && j != i && p in lists[j] ==> p !in at
    ensures AllChained(lists[i := list], heads[i := First(list)], links')
  {
    forall j | 0 <= j < |lists| && j != i
      ensures Chained(lists[j], FromHead(j), links')
    {
      ChainedFrame(lists[j], FromHead(j), links, links');
    }
  }

  lemma TableCons(lists: seq<seq<nat>>, heads: seq<Option<nat>>, links: seq<Link>, i: nat, p: nat)
    requires Apart(lists) && AllChained(lists, heads, links)
    requires i < |lists| && p < |links| && Nowhere(lists, p)
    ensures heads[i].Some? ==> heads[i].value < |links| && heads[i].value in lists[i] && heads[i].value != p
    ensures var links' := LinkedIn(links, i, p, heads[i]);
      && AllChained(lists[i := [p] + lists[i]], heads[i := Some(p)], links')
      && ChangedOnly(links, links', {p} + set x | x in lists[i])
  {
    var list := lists[i];
    if list != [] { ChainedAt(list, FromHead(i), links, 0); }
    ChainedCons(list, i, p, links);
    var at := {p} + set x | x in list;
    forall j, q | 0 <= j < |lists| && j != i && q in lists[j]
      ensures q !in at
    {
      assert p !in lists[j];
    }
    AllChainedUpdate(lists, heads, links, i, [p] + list, LinkedIn(links, i, p, heads[i]), at);
  }

  lemma TableWithout(lists: seq<seq<nat>>, heads: seq<Option<nat>>, links: seq<Link>, i: nat, p: nat)
    requires Apart(lists) && AllChained(lists, heads, links) && i < |lists| && p in lists[i]
    ensures p < |links|
    ensures var e := links[p];
      && (e.next.Some? ==> e.next.value < |links| && e.next.value in lists[i])
      && (if e.prev.FromHead? then e.prev.i == i else e.prev.p < |links| && e.prev.p in lists[i])
      && AllChained(lists[i := Without(lists[i], p)],
                    if e.prev.FromHead? then heads[i := e.next] else heads, LinkedOut(links, e))
      && ChangedOnly(links, LinkedOut(links, e), set x | x in lists[i])
  {
    var list := lists[i];
    Neighbours(list, FromHead(i), links, p);
    ChainedWithout(list, FromHead(i), links, p);
    var e, at := links[p], set x | x in list;
    AllChainedUpdate(lists, heads, links, i, Without(list, p), LinkedOut(links, e), at);
    assert e.prev.FromNode? ==> heads[i := First(Without(list, p))] == heads;
  }

  // What is on no list, or only on live ones, after one list has changed.
  lemma WithoutKeeps(lists: seq<seq<nat>>, i: nat, p: nat, q: nat, live: set<nat>)
    requires Apart(lists) && i < |lists|
    ensures Nowhere(lists, q) ==> Nowhere(lists[i := Without(lists[i], p)], q)
    ensures AllLive(lists, live) ==> AllLive(lists[i := Without(lists[i], p)], live)
  {
    WithoutElements(lists[i], p, q);
    forall r
      ensures r in Without(lists[i], p) ==> r in lists[i]
    {
      WithoutElements(lists[i], p, r);
    }
  }

  lemma ChangedTwice<T>(a: seq<T>, b: seq<T>, c: seq<T>, at: set<nat>)
    requires ChangedOnly(a, b, at) && ChangedOnly(b, c, at)
    ensures ChangedOnly(a, c, at)
  {
    forall x | 0 <= x < |a| && c[x] != a[x]
      ensures x in at
    {
      assert b[x] == a[x] || b[x] == c[x] || x in at;
    }
  }

  // The lists of a pool hold nothing but its blocks.
  lemma ListedLive(tab: seq<seq<nat>>, m: map<nat, Block>, max: nat, q: nat)
    requires Listed(tab, m, max)
    ensures AllLive(tab, m.Keys) && (q !in m ==> Nowhere(tab, q))
  {
    forall i, p | 0 <= i < |tab| && p in tab[i]
      ensures p in m
    {
      assert OnList(m, max, i, p);
    }
  }

  // ---------- the table ----------

  // blktable and all LIST_ENTRY fields, by the address of the header.
  class BlockTable {
    const heads: array<Option<nat>>
    const links: array<Link>
    ghost var lists: seq<seq<nat>>   // the addresses on each list
    ghost var written: seq<nat>      // the address of every assignment to a link

    ghost predicate Valid()
      reads this, heads, links
    {
      Apart(lists) && AllChained(lists, heads[..], links[..])
    }

    // LIST_INIT, for n lists of addresses below `size`.
    constructor (n: nat, size: nat)
      ensures Valid() && fresh(heads) && fresh(links)
      ensures lists == seq(n, _ => []) && heads.Length == n && links.Length == size
    {
      heads := new Option<nat>[n](_ => None);
      links := new Link[size](_ => Link(None, FromHead(0)));
      lists, written := seq(n, _ => []), [];
    }

    // Where a walk along list i is after j steps.
    ghost function Node(i: nat, j: nat): Option<nat>
      requires i < |lists| && j <= |lists[i]|
      reads this
    {
      if j < |lists[i]| then Some(lists[i][j]) else None
    }

    // LIST_FIRST
    method FirstOf(i: nat) returns (p: Option<nat>)
      requires Valid() && i < |lists|
      ensures p == Node(i, 0)
    {
      return heads[i];
    }

    // LIST_NEXT
    method NextOf(p: nat, ghost i: nat, ghost j: nat) returns (q: Option<nat>)
      requires Valid() && i < |lists| && j < |lists[i]| && lists[i][j] == p
      ensures q == Node(i, j + 1)
    {
      ChainedAt(lists[i], FromHead(i), links[..], j);
      return links[p].next;
    }

    // LIST_REMOVE
    method Remove(p: nat, ghost i: nat, ghost live: set<nat>)
      requires Valid() && i < |lists| && p in lists[i] && AllLive(lists, live)
      modifies this, heads, links
      ensures Valid() && lists == old(lists)[i := Without(old(lists)[i], p)]
      ensures Nowhere(lists, p) && AllLive(lists, live)
      ensures ChangedOnly(old(links[..]), links[..], live) && WroteOnly(old(written), written, live)
    {
      WithoutKeeps(lists, i, p, p, live);
      ghost var was, tops := links[..], heads[..];
      TableWithout(lists, heads[..], was, i, p);
      ApartWithout(lists, i, p);
      var e := links[p];
      if e.next.Some? {
        links[e.next.value] := links[e.next.value].(prev := e.prev);
        written := written + [e.next.value];
      }
      match e.prev {
        case FromHead(h) => heads[h] := e.next;
        case FromNode(q) =>
          links[q] := links[q].(next := e.next);
          written := written + [q];
      }
      assert links[..] == LinkedOut(was, e);
      assert heads[..] == if e.prev.FromHead? then tops[i := e.next] else tops;
      lists := lists[i := Without(lists[i], p)];
    }

    // LIST_INSERT_HEAD
    method InsertHead(i: nat, p: nat, ghost live: set<nat>)
      requires Valid() && i < |lists| && p < links.Length && Nowhere(lists, p)
      requires AllLive(lists, live) && p in live
      modifies this, heads, links
      ensures Valid() && lists == old(lists)[i := [p] + old(lists)[i]] && AllLive(lists, live)
      ensures ChangedOnly(old(links[..]), links[..], live) && WroteOnly(old(written), written, live)
    {
      ghost var was, tops := links[..], heads[..];
      TableCons(lists, tops, was, i, p);
      ApartCons(lists, i, p);
      links[p] := links[p].(next := heads[i]);
      written := written + [p];
      if links[p].next.Some? {
        var first := links[p].next.value;
        links[first] := links[first].(prev := FromNode(p));
        written := written + [first];
      }
      heads[i] := Some(p);
      links[p] := links[p].(prev := FromHead(i));
      written := written + [p];
      assert links[..] == LinkedIn(was, i, p, tops[i]) && heads[..] == tops[i := Some(p)];
      lists := lists[i := [p] + lists[i]];
    }
  }
}
