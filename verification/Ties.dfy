/**
 What the merge needs of a node's page. The daemon orders its list by creation time alone
 (packages/server/src/e2b/control.ts), the gateway breaks ties by id: two sandboxes born
 in one instant may reach the gateway in the other order.
 */
module Ties {
  import opened Wrappers
  import opened Cursor

  function OfNode(s: seq<Tagged>, i: NodeId): seq<Tagged> {
    if s == [] then []
    else OfNode(s[..|s| - 1], i) + if s[|s| - 1].nodeId == i then [s[|s| - 1]] else []
  }

  /** What was taken of each node's page is the front of it, so the offset counts the right items. */
  ghost predicate TakesPrefixes(pages: seq<Page>, limit: nat) {
    forall p :: 0 <= p < |pages| ==>
      OfNode(Taken(pages, limit), pages[p].nodeId) <= TagItems(pages[p].nodeId, pages[p].items)
  }

  ghost predicate DistinctNodes(pages: seq<Page>) {
    forall p, q :: 0 <= p < q < |pages| ==> pages[p].nodeId != pages[q].nodeId
  }

  lemma {:induction false} OfNodeAppend(a: seq<Tagged>, b: seq<Tagged>, i: NodeId)
    ensures OfNode(a + b, i) == OfNode(a, i) + OfNode(b, i)
  {
    if b == [] {
      assert a + b == a;
    } else {
      OfNodeAppend(a, b[..|b| - 1], i);
      assert (a + b)[..|a + b| - 1] == a + b[..|b| - 1];
    }
  }

  lemma {:induction false} OfNodeOne(x: Tagged, i: NodeId)
    ensures OfNode([x], i) == if x.nodeId == i then [x] else []
  {
    assert [x][..0] == [];
  }

  lemma {:induction false} OfNodeBound(s: seq<Tagged>, i: NodeId, x: Tagged)
    ensures (forall j :: 0 <= j < |s| ==> Compare(x.item, s[j].item) >= 0) ==>
      forall j :: 0 <= j < |OfNode(s, i)| ==> Compare(x.item, OfNode(s, i)[j].item) >= 0
    ensures (forall j :: 0 <= j < |s| ==> Compare(x.item, s[j].item) < 0) ==>
      forall j :: 0 <= j < |OfNode(s, i)| ==> Compare(x.item, OfNode(s, i)[j].item) < 0
  {
    if s != [] { OfNodeBound(s[..|s| - 1], i, x); }
  }

  lemma OfNodeSplit(s: seq<Tagged>, k: nat, x: Tagged, i: NodeId)
    requires k <= |s|
    ensures OfNode(s, i) == OfNode(s[..k], i) + OfNode(s[k..], i)
    ensures OfNode(s[..k] + [x] + s[k..], i)
         == OfNode(s[..k], i) + (if x.nodeId == i then [x] else []) + OfNode(s[k..], i)
  {
    OfNodeAppend(s[..k] + [x], s[k..], i);
    OfNodeAppend(s[..k], [x], i);
    OfNodeOne(x, i);
    OfNodeAppend(s[..k], s[k..], i);
    assert s == s[..k] + s[k..];
  }

  lemma InsertBetween(a: seq<Tagged>, b: seq<Tagged>, x: Tagged)
    requires forall j :: 0 <= j < |a| ==> Compare(x.item, a[j].item) >= 0
    requires forall j :: 0 <= j < |b| ==> Compare(x.item, b[j].item) < 0
    ensures InsertStable(a + b, x) == a + [x] + b
  {
    InsertAt(a + b, x, |a|);
    assert (a + b)[..|a|] == a && (a + b)[|a|..] == b;
  }

  /** Inserting, then keeping one node's items, is keeping them and inserting. */
  lemma OfNodeInsert(s: seq<Tagged>, x: Tagged, i: NodeId)
    requires InOrder(s)
    ensures OfNode(InsertStable(s, x), i)
         == if x.nodeId == i then InsertStable(OfNode(s, i), x) else OfNode(s, i)
  {
    var k := InsertPlace(s, x);
    OfNodeSplit(s, k, x, i);
    if x.nodeId == i {
      OfNodeBound(s[..k], i, x);
      OfNodeBound(s[k..], i, x);
      InsertBetween(OfNode(s[..k], i), OfNode(s[k..], i), x);
    } else {
      assert OfNode(s[..k], i) + [] == OfNode(s[..k], i);
    }
  }

  lemma {:induction false} OfNodeSort(s: seq<Tagged>, i: NodeId)
    ensures OfNode(StableSort(s), i) == StableSort(OfNode(s, i))
  {
    if s != [] {
      var init, x := s[..|s| - 1], s[|s| - 1];
      OfNodeSort(init, i);
      SortInOrder(init);
      OfNodeInsert(StableSort(init), x, i);
      SortAppend(OfNode(init, i), x);
      assert OfNode(init, i) + [] == OfNode(init, i);
    }
  }

  lemma SortAppend(s: seq<Tagged>, x: Tagged)
    ensures StableSort(s + [x]) == InsertStable(StableSort(s), x)
  {
    assert (s + [x])[..|s|] == s;
  }

  lemma InsertLast(init: seq<Tagged>, x: Tagged)
    requires InOrder(init + [x])
    ensures InsertStable(init, x) == init + [x]
  {
    var s := init + [x];
    forall j | 0 <= j < |init| ensures Compare(x.item, init[j].item) >= 0 {
      assert Compare(s[j].item, s[|init|].item) <= 0;
    }
    InsertBetween(init, [], x);
    assert init + [] == init && init + [x] + [] == s;
  }

  lemma InOrderInit(s: seq<Tagged>)
    requires InOrder(s) && s != []
    ensures InOrder(s[..|s| - 1])
  {
    var init := s[..|s| - 1];
    forall i, j | 0 <= i < j < |init| ensures Compare(init[i].item, init[j].item) <= 0 {
      assert Compare(s[i].item, s[j].item) <= 0;
    }
  }

  lemma {:induction false} SortKeeps(s: seq<Tagged>)
    requires InOrder(s)
    ensures StableSort(s) == s
  {
    if s != [] {
      var init, x := s[..|s| - 1], s[|s| - 1];
      assert s == init + [x];
      InOrderInit(s);
      SortKeeps(init);
      InsertLast(init, x);
    }
  }

  lemma SortFixes(s: seq<Tagged>)
    ensures StableSort(s) == s <==> InOrder(s)
  {
    SortInOrder(s);
    if InOrder(s) { SortKeeps(s); }
  }

  lemma {:induction false} OfNodeItems(items: seq<Item>, n: NodeId, i: NodeId)
    ensures OfNode(TagItems(n, items), i) == if n == i then TagItems(n, items) else []
  {
    if items != [] {
      var t := TagItems(n, items);
      assert t[..|t| - 1] == TagItems(n, items[..|items| - 1]);
      OfNodeItems(items[..|items| - 1], n, i);
    }
  }

  /** A node's share of the pages, one page at a time. */
  lemma OfNodeLast(pages: seq<Page>, i: NodeId)
    requires pages != []
    ensures var init, last := pages[..|pages| - 1], pages[|pages| - 1];
            OfNode(TagAll(pages), i) ==
              OfNode(TagAll(init), i) + if last.nodeId == i then TagItems(last.nodeId, last.items) else []
  {
    var init, last := pages[..|pages| - 1], pages[|pages| - 1];
    OfNodeAppend(TagAll(init), TagItems(last.nodeId, last.items), i);
    OfNodeItems(last.items, last.nodeId, i);
  }

  lemma {:induction false} OfNodePages(pages: seq<Page>, p: nat)
    requires DistinctNodes(pages) && p < |pages|
    ensures OfNode(TagAll(pages), pages[p].nodeId) == TagItems(pages[p].nodeId, pages[p].items)
  {
    var init, last := pages[..|pages| - 1], pages[|pages| - 1];
    OfNodeLast(pages, pages[p].nodeId);
    if p < |init| {
      assert pages[p].nodeId != last.nodeId;
      OfNodePages(init, p);
    } else {
      OfNodeNone(init, last.nodeId);
    }
  }

  lemma {:induction false} OfNodeNone(pages: seq<Page>, i: NodeId)
    requires forall q :: 0 <= q < |pages| ==> pages[q].nodeId != i
    ensures OfNode(TagAll(pages), i) == []
  {
    if pages != [] {
      OfNodeLast(pages, i);
      OfNodeNone(pages[..|pages| - 1], i);
    }
  }

  /** What is taken of page p, at any limit, is the front of that page put in order. */
  lemma TakenOf(pages: seq<Page>, limit: nat, p: nat)
    requires DistinctNodes(pages) && p < |pages|
    ensures OfNode(Taken(pages, limit), pages[p].nodeId)
         <= StableSort(TagItems(pages[p].nodeId, pages[p].items))
    ensures limit >= |TagAll(pages)| ==>
      OfNode(Taken(pages, limit), pages[p].nodeId) == StableSort(TagItems(pages[p].nodeId, pages[p].items))
  {
    var s, i := StableSort(TagAll(pages)), pages[p].nodeId;
    var n := Min(limit, |s|);
    OfNodePages(pages, p);
    OfNodeSort(TagAll(pages), i);
    OfNodeAppend(s[..n], s[n..], i);
    assert s == s[..n] + s[n..];
  }

  /**
   The merge takes a prefix of every page, whatever the limit, exactly when every page
   comes in the comparator's order.
   */
  lemma PrefixesIffInOrder(pages: seq<Page>)
    requires DistinctNodes(pages)
    ensures (forall limit: nat :: TakesPrefixes(pages, limit)) <==>
      forall p :: 0 <= p < |pages| ==> InOrder(TagItems(pages[p].nodeId, pages[p].items))
  {
    if forall limit: nat :: TakesPrefixes(pages, limit) {
      var all := |TagAll(pages)|;
      assert TakesPrefixes(pages, all);
      forall p | 0 <= p < |pages| ensures InOrder(TagItems(pages[p].nodeId, pages[p].items)) {
        TakenOf(pages, all, p);
        SortFixes(TagItems(pages[p].nodeId, pages[p].items));
      }
    }
    if forall p :: 0 <= p < |pages| ==> InOrder(TagItems(pages[p].nodeId, pages[p].items)) {
      forall limit: nat ensures TakesPrefixes(pages, limit) {
        forall p | 0 <= p < |pages|
          ensures OfNode(Taken(pages, limit), pages[p].nodeId) <= TagItems(pages[p].nodeId, pages[p].items)
        {
          TakenOf(pages, limit, p);
          SortFixes(TagItems(pages[p].nodeId, pages[p].items));
        }
      }
    }
  }

  /**
   A tie in the other order loses a sandbox. Node 0 lists sandboxes 2 and 1, born in one
   instant; node 1 lists a newer one. Two pages of two deliver sandbox 1 twice and sandbox
   2 never, and the second page says the list is done.
   */
  lemma TieLosesASandbox()
    ensures var first := Merge([Page(0, [Item(10, 2), Item(10, 1)], false), Page(1, [Item(20, 3)], false)], map[], 2);
            && first.items == [Item(20, 3), Item(10, 1)]
            && first.next == Some(map[0 := 1, 1 := 1])
    ensures Merge([Page(0, [Item(10, 2), Item(10, 1)][1..], false), Page(1, [], false)], map[0 := 1, 1 := 1], 2)
         == MergedPage([Item(10, 1)], None)
  {
    FirstPage();
    SecondPage();
  }

  lemma FirstPage()
    ensures Merge([Page(0, [Item(10, 2), Item(10, 1)], false), Page(1, [Item(20, 3)], false)], map[], 2)
         == MergedPage([Item(20, 3), Item(10, 1)], Some(map[0 := 1, 1 := 1]))
  {
    var a, b, c := Tagged(0, Item(10, 2)), Tagged(0, Item(10, 1)), Tagged(1, Item(20, 3));
    var page0, page1 := Page(0, [Item(10, 2), Item(10, 1)], false), Page(1, [Item(20, 3)], false);
    var pages, taken := [page0, page1], [c, b];
    assert Taken(pages, 2) == taken by {
      assert TagAll(pages) == [a, b, c] by {
        assert pages[..1] == [page0] && [page0][..0] == [];
        assert TagItems(0, page0.items) == [a, b] && TagItems(1, page1.items) == [c];
        assert TagAll([page0]) == [a, b];
      }
      SortThree(a, b, c);
      assert [c, b, a][..2] == [c, b];
    }
    assert Count(taken, 0) == 1 && Count(taken, 1) == 1 by {
      assert taken[..1] == [c] && [c][..0] == [];
    }
    assert Advanced(pages, map[], taken) == map[0 := 1, 1 := 1] by {
      assert pages[..1] == [page0] && [page0][..0] == [];
      assert Advanced([page0], map[], taken) == map[0 := 1];
    }
    assert page0 in pages && Unfinished(page0, 1);
    assert Untag(taken) == [Item(20, 3), Item(10, 1)];
  }

  lemma SortThree(a: Tagged, b: Tagged, c: Tagged)
    requires Compare(b.item, a.item) < 0 && Compare(c.item, b.item) < 0
    ensures StableSort([a, b, c]) == [c, b, a]
  {
    SortAppend([], a);
    SortAppend([a], b);
    SortAppend([a, b], c);
    assert [] + [a] == [a] && [a] + [b] == [a, b] && [a, b] + [c] == [a, b, c];
  }

  lemma SecondTaken()
    ensures Taken([Page(0, [Item(10, 1)], false), Page(1, [], false)], 2) == [Tagged(0, Item(10, 1))]
  {
    var b := Tagged(0, Item(10, 1));
    var page0, page1 := Page(0, [Item(10, 1)], false), Page(1, [], false);
    var pages := [page0, page1];
    assert pages[..1] == [page0] && [page0][..0] == [];
    assert TagItems(0, page0.items) == [b];
    assert TagAll([page0]) == [b];
    assert TagAll(pages) == [b] && [b][..0] == [];
    assert StableSort([b]) == [b];
  }

  lemma SecondPage()
    ensures Merge([Page(0, [Item(10, 2), Item(10, 1)][1..], false), Page(1, [], false)], map[0 := 1, 1 := 1], 2)
         == MergedPage([Item(10, 1)], None)
  {
    var b := Tagged(0, Item(10, 1));
    assert [Item(10, 2), Item(10, 1)][1..] == [Item(10, 1)];
    SecondTaken();
    assert [b][..0] == [];
    assert Count([b], 0) == 1 && Count([b], 1) == 0;
    assert Untag([b]) == [Item(10, 1)];
  }
}
