/**
 Distributed paging: what a client that follows the cursor across the fleet receives
 (packages/gateway/src/cursor.ts, packages/gateway/src/routes/e2b.ts).

 `lists[i]` is node i's own list. Each node answers its next `limit` items from its
 offset, and the gateway merges the answers.
 */
module Paging {
  import opened Cursor

  type Lists = seq<seq<Item>>

  /** Every node's list is in the comparator's order, and no item is listed twice on one node. */
  ghost predicate Ordered(lists: Lists) {
    forall i, j, k :: 0 <= i < |lists| && 0 <= j < k < |lists[i]| ==>
      Compare(lists[i][j], lists[i][k]) < 0
  }

  /** What node i answers from `offset`: its next `limit` items, and whether there are more. */
  function NodePage(lists: Lists, i: nat, offset: nat, limit: nat): Page
    requires i < |lists| && offset <= |lists[i]|
  {
    var end := Min(offset + limit, |lists[i]|);
    Page(i, lists[i][offset..end], offset + limit < |lists[i]|)
  }

  predicate Within(lists: Lists, offsets: Offsets) {
    forall i :: 0 <= i < |lists| ==> OffsetOf(offsets, i) <= |lists[i]|
  }

  function Answers(lists: Lists, offsets: Offsets, limit: nat): (r: seq<Page>)
    requires Within(lists, offsets)
    ensures |r| == |lists|
  {
    seq(|lists|, i requires 0 <= i < |lists| => NodePage(lists, i, OffsetOf(offsets, i), limit))
  }

  /** The fleet's whole list, merged: what a single node holding everything would answer from. */
  function Everything(lists: Lists): seq<Tagged> {
    StableSort(TagAll(seq(|lists|, i requires 0 <= i < |lists| => Page(i, lists[i], false))))
  }

  // ---------------------------------------------------------------- a strict order

  /** The order a stable sort of the members' pages leaves: the comparator, ties by member. */
  ghost predicate Before(a: Tagged, b: Tagged) {
    Compare(a.item, b.item) < 0 || (Compare(a.item, b.item) == 0 && a.nodeId < b.nodeId)
  }

  ghost predicate Strict(s: seq<Tagged>) {
    forall i, j :: 0 <= i < j < |s| ==> Before(s[i], s[j])
  }

  ghost predicate TiesByNode(s: seq<Tagged>) {
    forall i, j :: 0 <= i < j < |s| && Compare(s[i].item, s[j].item) == 0 ==> s[i].nodeId < s[j].nodeId
  }

  /** Sorting elements that arrive in member order, each member's own in order, leaves no ties. */
  lemma {:induction false} SortStrict(s: seq<Tagged>)
    requires TiesByNode(s)
    ensures Strict(StableSort(s))
  {
    if s != [] {
      var init, x := s[..|s| - 1], s[|s| - 1];
      SortStrict(init);
      SortInOrder(init);
      var t := StableSort(init);
      forall j | 0 <= j < |t| ensures Compare(t[j].item, x.item) == 0 ==> t[j].nodeId < x.nodeId {
        assert t[j] in multiset(init);
      }
      var k := InsertPlace(t, x);
      forall i, j | 0 <= i < j < |s| ensures Before(StableSort(s)[i], StableSort(s)[j]) {
        InsertedPair(t, x, k, i, j);
      }
    }
  }

  lemma InsertedPair(t: seq<Tagged>, x: Tagged, k: nat, i: nat, j: nat)
    requires Strict(t) && k <= |t| && i < j <= |t|
    requires forall m :: 0 <= m < k ==> Compare(x.item, t[m].item) >= 0
    requires forall m :: k <= m < |t| ==> Compare(x.item, t[m].item) < 0
    requires forall m :: 0 <= m < |t| ==> Compare(t[m].item, x.item) == 0 ==> t[m].nodeId < x.nodeId
    ensures Before((t[..k] + [x] + t[k..])[i], (t[..k] + [x] + t[k..])[j])
  {
    var r := t[..k] + [x] + t[k..];
    assert r[i] == if i < k then t[i] else if i == k then x else t[i - 1];
    assert r[j] == if j < k then t[j] else if j == k then x else t[j - 1];
  }

  /** Tagging in page order: who is in the result, and how equal elements lie. */
  lemma {:induction false} TagAllMembers(pages: seq<Page>)
    requires forall p :: 0 <= p < |pages| ==> pages[p].nodeId == p
    ensures forall t :: t in TagAll(pages) <==> t.nodeId < |pages| && t.item in pages[t.nodeId].items
  {
    if pages != [] {
      var init, last := pages[..|pages| - 1], pages[|pages| - 1];
      TagAllMembers(init);
      var tail := TagItems(last.nodeId, last.items);
      forall t ensures t in TagAll(pages) <==> t.nodeId < |pages| && t.item in pages[t.nodeId].items {
        assert t in TagAll(pages) <==> t in TagAll(init) || t in tail;
        if t.nodeId == last.nodeId && t.item in last.items {
          var m :| 0 <= m < |last.items| && last.items[m] == t.item;
          assert tail[m] == t;
        }
      }
    }
  }

  lemma {:induction false} TagAllTies(pages: seq<Page>)
    requires forall p :: 0 <= p < |pages| ==> pages[p].nodeId == p
    requires forall p, j, k :: 0 <= p < |pages| && 0 <= j < k < |pages[p].items| ==>
      Compare(pages[p].items[j], pages[p].items[k]) < 0
    ensures TiesByNode(TagAll(pages))
  {
    if pages != [] {
      var init, last := pages[..|pages| - 1], pages[|pages| - 1];
      TagAllTies(init);
      TagAllMembers(init);
      var head, tail := TagAll(init), TagItems(last.nodeId, last.items);
      var all: seq<Tagged> := head + tail;
      forall i, j | 0 <= i < j < |all| && Compare(all[i].item, all[j].item) == 0
        ensures all[i].nodeId < all[j].nodeId
      {
        if j >= |head| {
          if i < |head| { assert head[i] in head; }
        }
      }
    }
  }

  /** A strictly sorted rearrangement of the answers: who is in it. */
  lemma SortedAnswers(pages: seq<Page>)
    requires forall p :: 0 <= p < |pages| ==> pages[p].nodeId == p
    requires forall p, j, k :: 0 <= p < |pages| && 0 <= j < k < |pages[p].items| ==>
      Compare(pages[p].items[j], pages[p].items[k]) < 0
    ensures Strict(StableSort(TagAll(pages)))
    ensures forall t :: t in StableSort(TagAll(pages)) <==> t.nodeId < |pages| && t.item in pages[t.nodeId].items
  {
    TagAllMembers(pages);
    TagAllTies(pages);
    SortStrict(TagAll(pages));
    SortInOrder(TagAll(pages));
    forall t ensures t in StableSort(TagAll(pages)) <==> t in TagAll(pages) {
      assert t in multiset(StableSort(TagAll(pages))) <==> t in multiset(TagAll(pages));
    }
  }

  lemma EverythingSorted(lists: Lists)
    requires Ordered(lists)
    ensures Strict(Everything(lists))
    ensures forall t :: t in Everything(lists) <==> t.nodeId < |lists| && t.item in lists[t.nodeId]
  {
    SortedAnswers(seq(|lists|, i requires 0 <= i < |lists| => Page(i, lists[i], false)));
  }

  /** In a strictly sorted list an element is met once, and earlier elements are met earlier. */
  lemma StrictMeets(s: seq<Tagged>, p: nat, q: nat)
    requires Strict(s) && p < |s| && q < |s|
    ensures Before(s[p], s[q]) ==> p < q
    ensures s[p] == s[q] ==> p == q
  {
    if q < p { assert Before(s[q], s[p]); }
    if p < q { assert Before(s[p], s[q]); }
  }

  lemma LaterBefore(s: seq<Tagged>, p: nat, q: nat)
    requires Strict(s) && p <= q < |s|
    ensures s[p] == s[q] || Before(s[p], s[q])
  {
  }

  lemma NotMetYet(s: seq<Tagged>, m: nat)
    requires Strict(s) && m < |s|
    ensures s[m] !in s[..m]
  {
    forall p | 0 <= p < m ensures s[..m][p] != s[m] {
      assert Before(s[p], s[m]);
    }
  }

  lemma ListedOnce(lists: Lists, i: nat, j: nat, d: nat)
    requires Ordered(lists) && i < |lists| && j < |lists[i]| && d < |lists[i]|
    ensures lists[i][j] == lists[i][d] ==> j == d
  {
    assert j < d ==> Compare(lists[i][j], lists[i][d]) < 0;
    assert d < j ==> Compare(lists[i][d], lists[i][j]) < 0;
  }

  lemma Belongs(lists: Lists, m: nat)
    requires Ordered(lists) && m < |Everything(lists)|
    ensures var t := Everything(lists)[m]; t.nodeId < |lists| && t.item in lists[t.nodeId]
  {
    EverythingSorted(lists);
    assert Everything(lists)[m] in Everything(lists);
  }

  /**
   Every prefix of the merged list holds a prefix of every node's list, and the count of
   a node's items in it is how long that prefix is.
   */
  lemma {:induction false} PrefixesOfLists(lists: Lists, m: nat, i: nat, j: nat)
    requires Ordered(lists) && m <= |Everything(lists)| && i < |lists| && j < |lists[i]|
    ensures Tagged(i, lists[i][j]) in Everything(lists)[..m] <==> j < Count(Everything(lists)[..m], i)
    decreases m, 1
  {
    var all := Everything(lists);
    if m > 0 {
      var t := all[m - 1];
      assert all[..m][..m - 1] == all[..m - 1] && all[..m] == all[..m - 1] + [t];
      PrefixesOfLists(lists, m - 1, i, j);
      Belongs(lists, m - 1);
      if t.nodeId == i {
        var d :| 0 <= d < |lists[i]| && lists[i][d] == t.item;
        NextInLine(lists, m - 1, i, d);
        ListedOnce(lists, i, j, d);
      }
    }
  }

  /** The element at position m is the first of its node's items not met before. */
  lemma {:induction false} NextInLine(lists: Lists, m: nat, i: nat, d: nat)
    requires Ordered(lists) && m < |Everything(lists)| && i < |lists| && d < |lists[i]|
    requires Everything(lists)[m] == Tagged(i, lists[i][d])
    ensures d == Count(Everything(lists)[..m], i)
    decreases m, 2
  {
    var all := Everything(lists);
    EverythingSorted(lists);
    PrefixesOfLists(lists, m, i, d);
    NotMetYet(all, m);
    if d > 0 {
      PrefixesOfLists(lists, m, i, d - 1);
      assert Compare(lists[i][d - 1], lists[i][d]) < 0;
      assert Tagged(i, lists[i][d - 1]) in all;
      var p :| 0 <= p < |all| && all[p] == Tagged(i, lists[i][d - 1]);
      StrictMeets(all, p, m);
      assert all[..m][p] == Tagged(i, lists[i][d - 1]);
    }
  }

  lemma {:induction false} CountAdds(a: seq<Tagged>, b: seq<Tagged>, i: NodeId)
    ensures Count(a + b, i) == Count(a, i) + Count(b, i)
  {
    if b == [] {
      assert a + b == a;
    } else {
      CountAdds(a, b[..|b| - 1], i);
      assert (a + b)[..|a + b| - 1] == a + b[..|b| - 1];
    }
  }

  lemma {:induction false} CountWithin(lists: Lists, m: nat, i: nat)
    requires Ordered(lists) && m <= |Everything(lists)| && i < |lists|
    ensures Count(Everything(lists)[..m], i) <= |lists[i]|
  {
    var all := Everything(lists);
    if m > 0 {
      CountWithin(lists, m - 1, i);
      assert all[..m][..m - 1] == all[..m - 1];
      EverythingSorted(lists);
      var t := all[m - 1];
      assert t in all;
      if t.nodeId == i {
        var d :| 0 <= d < |lists[i]| && lists[i][d] == t.item;
        NextInLine(lists, m - 1, i, d);
      }
    }
  }

  // ---------------------------------------------------------------- one page

  lemma InOneHalf(s: seq<Tagged>, t: nat, x: Tagged)
    requires t <= |s| && x in s && x !in s[..t]
    ensures x in s[t..]
  {
    assert s == s[..t] + s[t..];
  }

  /** An element not met in the first m is at m, or comes after what is. */
  lemma MetLater(s: seq<Tagged>, m: nat, x: Tagged)
    requires Strict(s) && m <= |s| && x in s && x !in s[..m]
    ensures m < |s| && (s[m] == x || Before(s[m], x))
  {
    InOneHalf(s, m, x);
    var p :| 0 <= p < |s[m..]| && s[m..][p] == x;
    LaterBefore(s, m, m + p);
  }

  lemma SameNext(s: seq<Tagged>, r: seq<Tagged>, m: nat)
    requires Strict(s) && Strict(r) && m < |r| && m <= |s| && s[..m] == r[..m] && r[m] in s
    requires m < |s| ==> s[m] in r
    ensures m < |s| && s[m] == r[m]
  {
    NotMetYet(r, m);
    MetLater(s, m, r[m]);
    NotMetYet(s, m);
    MetLater(r, m, s[m]);
  }

  /** Two strictly sorted lists agree on the elements they share from the front. */
  lemma {:induction false} SamePrefix(s: seq<Tagged>, r: seq<Tagged>, n: nat)
    requires Strict(s) && Strict(r) && n <= |r|
    requires forall t :: t in s ==> t in r
    requires forall p :: 0 <= p < n ==> r[p] in s
    ensures n <= |s| && s[..n] == r[..n]
  {
    if n > 0 {
      SamePrefix(s, r, n - 1);
      SameNext(s, r, n - 1);
      assert s[..n] == s[..n - 1] + [s[n - 1]] && r[..n] == r[..n - 1] + [r[n - 1]];
    }
  }

  lemma NoLonger(s: seq<Tagged>, r: seq<Tagged>)
    requires Strict(s) && |r| <= |s| && s[..|r|] == r
    requires forall t :: t in s ==> t in r
    ensures s == r
  {
    if |s| > |r| {
      NotMetYet(s, |r|);
    }
    assert s[..|r|] == s;
  }

  /** The cursor stands where `t` items of the merged list have been delivered. */
  ghost predicate At(lists: Lists, offsets: Offsets, t: nat) {
    t <= |Everything(lists)| &&
    forall i :: 0 <= i < |lists| ==> OffsetOf(offsets, i) == Count(Everything(lists)[..t], i)
  }

  lemma AtWithin(lists: Lists, offsets: Offsets, t: nat)
    requires Ordered(lists) && At(lists, offsets, t)
    ensures Within(lists, offsets)
  {
    forall i | 0 <= i < |lists| ensures OffsetOf(offsets, i) <= |lists[i]| {
      CountWithin(lists, t, i);
    }
  }

  lemma Listed(lists: Lists, x: Tagged)
    requires Ordered(lists)
    ensures x in Everything(lists) <==> x.nodeId < |lists| && x.item in lists[x.nodeId]
  {
    EverythingSorted(lists);
  }

  lemma Answered(lists: Lists, offsets: Offsets, limit: nat, x: Tagged)
    requires Ordered(lists) && Within(lists, offsets)
    ensures x in StableSort(TagAll(Answers(lists, offsets, limit))) <==>
      x.nodeId < |lists| && x.item in Answers(lists, offsets, limit)[x.nodeId].items
  {
    SortedAnswers(Answers(lists, offsets, limit));
  }

  lemma AnswersStrict(lists: Lists, offsets: Offsets, limit: nat)
    requires Ordered(lists) && Within(lists, offsets)
    ensures Strict(StableSort(TagAll(Answers(lists, offsets, limit))))
  {
    SortedAnswers(Answers(lists, offsets, limit));
  }

  /** Which of its items a node answers. */
  lemma AnsweredFrom(lists: Lists, offsets: Offsets, limit: nat, i: nat, item: Item) returns (d: nat)
    requires Within(lists, offsets) && i < |lists|
    requires item in Answers(lists, offsets, limit)[i].items
    ensures OffsetOf(offsets, i) <= d < |lists[i]| && lists[i][d] == item
  {
    var items := Answers(lists, offsets, limit)[i].items;
    var k :| 0 <= k < |items| && items[k] == item;
    d := OffsetOf(offsets, i) + k;
  }

  lemma AnswersItem(lists: Lists, offsets: Offsets, limit: nat, i: nat, d: nat)
    requires Within(lists, offsets) && i < |lists| && d < |lists[i]|
    requires OffsetOf(offsets, i) <= d < OffsetOf(offsets, i) + limit
    ensures lists[i][d] in Answers(lists, offsets, limit)[i].items
  {
    assert Answers(lists, offsets, limit)[i].items[d - OffsetOf(offsets, i)] == lists[i][d];
  }

  /** What the nodes answer is still to be delivered. */
  lemma AnsweredIsAhead(lists: Lists, offsets: Offsets, t: nat, limit: nat, x: Tagged)
    requires Ordered(lists) && At(lists, offsets, t) && Within(lists, offsets)
    requires x in StableSort(TagAll(Answers(lists, offsets, limit)))
    ensures x in Everything(lists)[t..]
  {
    Answered(lists, offsets, limit, x);
    var d := AnsweredFrom(lists, offsets, limit, x.nodeId, x.item);
    PrefixesOfLists(lists, t, x.nodeId, d);
    Listed(lists, x);
    InOneHalf(Everything(lists), t, x);
  }

  /** How far the item at position t + p stands from its node's offset. */
  lemma AheadBy(lists: Lists, t: nat, p: nat, i: nat, d: nat)
    requires Ordered(lists) && t + p < |Everything(lists)| && i < |lists| && d < |lists[i]|
    requires Everything(lists)[t + p] == Tagged(i, lists[i][d])
    ensures Count(Everything(lists)[..t], i) <= d <= Count(Everything(lists)[..t], i) + p
  {
    var all := Everything(lists);
    NextInLine(lists, t + p, i, d);
    assert all[..t + p] == all[..t] + all[t..t + p];
    CountAdds(all[..t], all[t..t + p], i);
  }

  /** The next `limit` items to be delivered have all been answered. */
  lemma AheadIsAnswered(lists: Lists, offsets: Offsets, t: nat, limit: nat, p: nat)
    requires Ordered(lists) && At(lists, offsets, t) && Within(lists, offsets)
    requires p < limit && t + p < |Everything(lists)|
    ensures Everything(lists)[t + p] in StableSort(TagAll(Answers(lists, offsets, limit)))
  {
    var x := Everything(lists)[t + p];
    Listed(lists, x);
    var d :| 0 <= d < |lists[x.nodeId]| && lists[x.nodeId][d] == x.item;
    AheadBy(lists, t, p, x.nodeId, d);
    AnswersItem(lists, offsets, limit, x.nodeId, d);
    Answered(lists, offsets, limit, x);
  }

  /** A page is the next `limit` items of the merged list. */
  lemma PageIsSlice(lists: Lists, offsets: Offsets, t: nat, limit: nat)
    requires Ordered(lists) && At(lists, offsets, t) && Within(lists, offsets)
    ensures Taken(Answers(lists, offsets, limit), limit)
         == Everything(lists)[t..Min(t + limit, |Everything(lists)|)]
  {
    var all := Everything(lists);
    var s, r := StableSort(TagAll(Answers(lists, offsets, limit))), all[t..];
    var n := Min(limit, |r|);
    AnswersStrict(lists, offsets, limit);
    assert Strict(r) by { EverythingSorted(lists); }
    forall x | x in s ensures x in r { AnsweredIsAhead(lists, offsets, t, limit, x); }
    forall p | 0 <= p < n ensures r[p] in s { AheadIsAnswered(lists, offsets, t, limit, p); }
    SamePrefix(s, r, n);
    if n == |r| { NoLonger(s, r); }
    assert r[..n] == all[t..t + n];
  }

  lemma {:induction false} AdvancedBy(pages: seq<Page>, offsets: Offsets, taken: seq<Tagged>, i: nat)
    requires forall p :: 0 <= p < |pages| ==> pages[p].nodeId == p
    requires i < |pages|
    ensures OffsetOf(Advanced(pages, offsets, taken), i) == OffsetOf(offsets, i) + Count(taken, i)
  {
    if i < |pages| - 1 {
      AdvancedBy(pages[..|pages| - 1], offsets, taken, i);
    }
  }

  /** The cursor after a page stands past what the page delivered. */
  lemma AdvancedAt(lists: Lists, offsets: Offsets, t: nat, u: nat, pages: seq<Page>)
    requires At(lists, offsets, t) && t <= u <= |Everything(lists)| && |pages| == |lists|
    requires forall p :: 0 <= p < |pages| ==> pages[p].nodeId == p
    ensures At(lists, Advanced(pages, offsets, Everything(lists)[t..u]), u)
  {
    var all := Everything(lists);
    forall i | 0 <= i < |lists|
      ensures OffsetOf(Advanced(pages, offsets, all[t..u]), i) == Count(all[..u], i)
    {
      AdvancedBy(pages, offsets, all[t..u], i);
      CountAdds(all[..t], all[t..u], i);
      assert all[..u] == all[..t] + all[t..u];
    }
  }

  /** A node has something left exactly while the cursor is short of its list's end. */
  lemma UnfinishedMeans(lists: Lists, offsets: Offsets, t: nat, u: nat, limit: nat, i: nat)
    requires Ordered(lists) && At(lists, offsets, t) && Within(lists, offsets)
    requires t <= u <= |Everything(lists)| && u <= t + limit && i < |lists|
    ensures Unfinished(Answers(lists, offsets, limit)[i], Count(Everything(lists)[t..u], i))
       <==> Count(Everything(lists)[..u], i) < |lists[i]|
  {
    var all := Everything(lists);
    CountAdds(all[..t], all[t..u], i);
    assert all[..u] == all[..t] + all[t..u];
    CountWithin(lists, u, i);
  }

  /** Everything is delivered exactly when every node's list is. */
  lemma AllDelivered(lists: Lists, u: nat)
    requires Ordered(lists) && u <= |Everything(lists)|
    ensures u == |Everything(lists)| <==>
      forall i :: 0 <= i < |lists| ==> Count(Everything(lists)[..u], i) == |lists[i]|
  {
    var all := Everything(lists);
    if u == |all| {
      assert all[..u] == all;
      forall i | 0 <= i < |lists| ensures Count(all[..u], i) == |lists[i]| {
        CountWithin(lists, u, i);
        if Count(all, i) < |lists[i]| {
          PrefixesOfLists(lists, u, i, Count(all, i));
          Listed(lists, Tagged(i, lists[i][Count(all, i)]));
        }
      }
    } else {
      var x := all[u];
      Listed(lists, x);
      var d :| 0 <= d < |lists[x.nodeId]| && lists[x.nodeId][d] == x.item;
      NextInLine(lists, u, x.nodeId, d);
    }
  }

  /**
   One page. From a cursor that stands at `t`, the gateway answers the next `limit` items
   of the merged list, and either the cursor that stands past them or null; null exactly
   when nothing is left.
   */
  lemma PageStep(lists: Lists, offsets: Offsets, t: nat, limit: nat)
    requires Ordered(lists) && At(lists, offsets, t) && Within(lists, offsets)
    ensures var all := Everything(lists);
            var u := Min(t + limit, |all|);
            var page := Merge(Answers(lists, offsets, limit), offsets, limit);
            && page.items == Untag(all[t..u])
            && (page.next.None? <==> u == |all|)
            && (page.next.Some? ==> At(lists, page.next.value, u))
  {
    var all := Everything(lists);
    var u := Min(t + limit, |all|);
    var pages := Answers(lists, offsets, limit);
    PageIsSlice(lists, offsets, t, limit);
    AdvancedAt(lists, offsets, t, u, pages);
    forall i | 0 <= i < |lists|
      ensures Unfinished(pages[i], Count(all[t..u], i)) <==> Count(all[..u], i) < |lists[i]|
    {
      UnfinishedMeans(lists, offsets, t, u, limit, i);
      CountWithin(lists, u, i);
    }
    AllDelivered(lists, u);
    if u == |all| {
      forall p | p in pages ensures !Unfinished(p, Count(all[t..u], p.nodeId)) {
        var i :| 0 <= i < |pages| && pages[i] == p;
        assert p.nodeId == i;
      }
    } else {
      var i :| 0 <= i < |lists| && Count(all[..u], i) != |lists[i]|;
      CountWithin(lists, u, i);
      assert pages[i].nodeId == i && pages[i] in pages;
    }
  }

  // ---------------------------------------------------------------- the whole list, page by page

  /** The pages a client receives that hands back every cursor until there is none. */
  ghost function Follow(lists: Lists, offsets: Offsets, t: nat, limit: nat): seq<seq<Item>>
    requires Ordered(lists) && At(lists, offsets, t) && limit > 0
    decreases |Everything(lists)| - t
  {
    AtWithin(lists, offsets, t);
    PageStep(lists, offsets, t, limit);
    var page := Merge(Answers(lists, offsets, limit), offsets, limit);
    [page.items] + match page.next
                   case None => []
                   case Some(next) => Follow(lists, next, Min(t + limit, |Everything(lists)|), limit)
  }

  /** What simple paging over one list gives: `limit` items at a time, the last page short. */
  function Slices(s: seq<Item>, limit: nat): (r: seq<seq<Item>>)
    requires limit > 0
    ensures |r| > 0
  {
    if |s| <= limit then [s] else [s[..limit]] + Slices(s[limit..], limit)
  }

  function Flatten(pages: seq<seq<Item>>): seq<Item> {
    if pages == [] then [] else pages[0] + Flatten(pages[1..])
  }

  /** Simple paging: page k is slice k, and no page is empty but an empty list's one. */
  lemma {:induction false} SliceAt(s: seq<Item>, limit: nat, k: nat)
    requires limit > 0 && k < |Slices(s, limit)|
    ensures 0 <= k * limit <= |s| && Slices(s, limit)[k] == s[k * limit..Min(k * limit + limit, |s|)]
    ensures s != [] ==> k * limit < |s|
  {
    if |s| > limit && k > 0 {
      SliceAt(s[limit..], limit, k - 1);
      assert k * limit == (k - 1) * limit + limit;
      var at := (k - 1) * limit;
      assert s[limit..][at..Min(at + limit, |s| - limit)] == s[at + limit..Min(at + limit + limit, |s|)];
    }
  }

  lemma {:induction false} SlicesCover(s: seq<Item>, limit: nat)
    requires limit > 0
    ensures Flatten(Slices(s, limit)) == s
  {
    if |s| > limit {
      SlicesCover(s[limit..], limit);
      assert Slices(s, limit)[1..] == Slices(s[limit..], limit);
      assert s[..limit] + s[limit..] == s;
    } else {
      assert Slices(s, limit)[1..] == [];
    }
  }

  lemma SlicesStep(s: seq<Tagged>, limit: nat)
    requires limit > 0
    ensures |s| <= limit ==> Slices(Untag(s), limit) == [Untag(s)]
    ensures |s| > limit ==>
      Slices(Untag(s), limit) == [Untag(s[..limit])] + Slices(Untag(s[limit..]), limit)
  {
    if |s| > limit {
      assert Untag(s)[..limit] == Untag(s[..limit]);
      assert Untag(s)[limit..] == Untag(s[limit..]);
    }
  }

  lemma LastPage(lists: Lists, offsets: Offsets, t: nat, limit: nat)
    requires Ordered(lists) && At(lists, offsets, t) && limit > 0
    requires |Everything(lists)| <= t + limit
    ensures Follow(lists, offsets, t, limit) == Slices(Untag(Everything(lists)[t..]), limit)
  {
    AtWithin(lists, offsets, t);
    PageStep(lists, offsets, t, limit);
    SlicesStep(Everything(lists)[t..], limit);
    assert Everything(lists)[t..] == Everything(lists)[t..|Everything(lists)|];
  }

  lemma NextPage(lists: Lists, offsets: Offsets, t: nat, limit: nat) returns (next: Offsets)
    requires Ordered(lists) && At(lists, offsets, t) && limit > 0
    requires t + limit < |Everything(lists)|
    ensures At(lists, next, t + limit)
    ensures Follow(lists, offsets, t, limit)
         == [Untag(Everything(lists)[t..t + limit])] + Follow(lists, next, t + limit, limit)
  {
    AtWithin(lists, offsets, t);
    PageStep(lists, offsets, t, limit);
    next := Merge(Answers(lists, offsets, limit), offsets, limit).next.value;
  }

  lemma {:induction false} FollowFrom(lists: Lists, offsets: Offsets, t: nat, limit: nat)
    requires Ordered(lists) && At(lists, offsets, t) && limit > 0
    ensures Follow(lists, offsets, t, limit) == Slices(Untag(Everything(lists)[t..]), limit)
    decreases |Everything(lists)| - t, 1
  {
    if |Everything(lists)| <= t + limit {
      LastPage(lists, offsets, t, limit);
    } else {
      FollowMore(lists, offsets, t, limit);
    }
  }

  lemma {:induction false} FollowMore(lists: Lists, offsets: Offsets, t: nat, limit: nat)
    requires Ordered(lists) && At(lists, offsets, t) && limit > 0
    requires t + limit < |Everything(lists)|
    ensures Follow(lists, offsets, t, limit) == Slices(Untag(Everything(lists)[t..]), limit)
    decreases |Everything(lists)| - t, 0
  {
    SliceOff(Everything(lists), t, limit);
    var next := NextPage(lists, offsets, t, limit);
    FollowFrom(lists, next, t + limit, limit);
  }

  lemma SliceOff(all: seq<Tagged>, t: nat, limit: nat)
    requires limit > 0 && t + limit < |all|
    ensures Slices(Untag(all[t..]), limit)
         == [Untag(all[t..t + limit])] + Slices(Untag(all[t + limit..]), limit)
  {
    SlicesStep(all[t..], limit);
    assert all[t..][..limit] == all[t..t + limit] && all[t..][limit..] == all[t + limit..];
  }

  /**
   Distributed paging is simple paging: a client that starts with no cursor and follows
   every one it is given receives, page for page, what paging the one merged list gives.
   */
  lemma PagingIsSlicing(lists: Lists, limit: nat)
    requires Ordered(lists) && limit > 0
    ensures At(lists, map[], 0)
    ensures Follow(lists, map[], 0, limit) == Slices(Untag(Everything(lists)), limit)
    ensures Flatten(Follow(lists, map[], 0, limit)) == Untag(Everything(lists))
  {
    FollowFrom(lists, map[], 0, limit);
    assert Everything(lists)[0..] == Everything(lists);
    SlicesCover(Untag(Everything(lists)), limit);
  }

  /** The merged list holds every node's every item, exactly as often as it is listed. */
  lemma EverythingOnce(lists: Lists)
    requires Ordered(lists)
    ensures forall x :: multiset(Everything(lists))[x]
                     == if x.nodeId < |lists| && x.item in lists[x.nodeId] then 1 else 0
  {
    var all := Everything(lists);
    EverythingSorted(lists);
    forall x ensures multiset(all)[x] == if x in all then 1 else 0 {
      StrictOnce(all, x);
    }
  }

  lemma {:induction false} StrictOnce(s: seq<Tagged>, x: Tagged)
    requires Strict(s)
    ensures multiset(s)[x] == if x in s then 1 else 0
  {
    if s != [] {
      var n := |s| - 1;
      StrictOnce(s[..n], x);
      NotMetYet(s, n);
      assert s == s[..n] + [s[n]];
    }
  }
}
