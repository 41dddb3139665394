/**
 The E2B list's pages drawn across nodes (packages/gateway/src/cursor.ts).

 A node is named by its position in the fleet's member order, which is the order the
 pages come in. A sandbox id is named by its rank under `localeCompare`, and `startedAt`
 by its place in time.
 */
module Cursor {
  import opened Wrappers

  type NodeId = nat
  type Offsets = map<NodeId, nat>

  datatype Item = Item(startedAt: int, id: nat)

  datatype Page = Page(nodeId: NodeId, items: seq<Item>, more: bool)

  datatype Tagged = Tagged(nodeId: NodeId, item: Item)

  datatype MergedPage = MergedPage(items: seq<Item>, next: Option<Offsets>)

  /** The comparator: newest first, ties by id. */
  function Compare(a: Item, b: Item): int {
    if a.startedAt == b.startedAt then a.id - b.id
    else if a.startedAt < b.startedAt then 1 else -1
  }

  /** A comes first when it is newer, or as new with the lesser id; only the same item ties. */
  lemma CompareMeans(a: Item, b: Item)
    ensures Compare(a, b) < 0 <==> a.startedAt > b.startedAt || (a.startedAt == b.startedAt && a.id < b.id)
    ensures Compare(a, b) == 0 <==> a == b
    ensures Compare(a, b) > 0 <==> Compare(b, a) < 0
  {
  }

  // ---------------------------------------------------------------- the stable sort

  function InsertStable(s: seq<Tagged>, x: Tagged): (r: seq<Tagged>)
    ensures |r| == |s| + 1
  {
    if s == [] then [x]
    else if Compare(x.item, s[0].item) < 0 then [x] + s
    else [s[0]] + InsertStable(s[1..], x)
  }

  function StableSort(s: seq<Tagged>): (r: seq<Tagged>)
    ensures |r| == |s|
  {
    if s == [] then [] else InsertStable(StableSort(s[..|s| - 1]), s[|s| - 1])
  }

  ghost predicate InOrder(s: seq<Tagged>) {
    forall i, j :: 0 <= i < j < |s| ==> Compare(s[i].item, s[j].item) <= 0
  }

  lemma TailSpliced(s: seq<Tagged>, x: Tagged, k: nat)
    requires 0 < k <= |s|
    ensures [s[0]] + (s[1..][..k - 1] + [x] + s[1..][k - 1..]) == s[..k] + [x] + s[k..]
  {
    assert s[1..][..k - 1] == s[1..k] && s[1..][k - 1..] == s[k..];
    assert s[..k] == [s[0]] + s[1..k];
  }

  /** Where an insertion lands in a list that is in order. */
  lemma {:induction false} InsertAt(s: seq<Tagged>, x: Tagged, k: nat)
    requires k <= |s|
    requires forall j :: 0 <= j < k ==> Compare(x.item, s[j].item) >= 0
    requires k < |s| ==> Compare(x.item, s[k].item) < 0
    ensures InsertStable(s, x) == s[..k] + [x] + s[k..]
  {
    if s == [] || k == 0 {
      assert s[..0] + [x] + s[0..] == [x] + s;
    } else {
      assert k < |s| ==> s[1..][k - 1] == s[k];
      InsertAt(s[1..], x, k - 1);
      TailSpliced(s, x, k);
      assert InsertStable(s, x) == [s[0]] + InsertStable(s[1..], x);
    }
  }

  /** An element is at most every later one as soon as it is at most the next one it meets. */
  lemma OrderStep(s: seq<Tagged>, x: Tagged, k: nat)
    requires InOrder(s) && 0 < k <= |s| && Compare(x.item, s[k - 1].item) >= 0
    ensures forall j :: 0 <= j < k ==> Compare(x.item, s[j].item) >= 0
  {
    forall j | 0 <= j < k ensures Compare(x.item, s[j].item) >= 0 {
      if j < k - 1 { assert Compare(s[j].item, s[k - 1].item) <= 0; }
    }
  }

  /** Every list in order has a place for a new element. */
  lemma {:induction false} InsertPlace(s: seq<Tagged>, x: Tagged) returns (k: nat)
    requires InOrder(s)
    ensures k <= |s| && InsertStable(s, x) == s[..k] + [x] + s[k..]
    ensures forall j :: 0 <= j < k ==> Compare(x.item, s[j].item) >= 0
    ensures forall j :: k <= j < |s| ==> Compare(x.item, s[j].item) < 0
  {
    k := |s|;
    while k > 0 && Compare(x.item, s[k - 1].item) < 0
      invariant k <= |s|
      invariant forall j :: k <= j < |s| ==> Compare(x.item, s[j].item) < 0
    {
      k := k - 1;
    }
    if k > 0 { OrderStep(s, x, k); }
    InsertAt(s, x, k);
  }

  lemma SplicedPair(s: seq<Tagged>, x: Tagged, k: nat, i: nat, j: nat)
    requires InOrder(s) && k <= |s| && i < j <= |s|
    requires forall m :: 0 <= m < k ==> Compare(x.item, s[m].item) >= 0
    requires forall m :: k <= m < |s| ==> Compare(x.item, s[m].item) < 0
    ensures Compare((s[..k] + [x] + s[k..])[i].item, (s[..k] + [x] + s[k..])[j].item) <= 0
  {
    var r := s[..k] + [x] + s[k..];
    assert r[i] == if i < k then s[i] else if i == k then x else s[i - 1];
    assert r[j] == if j < k then s[j] else if j == k then x else s[j - 1];
  }

  lemma InsertInOrder(s: seq<Tagged>, x: Tagged)
    requires InOrder(s)
    ensures InOrder(InsertStable(s, x))
    ensures multiset(InsertStable(s, x)) == multiset(s) + multiset{x}
  {
    var k := InsertPlace(s, x);
    forall i, j | 0 <= i < j <= |s|
      ensures Compare((s[..k] + [x] + s[k..])[i].item, (s[..k] + [x] + s[k..])[j].item) <= 0
    {
      SplicedPair(s, x, k, i, j);
    }
    assert s == s[..k] + s[k..];
  }

  lemma {:induction false} SortInOrder(s: seq<Tagged>)
    ensures InOrder(StableSort(s)) && multiset(StableSort(s)) == multiset(s)
  {
    if s != [] {
      SortInOrder(s[..|s| - 1]);
      InsertInOrder(StableSort(s[..|s| - 1]), s[|s| - 1]);
      assert s == s[..|s| - 1] + [s[|s| - 1]];
    }
  }

  // ---------------------------------------------------------------- mergePages

  function TagAll(pages: seq<Page>): seq<Tagged> {
    if pages == [] then []
    else TagAll(pages[..|pages| - 1]) + TagItems(pages[|pages| - 1].nodeId, pages[|pages| - 1].items)
  }

  function TagItems(nodeId: NodeId, items: seq<Item>): (r: seq<Tagged>)
    ensures |r| == |items|
  {
    seq(|items|, i requires 0 <= i < |items| => Tagged(nodeId, items[i]))
  }

  function Untag(s: seq<Tagged>): (r: seq<Item>)
    ensures |r| == |s|
  {
    seq(|s|, i requires 0 <= i < |s| => s[i].item)
  }

  /** How many of `s` came from `nodeId`. */
  function Count(s: seq<Tagged>, nodeId: NodeId): (n: nat)
    ensures n <= |s|
  {
    if s == [] then 0
    else Count(s[..|s| - 1], nodeId) + if s[|s| - 1].nodeId == nodeId then 1 else 0
  }

  function OffsetOf(offsets: Offsets, nodeId: NodeId): nat {
    if nodeId in offsets then offsets[nodeId] else 0
  }

  function Min(a: nat, b: nat): nat { if a < b then a else b }

  function Taken(pages: seq<Page>, limit: nat): (r: seq<Tagged>)
    ensures |r| <= limit
  {
    var s := StableSort(TagAll(pages));
    s[..Min(limit, |s|)]
  }

  /** A page has something left: items not taken, or more beyond what was sent. */
  predicate Unfinished(page: Page, took: nat) {
    took < |page.items| || (page.more && took == |page.items|)
  }

  function Advanced(pages: seq<Page>, offsets: Offsets, taken: seq<Tagged>): Offsets {
    if pages == [] then offsets
    else
      var last := pages[|pages| - 1].nodeId;
      Advanced(pages[..|pages| - 1], offsets, taken)[last := OffsetOf(offsets, last) + Count(taken, last)]
  }

  predicate AnyUnfinished(pages: seq<Page>, taken: seq<Tagged>) {
    exists p :: p in pages && Unfinished(p, Count(taken, p.nodeId))
  }

  function Merge(pages: seq<Page>, offsets: Offsets, limit: nat): MergedPage {
    var taken := Taken(pages, limit);
    MergedPage(Untag(taken),
               if AnyUnfinished(pages, taken) then Some(Advanced(pages, offsets, taken)) else None)
  }

  lemma Placed(r: seq<Tagged>, s: seq<Tagged>, x: Tagged, k: nat)
    requires InOrder(s) && |r| == |s| + 1 && k <= |s|
    requires k > 0 ==> Compare(x.item, s[k - 1].item) >= 0
    requires k < |s| ==> Compare(x.item, s[k].item) < 0
    requires r[k] == x
    requires forall j :: 0 <= j < k ==> r[j] == s[j]
    requires forall j :: k <= j < |s| ==> r[j + 1] == s[j]
    ensures r == InsertStable(s, x)
  {
    if k > 0 { OrderStep(s, x, k); }
    InsertAt(s, x, k);
    assert r == s[..k] + [x] + s[k..];
  }

  /** One round of the sort: puts `a[i]` in its place among the sorted elements before it. */
  method InsertInto(a: array<Tagged>, i: nat)
    requires i < a.Length && InOrder(a[..i])
    modifies a
    ensures a[..i + 1] == InsertStable(old(a[..i]), old(a[i]))
    ensures a[i + 1..] == old(a[i + 1..])
  {
    ghost var sorted := a[..i];
    ghost var rest := a[i + 1..];
    var x := a[i];
    var k := i;
    while k > 0 && Compare(x.item, a[k - 1].item) < 0
      invariant k <= i
      invariant forall j :: 0 <= j < k ==> a[j] == sorted[j]
      invariant forall j :: k <= j < i ==> a[j + 1] == sorted[j] && Compare(x.item, sorted[j].item) < 0
      invariant a[i + 1..] == rest
    {
      a[k] := a[k - 1];
      k := k - 1;
    }
    a[k] := x;
    Placed(a[..i + 1], sorted, x, k);
  }

  /** The array sort, in place; a stable sort has one result. */
  method SortTagged(a: array<Tagged>)
    modifies a
    ensures a[..] == StableSort(old(a[..]))
  {
    ghost var was := a[..];
    var i := 0;
    while i < a.Length
      invariant i <= a.Length && a[..i] == StableSort(was[..i])
      invariant a[i..] == was[i..]
    {
      SortInOrder(was[..i]);
      assert a[i] == was[i..][0] && a[i + 1..] == was[i..][1..];
      InsertInto(a, i);
      assert was[..i + 1][..i] == was[..i];
      i := i + 1;
    }
    assert a[..] == a[..i] && was[..i] == was;
  }

  /** The Map of how many items each node gave. */
  method CountUsed(taken: seq<Tagged>) returns (used: map<NodeId, nat>)
    ensures forall n :: OffsetOf(used, n) == Count(taken, n)
  {
    used := map[];
    for i := 0 to |taken|
      invariant forall n :: OffsetOf(used, n) == Count(taken[..i], n)
    {
      assert taken[..i + 1][..i] == taken[..i];
      used := used[taken[i].nodeId := OffsetOf(used, taken[i].nodeId) + 1];
    }
    assert taken[..|taken|] == taken;
  }

  /** The last loop: each node's offset moves by what was taken from it. */
  method AdvanceAll(pages: seq<Page>, offsets: Offsets, used: map<NodeId, nat>, ghost taken: seq<Tagged>)
    returns (next: Offsets, more: bool)
    requires forall n :: OffsetOf(used, n) == Count(taken, n)
    ensures next == Advanced(pages, offsets, taken)
    ensures more <==> AnyUnfinished(pages, taken)
  {
    next, more := offsets, false;
    for i := 0 to |pages|
      invariant next == Advanced(pages[..i], offsets, taken)
      invariant more <==> AnyUnfinished(pages[..i], taken)
    {
      var page := pages[i];
      assert pages[..i + 1] == pages[..i] + [page];
      var took := OffsetOf(used, page.nodeId);
      next := next[page.nodeId := OffsetOf(offsets, page.nodeId) + took];
      more := more || Unfinished(page, took);
    }
    assert pages[..|pages|] == pages;
  }

  method MergePages(pages: seq<Page>, offsets: Offsets, limit: nat) returns (r: MergedPage)
    ensures r == Merge(pages, offsets, limit)
  {
    var all := TagAll(pages);
    var tagged := new Tagged[|all|](i requires 0 <= i < |all| => all[i]);
    assert tagged[..] == all;
    SortTagged(tagged);
    var taken := tagged[..Min(limit, tagged.Length)];
    assert taken == Taken(pages, limit);
    var used := CountUsed(taken);
    var next, more := AdvanceAll(pages, offsets, used, taken);
    r := MergedPage(Untag(taken), if more then Some(next) else None);
  }
}
