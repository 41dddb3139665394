/**
 The cache over whole histories (packages/gateway/src/cache.ts): the two maps after any
 sequence of calls, against one plain list kept in order of use.
 */
module Recency {
  import opened Wrappers
  import opened NameCache

  datatype Call =
    | PutCall(entry: CacheEntry)
    | ByName(name: string)
    | ById(id: string)
    | EvictCall(entry: CacheEntry)
    | EvictNodeCall(nodeId: string)

  /** One call's effect on the plain list. */
  function ListStep(l: seq<CacheEntry>, call: Call, limit: nat): seq<CacheEntry> {
    match call
    case PutCall(e) => Put(l, e, limit)
    case ByName(name) => if FindName(l, name).Some? then Touch(l, FindName(l, name).value) else l
    case ById(id) => if Get(l, id).Some? then Touch(l, Get(l, id).value) else l
    case EvictCall(e) => EvictId(l, e)
    case EvictNodeCall(nodeId) => Filter(l, NotNode(nodeId))
  }

  function Listed(calls: seq<Call>, limit: nat): seq<CacheEntry> {
    if calls == [] then [] else ListStep(Listed(calls[..|calls| - 1], limit), calls[|calls| - 1], limit)
  }

  /** Whom a call uses: the entry it puts, or the one it answers with. */
  predicate Uses(l: seq<CacheEntry>, call: Call, id: string) {
    match call
    case PutCall(e) => e.id == id
    case ByName(name) => FindName(l, name).Some? && FindName(l, name).value.id == id
    case ById(i) => Get(l, i).Some? && i == id
    case EvictCall(_) => false
    case EvictNodeCall(_) => false
  }

  /** The number of the last call that used a sandbox; 0 for none. */
  function LastUse(calls: seq<Call>, limit: nat, id: string): (n: nat)
    ensures n <= |calls|
  {
    if calls == [] then 0
    else if Uses(Listed(calls[..|calls| - 1], limit), calls[|calls| - 1], id) then |calls|
    else LastUse(calls[..|calls| - 1], limit, id)
  }

  ghost predicate ByRecency(l: seq<CacheEntry>, calls: seq<Call>, limit: nat) {
    forall i, j :: 0 <= i < j < |l| ==> LastUse(calls, limit, l[i].id) < LastUse(calls, limit, l[j].id)
  }

  ghost predicate UniqueNames(l: seq<CacheEntry>) {
    forall i, j :: 0 <= i < j < |l| && l[i].name.Some? ==> l[i].name != l[j].name
  }

  lemma FilteredRecency(l: seq<CacheEntry>, k: Keep, calls: seq<Call>, limit: nat)
    requires ByRecency(l, calls, limit)
    ensures ByRecency(Filter(l, k), calls, limit)
  {
    var r := Filter(l, k);
    forall i, j | 0 <= i < j < |r| ensures LastUse(calls, limit, r[i].id) < LastUse(calls, limit, r[j].id) {
      var p, q := FilterPlaces(l, k, i, j);
    }
  }

  lemma FilteredNames(l: seq<CacheEntry>, k: Keep)
    requires UniqueNames(l)
    ensures UniqueNames(Filter(l, k))
  {
    var r := Filter(l, k);
    forall i, j | 0 <= i < j < |r| && r[i].name.Some? ensures r[i].name != r[j].name {
      var p, q := FilterPlaces(l, k, i, j);
    }
  }

  /** Kept entries are not used by the call, and the one used comes last. */
  lemma UsedLast(calls: seq<Call>, limit: nat, kept: seq<CacheEntry>, e: CacheEntry)
    requires calls != []
    requires var before, call := calls[..|calls| - 1], calls[|calls| - 1];
             && ByRecency(kept, before, limit)
             && (forall x :: x in kept ==> !Uses(Listed(before, limit), call, x.id))
             && Uses(Listed(before, limit), call, e.id)
    ensures ByRecency(kept + [e], calls, limit)
  {
    var l := kept + [e];
    forall i, j | 0 <= i < j < |l| ensures LastUse(calls, limit, l[i].id) < LastUse(calls, limit, l[j].id) {
      assert l[i] in kept;
      if j < |kept| { assert l[j] in kept; }
    }
  }

  lemma NothingUsed(calls: seq<Call>, limit: nat, l: seq<CacheEntry>)
    requires calls != []
    requires var before, call := calls[..|calls| - 1], calls[|calls| - 1];
             ByRecency(l, before, limit) && forall x :: x in l ==> !Uses(Listed(before, limit), call, x.id)
    ensures ByRecency(l, calls, limit)
  {
    forall i, j | 0 <= i < j < |l| ensures LastUse(calls, limit, l[i].id) < LastUse(calls, limit, l[j].id) {
      assert l[i] in l && l[j] in l;
    }
  }

  lemma Tail(l: seq<CacheEntry>, calls: seq<Call>, limit: nat)
    requires ByRecency(l, calls, limit) && UniqueNames(l) && l != []
    ensures ByRecency(l[1..], calls, limit) && UniqueNames(l[1..])
  {
  }

  /** A touch: everyone else as before, the entry last. */
  lemma TouchStep(calls: seq<Call>, limit: nat, e: CacheEntry)
    requires calls != []
    requires var l, call := Listed(calls[..|calls| - 1], limit), calls[|calls| - 1];
             && ByRecency(l, calls[..|calls| - 1], limit) && UniqueIds(l) && UniqueNames(l) && |l| <= limit && e in l
             && Listed(calls, limit) == Touch(l, e)
             && (forall id :: Uses(l, call, id) <==> id == e.id)
    ensures var l := Listed(calls, limit);
            ByRecency(l, calls, limit) && UniqueIds(l) && UniqueNames(l) && |l| <= limit
  {
    var l := Listed(calls[..|calls| - 1], limit);
    FilteredRecency(l, NotId(e.id), calls[..|calls| - 1], limit);
    FilteredNames(l, NotId(e.id));
    UniqueFiltered(l, NotId(e.id));
    DeleteShrinks(l, e);
    UsedLast(calls, limit, Delete(l, e.id), e);
    NamedOnce(l, e);
  }

  lemma NamedOnce(l: seq<CacheEntry>, e: CacheEntry)
    requires UniqueIds(l) && UniqueNames(l) && e in l
    ensures UniqueNames(Delete(l, e.id) + [e])
  {
    FilteredNames(l, NotId(e.id));
    forall x | x in Delete(l, e.id) && x.name.Some? ensures x.name != e.name {
      var i :| 0 <= i < |l| && l[i] == x;
      var j :| 0 <= j < |l| && l[j] == e;
    }
  }

  lemma PutStep(calls: seq<Call>, limit: nat, e: CacheEntry)
    requires calls != [] && calls[|calls| - 1] == PutCall(e)
    requires var l := Listed(calls[..|calls| - 1], limit);
             ByRecency(l, calls[..|calls| - 1], limit) && UniqueIds(l) && UniqueNames(l) && |l| <= limit
    ensures var l := Listed(calls, limit);
            ByRecency(l, calls, limit) && UniqueIds(l) && UniqueNames(l) && |l| <= limit
  {
    var l := Listed(calls[..|calls| - 1], limit);
    var kept := Filter(l, NotDisplaced(e));
    FilteredRecency(l, NotDisplaced(e), calls[..|calls| - 1], limit);
    UsedLast(calls, limit, kept, e);
    PutUnique(l, e);
    Tail(kept + [e], calls, limit);
  }

  lemma PutUnique(l: seq<CacheEntry>, e: CacheEntry)
    requires UniqueIds(l) && UniqueNames(l)
    ensures UniqueIds(Filter(l, NotDisplaced(e)) + [e]) && UniqueNames(Filter(l, NotDisplaced(e)) + [e])
  {
    FilteredNames(l, NotDisplaced(e));
    UniqueFiltered(l, NotDisplaced(e));
    var kept := Filter(l, NotDisplaced(e));
    forall i | 0 <= i < |kept| ensures kept[i].id != e.id && (kept[i].name.Some? ==> kept[i].name != e.name) {
      assert kept[i] in kept;
    }
  }

  /** After any calls the list is ordered by last use, its ids and names are unique, and it keeps to its bound. */
  lemma {:induction false} ListedByUse(calls: seq<Call>, limit: nat)
    ensures var l := Listed(calls, limit);
            ByRecency(l, calls, limit) && UniqueIds(l) && UniqueNames(l) && |l| <= limit
  {
    if calls != [] {
      var before, call := calls[..|calls| - 1], calls[|calls| - 1];
      ListedByUse(before, limit);
      var l := Listed(before, limit);
      match call {
        case PutCall(e) => PutStep(calls, limit, e);
        case ByName(name) =>
          if FindName(l, name).Some? { TouchStep(calls, limit, FindName(l, name).value); }
          else { NothingUsed(calls, limit, l); }
        case ById(id) =>
          if Get(l, id).Some? { TouchStep(calls, limit, Get(l, id).value); }
          else { NothingUsed(calls, limit, l); }
        case EvictCall(e) =>
          NothingUsed(calls, limit, l);
          Sweep(l, NotId(e.id), calls, limit);
        case EvictNodeCall(nodeId) =>
          NothingUsed(calls, limit, l);
          Sweep(l, NotNode(nodeId), calls, limit);
      }
    }
  }

  lemma Sweep(l: seq<CacheEntry>, k: Keep, calls: seq<Call>, limit: nat)
    requires ByRecency(l, calls, limit) && UniqueIds(l) && UniqueNames(l)
    ensures var r := Filter(l, k); ByRecency(r, calls, limit) && UniqueIds(r) && UniqueNames(r)
  {
    FilteredRecency(l, k, calls, limit);
    FilteredNames(l, k);
    UniqueFiltered(l, k);
  }

  lemma FirstIsOldest(l: seq<CacheEntry>, calls: seq<Call>, limit: nat, y: CacheEntry)
    requires ByRecency(l, calls, limit) && l != [] && y in l[1..]
    ensures LastUse(calls, limit, l[0].id) < LastUse(calls, limit, y.id)
  {
    var j :| 0 <= j < |l[1..]| && l[1..][j] == y;
    assert l[j + 1] == y;
  }

  /** A list with one more at its end, its first dropped if it is too long. */
  lemma Trimmed(kept: seq<CacheEntry>, e: CacheEntry, limit: nat, x: CacheEntry)
    requires limit > 0 && x != e && |kept| <= limit
    ensures var after := if |kept + [e]| > limit then (kept + [e])[1..] else kept + [e];
            && e in after && (x in after ==> x in kept)
            && (x in kept && x !in after ==>
                  kept != [] && x == kept[0] && |after| == limit && after == kept[1..] + [e])
  {
    if |kept + [e]| > limit {
      assert (kept + [e])[1..] == kept[1..] + [e];
      assert kept == [kept[0]] + kept[1..];
    }
  }

  // ---------------------------------------------------------------- the two maps

  /** One call's effect on the two maps: what the class's methods state, in step or not. */
  function Made(c: Indexes, call: Call, limit: nat): Indexes {
    match call
    case PutCall(e) => PutIn(c, e, limit)
    case ByName(name) => if name in c.byName then TouchIn(c, c.byName[name]) else c
    case ById(id) => if Get(c.byId, id).Some? then TouchIn(c, Get(c.byId, id).value) else c
    case EvictCall(e) => EvictFrom(c, e)
    case EvictNodeCall(nodeId) => EvictEach(c, c.byId, nodeId)
  }

  function Run(calls: seq<Call>, limit: nat): Indexes {
    if calls == [] then Indexes(map[], [])
    else Made(Run(calls[..|calls| - 1], limit), calls[|calls| - 1], limit)
  }

  /** The guard of a call: an evict's two tests come out alike. */
  predicate Guarded(c: Indexes, call: Call) {
    call.EvictCall? ==> EvictSafe(c.byId, call.entry)
  }

  /** Every evict of the history was safe when it was made. */
  predicate Safe(calls: seq<Call>, limit: nat) {
    calls == [] ||
    (Safe(calls[..|calls| - 1], limit) && Guarded(Run(calls[..|calls| - 1], limit), calls[|calls| - 1]))
  }

  lemma EvictNodeInStep(c: Indexes, limit: nat, nodeId: string)
    requires InStepWithin(c, limit)
    ensures InStepWithin(EvictEach(c, c.byId, nodeId), limit)
    ensures EvictEach(c, c.byId, nodeId).byId == Filter(c.byId, NotNode(nodeId))
  {
    EvictEachSweeps(c, |c.byId|, nodeId);
    assert c.byId[..|c.byId|] == c.byId;
    SweptEnds(c.byId, nodeId);
    FilterShrinks(c.byId, NotNode(nodeId));
  }

  /** A call leaves maps in step so exactly when it is guarded; then it does to the list what it should. */
  lemma CallKeepsStep(c: Indexes, call: Call, limit: nat)
    requires InStepWithin(c, limit)
    ensures InStepWithin(Made(c, call, limit), limit) <==> Guarded(c, call)
    ensures Guarded(c, call) ==> Made(c, call, limit).byId == ListStep(c.byId, call, limit)
  {
    match call {
      case PutCall(e) => PutInStep(c, e, limit);
      case ByName(name) =>
        if name in c.byName {
          NameFound(c.byName, c.byId, name);
          TouchAgrees(c.byName, c.byId, c.byName[name]);
        }
      case ById(id) =>
        if Get(c.byId, id).Some? { TouchAgrees(c.byName, c.byId, Get(c.byId, id).value); }
      case EvictCall(e) =>
        EvictAgrees(c.byName, c.byId, e);
        FilterShrinks(c.byId, NotId(e.id));
      case EvictNodeCall(nodeId) => EvictNodeInStep(c, limit, nodeId);
    }
  }

  /**
   After any history of safe evicts: both maps are views of the one list that is ordered by
   last use, its ids and names unique, never longer than the limit.
   */
  lemma {:induction false} CacheIsLru(calls: seq<Call>, limit: nat)
    requires Safe(calls, limit)
    ensures var c := Run(calls, limit);
            && Agree(c.byName, c.byId) && |c.byId| <= limit && c.byId == Listed(calls, limit)
            && ByRecency(c.byId, calls, limit) && UniqueNames(c.byId)
  {
    if calls != [] {
      var before := calls[..|calls| - 1];
      CacheIsLru(before, limit);
      CallKeepsStep(Run(before, limit), calls[|calls| - 1], limit);
    }
    ListedByUse(calls, limit);
  }

  ghost predicate AlwaysInStep(calls: seq<Call>, limit: nat) {
    forall n :: 0 <= n <= |calls| ==> InStepWithin(Run(calls[..n], limit), limit)
  }

  lemma InStepSoFar(calls: seq<Call>, limit: nat)
    requires calls != []
    ensures AlwaysInStep(calls, limit) <==>
              AlwaysInStep(calls[..|calls| - 1], limit) && InStepWithin(Run(calls, limit), limit)
  {
    var before := calls[..|calls| - 1];
    assert calls[..|calls|] == calls;
    assert forall n :: 0 <= n <= |before| ==> calls[..n] == before[..n];
  }

  /**
   An unsafe evict, and nothing else, ends it: the maps are in step and bounded all along
   exactly when every evict was safe.
   */
  lemma {:induction false} InStepIffSafe(calls: seq<Call>, limit: nat)
    ensures AlwaysInStep(calls, limit) <==> Safe(calls, limit)
  {
    if calls == [] {
      assert calls[..0] == [];
    } else {
      var before := calls[..|calls| - 1];
      InStepIffSafe(before, limit);
      InStepSoFar(calls, limit);
      if AlwaysInStep(before, limit) {
        assert before[..|before|] == before;
        CallKeepsStep(Run(before, limit), calls[|calls| - 1], limit);
      }
    }
  }

  const FIRST := CacheEntry("1", Some("n"), "a")
  const SECOND := CacheEntry("2", Some("m"), "a")
  const OVERFULL := [PutCall(FIRST), EvictCall(CacheEntry("1", None, "a")), PutCall(SECOND), ByName("n")]

  lemma OverfullMaps()
    ensures Run(OVERFULL[..1], 1) == Indexes(map["n" := FIRST], [FIRST])
    ensures Run(OVERFULL[..2], 1) == Indexes(map["n" := FIRST], [])
    ensures Run(OVERFULL[..3], 1) == Indexes(map["n" := FIRST, "m" := SECOND], [SECOND])
  {
    assert OVERFULL[..1] == [PutCall(FIRST)] && OVERFULL[..1][..0] == [];
    assert OVERFULL[..2][..1] == OVERFULL[..1] && OVERFULL[..3][..2] == OVERFULL[..2];
    assert [FIRST][..0] == [];
    assert Get([FIRST], "1") == Some(FIRST) && Filter([FIRST], NotId("1")) == [];
  }

  lemma OverfullEnds()
    ensures Run(OVERFULL, 1).byId == [SECOND, FIRST]
  {
    OverfullMaps();
    assert OVERFULL[..3] == OVERFULL[..|OVERFULL| - 1];
    var c := Run(OVERFULL[..3], 1);
    assert Run(OVERFULL, 1) == Made(c, ByName("n"), 1) == TouchIn(c, FIRST);
    assert [SECOND][..0] == [] && Filter([SECOND], NotId("1")) == [SECOND];
  }

  /** What follows an unsafe evict: a name whose id is gone answers again, and the cache outgrows its limit. */
  lemma UnsafeEvictOutgrows()
    ensures !Safe(OVERFULL, 1) && |Run(OVERFULL, 1).byId| == 2
  {
    OverfullEnds();
    if Safe(OVERFULL, 1) { CacheIsLru(OVERFULL, 1); }
  }

  /**
   What a put leaves, over a positive bound and after safe evicts: the new entry; nobody else under its id or
   its name; everyone else who was there, but for one when the cache was full, and that
   one was used before all the others.
   */
  lemma PutLeaves(calls: seq<Call>, limit: nat, e: CacheEntry, x: CacheEntry)
    requires limit > 0 && x != e && Safe(calls, limit)
    ensures var l := Run(calls, limit).byId;
            var after := Run(calls + [PutCall(e)], limit).byId;
            && e in after
            && (x in after ==> x in l && !Displaced(x, e))
            && (x in l && !Displaced(x, e) && x !in after ==>
                  |after| == limit &&
                  forall y :: y in after && y != e ==> LastUse(calls, limit, x.id) < LastUse(calls, limit, y.id))
  {
    var l := Run(calls, limit).byId;
    assert (calls + [PutCall(e)])[..|calls|] == calls;
    CacheIsLru(calls, limit);
    CallKeepsStep(Run(calls, limit), PutCall(e), limit);
    var kept := Filter(l, NotDisplaced(e));
    FilteredRecency(l, NotDisplaced(e), calls, limit);
    Trimmed(kept, e, limit, x);
    var after := Put(l, e, limit);
    if x in kept && x !in after {
      forall y | y in after && y != e ensures LastUse(calls, limit, x.id) < LastUse(calls, limit, y.id) {
        FirstIsOldest(kept, calls, limit, y);
      }
    }
  }
}
