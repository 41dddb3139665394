/**
 The gateway's cache of where sandboxes are (packages/gateway/src/cache.ts): two indexes
 over one list, least recently used first.
 */
module NameCache {
  import opened Wrappers

  datatype CacheEntry = CacheEntry(id: string, name: Option<string>, nodeId: string)

  // ---------------------------------------------------------------- lists

  /** Which entries a pass over the list keeps. */
  datatype Keep = NotId(id: string) | NotDisplaced(entry: CacheEntry) | NotNode(nodeId: string)

  predicate Keeps(k: Keep, x: CacheEntry) {
    match k
    case NotId(id) => x.id != id
    case NotDisplaced(entry) => !Displaced(x, entry)
    case NotNode(nodeId) => x.nodeId != nodeId
  }

  function Filter(l: seq<CacheEntry>, k: Keep): (r: seq<CacheEntry>)
    ensures |r| <= |l|
    ensures forall x :: x in r <==> x in l && Keeps(k, x)
  {
    if l == [] then []
    else if Keeps(k, l[|l| - 1]) then Filter(l[..|l| - 1], k) + [l[|l| - 1]]
    else Filter(l[..|l| - 1], k)
  }

  lemma {:induction false} FilterSame(l: seq<CacheEntry>, p: Keep, q: Keep)
    requires forall x :: x in l ==> Keeps(p, x) == Keeps(q, x)
    ensures Filter(l, p) == Filter(l, q)
  {
    if l != [] { FilterSame(l[..|l| - 1], p, q); }
  }

  lemma {:induction false} FilterTwice(l: seq<CacheEntry>, p: Keep, q: Keep, both: Keep)
    requires forall x :: x in l ==> (Keeps(both, x) <==> Keeps(p, x) && Keeps(q, x))
    ensures Filter(Filter(l, p), q) == Filter(l, both)
  {
    if l != [] {
      FilterTwice(l[..|l| - 1], p, q, both);
      var f := Filter(l[..|l| - 1], p);
      assert (f + [l[|l| - 1]])[..|f|] == f;
    }
  }

  lemma {:induction false} FilterAll(l: seq<CacheEntry>, k: Keep)
    requires forall x :: x in l ==> Keeps(k, x)
    ensures Filter(l, k) == l
  {
    if l != [] {
      var init := l[..|l| - 1];
      assert l == init + [l[|l| - 1]] && l[|l| - 1] in l;
      forall x | x in init ensures Keeps(k, x) { assert x in l; }
      FilterAll(init, k);
    }
  }

  /** Where an entry of a filtered list stood before: the order is kept. */
  lemma {:induction false} FilterPlaces(l: seq<CacheEntry>, k: Keep, i: nat, j: nat) returns (p: nat, q: nat)
    requires i < j < |Filter(l, k)|
    ensures p < q < |l| && l[p] == Filter(l, k)[i] && l[q] == Filter(l, k)[j]
  {
    var init := l[..|l| - 1];
    if j < |Filter(init, k)| {
      p, q := FilterPlaces(init, k, i, j);
    } else {
      assert Filter(l, k)[i] in Filter(init, k);
      p :| 0 <= p < |init| && init[p] == Filter(l, k)[i];
      q := |init|;
    }
  }

  ghost predicate UniqueIds(l: seq<CacheEntry>) {
    forall i, j :: 0 <= i < j < |l| ==> l[i].id != l[j].id
  }

  lemma UniqueFiltered(l: seq<CacheEntry>, k: Keep)
    requires UniqueIds(l)
    ensures UniqueIds(Filter(l, k))
  {
    forall i, j | 0 <= i < j < |Filter(l, k)| ensures Filter(l, k)[i].id != Filter(l, k)[j].id {
      var p, q := FilterPlaces(l, k, i, j);
    }
  }

  // ---------------------------------------------------------------- an insertion-ordered map keyed by id

  function Get(m: seq<CacheEntry>, id: string): (r: Option<CacheEntry>)
    ensures r.Some? ==> r.value in m && r.value.id == id
    ensures r.None? ==> forall x :: x in m ==> x.id != id
  {
    if m == [] then None
    else if m[|m| - 1].id == id then Some(m[|m| - 1])
    else Get(m[..|m| - 1], id)
  }

  function Delete(m: seq<CacheEntry>, id: string): seq<CacheEntry> {
    Filter(m, NotId(id))
  }

  /** Setting a new key appends; the callers delete the key first. */
  function Set(m: seq<CacheEntry>, e: CacheEntry): seq<CacheEntry>
    requires forall x :: x in m ==> x.id != e.id
  {
    m + [e]
  }

  lemma GetMember(m: seq<CacheEntry>, x: CacheEntry)
    requires UniqueIds(m) && x in m
    ensures Get(m, x.id) == Some(x)
  {
    var y := Get(m, x.id).value;
    var i :| 0 <= i < |m| && m[i] == x;
    var j :| 0 <= j < |m| && m[j] == y;
    assert i < j ==> m[i].id != m[j].id;
    assert j < i ==> m[j].id != m[i].id;
  }

  // ---------------------------------------------------------------- the two indexes

  /** The name index is a view of the list: every named entry under its name, and nothing else. */
  ghost predicate Agree(byName: map<string, CacheEntry>, byId: seq<CacheEntry>) {
    && UniqueIds(byId)
    && (forall n :: n in byName ==> byName[n] in byId && byName[n].name == Some(n))
    && (forall x :: x in byId && x.name.Some? ==> x.name.value in byName && byName[x.name.value] == x)
  }

  /** Whose place a new entry takes: the holder of its id, and of its name. */
  predicate Displaced(x: CacheEntry, e: CacheEntry) {
    x.id == e.id || (e.name.Some? && x.name == e.name)
  }

  /** A plain list kept at a bound: the new entry replaces whom it displaces, the oldest goes. */
  function Put(l: seq<CacheEntry>, e: CacheEntry, limit: nat): seq<CacheEntry> {
    var all := Filter(l, NotDisplaced(e)) + [e];
    if |all| > limit then all[1..] else all
  }

  function Touch(l: seq<CacheEntry>, e: CacheEntry): seq<CacheEntry> {
    Delete(l, e.id) + [e]
  }

  function FindName(l: seq<CacheEntry>, name: string): (r: Option<CacheEntry>)
    ensures r.Some? ==> r.value in l && r.value.name == Some(name)
    ensures r.None? ==> forall x :: x in l ==> x.name != Some(name)
  {
    if l == [] then None
    else if l[|l| - 1].name == Some(name) then Some(l[|l| - 1])
    else FindName(l[..|l| - 1], name)
  }

  /** `evict` as the two maps see it: each map decides by its own test. */
  function EvictName(byName: map<string, CacheEntry>, e: CacheEntry): map<string, CacheEntry> {
    if e.name.Some? && e.name.value in byName && byName[e.name.value].id == e.id
    then byName - {e.name.value} else byName
  }

  function EvictId(byId: seq<CacheEntry>, e: CacheEntry): seq<CacheEntry> {
    var known := Get(byId, e.id);
    if known.Some? && known.value.nodeId == e.nodeId then Delete(byId, e.id) else byId
  }

  /** The two tests come out alike: nothing resident, nothing named, or name and node match or differ together. */
  predicate EvictSafe(byId: seq<CacheEntry>, e: CacheEntry) {
    var known := Get(byId, e.id);
    known.Some? && known.value.name.Some? ==>
      ((known.value.nodeId == e.nodeId) <==> (known.value.name == e.name))
  }

  lemma AgreeDelete(byName: map<string, CacheEntry>, byId: seq<CacheEntry>, x: CacheEntry)
    requires Agree(byName, byId) && x in byId
    ensures Agree(if x.name.Some? then byName - {x.name.value} else byName, Delete(byId, x.id))
  {
    UniqueFiltered(byId, NotId(x.id));
    forall y | y in byId && y.id == x.id ensures y == x {
      GetMember(byId, x);
      GetMember(byId, y);
    }
  }

  /** Evicting keeps the indexes in step exactly when the two tests come out alike. */
  lemma EvictAgrees(byName: map<string, CacheEntry>, byId: seq<CacheEntry>, e: CacheEntry)
    requires Agree(byName, byId)
    ensures Agree(EvictName(byName, e), EvictId(byId, e)) <==> EvictSafe(byId, e)
  {
    var known := Get(byId, e.id);
    if known.Some? {
      var x := known.value;
      AgreeDelete(byName, byId, x);
      assert x !in Delete(byId, e.id);
      if e.name.Some? && e.name.value in byName && byName[e.name.value].id == e.id {
        GetMember(byId, byName[e.name.value]);
      }
    }
  }

  /** One stale entry splits them: the id is gone, the name still answers with it. */
  lemma StaleEntrySplits()
    ensures var resident := CacheEntry("id", Some("name"), "node");
            var stale := CacheEntry("id", None, "node");
            && Agree(map["name" := resident], [resident])
            && EvictName(map["name" := resident], stale) == map["name" := resident]
            && EvictId([resident], stale) == []
  {
    var resident := CacheEntry("id", Some("name"), "node");
    assert Get([resident], "id") == Some(resident);
    assert [resident][..0] == [];
    assert Filter([resident], NotId("id")) == [];
  }

  // ---------------------------------------------------------------- put

  /** Deleting the name's old holder and then the id's is dropping everyone displaced. */
  lemma DropDisplaced(byName: map<string, CacheEntry>, byId: seq<CacheEntry>, e: CacheEntry)
    requires Agree(byName, byId) && e.name.Some? && e.name.value in byName
    ensures Delete(Delete(byId, byName[e.name.value].id), e.id) == Filter(byId, NotDisplaced(e))
  {
    var previous := byName[e.name.value];
    forall x | x in byId ensures (x.id != previous.id && x.id != e.id) == !Displaced(x, e) {
      if x.id == previous.id {
        GetMember(byId, x);
        GetMember(byId, previous);
      }
    }
    FilterTwice(byId, NotId(previous.id), NotId(e.id), NotDisplaced(e));
  }

  lemma DropHolder(byName: map<string, CacheEntry>, byId: seq<CacheEntry>, e: CacheEntry)
    requires Agree(byName, byId)
    requires e.name.Some? && e.name.value in byName ==> byName[e.name.value].id == e.id
    ensures Delete(byId, e.id) == Filter(byId, NotDisplaced(e))
  {
    FilterSame(byId, NotId(e.id), NotDisplaced(e));
  }

  /** The name index after a put, before the bound is applied. */
  function Named(byName: map<string, CacheEntry>, byId: seq<CacheEntry>, e: CacheEntry): map<string, CacheEntry> {
    var known := Get(byId, e.id);
    var named := if e.name.Some? then byName[e.name.value := e] else byName;
    if known.Some? && known.value.name.Some? && known.value.name != e.name
    then named - {known.value.name.value} else named
  }

  lemma PutAgrees(byName: map<string, CacheEntry>, byId: seq<CacheEntry>, e: CacheEntry)
    requires Agree(byName, byId)
    ensures Agree(Named(byName, byId, e), Filter(byId, NotDisplaced(e)) + [e])
  {
    var kept := Filter(byId, NotDisplaced(e));
    UniqueFiltered(byId, NotDisplaced(e));
    var named := Named(byName, byId, e);
    forall x | x in byId && x.id == e.id ensures Get(byId, e.id) == Some(x) { GetMember(byId, x); }
    forall n | n in named ensures named[n] in kept + [e] && named[n].name == Some(n) {
      if named[n] != e { assert named[n] in byId && !Displaced(named[n], e); }
    }
    forall x | x in kept + [e] && x.name.Some? ensures x.name.value in named && named[x.name.value] == x {
      if x in kept {
      }
    }
  }

  // ---------------------------------------------------------------- each call, on any two indexes

  /** The two maps as they stand, in step or not. */
  datatype Indexes = Indexes(byName: map<string, CacheEntry>, byId: seq<CacheEntry>)

  ghost predicate InStepWithin(c: Indexes, limit: nat) { Agree(c.byName, c.byId) && |c.byId| <= limit }

  function EvictFrom(c: Indexes, e: CacheEntry): Indexes { Indexes(EvictName(c.byName, e), EvictId(c.byId, e)) }

  function TouchIn(c: Indexes, e: CacheEntry): Indexes { c.(byId := Touch(c.byId, e)) }

  /** The list without the entry whose name has moved to another id. */
  function Dropped(c: Indexes, e: CacheEntry): seq<CacheEntry> {
    if e.name.Some? && e.name.value in c.byName && c.byName[e.name.value].id != e.id
    then Delete(c.byId, c.byName[e.name.value].id) else c.byId
  }

  /** A put before the bound is applied. */
  function PutFull(c: Indexes, e: CacheEntry): Indexes {
    var rest := Dropped(c, e);
    var known := Get(rest, e.id);
    var named := if e.name.Some? then c.byName[e.name.value := e] else c.byName;
    Indexes(if known.Some? && known.value.name.Some? && known.value.name != e.name
            then named - {known.value.name.value} else named,
            Delete(rest, e.id) + [e])
  }

  function PutIn(c: Indexes, e: CacheEntry, limit: nat): Indexes {
    var full := PutFull(c, e);
    if |full.byId| > limit then EvictFrom(full, full.byId[0]) else full
  }

  /** The sweep of a node over a snapshot of the entries. */
  function EvictEach(c: Indexes, entries: seq<CacheEntry>, nodeId: string): Indexes {
    if entries == [] then c
    else
      var before, e := EvictEach(c, entries[..|entries| - 1], nodeId), entries[|entries| - 1];
      if e.nodeId == nodeId then EvictFrom(before, e) else before
  }

  /** Over indexes in step a put is the plain list's. */
  lemma PutInStep(c: Indexes, e: CacheEntry, limit: nat)
    requires InStepWithin(c, limit)
    ensures InStepWithin(PutIn(c, e, limit), limit) && PutIn(c, e, limit).byId == Put(c.byId, e, limit)
  {
    PutFullAgrees(c, e);
    var full := PutFull(c, e);
    FilterShrinks(c.byId, NotDisplaced(e));
    if |full.byId| > limit {
      var oldest := full.byId[0];
      assert oldest in full.byId;
      EvictResident(full.byId, oldest);
      EvictAgrees(full.byName, full.byId, oldest);
      DeleteFirst(full.byId);
    }
  }

  lemma FilterShrinks(l: seq<CacheEntry>, k: Keep)
    ensures |Filter(l, k)| <= |l|
  {
  }

  lemma PutFullAgrees(c: Indexes, e: CacheEntry)
    requires Agree(c.byName, c.byId)
    ensures PutFull(c, e).byId == Filter(c.byId, NotDisplaced(e)) + [e]
    ensures Agree(PutFull(c, e).byName, PutFull(c, e).byId)
  {
    if e.name.Some? && e.name.value in c.byName && c.byName[e.name.value].id != e.id {
      DropDisplaced(c.byName, c.byId, e);
    } else {
      DropHolder(c.byName, c.byId, e);
    }
    SameKnown(c.byName, c.byId, Dropped(c, e), e);
    PutAgrees(c.byName, c.byId, e);
  }

  lemma DeletedThenSet(l: seq<CacheEntry>, e: CacheEntry)
    requires UniqueIds(l)
    ensures UniqueIds(Delete(l, e.id) + [e])
  {
    UniqueFiltered(l, NotId(e.id));
    forall i | 0 <= i < |Delete(l, e.id)| ensures Delete(l, e.id)[i].id != e.id {
      assert Delete(l, e.id)[i] in Delete(l, e.id);
    }
  }

  lemma EvictUnique(l: seq<CacheEntry>, e: CacheEntry)
    requires UniqueIds(l)
    ensures UniqueIds(EvictId(l, e))
  {
    UniqueFiltered(l, NotId(e.id));
  }

  /** The sweep empties the list of the node's entries whatever the name index holds, and keeps indexes in step. */
  lemma {:induction false} EvictEachSweeps(c: Indexes, i: nat, nodeId: string)
    requires UniqueIds(c.byId) && i <= |c.byId|
    ensures var r := EvictEach(c, c.byId[..i], nodeId);
            && r.byId == Swept(c.byId, i, nodeId) && UniqueIds(r.byId)
            && (Agree(c.byName, c.byId) ==> Agree(r.byName, r.byId))
  {
    if i == 0 {
      SweptEnds(c.byId, nodeId);
    } else {
      EvictEachSweeps(c, i - 1, nodeId);
      var before, e := EvictEach(c, c.byId[..i - 1], nodeId), c.byId[i - 1];
      assert c.byId[..i][..i - 1] == c.byId[..i - 1];
      SweepStep(c.byId, i - 1, nodeId);
      if e.nodeId == nodeId {
        EvictResident(before.byId, e);
        EvictUnique(before.byId, e);
        if Agree(before.byName, before.byId) { EvictAgrees(before.byName, before.byId, e); }
      }
    }
  }

  /** One turn of the sweep: the entry is still there, and is evicted if it is the node's. */
  lemma SweepTurn(c: Indexes, i: nat, nodeId: string)
    requires UniqueIds(c.byId) && i < |c.byId|
    ensures var before := EvictEach(c, c.byId[..i], nodeId);
            && UniqueIds(before.byId) && |EvictId(before.byId, c.byId[i])| == |before.byId| - 1
            && EvictEach(c, c.byId[..i + 1], nodeId) ==
                 if c.byId[i].nodeId == nodeId then EvictFrom(before, c.byId[i]) else before
  {
    EvictEachSweeps(c, i, nodeId);
    SweepStep(c.byId, i, nodeId);
    assert c.byId[..i + 1][..i] == c.byId[..i];
    EvictResident(EvictEach(c, c.byId[..i], nodeId).byId, c.byId[i]);
  }

  class NameCache {
    var byName: map<string, CacheEntry>
    /** Insertion order is recency: the first is the least recently used. */
    var byId: seq<CacheEntry>
    const limit: nat

    /** A map holds a key once. The two maps need not be in step. */
    ghost predicate Valid() reads this { UniqueIds(byId) }

    ghost function Here(): Indexes reads this { Indexes(byName, byId) }

    ghost predicate InStep() reads this { InStepWithin(Here(), limit) }

    constructor (limit: nat)
      ensures Valid() && InStep() && Here() == Indexes(map[], []) && this.limit == limit
    {
      byName, byId := map[], [];
      this.limit := limit;
    }

    method PutEntry(e: CacheEntry)
      requires Valid()
      modifies this
      ensures Valid() && Here() == PutIn(old(Here()), e, limit)
      ensures old(InStep()) ==> InStep() && byId == Put(old(byId), e, limit)
    {
      ghost var was := Here();
      if InStepWithin(was, limit) { PutInStep(was, e, limit); }
      if e.name.Some? {
        if e.name.value in byName && byName[e.name.value].id != e.id {
          UniqueFiltered(byId, NotId(byName[e.name.value].id));
          byId := Delete(byId, byName[e.name.value].id);
        }
        byName := byName[e.name.value := e];
      }
      var known := Get(byId, e.id);
      if known.Some? && known.value.name.Some? && known.value.name != e.name {
        byName := byName - {known.value.name.value};
      }
      DeletedThenSet(byId, e);
      byId := Delete(byId, e.id);
      byId := Set(byId, e);
      assert Here() == PutFull(was, e);
      if |byId| > limit {
        EvictOldest();
      }
    }

    /** The bound's own eviction: the first key goes. */
    method EvictOldest()
      requires Valid() && byId != []
      modifies this
      ensures Valid() && Here() == EvictFrom(old(Here()), old(byId)[0]) && byId == old(byId)[1..]
    {
      var oldest := byId[0];
      assert oldest in byId;
      EvictResident(byId, oldest);
      DeleteFirst(byId);
      Evict(oldest);
    }

    method GetByName(name: string) returns (r: Option<CacheEntry>)
      requires Valid()
      modifies this
      ensures Valid()
      ensures r == if name in old(byName) then Some(old(byName)[name]) else None
      ensures Here() == if r.Some? then TouchIn(old(Here()), r.value) else old(Here())
      ensures old(InStep()) ==> InStep() && r == FindName(old(byId), name)
    {
      if name in byName {
        var entry := byName[name];
        if InStepWithin(Here(), limit) {
          NameFound(byName, byId, name);
          TouchAgrees(byName, byId, entry);
        }
        DeletedThenSet(byId, entry);
        byId := Delete(byId, entry.id);
        byId := Set(byId, entry);
        return Some(entry);
      }
      return None;
    }

    method GetById(id: string) returns (r: Option<CacheEntry>)
      requires Valid()
      modifies this
      ensures Valid() && r == Get(old(byId), id)
      ensures Here() == if r.Some? then TouchIn(old(Here()), r.value) else old(Here())
      ensures old(InStep()) ==> InStep()
    {
      r := Get(byId, id);
      if r.Some? {
        if InStepWithin(Here(), limit) { TouchAgrees(byName, byId, r.value); }
        DeletedThenSet(byId, r.value);
        byId := Delete(byId, r.value.id);
        byId := Set(byId, r.value);
      }
    }

    /** Whatever the entry: what each map becomes, and when two maps in step stay so. */
    method Evict(e: CacheEntry)
      requires Valid()
      modifies this
      ensures Valid() && Here() == EvictFrom(old(Here()), e)
      ensures old(InStep()) ==> (InStep() <==> EvictSafe(old(byId), e))
    {
      EvictUnique(byId, e);
      FilterShrinks(byId, NotId(e.id));
      if Agree(byName, byId) { EvictAgrees(byName, byId, e); }
      if e.name.Some? && e.name.value in byName && byName[e.name.value].id == e.id {
        byName := byName - {e.name.value};
      }
      var known := Get(byId, e.id);
      if known.Some? && known.value.nodeId == e.nodeId {
        byId := Delete(byId, e.id);
      }
    }

    method EvictNode(nodeId: string) returns (evicted: nat)
      requires Valid()
      modifies this
      ensures Valid() && Here() == EvictEach(old(Here()), old(byId), nodeId)
      ensures byId == Filter(old(byId), NotNode(nodeId)) && evicted == |old(byId)| - |byId|
      ensures old(InStep()) ==> InStep()
    {
      var entries := byId;
      ghost var was := Here();
      evicted := 0;
      EvictEachSweeps(was, 0, nodeId);
      assert entries[..0] == [];
      for i := 0 to |entries|
        invariant evicted + |byId| == |entries| && Here() == EvictEach(was, entries[..i], nodeId)
      {
        var one := EvictIfOn(entries, i, nodeId, was);
        evicted := evicted + one;
      }
      assert entries[..|entries|] == entries;
      SweptEnds(entries, nodeId);
      EvictEachSweeps(was, |entries|, nodeId);
      if Agree(was.byName, was.byId) { FilterShrinks(entries, NotNode(nodeId)); }
    }

    /** One turn of the sweep, at entry i of the snapshot. */
    method EvictIfOn(entries: seq<CacheEntry>, i: nat, nodeId: string, ghost was: Indexes) returns (evicted: nat)
      requires i < |entries| && was.byId == entries && UniqueIds(entries)
      requires Here() == EvictEach(was, entries[..i], nodeId)
      modifies this
      ensures Here() == EvictEach(was, entries[..i + 1], nodeId)
      ensures evicted + |byId| == |old(byId)|
    {
      SweepTurn(was, i, nodeId);
      evicted := 0;
      if entries[i].nodeId == nodeId {
        Evict(entries[i]);
        evicted := 1;
      }
    }
  }

  /** Evicting an entry as the cache holds it: both tests pass, and it alone goes. */
  lemma EvictResident(byId: seq<CacheEntry>, e: CacheEntry)
    requires UniqueIds(byId) && e in byId
    ensures EvictSafe(byId, e) && EvictId(byId, e) == Delete(byId, e.id)
    ensures |Delete(byId, e.id)| == |byId| - 1
  {
    GetMember(byId, e);
    var i :| 0 <= i < |byId| && byId[i] == e;
    assert byId == byId[..i] + [e] + byId[i + 1..];
    DeleteAt(byId[..i], e, byId[i + 1..]);
  }

  /** The list when the sweep has seen the first i entries. */
  function Swept(entries: seq<CacheEntry>, i: nat, nodeId: string): seq<CacheEntry>
    requires i <= |entries|
  {
    Filter(entries[..i], NotNode(nodeId)) + entries[i..]
  }

  /** One step of the sweep: the entry at i is resident, and goes if it is the node's. */
  lemma SweepStep(entries: seq<CacheEntry>, i: nat, nodeId: string)
    requires i < |entries| && UniqueIds(Swept(entries, i, nodeId))
    ensures entries[i] in Swept(entries, i, nodeId)
    ensures Swept(entries, i + 1, nodeId)
         == if entries[i].nodeId == nodeId then Delete(Swept(entries, i, nodeId), entries[i].id)
            else Swept(entries, i, nodeId)
  {
    var kept, e := Filter(entries[..i], NotNode(nodeId)), entries[i];
    assert entries[i..] == [e] + entries[i + 1..] && entries[..i + 1][..i] == entries[..i];
    assert Swept(entries, i, nodeId) == kept + [e] + entries[i + 1..];
    if e.nodeId == nodeId {
      DeleteAt(kept, e, entries[i + 1..]);
    }
  }

  lemma SweptEnds(entries: seq<CacheEntry>, nodeId: string)
    ensures Swept(entries, 0, nodeId) == entries
    ensures Swept(entries, |entries|, nodeId) == Filter(entries, NotNode(nodeId))
  {
    assert entries[..|entries|] == entries;
  }

  /** Deleting the name's old holder does not hide the id's. */
  lemma SameKnown(names: map<string, CacheEntry>, list: seq<CacheEntry>, now: seq<CacheEntry>, e: CacheEntry)
    requires Agree(names, list)
    requires now == list ||
      (e.name.Some? && e.name.value in names && names[e.name.value].id != e.id &&
       now == Delete(list, names[e.name.value].id))
    ensures Get(now, e.id) == Get(list, e.id)
  {
    if now != list {
      UniqueFiltered(list, NotId(names[e.name.value].id));
      if Get(list, e.id).Some? { GetMember(now, Get(list, e.id).value); }
    }
  }

  lemma DeleteFirst(l: seq<CacheEntry>)
    requires UniqueIds(l) && l != []
    ensures Delete(l, l[0].id) == l[1..]
  {
    DeleteAt([], l[0], l[1..]);
    assert [] + [l[0]] + l[1..] == l;
    assert [] + l[1..] == l[1..];
  }

  lemma {:induction false} DeleteAt(a: seq<CacheEntry>, e: CacheEntry, b: seq<CacheEntry>)
    requires UniqueIds(a + [e] + b)
    ensures Delete(a + [e] + b, e.id) == a + b
  {
    var l := a + [e] + b;
    if b == [] {
      assert l[|a|] == e && l[..|a|] == a && a + [] == a;
      forall x | x in a ensures x.id != e.id {
        var i :| 0 <= i < |a| && a[i] == x;
        assert l[i].id != l[|a|].id;
      }
      FilterAll(a, NotId(e.id));
    } else {
      var n := |b| - 1;
      assert l[..|l| - 1] == a + [e] + b[..n];
      DeleteAt(a, e, b[..n]);
      assert l[|a|].id != l[|l| - 1].id;
      assert a + b == (a + b[..n]) + [b[n]];
    }
  }

  lemma NameFound(byName: map<string, CacheEntry>, byId: seq<CacheEntry>, name: string)
    requires Agree(byName, byId) && name in byName
    ensures FindName(byId, name) == Some(byName[name])
  {
  }

  lemma TouchAgrees(byName: map<string, CacheEntry>, byId: seq<CacheEntry>, e: CacheEntry)
    requires Agree(byName, byId) && e in byId
    ensures Agree(byName, Touch(byId, e)) && |Touch(byId, e)| <= |byId|
  {
    UniqueFiltered(byId, NotId(e.id));
    forall x | x in byId && x.id == e.id ensures x == e {
      GetMember(byId, x);
      GetMember(byId, e);
    }
    DeleteShrinks(byId, e);
  }

  lemma {:induction false} DeleteShrinks(l: seq<CacheEntry>, e: CacheEntry)
    requires e in l
    ensures |Delete(l, e.id)| < |l|
  {
    if l[|l| - 1].id != e.id { DeleteShrinks(l[..|l| - 1], e); }
  }
}
