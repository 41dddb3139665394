/**
 Where a sandbox is (packages/gateway/src/find.ts): the cache answers first, or every node is
 asked and their answers are adjudicated.
 */
module Finder {
  import opened Wrappers
  import opened Fleet
  import opened NameCache

  datatype LookupAnswer = Holds(id: string, name: Option<string>) | Absent | Silent(why: string)

  datatype Found =
    | One(node: NodeId, id: string, name: Option<string>)
    | Conflict(nodes: set<NodeId>)
    | Nowhere
    | Unsure(silent: set<NodeId>)

  const NOT_LISTENING := "not listening"

  /** A node with no configuration copy is not dialled: its reading answers for it. */
  function AskNode(node: Node, answer: LookupAnswer): LookupAnswer {
    if AwaitingFirstConfig(node)
    then if node.reading.value.total == 0 then Absent else Silent(NOT_LISTENING)
    else answer
  }

  // ---------------------------------------------------------------- adjudication

  /** Each verdict, exactly when it is due. */
  ghost predicate VerdictIs(r: Found, answers: map<NodeId, LookupAnswer>) {
    match r
    case One(n, id, name) =>
      n in answers && answers[n] == Holds(id, name) && forall o :: o in answers && o != n ==> !answers[o].Holds?
    case Conflict(nodes) =>
      |nodes| > 1 && forall n :: n in nodes <==> n in answers && answers[n].Holds?
    case Nowhere =>
      forall n :: n in answers ==> answers[n].Absent?
    case Unsure(silent) =>
      silent != {} && (forall n :: n in answers ==> !answers[n].Holds?)
      && forall n :: n in silent <==> n in answers && answers[n].Silent?
  }

  lemma AtMostOne(nodes: set<NodeId>, a: NodeId)
    requires a in nodes && forall b :: b in nodes ==> b == a
    ensures |nodes| == 1
  {
    assert nodes == {a};
  }

  /** The answers leave room for one verdict only. */
  lemma VerdictUnique(r: Found, s: Found, answers: map<NodeId, LookupAnswer>)
    requires VerdictIs(r, answers) && VerdictIs(s, answers)
    ensures r == s
  {
    if r.One? && s.Conflict? { AtMostOne(s.nodes, r.node); }
    if s.One? && r.Conflict? { AtMostOne(r.nodes, s.node); }
    if r.Conflict? && s.Conflict? { assert r.nodes == s.nodes; }
    if r.Unsure? && s.Unsure? { assert r.silent == s.silent; }
  }

  /** Once every node has answered: who holds it, who said nothing, and the verdict. */
  method Adjudicate(answers: map<NodeId, LookupAnswer>) returns (r: Found)
    ensures VerdictIs(r, answers)
  {
    var holders, silent, todo := {}, {}, answers.Keys;
    while todo != {}
      invariant todo <= answers.Keys
      invariant forall n :: n in holders <==> n in answers.Keys - todo && answers[n].Holds?
      invariant forall n :: n in silent <==> n in answers.Keys - todo && answers[n].Silent?
      decreases todo
    {
      var n :| n in todo;
      todo := todo - {n};
      if answers[n].Holds? {
        holders := holders + {n};
      } else if answers[n].Silent? {
        silent := silent + {n};
      }
    }
    if |holders| == 1 {
      var n :| n in holders;
      OnlyMember(holders, n);
      return One(n, answers[n].id, answers[n].name);
    }
    if |holders| > 1 { return Conflict(holders); }
    assert holders == {};
    r := if silent != {} then Unsure(silent) else Nowhere;
  }

  lemma OnlyMember(s: set<NodeId>, n: NodeId)
    requires |s| == 1 && n in s
    ensures forall o :: o in s ==> o == n
  {
    assert |s - {n}| == 0;
    assert s == (s - {n}) + {n};
  }

  // ---------------------------------------------------------------- find

  /** What the fleet answers a question: each node, or its reading in its place. */
  function Asked(members: map<NodeId, Node>, answers: map<NodeId, LookupAnswer>): map<NodeId, LookupAnswer>
    requires members.Keys <= answers.Keys
  {
    map n | n in members :: AskNode(members[n], answers[n])
  }

  function NamedEntry(c: Indexes, name: string): Option<CacheEntry> {
    if name in c.byName then Some(c.byName[name]) else None
  }

  /** A hit is a use. */
  function Used(c: Indexes, cached: Option<CacheEntry>): Indexes {
    if cached.Some? then TouchIn(c, cached.value) else c
  }

  // ---------------------------------------------------------------- what a node is taken to say

  /** It has no configuration copy: its port is shut, and its last reading speaks for it. */
  predicate Shut(node: Node) { node.reading.Some? && node.configVersion.None? }

  predicate SaysYes(node: Node, answer: LookupAnswer, id: string, name: Option<string>) {
    !Shut(node) && answer == Holds(id, name)
  }

  /** A plain no: a node that listens says so, a shut one was last seen with no sandbox at all. */
  predicate SaysNo(node: Node, answer: LookupAnswer) {
    if Shut(node) then node.reading.value.total == 0 else answer.Absent?
  }

  /** Not a word: a node that listens is silent, a shut one holds sandboxes nobody can ask about. */
  predicate SaysNothing(node: Node, answer: LookupAnswer) {
    if Shut(node) then node.reading.value.total > 0 else answer.Silent?
  }

  /** The fleet's verdict, told from its members and their answers. */
  ghost predicate FleetSays(r: Found, members: map<NodeId, Node>, answers: map<NodeId, LookupAnswer>)
    requires members.Keys <= answers.Keys
  {
    match r
    case One(n, id, name) =>
      && n in members && SaysYes(members[n], answers[n], id, name)
      && forall o :: o in members && o != n ==> SaysNo(members[o], answers[o]) || SaysNothing(members[o], answers[o])
    case Conflict(nodes) =>
      |nodes| > 1 && forall n :: n in nodes <==> n in members && !Shut(members[n]) && answers[n].Holds?
    case Nowhere =>
      forall n :: n in members ==> SaysNo(members[n], answers[n])
    case Unsure(silent) =>
      && silent != {}
      && (forall n :: n in members ==> SaysNo(members[n], answers[n]) || SaysNothing(members[n], answers[n]))
      && forall n :: n in silent <==> n in members && SaysNothing(members[n], answers[n])
  }

  lemma AdjudicatedFleet(r: Found, members: map<NodeId, Node>, answers: map<NodeId, LookupAnswer>)
    requires members.Keys <= answers.Keys
    ensures VerdictIs(r, Asked(members, answers)) <==> FleetSays(r, members, answers)
  {
    var asked := Asked(members, answers);
    forall n | n in members
      ensures asked[n].Absent? <==> SaysNo(members[n], answers[n])
      ensures asked[n].Silent? <==> SaysNothing(members[n], answers[n])
      ensures asked[n].Holds? <==> !Shut(members[n]) && answers[n].Holds?
      ensures asked[n].Holds? ==> SaysYes(members[n], answers[n], asked[n].id, asked[n].name)
    {
    }
  }

  /** A finding goes in the cache; nothing else does. */
  predicate Caches(was: Indexes, limit: nat, r: Found, now: Indexes) {
    now == if r.One? then PutIn(was, CacheEntry(r.id, r.name, r.node), limit) else was
  }

  /**
   A find over a cache holding `was`: an entry of a present node settles it unless that node
   is to confirm it and says no; with the entry out of the way, if there was one, the fleet
   decides and its one finding is cached.
   */
  ghost predicate Finds(members: map<NodeId, Node>, answers: map<NodeId, LookupAnswer>, cached: Option<CacheEntry>,
      confirm: bool, confirmed: LookupAnswer, was: Indexes, limit: nat, r: Found, now: Indexes)
    requires members.Keys <= answers.Keys
  {
    if cached.None? then FleetSays(r, members, answers) && Caches(was, limit, r, now)
    else
      var e := cached.value;
      if e.nodeId in members && !confirm then r == One(e.nodeId, e.id, e.name) && now == was
      else if e.nodeId in members && SaysNothing(members[e.nodeId], confirmed) then
        r == Unsure({e.nodeId}) && now == was
      else if e.nodeId in members && !SaysNo(members[e.nodeId], confirmed) then
        r.One? && r.node == e.nodeId && SaysYes(members[e.nodeId], confirmed, r.id, r.name) && now == was
      else FleetSays(r, members, answers) && Caches(EvictFrom(was, e), limit, r, now)
  }

  /** A shut node that holds sandboxes: no name is ever new while it is there. */
  predicate HoldsUnseen(members: map<NodeId, Node>, n: NodeId) {
    n in members && members[n].configVersion.None? && members[n].reading.Some? && members[n].reading.value.total > 0
  }

  /**
   While a member holds sandboxes and has no configuration copy, nothing is found nowhere:
   with no node saying yes a find is unsure and names that node, and to confirm an entry of
   its own leaves the find unsure and the entry cached.
   */
  lemma UnseenIsNeverNowhere(members: map<NodeId, Node>, answers: map<NodeId, LookupAnswer>, cached: Option<CacheEntry>,
      confirm: bool, confirmed: LookupAnswer, was: Indexes, limit: nat, r: Found, now: Indexes, n: NodeId)
    requires members.Keys <= answers.Keys && HoldsUnseen(members, n)
    requires Finds(members, answers, cached, confirm, confirmed, was, limit, r, now)
    ensures !r.Nowhere?
    ensures cached.None? && (forall o :: o in members && !Shut(members[o]) ==> !answers[o].Holds?) ==>
      r.Unsure? && n in r.silent
    ensures confirm && cached.Some? && cached.value.nodeId == n ==> r == Unsure({n}) && now == was
  {
    assert SaysNothing(members[n], answers[n]);
    if r.Conflict? && cached.None? {
      assert |r.nodes| > 0;
      var o :| o in r.nodes;
      assert answers[o].Holds?;
    }
  }

  /** Where a find stands between its awaits: decided, waiting for the cached node, or for every node. */
  datatype Turn = Settled(found: Found) | AskCached(entry: CacheEntry) | AskFleet

  class Finder {
    const fleet: Fleet
    const cache: NameCache

    constructor (fleet: Fleet, cache: NameCache)
      ensures this.fleet == fleet && this.cache == cache
    {
      this.fleet, this.cache := fleet, cache;
    }

    /** Up to the first await: an entry of a removed node goes; any other is trusted, or is to be confirmed. */
    method Consult(cached: Option<CacheEntry>, confirm: bool) returns (t: Turn)
      requires cache.Valid()
      modifies cache
      ensures cache.Valid()
      ensures var known := cached.Some? && cached.value.nodeId in fleet.members;
              && t == (if !known then AskFleet
                       else if confirm then AskCached(cached.value)
                       else Settled(One(cached.value.nodeId, cached.value.id, cached.value.name)))
              && cache.Here() == if cached.Some? && !known then EvictFrom(old(cache.Here()), cached.value)
                                 else old(cache.Here())
      ensures old(cache.InStep()) && (cached.Some? ==> cached.value in old(cache.byId)) ==> cache.InStep()
    {
      if cached.Some? {
        var e := cached.value;
        if e.nodeId !in fleet.members {
          if e in cache.byId { EvictResident(cache.byId, e); }
          cache.Evict(e);
        } else if !confirm {
          return Settled(One(e.nodeId, e.id, e.name));
        } else {
          return AskCached(e);
        }
      }
      t := AskFleet;
    }

    /** The cached node has answered. The cache may have moved on since: the entry may be gone from it, or replaced. */
    method Confirmed(e: CacheEntry, answer: LookupAnswer) returns (t: Turn)
      requires cache.Valid()
      modifies cache
      ensures cache.Valid()
      ensures match answer
              case Holds(id, name) => t == Settled(One(e.nodeId, id, name)) && cache.Here() == old(cache.Here())
              case Silent(_) => t == Settled(Unsure({e.nodeId})) && cache.Here() == old(cache.Here())
              case Absent => t == AskFleet && cache.Here() == EvictFrom(old(cache.Here()), e)
      ensures old(cache.InStep()) ==> (cache.InStep() <==> (answer.Absent? ==> EvictSafe(old(cache.byId), e)))
    {
      match answer {
        case Holds(id, name) => t := Settled(One(e.nodeId, id, name));
        case Silent(_) => t := Settled(Unsure({e.nodeId}));
        case Absent =>
          cache.Evict(e);
          t := AskFleet;
      }
    }

    /** Every node has answered: the verdict, and a single finding cached. */
    method Conclude(asked: map<NodeId, LookupAnswer>) returns (r: Found)
      requires cache.Valid()
      modifies cache
      ensures cache.Valid() && VerdictIs(r, asked)
      ensures Caches(old(cache.Here()), cache.limit, r, cache.Here())
      ensures old(cache.InStep()) ==> cache.InStep()
    {
      r := Adjudicate(asked);
      if r.One? {
        cache.PutEntry(CacheEntry(r.id, r.name, r.node));
      }
    }

    /** A whole find with nothing run at its awaits: `confirmed` is the cached node's answer, `answers` each node's. */
    method Find(cached: Option<CacheEntry>, confirm: bool, confirmed: LookupAnswer, answers: map<NodeId, LookupAnswer>)
      returns (r: Found)
      requires cache.Valid() && fleet.members.Keys <= answers.Keys
      modifies cache
      ensures cache.Valid()
      ensures Finds(fleet.members, answers, cached, confirm, confirmed, old(cache.Here()), cache.limit, r, cache.Here())
    {
      var t := Consult(cached, confirm);
      if t.AskCached? {
        t := Confirmed(t.entry, AskNode(fleet.members[t.entry.nodeId], confirmed));
      }
      if t.Settled? { return t.found; }
      r := Conclude(Asked(fleet.members, answers));
      AdjudicatedFleet(r, fleet.members, answers);
    }

    method ByName(name: string, confirm: bool, confirmed: LookupAnswer, answers: map<NodeId, LookupAnswer>)
      returns (r: Found)
      requires cache.Valid() && fleet.members.Keys <= answers.Keys
      modifies cache
      ensures cache.Valid()
      ensures var cached := NamedEntry(old(cache.Here()), name);
              Finds(fleet.members, answers, cached, confirm, confirmed, Used(old(cache.Here()), cached),
                    cache.limit, r, cache.Here())
    {
      var cached := cache.GetByName(name);
      r := Find(cached, confirm, confirmed, answers);
    }

    method ById(id: string, answers: map<NodeId, LookupAnswer>) returns (r: Found)
      requires cache.Valid() && fleet.members.Keys <= answers.Keys
      modifies cache
      ensures cache.Valid()
      ensures var cached := Get(old(cache.byId), id);
              Finds(fleet.members, answers, cached, false, Absent, Used(old(cache.Here()), cached),
                    cache.limit, r, cache.Here())
    {
      var cached := cache.GetById(id);
      r := Find(cached, false, Absent, answers);
    }

    /** After a cached node's 404: only its plain no, or its removal, evicts. */
    method Verify(entry: CacheEntry, answer: LookupAnswer)
      requires cache.Valid()
      modifies cache
      ensures cache.Valid()
      ensures var evicts := entry.nodeId in fleet.members ==> SaysNo(fleet.members[entry.nodeId], answer);
              && cache.Here() == (if evicts then EvictFrom(old(cache.Here()), entry) else old(cache.Here()))
              && (old(cache.InStep()) ==> (cache.InStep() <==> (evicts ==> EvictSafe(old(cache.byId), entry))))
    {
      if entry.nodeId !in fleet.members {
        cache.Evict(entry);
        return;
      }
      if AskNode(fleet.members[entry.nodeId], answer).Absent? {
        cache.Evict(entry);
      }
    }
  }
}
