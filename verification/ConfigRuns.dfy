/**
 A version means its content, in every run of gateway writes, check-ins, lost answers, failed
 applications, removals and restarts on either side.
 */
module ConfigRuns {
  import opened Wrappers
  import opened Fleet
  import opened Config

  /**
   The gateway's database and its nodes' swap targets; each node's copy, and the answer on
   its way to it. `history` and `swapHistory` record what each version was; `gone`, every
   node ever removed.
   */
  datatype State = State(
    db: Db,
    swaps: map<NodeId, nat>,
    copies: map<NodeId, Bundle>,
    onItsWay: map<NodeId, Option<Bundle>>,
    history: map<nat, Content>,
    swapHistory: map<nat, map<NodeId, nat>>,
    gone: set<NodeId>)

  datatype Event =
    | Write(patch: Patch, now: int)
    | Register(name: string, image: string, now: int)
    | RemoveTemplate(name: string)
    | SetSwap(id: NodeId, gb: nat)
    | GatewayRestarts(seed: Settings)
    | ChecksIn(id: NodeId)
    | Arrives(id: NodeId, applies: bool)
    | GetsLost(id: NodeId)
    | NodeRestarts(id: NodeId)
    | RemoveNode(id: NodeId)

  function Runs(s: State, id: NodeId): Option<nat> {
    if id in s.copies then Some(s.copies[id].version) else None
  }

  /** The gateway's content and swap targets at this moment, put on record under its version. */
  function OnRecord(s: State): State {
    s.(history := s.history[s.db.version := s.db.content], swapHistory := s.swapHistory[s.db.version := s.swaps])
  }

  /** One check-in at a time is in flight per node. */
  predicate Happens(s: State, e: Event) {
    match e
    case ChecksIn(id) => id !in s.onItsWay
    case Arrives(id, _) => id in s.onItsWay
    case GetsLost(id) => id in s.onItsWay
    case _ => true
  }

  function After(s: State, e: Event): State
    requires Happens(s, e)
  {
    match e
    case Write(p, now) => OnRecord(s.(db := Written(s.db, p, now)))
    case Register(name, image, now) => OnRecord(s.(db := Registered(s.db, name, image, now)))
    case RemoveTemplate(name) => OnRecord(s.(db := Removed(s.db, name)))
    case SetSwap(id, gb) =>
      if id !in s.swaps then s
      else OnRecord(s.(db := s.db.(version := s.db.version + 1), swaps := s.swaps[id := gb]))
    case GatewayRestarts(seed) => OnRecord(s.(db := Seeded(Some(s.db), seed)))
    case ChecksIn(id) =>
      var joined := if id in s.swaps then s else OnRecord(s.(swaps := s.swaps[id := 0]));
      joined.(onItsWay := s.onItsWay[id := AnswerTo(s.db, Runs(s, id), joined.swaps[id])])
    case Arrives(id, applies) =>
      var copy := Applied(if id in s.copies then Some(s.copies[id]) else None, Answered(s.onItsWay[id], applies));
      s.(copies := if copy.Some? then s.copies[id := copy.value] else s.copies, onItsWay := s.onItsWay - {id})
    case GetsLost(id) => s.(onItsWay := s.onItsWay - {id})
    case NodeRestarts(id) => s.(onItsWay := s.onItsWay - {id})
    case RemoveNode(id) => OnRecord(s.(swaps := s.swaps - {id}, gone := s.gone + {id}))
  }

  // ---------------------------------------------------------------- what a version stands for

  /** A change of content never keeps its version, and no write takes the version back. */
  predicate Counts(before: Db, after: Db) {
    after.version >= before.version && (after.version == before.version ==> after.content == before.content)
  }

  lemma EveryWriteCounts(db: Db, p: Patch, name: string, image: string, now: int, seed: Settings)
    ensures Counts(db, Written(db, p, now)) && Counts(db, Registered(db, name, image, now))
    ensures Counts(db, Removed(db, name)) && Counts(db, Seeded(Some(db), seed))
  {
  }

  /** A bundle is what the gateway held under its version; its swap target too, for a node never removed. */
  predicate Means(s: State, id: NodeId, b: Bundle) {
    && b.version <= s.db.version
    && b.version in s.history && s.history[b.version] == b.content
    && b.version in s.swapHistory
    && (id !in s.gone ==> id in s.swapHistory[b.version] && s.swapHistory[b.version][id] == b.swapGb)
  }

  ghost predicate Inv(s: State) {
    && (forall v :: v in s.history || v in s.swapHistory ==> v <= s.db.version)
    && s.db.version in s.history && s.history[s.db.version] == s.db.content
    && s.db.version in s.swapHistory && s.swapHistory[s.db.version] == s.swaps
    && (forall id :: id in s.copies ==> Means(s, id, s.copies[id]))
    && (forall id :: id in s.onItsWay && s.onItsWay[id].Some? ==>
          Means(s, id, s.onItsWay[id].value) &&
          (id in s.copies ==> s.onItsWay[id].value.version >= s.copies[id].version))
  }

  ghost predicate Starts(s: State) {
    s.copies == map[] && s.onItsWay == map[] && s.gone == {} && s.swaps == map[]
    && s.history == map[s.db.version := s.db.content] && s.swapHistory == map[s.db.version := map[]]
  }

  lemma StartsRight(s: State)
    requires Starts(s)
    ensures Inv(s)
  {
  }

  /** A recorded bundle keeps its meaning through a gateway write. */
  lemma MeansAfterWrite(s: State, db: Db, swaps: map<NodeId, nat>, id: NodeId, b: Bundle)
    requires Inv(s) && Means(s, id, b) && Counts(s.db, db)
    requires db.version == s.db.version ==>
      forall n :: n in s.swaps && n !in s.gone ==> n in swaps && swaps[n] == s.swaps[n]
    ensures Means(OnRecord(s.(db := db, swaps := swaps)), id, b)
  {
  }

  lemma WriteKeeps(s: State, db: Db, swaps: map<NodeId, nat>)
    requires Inv(s) && Counts(s.db, db)
    requires db.version == s.db.version ==>
      forall n :: n in s.swaps && n !in s.gone ==> n in swaps && swaps[n] == s.swaps[n]
    ensures Inv(OnRecord(s.(db := db, swaps := swaps)))
  {
    forall id | id in s.copies ensures Means(OnRecord(s.(db := db, swaps := swaps)), id, s.copies[id]) {
      MeansAfterWrite(s, db, swaps, id, s.copies[id]);
    }
    forall id | id in s.onItsWay && s.onItsWay[id].Some?
      ensures Means(OnRecord(s.(db := db, swaps := swaps)), id, s.onItsWay[id].value)
    {
      MeansAfterWrite(s, db, swaps, id, s.onItsWay[id].value);
    }
  }

  lemma CheckInKeeps(s: State, id: NodeId)
    requires Inv(s) && Happens(s, ChecksIn(id))
    ensures Inv(After(s, ChecksIn(id)))
  {
    if id !in s.swaps { WriteKeeps(s, s.db, s.swaps[id := 0]); }
  }

  lemma RemoveKeeps(s: State, id: NodeId)
    requires Inv(s)
    ensures Inv(After(s, RemoveNode(id)))
  {
    var m := s.(gone := s.gone + {id});
    assert Inv(m);
    WriteKeeps(m, m.db, m.swaps - {id});
  }

  lemma ArriveKeeps(s: State, id: NodeId, applies: bool)
    requires Inv(s) && Happens(s, Arrives(id, applies))
    ensures Inv(After(s, Arrives(id, applies)))
  {
    var t := After(s, Arrives(id, applies));
    forall n | n in t.copies ensures Means(t, n, t.copies[n]) {
      assert n != id ==> n in s.copies;
      assert Means(s, n, t.copies[n]);
    }
  }

  lemma RestartKeeps(s: State, seed: Settings)
    requires Inv(s)
    ensures Inv(After(s, GatewayRestarts(seed)))
  {
    WriteKeeps(s, Seeded(Some(s.db), seed), s.swaps);
  }

  lemma StepKeeps(s: State, e: Event)
    requires Inv(s) && Happens(s, e)
    ensures Inv(After(s, e))
  {
    match e {
      case Write(p, now) => WriteKeeps(s, Written(s.db, p, now), s.swaps);
      case Register(name, image, now) => WriteKeeps(s, Registered(s.db, name, image, now), s.swaps);
      case RemoveTemplate(name) => WriteKeeps(s, Removed(s.db, name), s.swaps);
      case SetSwap(id, gb) =>
        if id in s.swaps { WriteKeeps(s, s.db.(version := s.db.version + 1), s.swaps[id := gb]); }
      case GatewayRestarts(seed) =>
        RestartKeeps(s, seed);
      case ChecksIn(id) => CheckInKeeps(s, id);
      case Arrives(id, applies) => ArriveKeeps(s, id, applies);
      case RemoveNode(id) => RemoveKeeps(s, id);
      case _ =>
    }
  }

  ghost predicate Run(s: State, events: seq<Event>)
    decreases |events|
  {
    events == [] || (Happens(s, events[0]) && Run(After(s, events[0]), events[1..]))
  }

  function AfterAll(s: State, events: seq<Event>): State
    requires Run(s, events)
    decreases |events|
  {
    if events == [] then s else AfterAll(After(s, events[0]), events[1..])
  }

  /**
   Version means content: after any run, a node whose copy carries version v runs exactly
   the settings and the templates the gateway held at v, and, unless it was ever removed,
   the swap target the gateway held for it at v.
   */
  lemma {:induction false} VersionMeansContent(s: State, events: seq<Event>)
    requires Inv(s) && Run(s, events)
    ensures Inv(AfterAll(s, events))
    ensures var t := AfterAll(s, events); forall id :: id in t.copies ==> Means(t, id, t.copies[id])
    decreases |events|
  {
    if events != [] {
      StepKeeps(s, events[0]);
      VersionMeansContent(After(s, events[0]), events[1..]);
    }
  }

  lemma VersionStepUp(s: State, e: Event, id: NodeId)
    requires Inv(s) && Happens(s, e) && id in s.copies
    ensures id in After(s, e).copies && After(s, e).copies[id].version >= s.copies[id].version
    ensures After(s, e).db.version >= s.db.version
    ensures forall v :: v in s.history && v != s.db.version ==>
              v in After(s, e).history && After(s, e).history[v] == s.history[v]
  {
  }

  /** A node's version never goes down, and what a past version meant is never rewritten. */
  lemma {:induction false} VersionsOnlyRise(s: State, events: seq<Event>, id: NodeId)
    requires Inv(s) && Run(s, events) && id in s.copies
    ensures var t := AfterAll(s, events);
            && id in t.copies && t.copies[id].version >= s.copies[id].version
            && s.copies[id].version in t.history && t.history[s.copies[id].version] == s.copies[id].content
    decreases |events|
  {
    if events != [] {
      VersionStepUp(s, events[0], id);
      StepKeeps(s, events[0]);
      HistoryStands(s, events[0], s.copies[id].version);
      VersionsOnlyRise(After(s, events[0]), events[1..], id);
      HistoryStaysPut(After(s, events[0]), events[1..], s.copies[id].version);
    }
  }

  lemma HistoryStands(s: State, e: Event, v: nat)
    requires Inv(s) && Happens(s, e) && v in s.history
    ensures v in After(s, e).history && After(s, e).history[v] == s.history[v]
  {
  }

  lemma {:induction false} HistoryStaysPut(s: State, events: seq<Event>, v: nat)
    requires Inv(s) && Run(s, events) && v in s.history
    ensures v in AfterAll(s, events).history && AfterAll(s, events).history[v] == s.history[v]
    decreases |events|
  {
    if events != [] {
      HistoryStands(s, events[0], v);
      StepKeeps(s, events[0]);
      HistoryStaysPut(After(s, events[0]), events[1..], v);
    }
  }

  /** A check-in whose answer arrives and applies brings the node to what the gateway holds. */
  lemma CheckInCatchesUp(s: State, id: NodeId)
    requires Inv(s) && Happens(s, ChecksIn(id))
    ensures var t := After(After(s, ChecksIn(id)), Arrives(id, true));
            && id in t.copies && t.copies[id].version == t.db.version && t.copies[id].content == t.db.content
            && (id !in s.gone ==> id in t.swaps && t.copies[id].swapGb == t.swaps[id])
  {
    CheckInKeeps(s, id);
    ArriveKeeps(After(s, ChecksIn(id)), id, true);
  }

  /**
   When a check-in brings a node to its swap target: exactly when it carries a bundle, the
   node having no copy or one of another version, or the copy's target was right already.
   */
  lemma CheckInMovesSwap(s: State, id: NodeId)
    requires Inv(s) && Happens(s, ChecksIn(id))
    ensures var target := if id in s.swaps then s.swaps[id] else 0;
            var t := After(After(s, ChecksIn(id)), Arrives(id, true));
            && id in t.copies && id in t.swaps && t.swaps[id] == target
            && (t.copies[id].swapGb == target <==>
                  id !in s.copies || s.copies[id].version != s.db.version || s.copies[id].swapGb == target)
  {
  }

  /** And the last can fail only for a node that was removed at some time. */
  lemma WrongOnlyIfRemoved(s: State, id: NodeId)
    requires Inv(s) && id in s.copies && s.copies[id].version == s.db.version
    requires s.copies[id].swapGb != if id in s.swaps then s.swaps[id] else 0
    ensures id in s.gone
  {
    assert Means(s, id, s.copies[id]);
  }

  // ---------------------------------------------------------------- removed and added again

  function RemovedAndBack(): seq<Event> {
    [ChecksIn("n"), Arrives("n", true), SetSwap("n", 8), ChecksIn("n"), Arrives("n", true),
     RemoveNode("n"), ChecksIn("n"), Arrives("n", true)]
  }

  function Fresh(content: Content): State {
    State(Db(1, content, None), map[], map[], map[], map[1 := content], map[1 := map[]], {})
  }

  /**
   The limit: removing a node does not count as a change of configuration, so one that comes
   back with its copy runs a swap target of its past under the gateway's version, and no
   check-in of its own repairs that.
   */
  lemma RemovedKeepsItsSwap(content: Content)
    ensures Starts(Fresh(content)) && Run(Fresh(content), RemovedAndBack())
    ensures var t := AfterAll(Fresh(content), RemovedAndBack());
            && t.copies["n"].version == t.db.version && t.copies["n"].swapGb == 8 && t.swaps["n"] == 0
            && AnswerTo(t.db, Runs(t, "n"), t.swaps["n"]) == None
  {
    var e := RemovedAndBack();
    var s2 := FirstCopy(content);
    var s5 := SwapSet(content, s2);
    BackAgain(content, s5);
    Joined(s2, [e[2], e[3], e[4]], [e[5], e[6], e[7]]);
    Joined(Fresh(content), [e[0], e[1]], [e[2], e[3], e[4]] + [e[5], e[6], e[7]]);
    assert e == [e[0], e[1]] + ([e[2], e[3], e[4]] + [e[5], e[6], e[7]]);
  }

  lemma {:induction false} Joined(s: State, a: seq<Event>, b: seq<Event>)
    requires Run(s, a) && Run(AfterAll(s, a), b)
    ensures Run(s, a + b) && AfterAll(s, a + b) == AfterAll(AfterAll(s, a), b)
    decreases |a|
  {
    if a == [] {
      assert [] + b == b;
    } else {
      Joined(After(s, a[0]), a[1..], b);
      assert (a + b)[1..] == a[1..] + b;
    }
  }

  lemma FirstCopy(content: Content) returns (s: State)
    ensures var e := [ChecksIn("n"), Arrives("n", true)];
            Run(Fresh(content), e) && s == AfterAll(Fresh(content), e)
    ensures s.db == Db(1, content, None) && s.swaps == map["n" := 0] && s.onItsWay == map[] && Runs(s, "n") == Some(1)
  {
    var s0 := Fresh(content);
    var s1 := After(s0, ChecksIn("n"));
    s := After(s1, Arrives("n", true));
    assert [ChecksIn("n"), Arrives("n", true)][1..] == [Arrives("n", true)];
    assert [Arrives("n", true)][1..] == [];
  }

  lemma SwapSet(content: Content, s: State) returns (t: State)
    requires s.db == Db(1, content, None) && s.swaps == map["n" := 0] && s.onItsWay == map[] && Runs(s, "n") == Some(1)
    ensures var e := [SetSwap("n", 8), ChecksIn("n"), Arrives("n", true)];
            Run(s, e) && t == AfterAll(s, e)
    ensures t.db == Db(2, content, None) && t.onItsWay == map[] && Runs(t, "n") == Some(2) && t.copies["n"].swapGb == 8
  {
    var a := After(s, SetSwap("n", 8));
    var b := After(a, ChecksIn("n"));
    t := After(b, Arrives("n", true));
    var e := [SetSwap("n", 8), ChecksIn("n"), Arrives("n", true)];
    assert e[1..] == [ChecksIn("n"), Arrives("n", true)];
    assert [ChecksIn("n"), Arrives("n", true)][1..] == [Arrives("n", true)];
    assert [Arrives("n", true)][1..] == [];
  }

  lemma BackAgain(content: Content, t: State)
    requires t.db == Db(2, content, None) && t.onItsWay == map[] && Runs(t, "n") == Some(2) && t.copies["n"].swapGb == 8
    ensures var e := [RemoveNode("n"), ChecksIn("n"), Arrives("n", true)];
            && Run(t, e)
            && var u := AfterAll(t, e);
               u.db == t.db && u.copies == t.copies && "n" in u.swaps && u.swaps["n"] == 0
  {
    var a := After(t, RemoveNode("n"));
    var b := After(a, ChecksIn("n"));
    assert b.onItsWay["n"] == None;
    var c := After(b, Arrives("n", true));
    assert c.copies == t.copies;
    var e := [RemoveNode("n"), ChecksIn("n"), Arrives("n", true)];
    assert e[1..] == [ChecksIn("n"), Arrives("n", true)];
    assert [ChecksIn("n"), Arrives("n", true)][1..] == [Arrives("n", true)];
    assert [Arrives("n", true)][1..] == [];
  }
}
