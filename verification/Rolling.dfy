/**
 The fleet upgrade, rolled over the nodes by their check-ins
 (packages/gateway/src/rolling.ts): one node is told at a time, and told once.
 */
module Rolling {
  import opened Wrappers
  import opened Fleet

  const TOLD_TIMEOUT := 20 * 60_000

  datatype Standing = Unknown | Current | Unreachable | Ahead | Upgrading | Stuck | Unavailable | Behind

  predicate TellStands(node: Node) {
    node.upgradeTold.Some? && node.build.Some? && node.build.value.commit == node.upgradeTold.value.build
  }

  function StandingOf(node: Node, gateway: Option<Build>, now: int): Standing {
    if gateway.None? || node.build.None? then Unknown
    else
      var build, target, down := node.build.value, gateway.value, DownReason(node, now);
      if build.commit == target.commit then if down.None? then Current else Unreachable
      else if build.committedAt > target.committedAt then if down.None? then Ahead else Unreachable
      else
        var running := node.selfUpgrade.Some? && node.selfUpgrade.value.running;
        if TellStands(node) then
          if now - node.upgradeTold.value.at < TOLD_TIMEOUT || (down.None? && running) then Upgrading else Stuck
        else if down.Some? then Unreachable
        else if running then Upgrading
        else if node.selfUpgrade.None? || !node.selfUpgrade.value.available then Unavailable
        else Behind
  }

  /** It reports a build, and that build is not the gateway's and not newer. */
  predicate Older(node: Node, gateway: Option<Build>) {
    gateway.Some? && node.build.Some? && node.build.value.commit != gateway.value.commit &&
    node.build.value.committedAt <= gateway.value.committedAt
  }

  /** Heard from, and its upgrade unit is alive. */
  predicate Building(node: Node, now: int) {
    DownReason(node, now).None? && node.selfUpgrade.Some? && node.selfUpgrade.value.running
  }

  /** The three standings the roll turns on, each in one line. */
  lemma StandingMeans(node: Node, gateway: Option<Build>, now: int)
    ensures StandingOf(node, gateway, now).Upgrading? <==>
              Older(node, gateway) && (Young(node, now) || Building(node, now))
    ensures StandingOf(node, gateway, now).Stuck? <==>
              Older(node, gateway) && TellStands(node) && !Young(node, now) && !Building(node, now)
    ensures StandingOf(node, gateway, now).Behind? <==>
              Older(node, gateway) && !TellStands(node) && DownReason(node, now).None? &&
              node.selfUpgrade == Some(SelfUpgrade(true, false))
  {
  }

  /** The other five: nothing to compare, the gateway's own build, a newer one, no word from it, unable. */
  lemma OtherStandings(node: Node, gateway: Option<Build>, now: int)
    ensures StandingOf(node, gateway, now).Unknown? <==> gateway.None? || node.build.None?
    ensures gateway.Some? && node.build.Some? ==>
      var same, newer := node.build.value.commit == gateway.value.commit,
                         node.build.value.committedAt > gateway.value.committedAt;
      var heard := DownReason(node, now).None?;
      && (StandingOf(node, gateway, now).Current? <==> same && heard)
      && (StandingOf(node, gateway, now).Ahead? <==> !same && newer && heard)
      && (StandingOf(node, gateway, now).Unreachable? <==> !heard && (same || newer || !TellStands(node)))
      && (StandingOf(node, gateway, now).Unavailable? <==>
            !same && !newer && heard && !TellStands(node) && !Building(node, now) &&
            (node.selfUpgrade.None? || !node.selfUpgrade.value.available))
  {
  }

  predicate RollingDecision(members: map<NodeId, Node>, gateway: Option<Build>, id: NodeId, now: int)
    requires id in members
  {
    && StandingOf(members[id], gateway, now) == Behind
    && forall o :: o in members && o != id ==> StandingOf(members[o], gateway, now) != Upgrading
  }

  /** A tell that is fulfilled, or moot. */
  predicate Clears(node: Node, gateway: Option<Build>, now: int) {
    node.upgradeTold.Some? &&
    (!TellStands(node) || StandingOf(node, gateway, now).Current? || StandingOf(node, gateway, now).Ahead?)
  }

  /**
   A node just heard from loses its tell when it no longer runs the commit it was told on,
   or runs the gateway's build or a newer one; on no other report, and never before.
   */
  lemma ClearsMeans(node: Node, gateway: Option<Build>, now: int)
    requires DownReason(node, now).None?
    ensures Clears(node, gateway, now) <==>
      && node.upgradeTold.Some?
      && (|| node.build.None? || node.build.value.commit != node.upgradeTold.value.build
          || (gateway.Some? && (node.build.value.commit == gateway.value.commit ||
                                node.build.value.committedAt > gateway.value.committedAt)))
  {
  }

  function Cleared(members: map<NodeId, Node>, gateway: Option<Build>, id: NodeId, now: int): map<NodeId, Node> {
    if id in members && Clears(members[id], gateway, now) then WithTold(members, id, None) else members
  }

  /** Whether the check-in is answered with a tell. */
  predicate Tells(members: map<NodeId, Node>, gateway: Option<Build>, id: NodeId, now: int) {
    id in members && RollingDecision(Cleared(members, gateway, id, now), gateway, id, now)
  }

  function Judged(members: map<NodeId, Node>, gateway: Option<Build>, id: NodeId, now: int): map<NodeId, Node> {
    var cleared := Cleared(members, gateway, id, now);
    if Tells(members, gateway, id, now) && members[id].build.Some?
    then WithTold(cleared, id, Some(Tell(now, members[id].build.value.commit))) else cleared
  }

  function Unstuck(members: map<NodeId, Node>, gateway: Option<Build>, id: NodeId, now: int): map<NodeId, Node> {
    if id in members && StandingOf(members[id], gateway, now).Stuck? then WithTold(members, id, None) else members
  }

  class Rolling {
    const fleet: Fleet
    const gatewayBuild: Option<Build>

    constructor (fleet: Fleet, gatewayBuild: Option<Build>)
      ensures this.fleet == fleet && this.gatewayBuild == gatewayBuild
    {
      this.fleet, this.gatewayBuild := fleet, gatewayBuild;
    }

    /** The verdict for a node that just reported. */
    method OnCheckIn(id: NodeId, now: int) returns (told: bool)
      requires id in fleet.members
      modifies fleet
      ensures fleet.members == Judged(old(fleet.members), gatewayBuild, id, now)
      ensures told == Tells(old(fleet.members), gatewayBuild, id, now)
    {
      var node := fleet.members[id];
      var state := StandingOf(node, gatewayBuild, now);
      if node.upgradeTold.Some? && (!TellStands(node) || state.Current? || state.Ahead?) {
        fleet.SetUpgradeTold(id, None);
      }
      if node.build.None? || !RollingDecision(fleet.members, gatewayBuild, id, now) {
        return false;
      }
      fleet.SetUpgradeTold(id, Some(Tell(now, node.build.value.commit)));
      told := true;
    }

    /** A check-in as its route takes it: the report first, then the verdict; one event of a run. */
    method ReceiveCheckIn(r: Report, now: int) returns (taken: bool, told: bool)
      modifies fleet
      ensures taken == TakesCheckIn(old(fleet.members), r, now)
      ensures var s := State(old(fleet.members), gatewayBuild, gatewayBuild, now);
              && fleet.members == After(s, CheckIn(now, r)).members
              && told == TellsIn(s, CheckIn(now, r), r.nodeId)
    {
      var joined;
      taken, joined := fleet.CheckIn(r, now);
      told := false;
      if taken {
        told := OnCheckIn(r.nodeId, now);
      }
    }

    /** The operator's hand on a stuck node: its tell is forgotten. Refused on any other. */
    method Unstick(id: NodeId, now: int) returns (refused: bool)
      requires id in fleet.members
      modifies fleet
      ensures fleet.members == Unstuck(old(fleet.members), gatewayBuild, id, now)
      ensures fleet.members == if refused then old(fleet.members)
                               else old(fleet.members)[id := old(fleet.members)[id].(upgradeTold := None)]
      ensures var node := old(fleet.members)[id];
              !refused <==>
                && Older(node, gatewayBuild) && node.upgradeTold.Some?
                && node.upgradeTold.value.build == node.build.value.commit
                && now - node.upgradeTold.value.at >= 1200000 && !Building(node, now)
    {
      StandingMeans(fleet.members[id], gatewayBuild, now);
      match StandingOf(fleet.members[id], gatewayBuild, now) {
        case Stuck =>
          fleet.SetUpgradeTold(id, None);
          refused := false;
        case _ => refused := true;
      }
    }
  }

  // ---------------------------------------------------------------- runs

  datatype State = State(members: map<NodeId, Node>, gateway: Option<Build>, newest: Option<Build>, clock: int)

  /** Everything that moves the roll, each at its time. */
  datatype Event =
    | CheckIn(at: int, report: Report)
    | Unstick(at: int, id: NodeId)
    | Remove(at: int, id: NodeId)
    | Restart(at: int, build: Option<Build>)

  /** A commit has one time: the repository's. */
  predicate Dated(b: Option<Build>, history: map<Commit, int>) {
    b.Some? ==> b.value.commit in history && history[b.value.commit] == b.value.committedAt
  }

  /** A gateway is not taken back to an older build. */
  predicate Onward(newest: Option<Build>, b: Option<Build>) {
    newest.Some? && b.Some? ==> b == newest || b.value.committedAt > newest.value.committedAt
  }

  predicate Legal(s: State, e: Event, history: map<Commit, int>) {
    && e.at >= s.clock
    && (e.CheckIn? ==> Dated(e.report.build, history))
    && (e.Restart? ==> Dated(e.build, history) && Onward(s.newest, e.build))
  }

  function After(s: State, e: Event): State {
    match e
    case CheckIn(at, r) =>
      if !TakesCheckIn(s.members, r, at) then s.(clock := at)
      else s.(members := Judged(CheckedIn(s.members, r, at), s.gateway, r.nodeId, at), clock := at)
    case Unstick(at, id) => s.(members := Unstuck(s.members, s.gateway, id, at), clock := at)
    case Remove(at, id) => s.(members := s.members - {id}, clock := at)
    case Restart(at, b) =>
      State(Reloaded(s.members), b, if b.Some? then b else s.newest, at)
  }

  /** This event answers `id` with a tell. */
  predicate TellsIn(s: State, e: Event, id: NodeId) {
    e.CheckIn? && e.report.nodeId == id && TakesCheckIn(s.members, e.report, e.at) &&
    Tells(CheckedIn(s.members, e.report, e.at), s.gateway, id, e.at)
  }

  /** Told less than the timeout ago, and still on the commit it was told on. */
  predicate Young(node: Node, now: int) { TellStands(node) && now - node.upgradeTold.value.at < TOLD_TIMEOUT }

  /** A node that holds a tell still runs the commit it was told on, which is behind every gateway from now on. */
  predicate ToldRight(node: Node, newest: Option<Build>, clock: int) {
    node.upgradeTold.Some? ==>
      && TellStands(node) && newest.Some?
      && node.build.value.commit != newest.value.commit && node.build.value.committedAt <= newest.value.committedAt
      && node.upgradeTold.value.at <= clock
  }

  ghost predicate OneYoung(members: map<NodeId, Node>, now: int) {
    forall a, b :: a in members && b in members && a != b && Young(members[a], now) ==> !Young(members[b], now)
  }

  ghost predicate Inv(s: State, history: map<Commit, int>) {
    && Dated(s.newest, history) && (s.gateway.Some? ==> s.gateway == s.newest)
    && (forall id :: id in s.members ==>
          Dated(s.members[id].build, history) && ToldRight(s.members[id], s.newest, s.clock))
    && OneYoung(s.members, s.clock)
  }

  ghost predicate Run(s: State, events: seq<Event>, history: map<Commit, int>)
    decreases |events|
  {
    events == [] || (Legal(s, events[0], history) && Run(After(s, events[0]), events[1..], history))
  }

  function AfterAll(s: State, events: seq<Event>): State
    decreases |events|
  {
    if events == [] then s else AfterAll(After(s, events[0]), events[1..])
  }

  /** A tell that stands never reads behind, and reads upgrading while young, whoever looks and whenever. */
  lemma TellReads(node: Node, gateway: Option<Build>, newest: Option<Build>, clock: int, now: int)
    requires ToldRight(node, newest, clock) && node.upgradeTold.Some?
    requires gateway.Some? ==> gateway == newest
    ensures !StandingOf(node, gateway, now).Behind? && !Clears(node, gateway, now)
    ensures gateway.Some? && Young(node, now) ==> StandingOf(node, gateway, now).Upgrading?
  {
  }

  lemma YoungerBefore(members: map<NodeId, Node>, now: int, later: int)
    requires OneYoung(members, now) && now <= later
    ensures OneYoung(members, later)
  {
    forall a, b | a in members && b in members && a != b && Young(members[a], later) ensures !Young(members[b], later) {
      assert Young(members[a], now);
      assert !Young(members[b], now);
    }
  }

  /**
   Who is told: a node heard from on an older build, able to upgrade itself and not doing so,
   with no tell standing, while no other node on an older build is building or was told less
   than the timeout ago. Nobody else, and always then.
   */
  lemma ToldWhen(members: map<NodeId, Node>, gateway: Option<Build>, id: NodeId, now: int)
    requires id in members
    ensures Tells(members, gateway, id, now) <==>
      && Older(members[id], gateway) && !TellStands(members[id]) && DownReason(members[id], now).None?
      && members[id].selfUpgrade == Some(SelfUpgrade(true, false))
      && forall o :: o in members && o != id && Older(members[o], gateway) ==>
           !Young(members[o], now) && !Building(members[o], now)
  {
    var cleared := Cleared(members, gateway, id, now);
    StandingMeans(members[id], gateway, now);
    StandingMeans(cleared[id], gateway, now);
    forall o | o in members ensures StandingOf(members[o], gateway, now).Upgrading? <==>
      Older(members[o], gateway) && (Young(members[o], now) || Building(members[o], now))
    {
      StandingMeans(members[o], gateway, now);
    }
    assert forall o :: o in members && o != id ==> cleared[o] == members[o];
  }

  /** What judging leaves of the node judged: its tell, and nothing else of it or of the others. */
  lemma JudgedNode(members: map<NodeId, Node>, gateway: Option<Build>, id: NodeId, now: int)
    requires id in members
    ensures var after := Judged(members, gateway, id, now);
            && after.Keys == members.Keys
            && (forall o :: o in members && o != id ==> after[o] == members[o])
            && after[id] == members[id].(upgradeTold := after[id].upgradeTold)
            && after[id].upgradeTold ==
                 (if Tells(members, gateway, id, now) then Some(Tell(now, members[id].build.value.commit))
                  else if Clears(members[id], gateway, now) then None else members[id].upgradeTold)
  {
    var cleared := Cleared(members, gateway, id, now);
    assert cleared[id].build == members[id].build;
    assert Tells(members, gateway, id, now) ==> cleared[id].build.Some?;
  }

  /** A tell goes out only on a build behind the gateway's. */
  lemma TellsBehind(members: map<NodeId, Node>, gateway: Option<Build>, id: NodeId, now: int)
    requires Tells(members, gateway, id, now)
    ensures id in members && members[id].build.Some? && gateway.Some?
    ensures members[id].build.value.commit != gateway.value.commit
    ensures members[id].build.value.committedAt <= gateway.value.committedAt
  {
    var cleared := Cleared(members, gateway, id, now);
    assert cleared[id].build == members[id].build;
  }

  predicate KeepsTell(node: Node, newest: Option<Build>, clock: int, gateway: Option<Build>, now: int) {
    ToldRight(node.(upgradeTold := if Clears(node, gateway, now) then None else node.upgradeTold), newest, clock)
  }

  /** A report leaves a tell that stands, or one to be cleared. */
  lemma ReportKeepsTell(was: Node, r: Report, s: State, history: map<Commit, int>, now: int)
    requires ToldRight(was, s.newest, s.clock) && Dated(was.build, history) && Dated(r.build, history)
    requires s.gateway.Some? ==> s.gateway == s.newest
    requires s.clock <= now
    ensures KeepsTell(Reported(was, r, now), s.newest, now, s.gateway, now)
    ensures var node := Reported(was, r, now);
            !Clears(node, s.gateway, now) && Young(node, now) ==> Young(was, s.clock)
  {
    var node := Reported(was, r, now);
    if node.upgradeTold.Some? && TellStands(node) {
      assert node.build == was.build;
      TellReads(node, s.gateway, s.newest, now, now);
    }
  }

  /** What a check-in leaves of the node that checked in. */
  lemma CheckedInNode(s: State, e: Event, history: map<Commit, int>)
    requires Inv(s, history) && Legal(s, e, history) && e.CheckIn? && TakesCheckIn(s.members, e.report, e.at)
    ensures var id := e.report.nodeId;
            var now := After(s, e).members;
            && now.Keys == s.members.Keys + {id}
            && (forall o :: o in s.members && o != id ==> now[o] == s.members[o])
            && Dated(now[id].build, history) && ToldRight(now[id], s.newest, e.at)
            && (TellsIn(s, e, id) ==> s.gateway.Some? && now[id].build == e.report.build && e.report.build.Some?)
            && (TellsIn(s, e, id) ==>
                  now[id].upgradeTold == Some(Tell(e.at, now[id].build.value.commit)))
            && (!TellsIn(s, e, id) && Young(now[id], e.at) ==>
                  id in s.members && Young(s.members[id], s.clock))
  {
    var id, at := e.report.nodeId, e.at;
    var was := if id in s.members then s.members[id] else STRANGER;
    var m := CheckedIn(s.members, e.report, at);
    assert m[id] == Reported(was, e.report, at);
    JudgedNode(m, s.gateway, id, at);
    ReportKeepsTell(was, e.report, s, history, at);
    if TellsIn(s, e, id) { TellsBehind(m, s.gateway, id, at); }
  }

  /** Nobody is told while another member reads upgrading; so nobody is told while another's tell is young. */
  lemma NoOtherYoung(s: State, e: Event, history: map<Commit, int>, o: NodeId)
    requires Inv(s, history) && Legal(s, e, history) && e.CheckIn? && TellsIn(s, e, e.report.nodeId)
    requires o in s.members && o != e.report.nodeId
    ensures !StandingOf(s.members[o], s.gateway, e.at).Upgrading? && !Young(s.members[o], e.at)
  {
    var m := Cleared(CheckedIn(s.members, e.report, e.at), s.gateway, e.report.nodeId, e.at);
    assert m[o] == s.members[o];
    assert !StandingOf(m[o], s.gateway, e.at).Upgrading?;
    if Young(s.members[o], e.at) {
      TellReads(s.members[o], s.gateway, s.newest, s.clock, e.at);
      assert false;
    }
  }

  lemma CheckInKeeps(s: State, e: Event, history: map<Commit, int>)
    requires Inv(s, history) && Legal(s, e, history) && e.CheckIn? && TakesCheckIn(s.members, e.report, e.at)
    ensures Inv(After(s, e), history)
  {
    var t, id := After(s, e), e.report.nodeId;
    CheckedInNode(s, e, history);
    YoungerBefore(s.members, s.clock, e.at);
    forall a, b | a in t.members && b in t.members && a != b && Young(t.members[a], e.at)
      ensures !Young(t.members[b], e.at)
    {
      if TellsIn(s, e, id) {
        if a != id { NoOtherYoung(s, e, history, a); } else { NoOtherYoung(s, e, history, b); }
      } else {
        assert Young(s.members[a], s.clock);
        assert Young(t.members[b], e.at) ==> Young(s.members[b], s.clock);
      }
    }
  }

  lemma OthersKeep(s: State, e: Event, history: map<Commit, int>)
    requires Inv(s, history) && Legal(s, e, history) && (e.CheckIn? ==> !TakesCheckIn(s.members, e.report, e.at))
    ensures Inv(After(s, e), history)
  {
    YoungerBefore(s.members, s.clock, e.at);
    var t := After(s, e);
    forall id | id in t.members
      ensures id in s.members && t.members[id].build == s.members[id].build
      ensures t.members[id].upgradeTold == s.members[id].upgradeTold || t.members[id].upgradeTold.None?
    {
    }
    forall a, b | a in t.members && b in t.members && a != b && Young(t.members[a], e.at)
      ensures !Young(t.members[b], e.at)
    {
      assert Young(s.members[a], e.at);
      assert Young(t.members[b], e.at) ==> Young(s.members[b], e.at);
    }
  }

  lemma StepKeeps(s: State, e: Event, history: map<Commit, int>)
    requires Inv(s, history) && Legal(s, e, history)
    ensures Inv(After(s, e), history)
  {
    if e.CheckIn? && TakesCheckIn(s.members, e.report, e.at) {
      CheckInKeeps(s, e, history);
    } else {
      OthersKeep(s, e, history);
    }
  }

  /**
   One at a time: in every run of check-ins, unsticks, removals and gateway restarts that
   begins with no tell anywhere and never takes the gateway back, no two members hold a
   standing tell younger than the timeout.
   */
  lemma {:induction false} OneAtATime(s: State, events: seq<Event>, history: map<Commit, int>)
    requires Inv(s, history) && Run(s, events, history)
    ensures Inv(AfterAll(s, events), history) && OneYoung(AfterAll(s, events).members, AfterAll(s, events).clock)
    decreases |events|
  {
    if events != [] {
      StepKeeps(s, events[0], history);
      OneAtATime(After(s, events[0]), events[1..], history);
    }
  }

  /** An empty fleet, or one nobody has told anything, is where runs begin. */
  lemma BeginsUntold(s: State, history: map<Commit, int>)
    requires Dated(s.newest, history) && s.gateway == s.newest
    requires forall id :: id in s.members ==> Dated(s.members[id].build, history) && s.members[id].upgradeTold.None?
    ensures Inv(s, history)
  {
  }

  // ---------------------------------------------------------------- told once

  /** What puts a told node back in line. */
  predicate Releases(s: State, e: Event, id: NodeId, commit: Commit) {
    match e
    case CheckIn(at, r) =>
      r.nodeId == id && TakesCheckIn(s.members, r, at) && (r.build.None? || r.build.value.commit != commit)
    case Unstick(at, u) => u == id && id in s.members && StandingOf(s.members[id], s.gateway, at).Stuck?
    case Remove(_, u) => u == id
    case Restart(_, _) => false
  }

  predicate ToldOn(s: State, id: NodeId, commit: Commit) {
    id in s.members && s.members[id].upgradeTold.Some? && s.members[id].upgradeTold.value.build == commit
  }

  lemma StaysTold(s: State, e: Event, history: map<Commit, int>, id: NodeId, commit: Commit)
    requires Inv(s, history) && Legal(s, e, history) && ToldOn(s, id, commit) && !Releases(s, e, id, commit)
    ensures ToldOn(After(s, e), id, commit) && !TellsIn(s, e, id)
  {
    if e.CheckIn? && TakesCheckIn(s.members, e.report, e.at) && e.report.nodeId == id {
      var node := Reported(s.members[id], e.report, e.at);
      assert node.build == s.members[id].build;
      TellReads(node, s.gateway, s.newest, e.at, e.at);
    }
  }

  lemma {:induction false} ToldUntilReleased(s: State, events: seq<Event>, history: map<Commit, int>, id: NodeId,
      commit: Commit)
    requires Inv(s, history) && Run(s, events, history) && ToldOn(s, id, commit)
    requires forall i :: 0 <= i < |events| ==> !Releases(AfterAll(s, events[..i]), events[i], id, commit)
    ensures Inv(AfterAll(s, events), history) && ToldOn(AfterAll(s, events), id, commit)
    decreases |events|
  {
    if events != [] {
      var t, rest := After(s, events[0]), events[1..];
      assert events[..0] == [] && !Releases(AfterAll(s, events[..0]), events[0], id, commit);
      StaysTold(s, events[0], history, id, commit);
      StepKeeps(s, events[0], history);
      forall i | 0 <= i < |rest| ensures !Releases(AfterAll(t, rest[..i]), rest[i], id, commit) {
        assert events[..i + 1][1..] == rest[..i] && events[..i + 1] != [];
        assert !Releases(AfterAll(s, events[..i + 1]), events[i + 1], id, commit);
      }
      ToldUntilReleased(t, rest, history, id, commit);
    }
  }

  /**
   Told once: between two tells to one member on one commit there is a removal of it, an
   unstick of it while it read stuck, or a check-in from it that reported another build or
   none. Restarts, the clock and everyone else's check-ins are not enough.
   */
  lemma ToldOnce(s: State, first: Event, between: seq<Event>, again: Event, history: map<Commit, int>, id: NodeId)
    requires Inv(s, history) && Legal(s, first, history) && TellsIn(s, first, id)
    requires Run(After(s, first), between, history)
    requires var t := AfterAll(After(s, first), between);
             Legal(t, again, history) && TellsIn(t, again, id) && again.report.build == first.report.build
    ensures exists i :: 0 <= i < |between| &&
              Releases(AfterAll(After(s, first), between[..i]), between[i], id, first.report.build.value.commit)
  {
    CheckedInNode(s, first, history);
    StepKeeps(s, first, history);
    var commit := first.report.build.value.commit;
    if forall i :: 0 <= i < |between| ==> !Releases(AfterAll(After(s, first), between[..i]), between[i], id, commit) {
      ToldUntilReleased(After(s, first), between, history, id, commit);
      StaysTold(AfterAll(After(s, first), between), again, history, id, commit);
      assert false;
    }
  }

  // ---------------------------------------------------------------- back in line

  /** Through these events the node neither checks in, in a check-in that is taken, nor is removed. */
  ghost predicate Unheard(s: State, events: seq<Event>, id: NodeId)
    decreases |events|
  {
    events == [] ||
    var e := events[0];
    && !(e.CheckIn? && e.report.nodeId == id && TakesCheckIn(s.members, e.report, e.at))
    && !(e.Remove? && e.id == id)
    && Unheard(After(s, e), events[1..], id)
  }

  lemma {:induction false} StaysUntold(s: State, events: seq<Event>, id: NodeId)
    requires id in s.members && s.members[id].upgradeTold.None? && Unheard(s, events, id)
    ensures id in AfterAll(s, events).members && AfterAll(s, events).members[id].upgradeTold.None?
    decreases |events|
  {
    if events != [] {
      var e := events[0];
      if e.CheckIn? && TakesCheckIn(s.members, e.report, e.at) {
        JudgedNode(CheckedIn(s.members, e.report, e.at), s.gateway, e.report.nodeId, e.at);
      }
      StaysUntold(After(s, e), events[1..], id);
    }
  }

  /**
   A stuck node put back in line: whatever the rest of the fleet and the gateway do
   meanwhile, the next check-in taken from it on a build older than the gateway's, able to
   upgrade and not doing so, is answered with a tell exactly when no other node on an older
   build was told less than the timeout ago or is building.
   */
  lemma BackInLine(s: State, at: int, id: NodeId, between: seq<Event>, e: Event)
    requires id in s.members && StandingOf(s.members[id], s.gateway, at).Stuck?
    requires Unheard(After(s, Unstick(at, id)), between, id)
    requires e.CheckIn? && e.report.nodeId == id && e.report.selfUpgrade == Some(SelfUpgrade(true, false))
    requires var t := AfterAll(After(s, Unstick(at, id)), between);
             && TakesCheckIn(t.members, e.report, e.at)
             && t.gateway.Some? && e.report.build.Some?
             && e.report.build.value.commit != t.gateway.value.commit
             && e.report.build.value.committedAt <= t.gateway.value.committedAt
    ensures var t := AfterAll(After(s, Unstick(at, id)), between);
            TellsIn(t, e, id) <==>
              forall o :: o in t.members && o != id && Older(t.members[o], t.gateway) ==>
                !Young(t.members[o], e.at) && !Building(t.members[o], e.at)
  {
    StaysUntold(After(s, Unstick(at, id)), between, id);
    var t := AfterAll(After(s, Unstick(at, id)), between);
    var m := CheckedIn(t.members, e.report, e.at);
    ToldWhen(m, t.gateway, id, e.at);
    assert forall o :: o in t.members && o != id ==> o in m && m[o] == t.members[o];
  }
}
