/**
 The fleet as the gateway knows it (packages/gateway/src/fleet.ts): every node that has ever
 checked in, as it last reported. Times are in milliseconds.
 */
module Fleet {
  import opened Wrappers

  type NodeId = string
  type Commit = string

  datatype Build = Build(commit: Commit, committedAt: int)

  datatype SelfUpgrade = SelfUpgrade(available: bool, running: bool)

  /** When a node was told to upgrade, and the commit it ran then. */
  datatype Tell = Tell(at: int, build: Commit)

  /** A reading's figures that anything here judges by. */
  datatype Reading = Reading(
    total: nat,
    active: nat,
    cpuCount: nat,
    cpuUsedPct: Option<real>,
    memAvailableBytes: nat,
    diskAvailableBytes: Option<nat>)

  datatype Node = Node(
    endpoint: string,
    swapGb: nat,
    configVersion: Option<nat>,
    lastCheckInAt: Option<int>,
    intervalSeconds: Option<nat>,
    build: Option<Build>,
    reading: Option<Reading>,
    selfUpgrade: Option<SelfUpgrade>,
    upgradeTold: Option<Tell>,
    placedSinceCheckIn: nat,
    placedIds: set<string>)

  datatype Report = Report(
    nodeId: NodeId,
    endpoint: string,
    intervalSeconds: nat,
    build: Option<Build>,
    reading: Reading,
    configVersion: Option<nat>,
    selfUpgrade: Option<SelfUpgrade>)

  datatype Down = NeverCheckedIn | SilentFor(ms: int)

  function DownReason(node: Node, now: int): Option<Down> {
    if node.lastCheckInAt.None? || node.intervalSeconds.None? then Some(NeverCheckedIn)
    else if now - node.lastCheckInAt.value > 2 * node.intervalSeconds.value * 1000
    then Some(SilentFor(now - node.lastCheckInAt.value))
    else None
  }

  /** Down: never heard from, or silent for more than twice the interval it stated, and for how long. */
  lemma DownMeans(node: Node, now: int)
    ensures DownReason(node, now).None? <==>
      node.lastCheckInAt.Some? && node.intervalSeconds.Some? &&
      now <= node.lastCheckInAt.value + 2000 * node.intervalSeconds.value
    ensures DownReason(node, now) == Some(NeverCheckedIn) <==> node.lastCheckInAt.None? || node.intervalSeconds.None?
    ensures forall ms :: DownReason(node, now) == Some(SilentFor(ms)) ==> now == node.lastCheckInAt.value + ms
  {
  }

  /** It reported no configuration copy: nothing dialled there answers yet. */
  predicate AwaitingFirstConfig(node: Node) { node.reading.Some? && node.configVersion.None? }

  // ---------------------------------------------------------------- check-ins

  const STRANGER := Node("", 0, None, None, None, None, None, None, None, 0, {})

  /** Another address inside the previous reporter's own interval is a second machine with the same id. */
  predicate Refuses(node: Node, r: Report, now: int) {
    node.endpoint != r.endpoint && node.lastCheckInAt.Some? && node.intervalSeconds.Some? &&
    now - node.lastCheckInAt.value < node.intervalSeconds.value * 1000
  }

  predicate TakesCheckIn(members: map<NodeId, Node>, r: Report, now: int) {
    r.nodeId in members ==> !Refuses(members[r.nodeId], r, now)
  }

  /** A check-in is refused only from another address within the interval the last one stated. */
  lemma TakenWhen(members: map<NodeId, Node>, r: Report, now: int)
    ensures TakesCheckIn(members, r, now) <==>
      (r.nodeId in members ==>
         var node := members[r.nodeId];
         || node.endpoint == r.endpoint || node.lastCheckInAt.None? || node.intervalSeconds.None?
         || now - node.lastCheckInAt.value >= 1000 * node.intervalSeconds.value)
  {
  }

  function Reported(node: Node, r: Report, now: int): Node {
    node.(endpoint := r.endpoint, lastCheckInAt := Some(now), intervalSeconds := Some(r.intervalSeconds),
          build := r.build, reading := Some(r.reading), configVersion := r.configVersion,
          selfUpgrade := r.selfUpgrade, placedSinceCheckIn := 0, placedIds := {})
  }

  function CheckedIn(members: map<NodeId, Node>, r: Report, now: int): map<NodeId, Node> {
    if !TakesCheckIn(members, r, now) then members
    else members[r.nodeId := Reported(if r.nodeId in members then members[r.nodeId] else STRANGER, r, now)]
  }

  /**
   A check-in taken: everything it says is on record, the node counts as heard from then,
   its placements since are none; its swap target and its tell are untouched, and so is
   every other node. A stranger starts with neither.
   */
  lemma CheckedInMeans(members: map<NodeId, Node>, r: Report, now: int)
    requires TakesCheckIn(members, r, now)
    ensures var after, id := CheckedIn(members, r, now), r.nodeId;
            && after.Keys == members.Keys + {id}
            && (forall o :: o in members && o != id ==> after[o] == members[o])
            && after[id] == Node(r.endpoint, if id in members then members[id].swapGb else 0, r.configVersion,
                 Some(now), Some(r.intervalSeconds), r.build, Some(r.reading), r.selfUpgrade,
                 if id in members then members[id].upgradeTold else None, 0, {})
  {
  }

  function WithTold(members: map<NodeId, Node>, id: NodeId, tell: Option<Tell>): map<NodeId, Node> {
    if id in members then members[id := members[id].(upgradeTold := tell)] else members
  }

  /** What the next gateway process reads back: the rows, and none of this process's counters. */
  function Reloaded(members: map<NodeId, Node>): map<NodeId, Node> {
    map id | id in members :: members[id].(placedSinceCheckIn := 0, placedIds := {})
  }

  /** A restart keeps every row and forgets only what this process had counted. */
  lemma ReloadedMeans(members: map<NodeId, Node>, id: NodeId)
    ensures id in Reloaded(members) <==> id in members
    ensures id in members ==>
      var n := Reloaded(members)[id];
      n.placedSinceCheckIn == 0 && n.placedIds == {} &&
      members[id] == n.(placedSinceCheckIn := members[id].placedSinceCheckIn, placedIds := members[id].placedIds)
  {
  }

  /**
   One id, two machines: after a check-in that was taken, a report from another address is
   refused for exactly the interval the first one stated, and changes nothing; one from the
   same address is always taken.
   */
  lemma SecondMachineRefused(members: map<NodeId, Node>, first: Report, at: int, second: Report, later: int)
    requires TakesCheckIn(members, first, at) && second.nodeId == first.nodeId
    ensures var after := CheckedIn(members, first, at);
            && (TakesCheckIn(after, second, later) <==>
                  second.endpoint == first.endpoint || later - at >= 1000 * first.intervalSeconds)
            && (!TakesCheckIn(after, second, later) ==> CheckedIn(after, second, later) == after)
  {
  }

  class Fleet {
    var members: map<NodeId, Node>

    constructor (rows: map<NodeId, Node>)
      ensures members == Reloaded(rows)
    {
      members := Reloaded(rows);
    }

    method CheckIn(r: Report, now: int) returns (ok: bool, joined: bool)
      modifies this
      ensures members == CheckedIn(old(members), r, now)
      ensures ok == TakesCheckIn(old(members), r, now)
      ensures joined == (r.nodeId !in old(members))
    {
      joined := r.nodeId !in members;
      var node := STRANGER;
      if !joined {
        node := members[r.nodeId];
        if node.endpoint != r.endpoint {
          if node.lastCheckInAt.Some? && node.intervalSeconds.Some? &&
             now - node.lastCheckInAt.value < node.intervalSeconds.value * 1000 {
            return false, false;
          }
        }
      }
      ok := true;
      node := node.(endpoint := r.endpoint, lastCheckInAt := Some(now), intervalSeconds := Some(r.intervalSeconds));
      node := node.(build := r.build, reading := Some(r.reading), configVersion := r.configVersion);
      node := node.(selfUpgrade := r.selfUpgrade, placedSinceCheckIn := 0, placedIds := {});
      members := members[r.nodeId := node];
    }

    method SetUpgradeTold(id: NodeId, tell: Option<Tell>)
      modifies this
      ensures members == WithTold(old(members), id, tell)
    {
      if id !in members { return; }
      members := members[id := members[id].(upgradeTold := tell)];
    }

    method Remove(id: NodeId) returns (existed: bool)
      modifies this
      ensures members == old(members) - {id} && existed == (id in old(members))
    {
      existed := id in members;
      members := members - {id};
    }
  }
}
