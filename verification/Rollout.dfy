/**
 The roll makes progress (packages/gateway/src/rolling.ts): round after round of check-ins,
 every node behind is told exactly once and in the end no node is older than the gateway.
 */
module Rollout {
  import opened Wrappers
  import opened Fleet
  import opened Rolling

  /** The gateway's build, and the builds a node may be found on that are not older: that one, newer ones, none. */
  datatype Target = Target(build: Build, landings: set<Option<Build>>)

  predicate Old(b: Option<Build>, g: Target) {
    b.Some? && b.value.commit != g.build.commit && b.value.committedAt <= g.build.committedAt
  }

  /** One node's check-in, at its time; `back` is what it runs if it was told, or was not behind to begin with. */
  datatype Turn = Turn(id: NodeId, at: int, back: Option<Build>)

  /** Behind the gateway, able to upgrade itself and not doing so, any tell standing; or on one of the landings. */
  predicate Fit(node: Node, g: Target) {
    if Old(node.build, g)
    then node.selfUpgrade == Some(SelfUpgrade(true, false)) && (node.upgradeTold.Some? ==> TellStands(node))
    else node.build in g.landings
  }

  ghost predicate FitFleet(members: map<NodeId, Node>, g: Target) {
    && (forall b :: b in g.landings ==> !Old(b, g))
    && (forall id :: id in members ==> Fit(members[id], g))
  }

  predicate Lands(turns: seq<Turn>, g: Target) { forall t :: t in turns ==> t.back in g.landings }

  /** How far a node is from being no older than the gateway: to be told, to come back, there. */
  function Weight(node: Node, g: Target): nat {
    if !Old(node.build, g) then 0 else if node.upgradeTold.Some? then 1 else 2
  }

  /** What the node says at its turn: behind and not told, what it ran; otherwise what it came back on. */
  function Says(node: Node, t: Turn, g: Target): Report {
    Report(t.id, node.endpoint, if node.intervalSeconds.Some? then node.intervalSeconds.value else 15,
           if Weight(node, g) == 2 then node.build else t.back,
           if node.reading.Some? then node.reading.value else Reading(0, 0, 0, None, 0, None),
           node.configVersion, node.selfUpgrade)
  }

  /** One turn: the check-in, and whether it was answered with a tell. */
  function TurnTaken(members: map<NodeId, Node>, g: Target, t: Turn): map<NodeId, Node>
    requires t.id in members
  {
    Judged(CheckedIn(members, Says(members[t.id], t, g), t.at), Some(g.build), t.id, t.at)
  }

  predicate TurnTells(members: map<NodeId, Node>, g: Target, t: Turn)
    requires t.id in members
  {
    Tells(CheckedIn(members, Says(members[t.id], t, g), t.at), Some(g.build), t.id, t.at)
  }

  /** Nobody else's tell keeps this one waiting: no other member reads upgrading. */
  ghost predicate ClearAhead(members: map<NodeId, Node>, g: Target, id: NodeId, now: int) {
    forall o :: o in members && o != id ==> !StandingOf(members[o], Some(g.build), now).Upgrading?
  }

  lemma TurnEffect(members: map<NodeId, Node>, g: Target, t: Turn)
    requires FitFleet(members, g) && t.id in members && t.back in g.landings
    ensures var now := TurnTaken(members, g, t);
            && now.Keys == members.Keys && FitFleet(now, g)
            && (forall o :: o in members && o != t.id ==> now[o] == members[o])
            && Weight(now[t.id], g) ==
                 (if Weight(members[t.id], g) == 2 && ClearAhead(members, g, t.id, t.at) then 1
                  else if Weight(members[t.id], g) == 1 then 0
                  else Weight(members[t.id], g))
            && (TurnTells(members, g, t) <==> Weight(members[t.id], g) == 2 && ClearAhead(members, g, t.id, t.at))
  {
    var m := CheckedIn(members, Says(members[t.id], t, g), t.at);
    var node := m[t.id];
    JudgedNode(m, Some(g.build), t.id, t.at);
    ToldWhen(m, Some(g.build), t.id, t.at);
    StandingMeans(node, Some(g.build), t.at);
    assert DownReason(node, t.at).None?;
    assert Weight(members[t.id], g) != 2 ==> !Old(node.build, g);
    forall o | o in members && o != t.id
      ensures m[o] == members[o]
      ensures StandingOf(members[o], Some(g.build), t.at).Upgrading? <==>
                Older(members[o], Some(g.build)) && (Young(members[o], t.at) || Building(members[o], t.at))
    {
      StandingMeans(members[o], Some(g.build), t.at);
    }
  }

  // ---------------------------------------------------------------- sums over the fleet

  function Total(members: map<NodeId, Node>, g: Target, ids: seq<NodeId>): nat
    requires forall id :: id in ids ==> id in members
  {
    if ids == [] then 0 else Weight(members[ids[0]], g) + Total(members, g, ids[1..])
  }

  /** The nodes behind that have not been told. */
  function Untold(members: map<NodeId, Node>, g: Target, ids: seq<NodeId>): nat
    requires forall id :: id in ids ==> id in members
  {
    if ids == [] then 0
    else (if Weight(members[ids[0]], g) == 2 then 1 else 0) + Untold(members, g, ids[1..])
  }

  ghost predicate Distinct(ids: seq<NodeId>) {
    forall i, j :: 0 <= i < j < |ids| ==> ids[i] != ids[j]
  }

  lemma {:induction false} SumsSame(m: map<NodeId, Node>, n: map<NodeId, Node>, g: Target, ids: seq<NodeId>)
    requires forall id :: id in ids ==> id in m && id in n && Weight(m[id], g) == Weight(n[id], g)
    ensures Total(m, g, ids) == Total(n, g, ids) && Untold(m, g, ids) == Untold(n, g, ids)
  {
    if ids != [] { SumsSame(m, n, g, ids[1..]); }
  }

  /** One node's weight changes, and the sums by as much. */
  lemma {:induction false} SumsChange(m: map<NodeId, Node>, n: map<NodeId, Node>, g: Target, ids: seq<NodeId>,
      x: NodeId)
    requires Distinct(ids) && x in ids
    requires forall id :: id in ids ==> id in m && id in n && (id != x ==> Weight(m[id], g) == Weight(n[id], g))
    ensures Total(m, g, ids) - Weight(m[x], g) == Total(n, g, ids) - Weight(n[x], g)
    ensures Untold(m, g, ids) - (if Weight(m[x], g) == 2 then 1 else 0) ==
            Untold(n, g, ids) - (if Weight(n[x], g) == 2 then 1 else 0)
  {
    if ids[0] == x {
      assert forall id :: id in ids[1..] ==> id != x;
      SumsSame(m, n, g, ids[1..]);
    } else {
      assert x in ids[1..];
      SumsChange(m, n, g, ids[1..], x);
    }
  }

  lemma {:induction false} TotalBounds(m: map<NodeId, Node>, g: Target, ids: seq<NodeId>)
    requires forall id :: id in ids ==> id in m
    ensures Untold(m, g, ids) * 2 <= Total(m, g, ids)
    ensures (forall id :: id in ids && Old(m[id].build, g) ==> m[id].upgradeTold.None?) ==>
              Total(m, g, ids) == 2 * Untold(m, g, ids)
    ensures Total(m, g, ids) == 0 ==> forall id :: id in ids ==> !Old(m[id].build, g)
  {
    if ids != [] {
      TotalBounds(m, g, ids[1..]);
      assert forall id :: id in ids ==> id == ids[0] || id in ids[1..];
    }
  }

  // ---------------------------------------------------------------- one round

  function Round(members: map<NodeId, Node>, g: Target, turns: seq<Turn>): (r: (map<NodeId, Node>, nat))
    requires forall t :: t in turns ==> t.id in members
    ensures r.0.Keys == members.Keys
    decreases |turns|
  {
    if turns == [] then (members, 0)
    else
      var now := TurnTaken(members, g, turns[0]);
      var rest := Round(now, g, turns[1..]);
      (rest.0, rest.1 + if TurnTells(members, g, turns[0]) then 1 else 0)
  }

  predicate SomeTold(members: map<NodeId, Node>, g: Target, turns: seq<Turn>)
    requires forall t :: t in turns ==> t.id in members
  {
    exists t :: t in turns && Weight(members[t.id], g) == 1
  }

  predicate SomeBehind(members: map<NodeId, Node>, g: Target, turns: seq<Turn>)
    requires forall t :: t in turns ==> t.id in members
  {
    exists t :: t in turns && Weight(members[t.id], g) == 2
  }

  ghost predicate NoneTold(members: map<NodeId, Node>, g: Target) {
    forall id :: id in members ==> Weight(members[id], g) != 1
  }

  /** Through any number of turns nothing is lost, and every tell takes one node out of the untold. */
  lemma {:induction false} TurnsNeverLose(members: map<NodeId, Node>, g: Target, turns: seq<Turn>, ids: seq<NodeId>)
    requires FitFleet(members, g) && Distinct(ids) && (forall id :: id in ids <==> id in members)
    requires Lands(turns, g) && forall t :: t in turns ==> t.id in members
    ensures var r := Round(members, g, turns);
            FitFleet(r.0, g) && Total(r.0, g, ids) <= Total(members, g, ids) &&
            r.1 + Untold(r.0, g, ids) == Untold(members, g, ids)
    decreases |turns|
  {
    if turns != [] {
      var now := TurnTaken(members, g, turns[0]);
      TurnEffect(members, g, turns[0]);
      SumsChange(members, now, g, ids, turns[0].id);
      TurnsNeverLose(now, g, turns[1..], ids);
    }
  }

  /** With no tell out anywhere, nothing keeps a tell waiting. */
  lemma NoneToldIsClear(members: map<NodeId, Node>, g: Target, id: NodeId, now: int)
    requires FitFleet(members, g) && NoneTold(members, g)
    ensures ClearAhead(members, g, id, now)
  {
  }

  /** Turns that reach a told node, or a node behind with no tell out, bring the fleet strictly closer. */
  lemma {:induction false} TurnsGain(members: map<NodeId, Node>, g: Target, turns: seq<Turn>, ids: seq<NodeId>)
    requires FitFleet(members, g) && Distinct(ids) && (forall id :: id in ids <==> id in members)
    requires Lands(turns, g) && forall t :: t in turns ==> t.id in members
    requires SomeTold(members, g, turns) || (NoneTold(members, g) && SomeBehind(members, g, turns))
    ensures Total(Round(members, g, turns).0, g, ids) < Total(members, g, ids)
    decreases |turns|
  {
    var head, tail := turns[0], turns[1..];
    var now := TurnTaken(members, g, head);
    TurnEffect(members, g, head);
    SumsChange(members, now, g, ids, head.id);
    if NoneTold(members, g) { NoneToldIsClear(members, g, head.id, head.at); }
    if Weight(now[head.id], g) < Weight(members[head.id], g) {
      TurnsNeverLose(now, g, tail, ids);
    } else {
      if SomeTold(members, g, turns) {
        var t :| t in turns && Weight(members[t.id], g) == 1;
        assert t in tail && Weight(now[t.id], g) == 1;
      } else {
        var t :| t in turns && Weight(members[t.id], g) == 2;
        assert t in tail && Weight(now[t.id], g) == 2;
        assert NoneTold(now, g);
      }
      TurnsGain(now, g, tail, ids);
    }
  }

  /** A round: every member has a turn, in any order, at any times. */
  ghost predicate IsRound(members: map<NodeId, Node>, turns: seq<Turn>) {
    && (forall t :: t in turns ==> t.id in members)
    && (forall id :: id in members ==> exists t :: t in turns && t.id == id)
  }

  lemma {:induction false} SomeWeight(members: map<NodeId, Node>, g: Target, ids: seq<NodeId>) returns (id: NodeId)
    requires forall id :: id in ids ==> id in members
    requires Total(members, g, ids) > 0
    ensures id in ids && Weight(members[id], g) > 0
  {
    if Weight(members[ids[0]], g) > 0 { id := ids[0]; }
    else { id := SomeWeight(members, g, ids[1..]); }
  }

  lemma RoundGains(members: map<NodeId, Node>, g: Target, turns: seq<Turn>, ids: seq<NodeId>)
    requires FitFleet(members, g) && Distinct(ids) && (forall id :: id in ids <==> id in members)
    requires IsRound(members, turns) && Lands(turns, g) && Total(members, g, ids) > 0
    ensures Total(Round(members, g, turns).0, g, ids) < Total(members, g, ids)
  {
    if NoneTold(members, g) {
      var id := SomeWeight(members, g, ids);
      var t :| t in turns && t.id == id;
      assert SomeBehind(members, g, turns);
    } else {
      var id :| id in members && Weight(members[id], g) == 1;
      var t :| t in turns && t.id == id;
      assert SomeTold(members, g, turns);
    }
    TurnsGain(members, g, turns, ids);
  }

  // ---------------------------------------------------------------- the whole roll

  ghost predicate AreRounds(members: map<NodeId, Node>, g: Target, rounds: seq<seq<Turn>>)
    decreases |rounds|
  {
    rounds == [] ||
    (IsRound(members, rounds[0]) && Lands(rounds[0], g) && AreRounds(Round(members, g, rounds[0]).0, g, rounds[1..]))
  }

  ghost function Roll(members: map<NodeId, Node>, g: Target, rounds: seq<seq<Turn>>): (map<NodeId, Node>, nat)
    requires AreRounds(members, g, rounds)
    decreases |rounds|
  {
    if rounds == [] then (members, 0)
    else
      var first := Round(members, g, rounds[0]);
      var rest := Roll(first.0, g, rounds[1..]);
      (rest.0, first.1 + rest.1)
  }

  lemma {:induction false} RollDescends(members: map<NodeId, Node>, g: Target, rounds: seq<seq<Turn>>, ids: seq<NodeId>)
    requires FitFleet(members, g) && Distinct(ids) && (forall id :: id in ids <==> id in members)
    requires AreRounds(members, g, rounds)
    ensures var r := Roll(members, g, rounds);
            && r.0.Keys == members.Keys && FitFleet(r.0, g)
            && (Total(r.0, g, ids) == 0 || Total(r.0, g, ids) + |rounds| <= Total(members, g, ids))
            && r.1 + Untold(r.0, g, ids) == Untold(members, g, ids)
    decreases |rounds|
  {
    if rounds != [] {
      var first := Round(members, g, rounds[0]).0;
      TurnsNeverLose(members, g, rounds[0], ids);
      if Total(members, g, ids) > 0 { RoundGains(members, g, rounds[0], ids); }
      RollDescends(first, g, rounds[1..], ids);
    }
  }

  /**
   A fleet with m nodes behind and no tell out, whatever else is in it: after any 2m rounds,
   whatever the order and the times of their turns, no node is older than the gateway's
   build, each is on one of the builds a node lands on, and m tells were sent. No further
   round sends another. Where nodes land on the gateway's build alone, all run it.
   */
  lemma RollCompletes(members: map<NodeId, Node>, g: Target, rounds: seq<seq<Turn>>, ids: seq<NodeId>)
    requires FitFleet(members, g) && Distinct(ids) && (forall id :: id in ids <==> id in members)
    requires forall id :: id in members && Old(members[id].build, g) ==> members[id].upgradeTold.None?
    requires AreRounds(members, g, rounds) && |rounds| >= 2 * Untold(members, g, ids)
    ensures var r := Roll(members, g, rounds);
            && r.0.Keys == members.Keys
            && (forall id :: id in members ==> !Older(r.0[id], Some(g.build)) && r.0[id].build in g.landings)
            && r.1 == Untold(members, g, ids)
            && (g.landings == {Some(g.build)} ==> forall id :: id in members ==> r.0[id].build == Some(g.build))
  {
    RollDescends(members, g, rounds, ids);
    TotalBounds(members, g, ids);
    var r := Roll(members, g, rounds).0;
    TotalBounds(r, g, ids);
    assert forall id :: id in members ==> Fit(r[id], g) && !Old(r[id].build, g);
  }
}
