/**
 The gateway's single-home protocol, for one name (packages/gateway/src/find.ts,
 packages/gateway/src/routes/create.ts, packages/shared/src/lookup.ts): creators take turns
 in the name's slot, ask the fleet, and place only what no node holds.

 Nodes answer or stay silent; a create may still be in flight when its creator is gone;
 nodes drop rows on their own; the gateway may restart at any step and forget everything.
 What a node says is true when it says it: it holds the name if it has the row, and it says
 no only with no row and no create of the name on its way to it.
 */
module SingleHome {
  import opened Wrappers
  import opened Fleet
  import opened Finder

  /** The creator in the name's slot. Anyone else's turn, and no turn, is Free. */
  datatype Phase =
    | Free
    | Confirming(node: NodeId)
    | Asking(answers: map<NodeId, LookupAnswer>)
    | Decided(node: NodeId)
    | Sent(node: NodeId)

  /** `reader` is a lookup outside the slot: what the nodes have answered it so far. */
  datatype State = State(
    nodes: set<NodeId>,
    holds: map<NodeId, string>,
    inFlight: multiset<NodeId>,
    phase: Phase,
    cached: Option<NodeId>,
    reader: map<NodeId, LookupAnswer>)

  datatype Label =
    | Take
    | Confirm(answer: LookupAnswer)
    | Answer(n: NodeId, answer: LookupAnswer)
    | Adjudged(verdict: Found, target: Option<NodeId>)
    | Send
    | Learn
    | GiveUp
    | Builds(n: NodeId, id: string)
    | Fails(n: NodeId)
    | Drops(n: NodeId)
    | Restart
    | Recache(entry: Option<NodeId>)
    | ReaderStarts
    | ReaderHears(n: NodeId, answer: LookupAnswer)

  predicate Truthful(s: State, n: NodeId, a: LookupAnswer) {
    match a
    case Holds(id, _) => n in s.holds && s.holds[n] == id
    case Absent => n !in s.holds && n !in s.inFlight
    case Silent(_) => true
  }

  /**
   What a find hears of a node in place of asking it is the truth exactly when the node,
   last seen with no sandbox, has neither the row nor a create on its way; a node that
   listens is heard as it answers.
   */
  lemma HeardTruthfully(s: State, n: NodeId, node: Node, answer: LookupAnswer)
    ensures Shut(node) ==>
      (Truthful(s, n, AskNode(node, answer)) <==>
         (node.reading.value.total == 0 ==> n !in s.holds && n !in s.inFlight))
    ensures !Shut(node) ==> (Truthful(s, n, AskNode(node, answer)) <==> Truthful(s, n, answer))
  {
  }

  /** Where a verdict takes the creator. */
  predicate Follows(s: State, r: Found, target: Option<NodeId>, t: State) {
    match r
    case One(n, _, _) => t == s.(phase := Decided(n), cached := Some(n))
    case Nowhere =>
      (target.Some? ==> target.value in s.nodes) &&
      t == s.(phase := if target.Some? then Decided(target.value) else Free)
    case _ => t == s.(phase := Free)
  }

  function Confirmed(s: State, a: LookupAnswer): State
    requires s.phase.Confirming?
  {
    match a
    case Holds(_, _) => s.(phase := Decided(s.phase.node))
    case Silent(_) => s.(phase := Free)
    case Absent => s.(phase := Asking(map[]), cached := None)
  }

  ghost predicate Step(s: State, l: Label, t: State) {
    match l
    case Take =>
      s.phase.Free? &&
      t == s.(phase :=
        if s.cached.Some? && s.cached.value in s.nodes then Confirming(s.cached.value) else Asking(map[]))
    case Confirm(a) =>
      // Asked by id: a yes is true, a no says nothing of the name or of what is in flight.
      s.phase.Confirming? && (a.Holds? ==> Truthful(s, s.phase.node, a)) && t == Confirmed(s, a)
    case Answer(n, a) =>
      s.phase.Asking? && n in s.nodes && n !in s.phase.answers && Truthful(s, n, a) &&
      t == s.(phase := Asking(s.phase.answers[n := a]))
    case Adjudged(r, target) =>
      s.phase.Asking? && s.phase.answers.Keys == s.nodes && VerdictIs(r, s.phase.answers) && Follows(s, r, target, t)
    case Send =>
      s.phase.Decided? && t == s.(phase := Sent(s.phase.node), inFlight := s.inFlight + multiset{s.phase.node})
    case Learn => s.phase.Sent? && t == s.(phase := Free, cached := Some(s.phase.node))
    case GiveUp => t == s.(phase := Free)
    case Builds(n, id) =>
      n in s.inFlight &&
      t == s.(inFlight := s.inFlight - multiset{n}, holds := if n in s.holds then s.holds else s.holds[n := id])
    case Fails(n) => n in s.inFlight && t == s.(inFlight := s.inFlight - multiset{n})
    case Drops(n) => t == s.(holds := s.holds - {n})
    case Restart => t == s.(phase := Free, cached := None)
    case Recache(entry) => t == s.(cached := entry)
    case ReaderStarts => t == s.(reader := map[])
    case ReaderHears(n, a) => n in s.nodes && n !in s.reader && Truthful(s, n, a) && t == s.(reader := s.reader[n := a])
  }

  /** The name lives there, is being built there, or is on its way there. */
  predicate Home(s: State, n: NodeId) {
    n in s.holds || n in s.inFlight || ((s.phase.Decided? || s.phase.Sent?) && s.phase.node == n)
  }

  ghost predicate OneHome(s: State) {
    forall a, b :: Home(s, a) && Home(s, b) ==> a == b
  }

  /** What the answers so far still mean: a yes is the only home left, a no is not a home. */
  ghost predicate AnswersHold(s: State) {
    s.phase.Asking? ==>
      forall n :: n in s.phase.answers ==>
        match s.phase.answers[n]
        case Holds(_, _) =>
          (forall h :: Home(s, h) ==> h == n) &&
          (forall o :: o in s.phase.answers && s.phase.answers[o].Holds? ==> o == n)
        case Absent => !Home(s, n)
        case Silent(_) => true
  }

  predicate Inside(s: State) {
    s.holds.Keys <= s.nodes && (forall n :: n in s.inFlight ==> n in s.nodes)
    && (s.phase.Confirming? || s.phase.Decided? || s.phase.Sent? ==> s.phase.node in s.nodes)
  }

  ghost predicate Inv(s: State) { OneHome(s) && AnswersHold(s) && Inside(s) }

  /** Any fleet that gives the name one home at most, nobody in its slot. */
  ghost predicate Starts(s: State) { s.phase.Free? && OneHome(s) && Inside(s) }

  ghost predicate Run(states: seq<State>, labels: seq<Label>) {
    && |states| == |labels| + 1 && Starts(states[0])
    && forall i :: 0 <= i < |labels| ==> Step(states[i], labels[i], states[i + 1])
  }

  // ---------------------------------------------------------------- every step keeps it

  lemma AnswerKeeps(s: State, n: NodeId, a: LookupAnswer, t: State)
    requires Inv(s) && Step(s, Answer(n, a), t)
    ensures Inv(t)
  {
    forall h ensures Home(t, h) <==> Home(s, h) {}
    if a.Holds? { assert Home(s, n); }
  }

  /** Every node said no, one after another, and nothing moved meanwhile: there is no home. */
  lemma NowhereMeansNone(s: State, r: Found)
    requires Inv(s) && s.phase.Asking? && s.phase.answers.Keys == s.nodes && VerdictIs(r, s.phase.answers) && r.Nowhere?
    ensures forall h :: !Home(s, h)
  {
    forall h ensures !Home(s, h) {
      if h in s.nodes { assert s.phase.answers[h].Absent?; }
    }
  }

  lemma AdjudgedKeeps(s: State, r: Found, target: Option<NodeId>, t: State)
    requires Inv(s) && Step(s, Adjudged(r, target), t)
    ensures Inv(t)
  {
    match r {
      case Nowhere =>
        NowhereMeansNone(s, r);
        forall h | Home(t, h) ensures target == Some(h) {
          assert !Home(s, h);
        }
      case One(n, _, _) =>
        assert s.phase.answers[n].Holds?;
        forall h | Home(t, h) ensures h == n {
          if h in s.holds || h in s.inFlight { assert Home(s, h); }
        }
      case _ =>
        FewerHomes(s, t);
    }
  }

  lemma FewerHomes(s: State, t: State)
    requires Inv(s) && Inside(t) && forall h :: Home(t, h) ==> Home(s, h)
    requires t.phase.Asking? ==> t.phase == s.phase || t.phase.answers == map[]
    ensures Inv(t)
  {
  }

  lemma ConfirmKeeps(s: State, a: LookupAnswer, t: State)
    requires Inv(s) && Step(s, Confirm(a), t)
    ensures Inv(t)
  {
    if a.Holds? { assert Home(s, s.phase.node); }
    FewerHomes(s, t);
  }

  lemma SendKeeps(s: State, t: State)
    requires Inv(s) && Step(s, Send, t)
    ensures Inv(t)
  {
    forall h | Home(t, h) ensures Home(s, h) {}
    FewerHomes(s, t);
  }

  lemma BuildsKeeps(s: State, n: NodeId, id: string, t: State)
    requires Inv(s) && Step(s, Builds(n, id), t)
    ensures Inv(t)
  {
    forall h | Home(t, h) ensures Home(s, h) {}
    FewerHomes(s, t);
  }

  lemma FailsKeeps(s: State, n: NodeId, t: State)
    requires Inv(s) && Step(s, Fails(n), t)
    ensures Inv(t)
  {
    forall h | Home(t, h) ensures Home(s, h) {}
    FewerHomes(s, t);
  }

  lemma StepKeeps(s: State, l: Label, t: State)
    requires Inv(s) && Step(s, l, t)
    ensures Inv(t)
  {
    match l {
      case Answer(n, a) => AnswerKeeps(s, n, a, t);
      case Adjudged(r, target) => AdjudgedKeeps(s, r, target, t);
      case Confirm(a) => ConfirmKeeps(s, a, t);
      case Send => SendKeeps(s, t);
      case Builds(n, id) => BuildsKeeps(s, n, id, t);
      case Fails(n) => FailsKeeps(s, n, t);
      case _ => FewerHomes(s, t);
    }
  }

  lemma {:induction false} AlwaysOneHome(states: seq<State>, labels: seq<Label>, i: nat)
    requires Run(states, labels) && i < |states|
    ensures Inv(states[i])
  {
    if i > 0 {
      AlwaysOneHome(states, labels, i - 1);
      StepKeeps(states[i - 1], labels[i - 1], states[i]);
    }
  }

  /** Two yeses never meet in the slot. */
  lemma NoConflict(s: State, r: Found)
    requires Inv(s) && s.phase.Asking? && VerdictIs(r, s.phase.answers)
    ensures !r.Conflict?
  {
    if r.Conflict? {
      var n :| n in r.nodes;
      forall o | o in r.nodes ensures o == n { assert s.phase.answers[n].Holds? && s.phase.answers[o].Holds?; }
      AtMostOne(r.nodes, n);
    }
  }

  /**
   Single home: in every run, whatever the nodes leave unanswered, drop or lose, whoever
   leaves and however often the gateway restarts, at most one node holds the name, builds it
   or has it on its way; no creator is ever told of a conflict; and a name that has a home
   is found there or not decided, never placed anew.
   */
  lemma SingleHomeInEveryRun(states: seq<State>, labels: seq<Label>, i: nat)
    requires Run(states, labels) && i < |labels|
    ensures OneHome(states[i])
    ensures labels[i].Adjudged? ==>
      && !labels[i].verdict.Conflict?
      && forall h :: Home(states[i], h) ==>
           labels[i].verdict.Unsure? || (labels[i].verdict.One? && labels[i].verdict.node == h)
  {
    AlwaysOneHome(states, labels, i);
    if labels[i].Adjudged? {
      var s, r := states[i], labels[i].verdict;
      assert Step(s, labels[i], states[i + 1]);
      NoConflict(s, r);
      forall h | Home(s, h) ensures r.Unsure? || (r.One? && r.node == h) {
        assert h in s.nodes;
        if r.One? { assert s.phase.answers[r.node].Holds?; }
        else { assert !s.phase.answers[h].Absent?; }
      }
    }
  }

  /** A node that listens answers truly; one that is shut and seen empty has nothing there or on its way. */
  predicate Honest(s: State, n: NodeId, node: Node, answer: LookupAnswer) {
    if Shut(node) then node.reading.value.total == 0 ==> n !in s.holds && n !in s.inFlight
    else Truthful(s, n, answer)
  }

  /**
   A find of the name inside its slot, while nothing moves: over honest nodes, shut ones
   among them, what it says of the fleet is no conflict, and a home there is is found or
   left undecided, never missed.
   */
  lemma FindMissesNoHome(s: State, members: map<NodeId, Node>, answers: map<NodeId, LookupAnswer>, r: Found)
    requires Inv(s) && s.phase == Asking(map[]) && members.Keys == s.nodes && members.Keys <= answers.Keys
    requires forall n :: n in members ==> Honest(s, n, members[n], answers[n])
    requires FleetSays(r, members, answers)
    ensures !r.Conflict?
    ensures forall h :: Home(s, h) ==> r.Unsure? || (r.One? && r.node == h)
  {
    var heard := s.(phase := Asking(Asked(members, answers)));
    AdjudicatedFleet(r, members, answers);
    forall h ensures Home(heard, h) <==> Home(s, h) {}
    forall n | n in members ensures Truthful(s, n, heard.phase.answers[n]) {
      HeardTruthfully(s, n, members[n], answers[n]);
    }
    HeardHolds(s, heard);
    NoConflict(heard, r);
    forall h | Home(s, h) ensures r.Unsure? || (r.One? && r.node == h) {
      assert h in s.nodes && !heard.phase.answers[h].Absent?;
      if r.One? { assert heard.phase.answers[r.node].Holds?; }
    }
  }

  /** True answers, all at one moment, keep their meaning. */
  lemma HeardHolds(s: State, heard: State)
    requires Inv(s) && s.phase == Asking(map[]) && heard.phase.Asking? && heard == s.(phase := heard.phase)
    requires forall n :: n in heard.phase.answers ==> Truthful(s, n, heard.phase.answers[n])
    ensures Inv(heard)
  {
    forall h ensures Home(heard, h) <==> Home(s, h) {}
    forall n | n in heard.phase.answers && heard.phase.answers[n].Holds? ensures Home(s, n) {}
  }

  // ---------------------------------------------------------------- outside the slot

  /** A lookup outside the slot that starts at `start` and has heard some nodes by step n. */
  ghost predicate Reads(states: seq<State>, labels: seq<Label>, start: nat, n: nat) {
    && Run(states, labels) && start < n <= |labels| && labels[start] == ReaderStarts
    && forall i :: start < i < n ==> labels[i] != ReaderStarts
  }

  /** Step i is where the reader hears node x say yes. */
  ghost predicate HearsYes(labels: seq<Label>, i: nat, x: NodeId) {
    i < |labels| && labels[i].ReaderHears? && labels[i].n == x && labels[i].answer.Holds?
  }

  /** Every yes the reader has was said at some step of its own. */
  lemma {:induction false} HeardAt(states: seq<State>, labels: seq<Label>, start: nat, n: nat, x: NodeId)
    returns (i: nat)
    requires Reads(states, labels, start, n) && x in states[n].reader && states[n].reader[x].Holds?
    ensures start < i < n && HearsYes(labels, i, x) && x in states[i].holds && x in states[n].reader
  {
    assert Step(states[n - 1], labels[n - 1], states[n]);
    if HearsYes(labels, n - 1, x) {
      i := n - 1;
    } else {
      i := HeardAt(states, labels, start, n - 1, x);
    }
  }

  /** What the reader heard it still has. */
  lemma {:induction false} StillHeard(states: seq<State>, labels: seq<Label>, start: nat, i: nat, n: nat, x: NodeId)
    requires Reads(states, labels, start, n) && start < i < n && HearsYes(labels, i, x)
    ensures x in states[n].reader && states[n].reader[x].Holds?
  {
    assert Step(states[n - 1], labels[n - 1], states[n]);
    if i < n - 1 { StillHeard(states, labels, start, i, n - 1, x); }
  }

  /** A row is lost only where it is dropped. */
  lemma {:induction false} LostWhereDropped(states: seq<State>, labels: seq<Label>, i: nat, j: nat, x: NodeId)
    returns (d: nat)
    requires Run(states, labels) && i <= j <= |labels| && x in states[i].holds && x !in states[j].holds
    ensures i <= d < j && labels[d] == Drops(x) && x in states[d].holds
    decreases j
  {
    assert Step(states[j - 1], labels[j - 1], states[j]);
    if x in states[j - 1].holds {
      d := j - 1;
    } else {
      d := LostWhereDropped(states, labels, i, j - 1, x);
    }
  }

  /** A holder is dropped after it said yes, and another says yes after that. */
  ghost predicate Overtaken(labels: seq<Label>, start: nat, i: nat, d: nat, j: nat, n: nat) {
    && start < i < d < j < n <= |labels| && labels[d].Drops?
    && HearsYes(labels, i, labels[d].n) && labels[j].ReaderHears? && HearsYes(labels, j, labels[j].n)
    && labels[j].n != labels[d].n
  }

  lemma OneHolder(s: State, x: NodeId, y: NodeId)
    requires OneHome(s)
    ensures x in s.holds && y in s.holds ==> x == y
  {
    if x in s.holds && y in s.holds { assert Home(s, x) && Home(s, y); }
  }

  lemma TwoYesesOvertake(states: seq<State>, labels: seq<Label>, start: nat, i: nat, j: nat, n: nat)
    returns (d: nat)
    requires Reads(states, labels, start, n) && start < i < j < n && labels[i].ReaderHears? && labels[j].ReaderHears?
    requires HearsYes(labels, i, labels[i].n) && HearsYes(labels, j, labels[j].n) && labels[i].n != labels[j].n
    ensures Overtaken(labels, start, i, d, j, n)
  {
    var x, y := labels[i].n, labels[j].n;
    assert Step(states[i], labels[i], states[i + 1]) && Step(states[j], labels[j], states[j + 1]);
    AlwaysOneHome(states, labels, j);
    OneHolder(states[j], x, y);
    d := LostWhereDropped(states, labels, i, j, x);
  }

  /** Two yeses are a conflict. */
  lemma ConflictMeans(answers: map<NodeId, LookupAnswer>)
    ensures (exists nodes :: VerdictIs(Conflict(nodes), answers)) <==>
            exists x, y :: x in answers && y in answers && x != y && answers[x].Holds? && answers[y].Holds?
  {
    var holders := set n | n in answers && answers[n].Holds?;
    if x, y :| x in answers && y in answers && x != y && answers[x].Holds? && answers[y].Holds? {
      assert {x, y} <= holders;
      assert |holders - {x, y}| == |holders| - 2;
      assert VerdictIs(Conflict(holders), answers);
    }
    if nodes :| VerdictIs(Conflict(nodes), answers) {
      var x :| x in nodes;
      if forall y :: y in nodes ==> y == x { AtMostOne(nodes, x); }
      var y :| y in nodes && y != x;
      assert answers[x].Holds? && answers[y].Holds?;
    }
  }

  /**
   When a lookup outside the slot reports a conflict, over every run: exactly when a node
   that said yes then dropped the name and, after that, another node said yes. With no row
   dropped while it asks, it never does.
   */
  lemma ConflictExactly(states: seq<State>, labels: seq<Label>, start: nat, n: nat)
    requires Reads(states, labels, start, n)
    ensures (exists nodes :: VerdictIs(Conflict(nodes), states[n].reader)) <==>
            exists i: nat, d: nat, j: nat :: Overtaken(labels, start, i, d, j, n)
  {
    ConflictMeans(states[n].reader);
    var r := states[n].reader;
    if x, y :| x in r && y in r && x != y && r[x].Holds? && r[y].Holds? {
      var i := HeardAt(states, labels, start, n, x);
      var j := HeardAt(states, labels, start, n, y);
      var d;
      if i < j { d := TwoYesesOvertake(states, labels, start, i, j, n); }
      else { d := TwoYesesOvertake(states, labels, start, j, i, n); }
    }
    if i: nat, d: nat, j: nat :| Overtaken(labels, start, i, d, j, n) {
      StillHeard(states, labels, start, i, n, labels[d].n);
      StillHeard(states, labels, start, j, n, labels[j].n);
    }
  }

  const YES := Holds("1", None)
  const YES_TOO := Holds("2", None)

  function At(holds: map<NodeId, string>, inFlight: multiset<NodeId>, phase: Phase, reader: map<NodeId,
      LookupAnswer>): State {
    State({"a", "b"}, holds, inFlight, phase, None, reader)
  }

  /** A lookup outside the slot hears node a, then node b; in between a drops the name and b is given it. */
  function Hearing(): seq<State> {
    var heard := map["a" := YES];
    [At(map["a" := "1"], multiset{}, Free, map[]),
     At(map["a" := "1"], multiset{}, Free, map[]),
     At(map["a" := "1"], multiset{}, Free, heard),
     At(map[], multiset{}, Free, heard),
     At(map[], multiset{}, Asking(map[]), heard),
     At(map[], multiset{}, Asking(map["a" := Absent]), heard),
     At(map[], multiset{}, Asking(map["a" := Absent, "b" := Absent]), heard),
     At(map[], multiset{}, Decided("b"), heard),
     At(map[], multiset{"b"}, Sent("b"), heard),
     At(map["b" := "2"], multiset{}, Sent("b"), heard),
     At(map["b" := "2"], multiset{}, Sent("b"), map["a" := YES, "b" := YES_TOO])]
  }

  const HEARING_LABELS: seq<Label> :=
    [ReaderStarts, ReaderHears("a", YES), Drops("a"), Take, Answer("a", Absent), Answer("b", Absent),
     Adjudged(Nowhere, Some("b")), Send, Builds("b", "2"), ReaderHears("b", YES_TOO)]

  lemma HearingSteps(i: nat)
    requires i < 10
    ensures Step(Hearing()[i], HEARING_LABELS[i], Hearing()[i + 1])
  {
    assert map["a" := "1"] - {"a"} == map[];
    assert map["a" := Absent, "b" := Absent].Keys == {"a", "b"};
    assert multiset{} + multiset{"b"} == multiset{"b"} && multiset{"b"} - multiset{"b"} == multiset{};
  }

  /**
   The slot is needed: a lookup outside it, hearing the nodes at different times, can be
   told of a conflict though the name never had two homes.
   */
  lemma ConflictOutsideTheSlot()
    ensures Run(Hearing(), HEARING_LABELS)
    ensures forall i :: 0 <= i < |Hearing()| ==> OneHome(Hearing()[i])
    ensures VerdictIs(Conflict({"a", "b"}), Hearing()[10].reader)
  {
    forall i: nat | i < 10 ensures Step(Hearing()[i], HEARING_LABELS[i], Hearing()[i + 1]) { HearingSteps(i); }
    forall i: nat | i < |Hearing()| ensures OneHome(Hearing()[i]) { AlwaysOneHome(Hearing(), HEARING_LABELS, i); }
    var r := Hearing()[10].reader;
    assert |{"a", "b"}| == 2;
    assert forall n :: n in {"a", "b"} <==> n in r && r[n].Holds?;
  }
}
