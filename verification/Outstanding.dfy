/**
 What a node's placement counter stands for (packages/gateway/src/routes/create.ts,
 packages/gateway/src/routes/destroy.ts, packages/gateway/src/fleet.ts): the placements of
 this interval that were neither refused nor destroyed, and when it falls short of them.
 */
module Outstanding {
  import opened Wrappers
  import opened Fleet
  import opened Placement

  /** A create the gateway placed, by its number. */
  type Create = nat

  /**
   One node's counters, and beside them what they are meant to count: `open`, the placements
   since the last check-in not refused or destroyed; `named`, whose id each counted id is.
   */
  datatype Tally = Tally(node: Node, open: set<Create>, named: map<string, Create>, placed: set<Create>)

  datatype Event =
    | Places(create: Create)
    | Answers(create: Create, answer: Option<Answer>)
    | Destroys(sandbox: string)
    | ChecksIn(report: Report, now: int)

  /** The node itself said no. */
  predicate SaysNo(answer: Option<Answer>) {
    answer.Some? && !Taken(answer.value) && !FromHop(answer.value)
  }

  predicate Names(answer: Option<Answer>) {
    answer.Some? && Taken(answer.value) && answer.value.id.Some?
  }

  /** A create is placed once, and answered only when placed; ids are the sandboxes' own. */
  predicate Happens(t: Tally, e: Event) {
    match e
    case Places(p) => p !in t.placed
    case Answers(p, answer) => p in t.placed && (Names(answer) ==> answer.value.id.value !in t.named)
    case Destroys(_) => true
    case ChecksIn(_, _) => true
  }

  function After(t: Tally, e: Event): Tally {
    match e
    case Places(p) => t.(node := Counted(t.node), open := t.open + {p}, placed := t.placed + {p})
    case Answers(p, answer) =>
      t.(node := Answered(t.node, answer, true),
         open := if SaysNo(answer) then t.open - {p} else t.open,
         named := if Names(answer) then t.named[answer.value.id.value := p] else t.named)
    case Destroys(id) =>
      t.(node := Forgotten(t.node, id),
         open := if id in t.named then t.open - {t.named[id]} else t.open,
         named := t.named - {id})
    case ChecksIn(r, now) =>
      if Refuses(t.node, r, now) then t
      else t.(node := Reported(t.node, r, now), open := {}, named := map[])
  }

  /** The counter counts them, and the ids are theirs. */
  predicate Counts(t: Tally) {
    t.node.placedSinceCheckIn == |t.open| && t.node.placedIds == t.named.Keys && t.open <= t.placed
  }

  /** An earlier interval's placement is taken off this one's count: refused late, or answered late and destroyed. */
  predicate TakesAnothers(t: Tally, e: Event) {
    t.open != {} &&
    match e
    case Answers(p, answer) => SaysNo(answer) && p !in t.open
    case Destroys(id) => id in t.named && t.named[id] !in t.open
    case _ => false
  }

  lemma OneLess<T>(s: set<T>, x: T)
    ensures |s - {x}| == if x in s then |s| - 1 else |s|
  {
    if x !in s { assert s - {x} == s; }
  }

  lemma OneMore<T>(s: set<T>, x: T)
    requires x !in s
    ensures |s + {x}| == |s| + 1
  {
  }

  /** One event keeps the count exactly when it takes nobody else's placement off it. */
  lemma EventCounts(t: Tally, e: Event)
    requires Counts(t) && Happens(t, e)
    ensures Counts(After(t, e)) <==> !TakesAnothers(t, e)
  {
    match e {
      case Places(p) => OneMore(t.open, p);
      case Answers(p, answer) =>
        OneLess(t.open, p);
        assert |t.open| == 0 <==> t.open == {};
      case Destroys(id) =>
        if id in t.named { OneLess(t.open, t.named[id]); }
        assert |t.open| == 0 <==> t.open == {};
      case ChecksIn(_, _) =>
    }
  }

  ghost predicate Run(t: Tally, events: seq<Event>)
    decreases |events|
  {
    events == [] || (Happens(t, events[0]) && Run(After(t, events[0]), events[1..]))
  }

  function AfterAll(t: Tally, events: seq<Event>): Tally
    decreases |events|
  {
    if events == [] then t else AfterAll(After(t, events[0]), events[1..])
  }

  ghost predicate CountsAllAlong(t: Tally, events: seq<Event>)
    decreases |events|
  {
    Counts(t) && (events == [] || CountsAllAlong(After(t, events[0]), events[1..]))
  }

  predicate Fair(t: Tally, events: seq<Event>)
    decreases |events|
  {
    events == [] || (!TakesAnothers(t, events[0]) && Fair(After(t, events[0]), events[1..]))
  }

  /**
   Over every run of placements, answers, destroys and check-ins: the counter is the number
   of this interval's placements not refused or destroyed, all along, if and only if no
   placement of an earlier interval is refused, or answered and then destroyed, while one
   of this interval stands.
   */
  lemma {:induction false} CounterCounts(t: Tally, events: seq<Event>)
    requires Counts(t) && Run(t, events)
    ensures CountsAllAlong(t, events) <==> Fair(t, events)
    decreases |events|
  {
    if events != [] {
      EventCounts(t, events[0]);
      if Counts(After(t, events[0])) { CounterCounts(After(t, events[0]), events[1..]); }
    }
  }

  /** Placements go only where the gate on active sandboxes is open. */
  predicate Gated(t: Tally, events: seq<Event>, k: Knobs)
    decreases |events|
  {
    events == [] ||
    ((events[0].Places? ==>
        t.node.reading.Some? && t.node.reading.value.active + t.node.placedSinceCheckIn < k.activeLimit)
     && Gated(After(t, events[0]), events[1..], k))
  }

  /** Then what is active and what is truly on its way stay together under the ceiling. */
  lemma {:induction false} OpenUnderCeiling(t: Tally, events: seq<Event>, k: Knobs)
    requires Counts(t) && Run(t, events) && Fair(t, events) && Gated(t, events, k) && UnderCeiling(t.node, k)
    ensures var u := AfterAll(t, events);
            && Counts(u)
            && (u.node.reading.Some? ==>
                  u.node.reading.value.active + |u.open| <= Most(u.node.reading.value.active, k.activeLimit))
    decreases |events|
  {
    if events != [] {
      EventCounts(t, events[0]);
      OpenUnderCeiling(After(t, events[0]), events[1..], k);
    }
  }

  function Most(a: nat, b: nat): nat { if a >= b then a else b }

  /** Never more than them, whatever arrives late: the counter errs by opening the gate, not by shutting it. */
  predicate AtMost(t: Tally) {
    t.node.placedSinceCheckIn <= |t.open| && t.node.placedIds == t.named.Keys && t.open <= t.placed
  }

  lemma EventNeverOver(t: Tally, e: Event)
    requires AtMost(t) && Happens(t, e)
    ensures AtMost(After(t, e))
  {
    match e {
      case Places(p) => OneMore(t.open, p);
      case Answers(p, _) => OneLess(t.open, p);
      case Destroys(id) => if id in t.named { OneLess(t.open, t.named[id]); }
      case ChecksIn(_, _) =>
    }
  }

  lemma {:induction false} CounterNeverOver(t: Tally, events: seq<Event>)
    requires AtMost(t) && Run(t, events)
    ensures AtMost(AfterAll(t, events))
    decreases |events|
  {
    if events != [] {
      EventNeverOver(t, events[0]);
      CounterNeverOver(After(t, events[0]), events[1..]);
    }
  }

  lemma FirstOf(t: Tally, e: Event, rest: seq<Event>)
    ensures AfterAll(t, [e] + rest) == AfterAll(After(t, e), rest)
    ensures Run(t, [e] + rest) <==> Happens(t, e) && Run(After(t, e), rest)
  {
    assert ([e] + rest)[1..] == rest;
  }

  const LATE_NO := Answers(0, Some(Answer(500, None)))

  /** It does fall short: two creates, a check-in between them, and then the node refuses the first. */
  lemma LateRefusalUncounts(r: Report, now: int)
    ensures var t := Tally(STRANGER, {}, map[], {});
            var events := [Places(0), ChecksIn(r, now), Places(1), LATE_NO];
            && Counts(t) && Run(t, events)
            && AfterAll(t, events).node.placedSinceCheckIn == 0 && AfterAll(t, events).open == {1}
  {
    var t := Tally(STRANGER, {}, map[], {});
    FirstOf(t, Places(0), [ChecksIn(r, now)] + ([Places(1)] + ([LATE_NO] + [])));
    FirstOf(After(t, Places(0)), ChecksIn(r, now), [Places(1)] + ([LATE_NO] + []));
    var t2 := After(After(t, Places(0)), ChecksIn(r, now));
    assert t2.open == {} && t2.placed == {0} && t2.node.placedSinceCheckIn == 0;
    var t3 := After(t2, Places(1));
    assert t3.open == {1} && t3.node.placedSinceCheckIn == 1 && 0 in t3.placed;
    FirstOf(t2, Places(1), [LATE_NO] + []);
    FirstOf(t3, LATE_NO, []);
    assert {1} - {0} == {1};
    assert [Places(0), ChecksIn(r, now), Places(1), LATE_NO]
        == [Places(0)] + ([ChecksIn(r, now)] + ([Places(1)] + ([LATE_NO] + [])));
  }
}
