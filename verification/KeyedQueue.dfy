/**
 The per-key serialization of everything that touches one sandbox
 (packages/server/src/keyed-queue.ts), over every order in which calls, settlements and
 promise reactions can come.

 A call makes one link. Its task starts at once, or when the tail of the link before it
 settles; its task settles, fulfilled or rejected; the link's tail then settles; the
 clean-up then runs. Links are numbered in call order, and the number stands for the
 identity of the link's promises.
 */
module KeyedQueue {
  import opened Wrappers

  type Key = string

  datatype Phase = Waiting | Running | Settled(rejected: bool) | TailSettled | Cleaned

  datatype Link = Link(key: Key, prev: Option<nat>, phase: Phase)

  datatype Queue = Queue(tails: map<Key, nat>, links: seq<Link>)

  datatype Event =
    | Call(key: Key)
    | TryCall(key: Key)
    | Start(i: nat)
    | Settle(i: nat, rejected: bool)
    | SettleTail(i: nat)
    | CleanUp(i: nat)

  const EMPTY := Queue(map[], [])

  predicate TailDone(l: Link) { l.phase.TailSettled? || l.phase.Cleaned? }

  predicate Started(l: Link) { !l.phase.Waiting? }

  predicate Enabled(q: Queue, e: Event) {
    match e
    case Call(_) => true
    case TryCall(_) => true
    case Start(i) =>
      i < |q.links| && q.links[i].phase.Waiting? && q.links[i].prev.Some? &&
      q.links[i].prev.value < |q.links| && TailDone(q.links[q.links[i].prev.value])
    case Settle(i, _) => i < |q.links| && q.links[i].phase.Running?
    case SettleTail(i) => i < |q.links| && q.links[i].phase.Settled?
    case CleanUp(i) => i < |q.links| && q.links[i].phase.TailSettled?
  }

  function Called(q: Queue, key: Key): Queue {
    var link := if key in q.tails then Link(key, Some(q.tails[key]), Waiting) else Link(key, None, Running);
    Queue(q.tails[key := |q.links|], q.links + [link])
  }

  function At(q: Queue, i: nat, phase: Phase): Queue
    requires i < |q.links|
  {
    q.(links := q.links[i := q.links[i].(phase := phase)])
  }

  function Apply(q: Queue, e: Event): Queue
    requires Enabled(q, e)
  {
    match e
    case Call(key) => Called(q, key)
    case TryCall(key) => if key in q.tails then q else Called(q, key)
    case Start(i) => At(q, i, Running)
    case Settle(i, rejected) => At(q, i, Settled(rejected))
    case SettleTail(i) => At(q, i, TailSettled)
    case CleanUp(i) =>
      var key := q.links[i].key;
      At(if key in q.tails && q.tails[key] == i then q.(tails := q.tails - {key}) else q, i, Cleaned)
  }

  /** The queue as the source keeps it: the map of tails, and the promises behind it. */
  class KeyedQueue {
    var tails: map<Key, nat>
    var links: seq<Link>

    ghost function Model(): Queue reads this { Queue(tails, links) }

    constructor ()
      ensures Model() == EMPTY
    {
      tails, links := map[], [];
    }

    method Run(key: Key) returns (i: nat)
      modifies this
      ensures Model() == Apply(old(Model()), Call(key)) && i == |old(links)|
    {
      var link := if key in tails then Link(key, Some(tails[key]), Waiting) else Link(key, None, Running);
      i := |links|;
      links := links + [link];
      tails := tails[key := i];
    }

    method TryRun(key: Key) returns (i: Option<nat>)
      modifies this
      ensures Model() == Apply(old(Model()), TryCall(key))
      ensures i.None? <==> key in old(tails)
    {
      if key in tails { return None; }
      var n := Run(key);
      i := Some(n);
    }

    /** The reaction registered on the tail: only the last link of a key removes the entry. */
    method OnTailSettled(i: nat)
      requires Enabled(Model(), CleanUp(i))
      modifies this
      ensures Model() == Apply(old(Model()), CleanUp(i))
    {
      var key := links[i].key;
      if key in tails && tails[key] == i {
        tails := tails - {key};
      }
      links := links[i := links[i].(phase := Cleaned)];
    }
  }

  // ---------------------------------------------------------------- every interleaving

  ghost predicate Legal(events: seq<Event>)
    decreases |events|, 0
  {
    events == [] ||
    (Legal(events[..|events| - 1]) && Enabled(After(events[..|events| - 1]), events[|events| - 1]))
  }

  ghost function After(events: seq<Event>): Queue
    requires Legal(events)
    decreases |events|, 1
  {
    if events == [] then EMPTY
    else Apply(After(events[..|events| - 1]), events[|events| - 1])
  }

  /** Link i stands right behind the last earlier link of its key, or behind none that is unfinished. */
  ghost predicate Chained(q: Queue, i: nat)
    requires i < |q.links|
  {
    match q.links[i].prev
    case Some(p) => p < i && q.links[p].key == q.links[i].key &&
                    forall j :: p < j < i ==> q.links[j].key != q.links[i].key
    case None =>
      Started(q.links[i]) && forall j :: 0 <= j < i && q.links[j].key == q.links[i].key ==> TailDone(q.links[j])
  }

  /** A link that has started has every earlier link of its key behind it, finished. */
  ghost predicate InTurn(q: Queue, i: nat)
    requires i < |q.links|
  {
    Started(q.links[i]) ==>
      forall j :: 0 <= j < i && q.links[j].key == q.links[i].key ==> TailDone(q.links[j])
  }

  /** The map holds a key's last link, until that link has been cleaned up. */
  ghost predicate TailsRight(q: Queue) {
    && (forall key :: key in q.tails ==>
          q.tails[key] < |q.links| && q.links[q.tails[key]].key == key && !q.links[q.tails[key]].phase.Cleaned?
          && forall j :: q.tails[key] < j < |q.links| ==> q.links[j].key != key)
    && (forall j :: 0 <= j < |q.links| && q.links[j].key !in q.tails ==> TailDone(q.links[j]))
  }

  ghost predicate Inv(q: Queue) {
    && (forall i :: 0 <= i < |q.links| ==> Chained(q, i))
    && (forall i :: 0 <= i < |q.links| ==> InTurn(q, i))
    && TailsRight(q)
  }

  lemma CalledKeepsInv(q: Queue, key: Key)
    requires Inv(q)
    ensures Inv(Called(q, key))
  {
    var r, n := Called(q, key), |q.links|;
    forall i | 0 <= i < |r.links| ensures Chained(r, i) && InTurn(r, i) {
      if i < n { assert Chained(q, i) && InTurn(q, i); }
    }
  }

  lemma StartInTurn(q: Queue, i: nat)
    requires Inv(q) && Enabled(q, Start(i))
    ensures forall j :: 0 <= j < i && q.links[j].key == q.links[i].key ==> TailDone(q.links[j])
  {
    var p := q.links[i].prev.value;
    assert Chained(q, i) && InTurn(q, p);
  }

  /** A link moving on keeps the order: done stays done, started stays started. */
  lemma MoveKeepsInv(q: Queue, i: nat, phase: Phase)
    requires Inv(q) && i < |q.links| && !phase.Waiting? && !phase.Cleaned?
    requires !q.links[i].phase.Cleaned? && (TailDone(q.links[i]) ==> phase.TailSettled?)
    requires q.links[i].phase.Waiting? ==>
      forall j :: 0 <= j < i && q.links[j].key == q.links[i].key ==> TailDone(q.links[j])
    ensures Inv(At(q, i, phase))
  {
    var r := At(q, i, phase);
    forall k | 0 <= k < |r.links| ensures Chained(r, k) && InTurn(r, k) {
      assert Chained(q, k) && InTurn(q, k);
    }
  }

  lemma CleanUpKeepsInv(q: Queue, i: nat)
    requires Inv(q) && Enabled(q, CleanUp(i))
    ensures Inv(Apply(q, CleanUp(i)))
  {
    var r := Apply(q, CleanUp(i));
    var key := q.links[i].key;
    forall k | 0 <= k < |r.links| ensures Chained(r, k) && InTurn(r, k) {
      assert Chained(q, k) && InTurn(q, k);
    }
    forall j | 0 <= j < |r.links| && r.links[j].key !in r.tails ensures TailDone(r.links[j]) {
      if q.links[j].key == key && j < i { assert InTurn(q, i); }
    }
  }

  lemma StepKeepsInv(q: Queue, e: Event)
    requires Inv(q) && Enabled(q, e)
    ensures Inv(Apply(q, e))
  {
    match e {
      case Call(key) => CalledKeepsInv(q, key);
      case TryCall(key) => CalledKeepsInv(q, key);
      case Start(i) => StartInTurn(q, i); MoveKeepsInv(q, i, Running);
      case Settle(i, rejected) => MoveKeepsInv(q, i, Settled(rejected));
      case SettleTail(i) => MoveKeepsInv(q, i, TailSettled);
      case CleanUp(i) => CleanUpKeepsInv(q, i);
    }
  }

  lemma {:induction false} AlwaysInv(events: seq<Event>)
    requires Legal(events)
    ensures Inv(After(events))
  {
    if events != [] {
      AlwaysInv(events[..|events| - 1]);
      StepKeepsInv(After(events[..|events| - 1]), events[|events| - 1]);
    }
  }

  // ---------------------------------------------------------------- what it promises

  /**
   In every interleaving: of two calls under one key the later one's task has started only
   if the earlier one's is over, so one task of a key runs at a time and they start in
   call order.
   */
  lemma OneAtATimeInOrder(events: seq<Event>, i: nat, j: nat)
    requires Legal(events) && i < j < |After(events).links|
    requires After(events).links[i].key == After(events).links[j].key
    ensures Started(After(events).links[j]) ==> TailDone(After(events).links[i])
  {
    AlwaysInv(events);
    assert InTurn(After(events), j);
  }

  /** `tryRun` runs its task exactly when nothing unfinished holds the key and its clean-up has run. */
  lemma TryRunsWhenFree(events: seq<Event>, key: Key)
    requires Legal(events)
    ensures var q := After(events);
            var r := Apply(q, TryCall(key));
            && (r == q ==> exists j :: 0 <= j < |q.links| && q.links[j].key == key && !q.links[j].phase.Cleaned?)
            && (r != q ==> r.links == q.links + [Link(key, None, Running)])
            && (r != q ==> forall j :: 0 <= j < |q.links| && q.links[j].key == key ==> TailDone(q.links[j]))
  {
    AlwaysInv(events);
    var q := After(events);
    if key in q.tails {
      assert q.links[q.tails[key]].key == key;
    } else {
      assert |Called(q, key).links| == |q.links| + 1;
    }
  }

  /** Nothing is stuck: a key with a link not yet cleaned up has a step of its own to take, whatever was rejected. */
  lemma KeyMoves(events: seq<Event>, i: nat) returns (e: Event)
    requires Legal(events) && i < |After(events).links| && !After(events).links[i].phase.Cleaned?
    ensures Enabled(After(events), e) && !e.Call? && !e.TryCall?
    ensures e.i <= i && After(events).links[e.i].key == After(events).links[i].key
  {
    AlwaysInv(events);
    e := MoveOf(After(events), i);
  }

  lemma {:induction false} MoveOf(q: Queue, i: nat) returns (e: Event)
    requires Inv(q) && i < |q.links| && !q.links[i].phase.Cleaned?
    ensures Enabled(q, e) && !e.Call? && !e.TryCall? && e.i <= i && q.links[e.i].key == q.links[i].key
    decreases i
  {
    match q.links[i].phase {
      case Waiting =>
        assert Chained(q, i);
        var p := q.links[i].prev.value;
        if TailDone(q.links[p]) { e := Start(i); } else { e := MoveOf(q, p); }
      case Running => e := Settle(i, true);
      case Settled(_) => e := SettleTail(i);
      case TailSettled => e := CleanUp(i);
    }
  }

  function Rank(p: Phase): nat {
    match p
    case Waiting => 4
    case Running => 3
    case Settled(_) => 2
    case TailSettled => 1
    case Cleaned => 0
  }

  function Work(links: seq<Link>): nat {
    if links == [] then 0 else Work(links[..|links| - 1]) + Rank(links[|links| - 1].phase)
  }

  lemma {:induction false} WorkAt(links: seq<Link>, i: nat, l: Link)
    requires i < |links|
    ensures Work(links[i := l]) + Rank(links[i].phase) == Work(links) + Rank(l.phase)
  {
    var n := |links| - 1;
    if i < n {
      WorkAt(links[..n], i, l);
      assert links[i := l][..n] == links[..n][i := l];
    } else {
      assert links[i := l][..n] == links[..n];
    }
  }

  /**
   Every step but a call is one unit of the work left, and while any is left some step is
   open: the queue drains, in exactly that many steps, to an empty map.
   */
  lemma Drains(events: seq<Event>, e: Event)
    requires Legal(events) && Enabled(After(events), e) && !e.Call? && !e.TryCall?
    ensures Work(Apply(After(events), e).links) == Work(After(events).links) - 1
  {
    var q := After(events);
    WorkAt(q.links, e.i, Apply(q, e).links[e.i]);
  }

  lemma {:induction false} NoWorkLeft(links: seq<Link>)
    ensures Work(links) == 0 <==> forall i :: 0 <= i < |links| ==> links[i].phase.Cleaned?
  {
    if links != [] {
      var n := |links| - 1;
      NoWorkLeft(links[..n]);
      assert forall i :: 0 <= i < n ==> links[..n][i] == links[i];
    }
  }

  function KeyOf(q: Queue, e: Event): Key
    requires Enabled(q, e)
  {
    match e
    case Call(key) => key
    case TryCall(key) => key
    case Start(i) => q.links[i].key
    case Settle(i, _) => q.links[i].key
    case SettleTail(i) => q.links[i].key
    case CleanUp(i) => q.links[i].key
  }

  /** Keys do not wait on each other: a step of one key neither enables nor disables a step of another. */
  lemma KeysIndependent(events: seq<Event>, e: Event, f: Event)
    requires Legal(events) && Enabled(After(events), e)
    requires !f.Call? && !f.TryCall? && f.i < |After(events).links|
    requires After(events).links[f.i].key != KeyOf(After(events), e)
    ensures Enabled(After(events), f) <==> Enabled(Apply(After(events), e), f)
  {
    AlwaysInv(events);
    assert Chained(After(events), f.i);
  }

  /** Once no work is left the map is empty. */
  lemma EmptyWhenQuiet(events: seq<Event>)
    requires Legal(events) && Work(After(events).links) == 0
    ensures After(events).tails == map[]
  {
    AlwaysInv(events);
    NoWorkLeft(After(events).links);
    assert forall key :: key in After(events).tails ==> false;
  }

  // ---------------------------------------------------------------- a task that calls its own key

  /**
   A call whose task calls `run` on its own key before it first yields. With a tail on the
   key the task waits, and its own call with it. With none the task starts inside the call,
   before the call's tail is stored: the call inside finds the key free and starts too, and
   the outer tail is stored over its own.
   */
  function CalledNested(q: Queue, key: Key): Queue {
    var first := Called(q, key);
    if key in q.tails then first
    else Queue(first.tails[key := |first.links|], first.links + [Link(key, None, Running)])
  }

  /**
   In every interleaving such a call keeps the queue's order exactly when the key has a
   tail; without one, two tasks run at once.
   */
  lemma ReentryRunsTwoAtOnce(events: seq<Event>, key: Key)
    requires Legal(events)
    ensures var q := After(events);
            var r := CalledNested(q, key);
            && (Inv(r) <==> key in q.tails)
            && (key !in q.tails ==> r.links == q.links + [Link(key, None, Running), Link(key, None, Running)])
  {
    var q := After(events);
    AlwaysInv(events);
    CalledKeepsInv(q, key);
    if key !in q.tails {
      var r, n := CalledNested(q, key), |q.links|;
      assert r.links[n].key == r.links[n + 1].key && !TailDone(r.links[n]);
      assert !InTurn(r, n + 1);
    }
  }

  /** And the call inside a task that waited, made as the task starts, waits in its turn behind a link of its key. */
  lemma NestedCallWaits(events: seq<Event>, i: nat)
    requires Legal(events) && Enabled(After(events), Start(i))
    ensures var q := After(events);
            var key := q.links[i].key;
            var r := Called(Apply(q, Start(i)), key);
            && Inv(r) && r.links[|q.links|].phase.Waiting? && r.links[|q.links|].prev.Some?
            && r.links[|q.links|].prev.value >= i
  {
    var q := After(events);
    AlwaysInv(events);
    StepKeepsInv(q, Start(i));
    CalledKeepsInv(Apply(q, Start(i)), q.links[i].key);
    assert Apply(q, Start(i)).links[i].key == q.links[i].key;
  }
}
