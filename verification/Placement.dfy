/**
 Where a new sandbox goes (packages/gateway/src/placement.ts,
 packages/gateway/src/routes/create.ts, packages/gateway/src/routes/destroy.ts): four gates,
 then the emptiest node, counting what was placed since each node's last reading.
 */
module Placement {
  import opened Wrappers
  import opened Fleet
  import NameCache

  datatype Knobs = Knobs(cpuLimitPct: real, activeLimit: nat, minDiskAvailableBytes: nat)

  datatype Refusal = IsDown(why: Down) | NoReading | NoConfig | CpuHigh | AtLimit | DiskLow

  function RefusalOf(node: Node, k: Knobs, now: int): Option<Refusal> {
    var down := DownReason(node, now);
    if down.Some? then Some(IsDown(down.value))
    else if node.reading.None? then Some(NoReading)
    else if AwaitingFirstConfig(node) then Some(NoConfig)
    else
      var r := node.reading.value;
      if r.cpuUsedPct.Some? && r.cpuUsedPct.value > k.cpuLimitPct then Some(CpuHigh)
      else if r.active + node.placedSinceCheckIn >= k.activeLimit then Some(AtLimit)
      else if r.diskAvailableBytes.Some? && r.diskAvailableBytes.value < k.minDiskAvailableBytes then Some(DiskLow)
      else None
  }

  function Cores(r: Reading): nat { if r.cpuCount >= 1 then r.cpuCount else 1 }

  datatype Candidate = Candidate(id: NodeId, load: real, memAvailableBytes: nat)

  function CandidateOf(id: NodeId, node: Node): Candidate
    requires node.reading.Some?
  {
    var r := node.reading.value;
    Candidate(id, (r.active + node.placedSinceCheckIn) as real / Cores(r) as real, r.memAvailableBytes)
  }

  predicate LexLess(a: string, b: string) {
    b != [] && (a == [] || a[0] < b[0] || (a[0] == b[0] && LexLess(a[1..], b[1..])))
  }

  lemma {:induction false} LexTotal(a: string, b: string)
    ensures LexLess(a, b) || a == b || LexLess(b, a)
  {
    if a != [] && b != [] {
      LexTotal(a[1..], b[1..]);
      assert a == [a[0]] + a[1..] && b == [b[0]] + b[1..];
    }
  }

  lemma {:induction false} LexOrder(a: string, b: string, c: string)
    requires LexLess(a, b) && LexLess(b, c)
    ensures LexLess(a, c)
  {
    if a != [] && a[0] == b[0] == c[0] { LexOrder(a[1..], b[1..], c[1..]); }
  }

  lemma {:induction false} LexIrreflexive(a: string)
    ensures !LexLess(a, a)
  {
    if a != [] { LexIrreflexive(a[1..]); }
  }

  /** The first place where they differ decides; a proper beginning comes first. */
  lemma {:induction false} LexMeans(a: string, b: string)
    ensures LexLess(a, b) <==>
      exists k :: 0 <= k <= |a| && k < |b| && a[..k] == b[..k] && (k == |a| || a[k] < b[k])
  {
    if a != [] && b != [] && a[0] == b[0] {
      LexMeans(a[1..], b[1..]);
      assert forall k :: 0 < k <= |a| && k <= |b| ==>
        a[..k] == [a[0]] + a[1..][..k - 1] && b[..k] == [b[0]] + b[1..][..k - 1];
      if k :| 0 <= k <= |a| && k < |b| && a[..k] == b[..k] && (k == |a| || a[k] < b[k]) {
        assert k > 0 && a[1..][..k - 1] == a[..k][1..] && b[1..][..k - 1] == b[..k][1..];
      }
      if j :| 0 <= j <= |a[1..]| && j < |b[1..]| && a[1..][..j] == b[1..][..j] &&
              (j == |a[1..]| || a[1..][j] < b[1..][j]) {
        assert a[..j + 1] == b[..j + 1];
      }
    } else if a == [] && b != [] {
      assert a[..0] == b[..0];
    } else if a != [] && b != [] {
      assert a[..0] == b[..0];
      assert forall k :: 0 < k <= |a| && k < |b| ==> a[..k][0] != b[..k][0];
    }
  }

  /** Emptier; then more memory; then the id. */
  predicate Before(a: Candidate, b: Candidate) {
    a.load < b.load ||
    (a.load == b.load &&
      (a.memAvailableBytes > b.memAvailableBytes ||
        (a.memAvailableBytes == b.memAvailableBytes && LexLess(a.id, b.id))))
  }

  lemma BeforeOrder(a: Candidate, b: Candidate, c: Candidate)
    requires Before(a, b) && (Before(b, c) || b == c)
    ensures Before(a, c)
  {
    if Before(b, c) && LexLess(a.id, b.id) && LexLess(b.id, c.id) { LexOrder(a.id, b.id, c.id); }
  }

  predicate Passes(members: map<NodeId, Node>, k: Knobs, now: int, id: NodeId) {
    id in members && RefusalOf(members[id], k, now).None?
  }

  /** The four gates, and what is unknown passes the second and the last. */
  lemma PassesMeans(members: map<NodeId, Node>, k: Knobs, now: int, id: NodeId)
    requires id in members
    ensures var node := members[id];
            Passes(members, k, now, id) <==>
              && node.lastCheckInAt.Some? && node.intervalSeconds.Some?
              && now - node.lastCheckInAt.value <= 2000 * node.intervalSeconds.value
              && node.reading.Some? && node.configVersion.Some?
              && node.reading.value.cpuUsedPct.GetOr(k.cpuLimitPct) <= k.cpuLimitPct
              && node.reading.value.active + node.placedSinceCheckIn < k.activeLimit
              && node.reading.value.diskAvailableBytes.GetOr(k.minDiskAvailableBytes) >= k.minDiskAvailableBytes
  {
  }

  /** The first in order of those that pass. */
  ghost predicate Chosen(members: map<NodeId, Node>, k: Knobs, now: int, id: NodeId) {
    Passes(members, k, now, id) &&
    forall o :: Passes(members, k, now, o) && o != id ==>
      Before(CandidateOf(id, members[id]), CandidateOf(o, members[o]))
  }

  lemma CrosswiseStrict(x: int, c: nat, y: int, d: nat)
    requires c > 0 && d > 0 && x as real / c as real < y as real / d as real
    ensures x * d < y * c
  {
    var p, q := x as real / c as real, y as real / d as real;
    assert p * c as real == x as real && q * d as real == y as real;
    assert (c * d) as real > 0.0;
    assert p * (c * d) as real < q * (c * d) as real;
    assert (x * d) as real == p * (c * d) as real;
    assert (y * c) as real == q * (c * d) as real;
  }

  /** In whole numbers: fewer per core, then more memory left, then the lesser id. */
  predicate Roomier(a: Node, i: NodeId, b: Node, j: NodeId)
    requires a.reading.Some? && b.reading.Some?
  {
    var r, q := a.reading.value, b.reading.value;
    var x := (r.active + a.placedSinceCheckIn) * (if q.cpuCount == 0 then 1 else q.cpuCount);
    var y := (q.active + b.placedSinceCheckIn) * (if r.cpuCount == 0 then 1 else r.cpuCount);
    x < y || (x == y && (r.memAvailableBytes > q.memAvailableBytes ||
                         (r.memAvailableBytes == q.memAvailableBytes && LexLess(i, j))))
  }

  lemma BeforeMeans(a: Node, i: NodeId, b: Node, j: NodeId)
    requires a.reading.Some? && b.reading.Some?
    ensures Before(CandidateOf(i, a), CandidateOf(j, b)) <==> Roomier(a, i, b, j)
  {
    var r, q := a.reading.value, b.reading.value;
    var x, c, y, d := r.active + a.placedSinceCheckIn, Cores(r), q.active + b.placedSinceCheckIn, Cores(q);
    var m, n := CandidateOf(i, a).load, CandidateOf(j, b).load;
    if m < n { CrosswiseStrict(x, c, y, d); }
    else if n < m { CrosswiseStrict(y, d, x, c); }
    else { Crosswise(x, c, y, d); Crosswise(y, d, x, c); }
  }

  /**
   Who is chosen, in whole numbers: the node that passes the gates and has fewer sandboxes
   per core, its placements since its last reading among them, than every other that passes;
   of equals the one with more memory left, and of those the lesser id.
   */
  lemma ChosenMeans(members: map<NodeId, Node>, k: Knobs, now: int, id: NodeId)
    ensures Chosen(members, k, now, id) <==>
      Passes(members, k, now, id) &&
      forall o :: Passes(members, k, now, o) && o != id ==> Roomier(members[id], id, members[o], o)
  {
    if Passes(members, k, now, id) {
      forall o | Passes(members, k, now, o)
        ensures Before(CandidateOf(id, members[id]), CandidateOf(o, members[o])) <==>
                Roomier(members[id], id, members[o], o)
      {
        BeforeMeans(members[id], id, members[o], o);
      }
    }
  }

  /** Why a node is refused: the first gate it fails, in this order. */
  lemma RefusalMeans(node: Node, k: Knobs, now: int)
    ensures RefusalOf(node, k, now).Some? && RefusalOf(node, k, now).value.IsDown? <==> DownReason(node, now).Some?
    ensures DownReason(node, now).None? ==>
      && (RefusalOf(node, k, now) == Some(NoReading) <==> node.reading.None?)
      && (RefusalOf(node, k, now) == Some(NoConfig) <==> node.reading.Some? && node.configVersion.None?)
      && (node.reading.Some? && node.configVersion.Some? ==>
            var r := node.reading.value;
            var hot := r.cpuUsedPct.Some? && r.cpuUsedPct.value > k.cpuLimitPct;
            var full := r.active + node.placedSinceCheckIn >= k.activeLimit;
            var low := r.diskAvailableBytes.Some? && r.diskAvailableBytes.value < k.minDiskAvailableBytes;
            && (RefusalOf(node, k, now) == Some(CpuHigh) <==> hot)
            && (RefusalOf(node, k, now) == Some(AtLimit) <==> !hot && full)
            && (RefusalOf(node, k, now) == Some(DiskLow) <==> !hot && !full && low))
  {
  }

  /** The choice does not depend on the order the nodes are looked at. */
  lemma ChosenUnique(members: map<NodeId, Node>, k: Knobs, now: int, a: NodeId, b: NodeId)
    requires Chosen(members, k, now, a) && Chosen(members, k, now, b)
    ensures a == b
  {
    if a != b {
      var x, y := CandidateOf(a, members[a]), CandidateOf(b, members[b]);
      BeforeOrder(x, y, x);
      LexIrreflexive(a);
    }
  }

  /** The gates: who refuses and why, and who is a candidate. */
  method Gate(members: map<NodeId, Node>, k: Knobs, now: int)
    returns (refused: map<NodeId, Refusal>, candidates: seq<Candidate>)
    ensures forall id :: id in refused <==> id in members && !Passes(members, k, now, id)
    ensures forall id :: id in refused ==> RefusalOf(members[id], k, now) == Some(refused[id])
    ensures forall c :: c in candidates ==> Passes(members, k, now, c.id) && c == CandidateOf(c.id, members[c.id])
    ensures forall id :: Passes(members, k, now, id) ==> CandidateOf(id, members[id]) in candidates
  {
    refused, candidates := map[], [];
    var todo := members.Keys;
    while todo != {}
      invariant todo <= members.Keys
      invariant forall id :: id in refused <==> id in members.Keys - todo && !Passes(members, k, now, id)
      invariant forall id :: id in refused ==> RefusalOf(members[id], k, now) == Some(refused[id])
      invariant forall c :: c in candidates ==> Passes(members, k, now, c.id) && c == CandidateOf(c.id, members[c.id])
      invariant forall id :: id !in todo && Passes(members, k, now, id) ==> CandidateOf(id, members[id]) in candidates
      decreases todo
    {
      var id :| id in todo;
      todo := todo - {id};
      var node := members[id];
      var down := DownReason(node, now);
      if down.Some? {
        refused := refused[id := IsDown(down.value)];
        continue;
      }
      if node.reading.None? {
        refused := refused[id := NoReading];
        continue;
      }
      if AwaitingFirstConfig(node) {
        refused := refused[id := NoConfig];
        continue;
      }
      var r := node.reading.value;
      if r.cpuUsedPct.Some? && r.cpuUsedPct.value > k.cpuLimitPct {
        refused := refused[id := CpuHigh];
        continue;
      }
      if r.active + node.placedSinceCheckIn >= k.activeLimit {
        refused := refused[id := AtLimit];
        continue;
      }
      if r.diskAvailableBytes.Some? && r.diskAvailableBytes.value < k.minDiskAvailableBytes {
        refused := refused[id := DiskLow];
        continue;
      }
      candidates := candidates + [CandidateOf(id, node)];
    }
  }

  /** The first of the candidates in order. */
  method First(candidates: seq<Candidate>) returns (best: Candidate)
    requires candidates != []
    requires forall c, d :: c in candidates && d in candidates && c.id == d.id ==> c == d
    ensures best in candidates
    ensures forall c :: c in candidates ==> c == best || Before(best, c)
  {
    best := candidates[0];
    for i := 1 to |candidates|
      invariant best in candidates
      invariant forall c :: c in candidates[..i] ==> c == best || Before(best, c)
    {
      var c := candidates[i];
      assert candidates[..i + 1] == candidates[..i] + [c];
      if Before(c, best) {
        forall x | x in candidates[..i] ensures Before(c, x) {
          BeforeOrder(c, best, x);
        }
        best := c;
      } else {
        LexTotal(best.id, c.id);
      }
    }
    assert candidates[..|candidates|] == candidates;
  }

  method Pick(members: map<NodeId, Node>, k: Knobs, now: int)
    returns (chosen: Option<NodeId>, refused: map<NodeId, Refusal>)
    ensures chosen.Some? ==> Chosen(members, k, now, chosen.value)
    ensures chosen.None? <==> forall id :: id in members ==> RefusalOf(members[id], k, now).Some?
    ensures forall id :: id in refused <==> id in members && RefusalOf(members[id], k, now).Some?
    ensures forall id :: id in refused ==> RefusalOf(members[id], k, now) == Some(refused[id])
  {
    var candidates;
    refused, candidates := Gate(members, k, now);
    if candidates == [] { return None, refused; }
    var best := First(candidates);
    chosen := Some(best.id);
  }

  // ---------------------------------------------------------------- counting

  /** A node with one placement more. */
  function Counted(node: Node): Node { node.(placedSinceCheckIn := node.placedSinceCheckIn + 1) }

  function Uncounted(node: Node): Node {
    node.(placedSinceCheckIn := if node.placedSinceCheckIn > 0 then node.placedSinceCheckIn - 1 else 0)
  }

  method Place(fleet: Fleet, k: Knobs, now: int) returns (chosen: Option<NodeId>, refused: map<NodeId, Refusal>)
    modifies fleet
    ensures var was := old(fleet.members);
            chosen.Some? ==> Chosen(was, k, now, chosen.value)
                             && fleet.members == was[chosen.value := Counted(was[chosen.value])]
    ensures chosen.None? ==> fleet.members == old(fleet.members)
    ensures chosen.None? <==> forall id :: id in old(fleet.members) ==> RefusalOf(old(fleet.members)[id], k, now).Some?
    ensures forall id :: id in refused <==> id in old(fleet.members) && RefusalOf(old(fleet.members)[id], k, now).Some?
  {
    chosen, refused := Pick(fleet.members, k, now);
    if chosen.Some? {
      fleet.members := fleet.members[chosen.value := Counted(fleet.members[chosen.value])];
    }
  }

  datatype Answer = Answer(status: nat, id: Option<string>)

  predicate Taken(a: Answer) { 200 <= a.status < 300 }

  /** The hops in front of a node: the node itself may have built it. */
  predicate FromHop(a: Answer) { a.status == 502 || a.status == 503 || a.status == 504 }

  /** What the target's counters become when its create is answered. */
  function Answered(node: Node, answer: Option<Answer>, placed: bool): Node {
    if answer.None? || !placed then node
    else if Taken(answer.value) then
      if answer.value.id.Some? then node.(placedIds := node.placedIds + {answer.value.id.value}) else node
    else if FromHop(answer.value) then node
    else Uncounted(node)
  }

  /**
   The counters after an answer to a create that was placed here: a yes keeps the count and
   remembers the id; 502, 503, 504 and no answer at all leave everything, the node may have
   built it; any other status takes the placement back, never below none.
   */
  lemma AnsweredMeans(node: Node, a: Answer)
    ensures Answered(node, None, true) == node && Answered(node, Some(a), false) == node
    ensures 200 <= a.status <= 299 ==>
      Answered(node, Some(a), true) ==
        node.(placedIds := node.placedIds + if a.id.Some? then {a.id.value} else {})
    ensures a.status == 502 || a.status == 503 || a.status == 504 ==> Answered(node, Some(a), true) == node
    ensures !(200 <= a.status <= 299) && !(502 <= a.status <= 504) ==>
      var n := Answered(node, Some(a), true);
      && n == node.(placedSinceCheckIn := n.placedSinceCheckIn)
      && (node.placedSinceCheckIn > 0 ==> n.placedSinceCheckIn + 1 == node.placedSinceCheckIn)
      && (node.placedSinceCheckIn == 0 ==> n.placedSinceCheckIn == 0)
  {
    assert node.placedIds + {} == node.placedIds;
  }

  method ForwardCreate(fleet: Fleet, cache: NameCache.NameCache, target: NodeId, name: Option<string>,
                       answer: Option<Answer>, placed: bool)
    requires cache.Valid() && target in fleet.members
    modifies fleet, cache
    ensures cache.Valid()
    ensures fleet.members == old(fleet.members)[target := Answered(old(fleet.members)[target], answer, placed)]
    ensures cache.Here() ==
      if answer.Some? && Taken(answer.value) && answer.value.id.Some?
      then NameCache.PutIn(old(cache.Here()), NameCache.CacheEntry(answer.value.id.value, name, target), cache.limit)
      else old(cache.Here())
  {
    if answer.None? { return; }
    var a, node := answer.value, fleet.members[target];
    if 200 <= a.status < 300 {
      if a.id.Some? {
        cache.PutEntry(NameCache.CacheEntry(a.id.value, name, target));
        if placed {
          fleet.members := fleet.members[target := node.(placedIds := node.placedIds + {a.id.value})];
        }
      }
    } else if a.status !in {502, 503, 504} {
      if placed {
        fleet.members := fleet.members[target := Uncounted(node)];
      }
    }
  }

  /** What the target's counters become on its yes to a destroy. */
  function Forgotten(node: Node, id: string): Node {
    if id in node.placedIds then Uncounted(node.(placedIds := node.placedIds - {id})) else node
  }

  /** Only a sandbox placed since the last reading is taken off the count, and then it is forgotten. */
  lemma ForgottenMeans(node: Node, id: string)
    ensures id !in node.placedIds ==> Forgotten(node, id) == node
    ensures id in node.placedIds ==>
      var n := Forgotten(node, id);
      && n == node.(placedIds := node.placedIds - {id}, placedSinceCheckIn := n.placedSinceCheckIn)
      && (node.placedSinceCheckIn > 0 ==> n.placedSinceCheckIn + 1 == node.placedSinceCheckIn)
      && (node.placedSinceCheckIn == 0 ==> n.placedSinceCheckIn == 0)
  {
  }

  method ForwardDestroy(fleet: Fleet, cache: NameCache.NameCache, target: NodeId, entry: NameCache.CacheEntry,
                        answer: Option<Answer>)
    requires cache.Valid() && target in fleet.members
    modifies fleet, cache
    ensures cache.Valid()
    ensures answer.Some? && Taken(answer.value) ==>
      fleet.members == old(fleet.members)[target := Forgotten(old(fleet.members)[target], entry.id)]
      && cache.Here() == NameCache.EvictFrom(old(cache.Here()), entry)
    ensures answer.None? || !Taken(answer.value) ==>
      fleet.members == old(fleet.members) && cache.Here() == old(cache.Here())
  {
    if answer.None? { return; }
    if 200 <= answer.value.status < 300 {
      cache.Evict(entry);
      var node := fleet.members[target];
      if entry.id in node.placedIds {
        fleet.members := fleet.members[target := Uncounted(node.(placedIds := node.placedIds - {entry.id}))];
      }
    }
  }

  // ---------------------------------------------------------------- a burst

  function Load(node: Node): real
    requires node.reading.Some?
  {
    CandidateOf("", node).load
  }

  /** What its load was before its last placement. */
  function LoadBefore(node: Node): real
    requires node.reading.Some?
  {
    (node.reading.value.active + node.placedSinceCheckIn - 1) as real / Cores(node.reading.value) as real
  }

  /** Placements one after another, the readings and the instant unchanged. */
  ghost predicate Burst(members: map<NodeId, Node>, k: Knobs, now: int, placed: seq<NodeId>)
    decreases |placed|
  {
    placed == [] ||
    (Chosen(members, k, now, placed[0]) &&
     Burst(members[placed[0] := Counted(members[placed[0]])], k, now, placed[1..]))
  }

  ghost function AfterBurst(members: map<NodeId, Node>, k: Knobs, now: int, placed: seq<NodeId>): map<NodeId, Node>
    requires Burst(members, k, now, placed)
    decreases |placed|
  {
    if placed == [] then members
    else AfterBurst(members[placed[0] := Counted(members[placed[0]])], k, now, placed[1..])
  }

  /** Whoever was placed on was, before its last placement, no fuller than any node still open. */
  ghost predicate Balanced(members: map<NodeId, Node>, on: set<NodeId>, k: Knobs, now: int) {
    && (forall i :: i in on ==> i in members && members[i].reading.Some?)
    && forall i, j :: i in on && Passes(members, k, now, j) ==> LoadBefore(members[i]) <= Load(members[j])
  }

  lemma MoreLoad(a: int, b: int, c: nat)
    requires a <= b && c > 0
    ensures a as real / c as real <= b as real / c as real
  {
  }

  /** A placement makes its node fuller, and opens no gate. */
  lemma CountedNode(node: Node, k: Knobs, now: int)
    requires RefusalOf(node, k, now).None?
    ensures LoadBefore(Counted(node)) == Load(node) <= Load(Counted(node))
  {
    var n := node.reading.value.active + node.placedSinceCheckIn;
    MoreLoad(n, n + 1, Cores(node.reading.value));
  }

  lemma PlaceBalances(members: map<NodeId, Node>, on: set<NodeId>, k: Knobs, now: int, p: NodeId)
    requires Balanced(members, on, k, now) && Chosen(members, k, now, p)
    ensures Balanced(members[p := Counted(members[p])], on + {p}, k, now)
  {
    var after := members[p := Counted(members[p])];
    CountedNode(members[p], k, now);
    forall i, j | i in on + {p} && Passes(after, k, now, j) ensures LoadBefore(after[i]) <= Load(after[j]) {
      assert Passes(members, k, now, j);
      assert Load(members[j]) <= Load(after[j]);
      if i != p {
        assert LoadBefore(members[i]) <= Load(members[j]);
      } else if j != p {
        assert Before(CandidateOf(p, members[p]), CandidateOf(j, members[j]));
      }
    }
  }

  /**
   Greedy balance: over any burst, from any readings and counters, every node the burst
   placed on was, before its last placement, no fuller per core than any node that still
   passes its gates at the end.
   */
  lemma {:induction false} BurstBalances(members: map<NodeId, Node>, on: set<NodeId>, k: Knobs, now: int,
      placed: seq<NodeId>)
    requires Burst(members, k, now, placed) && Balanced(members, on, k, now)
    ensures Balanced(AfterBurst(members, k, now, placed), on + (set p | p in placed), k, now)
    decreases |placed|
  {
    if placed == [] {
      assert on + (set p | p in placed) == on;
    } else {
      PlaceBalances(members, on, k, now, placed[0]);
      BurstBalances(members[placed[0] := Counted(members[placed[0]])], on + {placed[0]}, k, now, placed[1..]);
      assert on + {placed[0]} + (set p | p in placed[1..]) == on + (set p | p in placed);
    }
  }

  /** The same over whole numbers: placed one fewer, i per core is at most j per core. */
  lemma BalancedCrosswise(members: map<NodeId, Node>, on: set<NodeId>, k: Knobs, now: int, i: NodeId, j: NodeId)
    requires Balanced(members, on, k, now) && i in on && Passes(members, k, now, j)
    ensures var a, b := members[i].reading.value, members[j].reading.value;
            (a.active + members[i].placedSinceCheckIn - 1) * Cores(b)
              <= (b.active + members[j].placedSinceCheckIn) * Cores(a)
  {
    var a, b := members[i].reading.value, members[j].reading.value;
    assert LoadBefore(members[i]) <= Load(members[j]);
    Crosswise(a.active + members[i].placedSinceCheckIn - 1, Cores(a),
              b.active + members[j].placedSinceCheckIn, Cores(b));
  }

  lemma Crosswise(x: int, c: nat, y: int, d: nat)
    requires c > 0 && d > 0 && x as real / c as real <= y as real / d as real
    ensures x * d <= y * c
  {
    var p, q := x as real / c as real, y as real / d as real;
    assert p * c as real == x as real && q * d as real == y as real;
    assert p * c as real * d as real <= q * c as real * d as real;
    assert (x * d) as real == p * c as real * d as real;
    assert (y * c) as real == q * d as real * c as real;
  }

  // ---------------------------------------------------------------- the ceiling, over whole runs

  datatype Event =
    | Placed(id: NodeId, now: int)
    | CreateAnswered(id: NodeId, answer: Option<Answer>, placed: bool)
    | Destroyed(id: NodeId, sandbox: string)
    | Reports(report: Report, now: int)

  ghost predicate Happens(members: map<NodeId, Node>, k: Knobs, e: Event) {
    match e
    case Placed(id, now) => Chosen(members, k, now, id)
    case CreateAnswered(id, _, _) => id in members
    case Destroyed(id, _) => id in members
    case Reports(_, _) => true
  }

  function Then(members: map<NodeId, Node>, e: Event): map<NodeId, Node>
    requires !e.Reports? ==> e.id in members
  {
    match e
    case Placed(id, _) => members[id := Counted(members[id])]
    case CreateAnswered(id, answer, placed) => members[id := Answered(members[id], answer, placed)]
    case Destroyed(id, sandbox) => members[id := Forgotten(members[id], sandbox)]
    case Reports(r, now) => CheckedIn(members, r, now)
  }

  /** At most its limit is active or on its way; more only if its own reading says so. */
  predicate UnderCeiling(node: Node, k: Knobs) {
    node.reading.Some? ==>
      node.reading.value.active + node.placedSinceCheckIn <=
        if node.reading.value.active >= k.activeLimit then node.reading.value.active else k.activeLimit
  }

  ghost predicate Happening(members: map<NodeId, Node>, k: Knobs, events: seq<Event>)
    decreases |events|
  {
    events == [] || (Happens(members, k, events[0]) && Happening(Then(members, events[0]), k, events[1..]))
  }

  ghost function ThenAll(members: map<NodeId, Node>, k: Knobs, events: seq<Event>): map<NodeId, Node>
    requires Happening(members, k, events)
    decreases |events|
  {
    if events == [] then members else ThenAll(Then(members, events[0]), k, events[1..])
  }

  /** Whatever is placed, answered, destroyed and reported, in any order: no node is counted past its ceiling. */
  lemma {:induction false} NeverPastTheCeiling(members: map<NodeId, Node>, k: Knobs, events: seq<Event>)
    requires Happening(members, k, events)
    requires forall id :: id in members ==> UnderCeiling(members[id], k)
    ensures forall id :: id in ThenAll(members, k, events) ==> UnderCeiling(ThenAll(members, k, events)[id], k)
    decreases |events|
  {
    if events != [] {
      CeilingStep(members, k, events[0]);
      NeverPastTheCeiling(Then(members, events[0]), k, events[1..]);
    }
  }

  lemma CeilingStep(members: map<NodeId, Node>, k: Knobs, e: Event)
    requires Happens(members, k, e)
    requires forall id :: id in members ==> UnderCeiling(members[id], k)
    ensures forall id :: id in Then(members, e) ==> UnderCeiling(Then(members, e)[id], k)
  {
  }
}
