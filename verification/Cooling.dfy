/**
 The cooling ladder over whole runs of the scanner (packages/server/src/scanner.ts): one rung
 a sweep, never before its threshold, never past one that is not set, and all the way down
 in three sweeps.
 */
module Cooling {
  import opened Wrappers
  import opened Sandbox
  import opened Lifecycle
  import opened Convergence
  import opened Scanner

  /** packages/shared/src/policy.ts:29-48 */
  predicate ValidPolicy(row: Row) {
    && row.freezeAfterSeconds > 0
    && (row.stopAfterSeconds.Some? ==> row.stopAfterSeconds.value > 0)
    && (row.archiveAfterSeconds.Some? ==> row.archiveAfterSeconds.value > 0)
    && (row.stopAfterSeconds.Some? ==> row.freezeAfterSeconds <= row.stopAfterSeconds.value)
    && (row.archiveAfterSeconds.Some? ==> row.stopAfterSeconds.Some?)
    && (row.archiveAfterSeconds.Some? && row.stopAfterSeconds.Some? ==>
          row.stopAfterSeconds.value <= row.archiveAfterSeconds.value)
  }

  function Coldness(state: SandboxState): nat {
    match state
    case Active => 0
    case Frozen => 1
    case Stopped => 2
    case Archived => 3
    case Restoring => 0
  }

  /** The idle time a rung asks for; none, and the policy stops above it. */
  function Threshold(row: Row, rung: nat): Option<nat> {
    if rung == 1 then Some(row.freezeAfterSeconds)
    else if rung == 2 then row.stopAfterSeconds
    else if rung == 3 then row.archiveAfterSeconds
    else None
  }

  function Expired(row: Row, now: int): bool { row.deadlineAt.Some? && row.deadlineAt.value <= now }

  lemma FreezeEffect(c: Cell)
    requires c.row.Some? && c.row.value.state.Active?
    ensures Exec(c, FREEZE) == if ContainerIs(c, Running) then Do(Do(c, FreezeShell), Transition(Frozen)) else c
    ensures (Taken(c, FREEZE) == FREEZE) == ContainerIs(c, Running)
  {
    ExecTwo(c, FreezeShell, Transition(Frozen));
  }

  lemma StopEffect(c: Cell)
    requires c.row.Some? && c.row.value.state.Frozen?
    ensures Exec(c, STOP) == if ContainerIs(c, Paused) then Do(Do(c, StopShell), Transition(Stopped)) else c
    ensures (Taken(c, STOP) == STOP) == ContainerIs(c, Paused)
  {
    ExecTwo(c, StopShell, Transition(Stopped));
  }

  lemma ArchiveEffect(c: Cell)
    requires c.row.Some? && c.row.value.state.Stopped?
    ensures Exec(c, ARCHIVE) ==
      if Can(c, ExportDisk) then Cell(Some(c.row.value.(state := Archived)), None, false, true) else c
    ensures (Taken(c, ARCHIVE) == ARCHIVE) == Can(c, ExportDisk)
  {
    if Can(c, ExportDisk) { ArchiveStages(c); }
  }

  /** A sandbox's data is somewhere: on its disk, or in its archive object once archived. */
  predicate HasBody(c: Cell) {
    c.disk || (c.row.Some? && c.row.value.state.Archived? && c.stored)
  }

  /** What carrying out a move leaves; with nothing to carry it out on it leaves all as it was, and fails. */
  lemma MoveLeaves(c: Cell, s: Sweep)
    requires MoveIn(c, s).Some?
    ensures var d, row := Swept(c, s), c.row.value;
      match MoveIn(c, s).value
      case MovedFrozen =>
        d == if ContainerIs(c, Running)
             then c.(container := Some(c.container.value.(state := Paused)), row := Some(row.(state := Frozen))) else c
      case MovedStopped =>
        d == if ContainerIs(c, Paused) then c.(container := None, row := Some(row.(state := Stopped))) else c
      case MovedArchived =>
        d == if c.disk && (c.container.None? || ContainerIs(c, Exited))
             then Cell(Some(row.(state := Archived)), None, false, true) else c
      case Killed =>
        d == if row.state.Archived? then (if s.store then c.(row := None, stored := false) else c)
             else if c.container.Some? || c.disk then c.(row := None, container := None, disk := false) else c
    ensures Succeeds(c, MoveIn(c, s).value, s.store) <==> Swept(c, s) != c
  {
    match MoveIn(c, s).value {
      case MovedFrozen => FreezeEffect(c);
      case MovedStopped => StopEffect(c);
      case MovedArchived => ArchiveEffect(c);
      case Killed =>
        ExecTwo(c, DestroyAll, DeleteRow);
        ExecTwo(c, DeleteObject, DeleteRow);
    }
  }

  /** A sweep counts exactly the sandboxes it changed; those it meant to move and could not are its failures. */
  lemma SweepCounts(was: World, now: World, r: ScanResult, s: Sweep, id: Id)
    requires Complete(was, now, r, s)
    ensures id in r.did <==> CellOf(now, id) != CellOf(was, id)
    ensures id in r.failures <==> MoveIn(CellOf(was, id), s).Some? && CellOf(now, id) == CellOf(was, id)
    ensures id in r.did ==> MoveIn(CellOf(was, id), s) == Some(r.did[id])
  {
    if MoveIn(CellOf(was, id), s).Some? { MoveLeaves(CellOf(was, id), s); }
  }

  /** What a sweep left is what was there, or one rung colder. */
  predicate AtMostOneRung(c: Cell, d: Cell, s: Sweep)
    requires c.row.Some?
  {
    d.row.Some? && var row := c.row.value;
    d == c ||
    (Coldness(d.row.value.state) == Coldness(row.state) + 1
     && d.row.value == row.(state := d.row.value.state)
     && (HasBody(c) ==> HasBody(d))
     && var due := Threshold(row, Coldness(row.state) + 1);
        (due.Some? && s.now - row.lastActiveAt >= 1000 * due.value)
        || (row.state.Active? && Expired(row, s.now) && row.onDeadline == Some(Pause)))
  }

  /**
   Any sandbox, any sweep: it is left alone, moved exactly one rung colder with nothing else
   in its row changed and its data kept, or its deadline killed it. It is moved only past
   its own threshold, or frozen by a deadline that asked for that; a kill takes an expired
   deadline that did not ask for a pause, and spares a restore.
   */
  lemma OneRungPerSweep(c: Cell, s: Sweep)
    requires c.row.Some?
    ensures var d := Swept(c, s);
            if d.row.None? then
              Expired(c.row.value, s.now) && c.row.value.onDeadline != Some(Pause) && !c.row.value.state.Restoring?
            else AtMostOneRung(c, d, s)
  {
    if MoveIn(c, s).Some? {
      match MoveIn(c, s).value {
        case MovedFrozen => FreezeEffect(c);
        case MovedStopped => StopEffect(c);
        case MovedArchived => ArchiveEffect(c);
        case Killed => KillLeaves(c, s.store);
      }
    }
  }

  /** An expired deadline that asks for a kill is carried out on a sandbox in step, from any state but restoring. */
  lemma DeadlineKills(c: Cell, s: Sweep)
    requires c.row.Some? && InStep(c) && c.row.value.name !in s.busy
    requires Expired(c.row.value, s.now) && c.row.value.onDeadline != Some(Pause)
    requires c.row.value.state.Archived? ==> s.store
    ensures Swept(c, s) == Cell(None, None, false, c.stored && !c.row.value.state.Archived?)
  {
    if c.row.value.state.Archived? {
      ExecTwo(c, DeleteObject, DeleteRow);
    } else {
      ExecTwo(c, DestroyAll, DeleteRow);
    }
  }

  /** One that asks for a pause freezes an active sandbox in step, however recently used, and kills nothing. */
  lemma DeadlinePauses(c: Cell, s: Sweep)
    requires c.row.Some? && InStep(c) && c.row.value.name !in s.busy
    requires Expired(c.row.value, s.now) && c.row.value.onDeadline == Some(Pause)
    ensures Swept(c, s).row.Some?
    ensures c.row.value.state.Active? ==>
      ContainerIs(Swept(c, s), Paused) && Swept(c, s).row.value == c.row.value.(state := Frozen)
  {
    if c.row.value.state.Active? {
      FreezeEffect(c);
    } else {
      OneRungPerSweep(c, s);
    }
  }

  // ---------------------------------------------------------------- all the way down

  function Coldest(row: Row): nat {
    if row.stopAfterSeconds.None? then 1 else if row.archiveAfterSeconds.None? then 2 else 3
  }

  /** Where idling takes a sandbox: never warmer than it is. */
  function Goal(row: Row): nat {
    if Coldness(row.state) >= Coldest(row) then Coldness(row.state) else Coldest(row)
  }

  /** In step, its disk there unless archived, no restore of it running, no deadline, a policy that is valid. */
  predicate AtRest(c: Cell) {
    && c.row.Some? && InStep(c) && ValidPolicy(c.row.value) && c.row.value.deadlineAt.None?
    && (c.disk || c.row.value.state.Archived?)
  }

  /** Idle past every threshold the policy sets. */
  predicate LongIdle(row: Row, now: int) {
    && now - row.lastActiveAt >= 1000 * row.freezeAfterSeconds
    && (row.stopAfterSeconds.Some? ==> now - row.lastActiveAt >= 1000 * row.stopAfterSeconds.value)
    && (row.archiveAfterSeconds.Some? ==> now - row.lastActiveAt >= 1000 * row.archiveAfterSeconds.value)
  }

  /** Its slot is free, and archiving is on if its policy asks for it. */
  predicate Free(c: Cell, s: Sweep) {
    c.row.Some? ==> c.row.value.name !in s.busy && (c.row.value.archiveAfterSeconds.Some? ==> s.store)
  }

  predicate OneDown(c: Cell, d: Cell)
    requires c.row.Some?
  {
    && AtRest(d) && d.row.value == c.row.value.(state := d.row.value.state)
    && (if Coldness(c.row.value.state) < Goal(c.row.value)
        then Coldness(d.row.value.state) == Coldness(c.row.value.state) + 1 && Goal(d.row.value) == Goal(c.row.value)
        else d == c)
  }

  lemma ActiveDescends(c: Cell, s: Sweep)
    requires AtRest(c) && Free(c, s) && LongIdle(c.row.value, s.now) && c.row.value.state.Active?
    ensures OneDown(c, Swept(c, s))
  {
    FreezeEffect(c);
    assert MoveIn(c, s) == Some(MovedFrozen);
  }

  lemma FrozenDescends(c: Cell, s: Sweep)
    requires AtRest(c) && Free(c, s) && LongIdle(c.row.value, s.now) && c.row.value.state.Frozen?
    ensures OneDown(c, Swept(c, s))
  {
    StopEffect(c);
    assert MoveIn(c, s) == if c.row.value.stopAfterSeconds.Some? then Some(MovedStopped) else None;
  }

  lemma StoppedDescends(c: Cell, s: Sweep)
    requires AtRest(c) && Free(c, s) && LongIdle(c.row.value, s.now) && c.row.value.state.Stopped?
    ensures OneDown(c, Swept(c, s))
  {
    ArchiveEffect(c);
    assert MoveIn(c, s) == if c.row.value.archiveAfterSeconds.Some? then Some(MovedArchived) else None;
  }

  /** A sweep of a sandbox long idle takes it one rung towards its goal, and leaves it there once reached. */
  lemma SweepDescends(c: Cell, s: Sweep)
    requires AtRest(c) && Free(c, s) && LongIdle(c.row.value, s.now)
    ensures OneDown(c, Swept(c, s))
  {
    if c.row.value.state.Active? { ActiveDescends(c, s); }
    else if c.row.value.state.Frozen? { FrozenDescends(c, s); }
    else if c.row.value.state.Stopped? { StoppedDescends(c, s); }
    else { assert MoveIn(c, s).None?; }
  }

  /** A sandbox nobody uses, swept again and again. */
  function SweptBy(c: Cell, sweeps: seq<Sweep>): Cell
    decreases |sweeps|
  {
    if sweeps == [] then c else SweptBy(Swept(c, sweeps[0]), sweeps[1..])
  }

  /**
   Whatever the sweeps' clocks read past its thresholds: after n of them the sandbox has
   come down n rungs or to the coldest its policy allows, and three always get there. From
   there no further sweep moves it.
   */
  lemma {:induction false} CoolsToTheColdest(c: Cell, sweeps: seq<Sweep>)
    requires AtRest(c)
    requires forall s :: s in sweeps ==> Free(c, s) && LongIdle(c.row.value, s.now)
    ensures var d := SweptBy(c, sweeps); var row := c.row.value;
            && d.row.Some? && d.row.value == row.(state := d.row.value.state) && AtRest(d)
            && Coldness(d.row.value.state) ==
                 (if Coldness(row.state) + |sweeps| <= Goal(row) then Coldness(row.state) + |sweeps| else Goal(row))
            && (|sweeps| >= 3 ==> Coldness(d.row.value.state) == Goal(row))
    decreases |sweeps|
  {
    if sweeps != [] {
      SweepDescends(c, sweeps[0]);
      forall s | s in sweeps[1..] ensures s in sweeps {}
      CoolsToTheColdest(Swept(c, sweeps[0]), sweeps[1..]);
    }
  }

  /** The host's sweeps, one after another, are each sandbox's own. */
  method SweepThrice(h: Host, sweeps: seq<Sweep>)
    requires |sweeps| == 3
    modifies h
    ensures forall id :: CellOf(h.Model(), id) == SweptBy(CellOf(old(h.Model()), id), sweeps)
    ensures forall id ::
      AtRest(CellOf(old(h.Model()), id)) &&
      (forall s :: s in sweeps ==> Free(CellOf(old(h.Model()), id), s) && LongIdle(old(h.ledger)[id], s.now)) ==>
      id in h.ledger && Coldness(h.ledger[id].state) == Goal(old(h.ledger)[id])
  {
    ghost var was := h.Model();
    assert sweeps[..0] == [];
    for i := 0 to 3
      invariant forall id :: CellOf(h.Model(), id) == SweptBy(CellOf(was, id), sweeps[..i])
    {
      ghost var mid := h.Model();
      var _ := ScanOnce(h, sweeps[i]);
      forall id ensures CellOf(h.Model(), id) == SweptBy(CellOf(was, id), sweeps[..i + 1]) {
        SweptByLast(CellOf(was, id), sweeps[..i], sweeps[i]);
        assert sweeps[..i + 1] == sweeps[..i] + [sweeps[i]];
      }
    }
    assert sweeps[..3] == sweeps;
    forall id | AtRest(CellOf(was, id)) &&
      (forall s :: s in sweeps ==> Free(CellOf(was, id), s) && LongIdle(was.ledger[id], s.now))
      ensures id in h.ledger && Coldness(h.ledger[id].state) == Goal(was.ledger[id])
    {
      CoolsToTheColdest(CellOf(was, id), sweeps);
      assert CellOf(h.Model(), id).row.Some?;
    }
  }

  lemma {:induction false} SweptByLast(c: Cell, sweeps: seq<Sweep>, s: Sweep)
    ensures SweptBy(c, sweeps + [s]) == Swept(SweptBy(c, sweeps), s)
    decreases |sweeps|
  {
    if sweeps == [] {
      assert [s][1..] == [] && [] + [s] == [s];
    } else {
      SweptByLast(Swept(c, sweeps[0]), sweeps[1..], s);
      assert (sweeps + [s])[1..] == sweeps[1..] + [s];
    }
  }
}
