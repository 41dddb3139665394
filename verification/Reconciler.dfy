/**
 The reconciler (packages/server/src/reconciler.ts): reads the ledger, then reality, and
 repairs every disagreement. The listing nominates; the container as it is now decides.
 */
module Reconciler {
  import opened Wrappers
  import opened Sandbox

  /** What each of the result's counters counts. */
  datatype Repair = RepairedState | DeletedRow | DestroyedOrphan | RemovedDisk | ArchivedSwept | RemovedShell

  /** The pass's answer, each counter as the sandboxes it counted. */
  datatype Result = Result(did: map<Id, Repair>, suspects: set<Id>, failures: set<Id>)

  function LedgerState(s: ContainerState): SandboxState {
    match s
    case Running => Active
    case Paused => Frozen
    case Exited => Stopped
  }

  function Observed(c: Option<Container>): Option<ContainerState> {
    if c.Some? then Some(c.value.state) else None
  }

  /** Whether what the listings showed of a row calls for a repair. */
  predicate Nominated(state: SandboxState, observed: Option<ContainerState>, listed: bool, startup: bool, live: bool) {
    match state
    case Archived => observed.Some? || listed
    case Restoring => !live
    case _ =>
      !(if observed.None? then state.Stopped? && listed
        else LedgerState(observed.value) == state && (!observed.value.Exited? || startup))
  }

  /** The repair of a row whose container is now `current`; `listed` is what the disk listing showed. */
  function RowRepair(state: SandboxState, current: Option<Container>, listed: bool, startup: bool): seq<Op> {
    match state
    case Archived =>
      if current.Some? then [DestroyAll] else if listed then [RemoveDisk] else []
    case Restoring =>
      if current.Some? then [Overwrite(LedgerState(current.value.state))] else [RemoveDisk, Overwrite(Archived)]
    case _ =>
      if current.None? then
        if !listed then [DeleteRow] else if !state.Stopped? then [Overwrite(Stopped)] else []
      else if current.value.state.Exited? && state.Stopped? then
        if startup then [] else [RemoveContainer]
      else if current.value.state.Exited? then [RecordDeath(current.value.exit)]
      else if LedgerState(current.value.state) != state then [Overwrite(LedgerState(current.value.state))]
      else []
  }

  /** The repair of a sandbox no row claims: destroy takes its own disk along. */
  function OrphanRepair(observed: bool): seq<Op> {
    if observed then [DestroyAll] else [RemoveDisk]
  }

  function RowKind(state: SandboxState, ops: seq<Op>): Repair {
    if state.Archived? then ArchivedSwept
    else if ops == [DeleteRow] then DeletedRow
    else if ops == [RemoveContainer] then RemovedShell
    else RepairedState
  }

  /** A pass over a world that stands still: what it does to one sandbox. `struck` is its first strike. */
  function PassOps(c: Cell, startup: bool, struck: bool, live: bool): seq<Op> {
    match c.row
    case Some(row) =>
      if Nominated(row.state, Observed(c.container), c.disk, startup, live)
      then RowRepair(row.state, c.container, c.disk, startup) else []
    case None =>
      if (c.container.Some? || c.disk) && (startup || struck) then OrphanRepair(c.container.Some?) else []
  }

  predicate Suspect(c: Cell, startup: bool, struck: bool) {
    c.row.None? && (c.container.Some? || c.disk) && !startup && !struck
  }

  function PassKind(c: Cell, ops: seq<Op>): Repair {
    if c.row.Some? then RowKind(c.row.value.state, ops)
    else if c.container.Some? then DestroyedOrphan else RemovedDisk
  }

  function Passed(c: Cell, startup: bool, struck: bool, live: bool): Cell {
    Exec(c, PassOps(c, startup, struck, live))
  }

  lemma RepairTaken(c: Cell, ops: seq<Op>)
    requires ops == [] || (|ops| == 1 && Can(c, ops[0])) || ops == [RemoveDisk, Overwrite(Archived)]
    ensures Taken(c, ops) == ops
    ensures |ops| == 1 ==> Exec(c, ops) == Do(c, ops[0])
    ensures ops == [RemoveDisk, Overwrite(Archived)] ==> Exec(c, ops) == WithState(c.(disk := false), Archived)
  {
    if |ops| == 1 {
      assert ops == [ops[0]];
      ExecOne(c, ops[0]);
    } else if ops != [] {
      ExecOne(c, RemoveDisk);
      ExecOne(c.(disk := false), Overwrite(Archived));
      assert ops == [RemoveDisk] + [Overwrite(Archived)];
      ExecAppend(c, [RemoveDisk], [Overwrite(Archived)]);
    }
  }

  /** Over a still world no repair is refused. */
  lemma PassTaken(c: Cell, startup: bool, struck: bool, live: bool)
    ensures Taken(c, PassOps(c, startup, struck, live)) == PassOps(c, startup, struck, live)
  {
    RepairTaken(c, PassOps(c, startup, struck, live));
  }

  // ---------------------------------------------------------------- what a pass owes one sandbox

  /** The same sandbox with its row in another state. */
  function Moved(c: Cell, to: SandboxState): Cell
    requires c.row.Some?
  {
    c.(row := Some(c.row.value.(state := to)))
  }

  /**
   A restoring row is its task's alone while that task lives, with or without a container.
   Once it is dead a container says the state; with none the half-restored disk goes and
   the row is archived again.
   */
  lemma RestoringMeans(c: Cell, startup: bool, struck: bool, live: bool)
    requires c.row.Some? && c.row.value.state.Restoring?
    ensures live ==> Passed(c, startup, struck, live) == c && PassOps(c, startup, struck, live) == []
    ensures !live && c.container.None? ==> Passed(c, startup, struck, live) == Moved(c, Archived).(disk := false)
    ensures !live && ContainerIs(c, Running) ==> Passed(c, startup, struck, live) == Moved(c, Active)
    ensures !live && ContainerIs(c, Paused) ==> Passed(c, startup, struck, live) == Moved(c, Frozen)
    ensures !live && ContainerIs(c, Exited) ==> Passed(c, startup, struck, live) == Moved(c, Stopped)
  {
    RepairTaken(c, PassOps(c, startup, struck, live));
  }

  /** An archived row's leftovers are swept, container and disk; its row and its object stay. */
  lemma ArchivedMeans(c: Cell, startup: bool, struck: bool, live: bool)
    requires c.row.Some? && c.row.value.state.Archived?
    ensures Passed(c, startup, struck, live) == c.(container := None, disk := false)
  {
    RepairTaken(c, PassOps(c, startup, struck, live));
  }

  /** A row with no container: stopped if its disk is there, gone if not. */
  lemma MissingMeans(c: Cell, startup: bool, struck: bool, live: bool)
    requires c.row.Some? && !c.row.value.state.Archived? && !c.row.value.state.Restoring? && c.container.None?
    ensures c.disk ==> Passed(c, startup, struck, live) == Moved(c, Stopped)
    ensures !c.disk ==> Passed(c, startup, struck, live) == c.(row := None)
  {
    RepairTaken(c, PassOps(c, startup, struck, live));
  }

  /** A row with a live container takes the container's state. */
  lemma LiveMeans(c: Cell, startup: bool, struck: bool, live: bool)
    requires c.row.Some? && !c.row.value.state.Archived? && !c.row.value.state.Restoring?
    ensures ContainerIs(c, Running) ==> Passed(c, startup, struck, live) == Moved(c, Active)
    ensures ContainerIs(c, Paused) ==> Passed(c, startup, struck, live) == Moved(c, Frozen)
  {
    RepairTaken(c, PassOps(c, startup, struck, live));
  }

  /**
   A row with an exited container. A stopped one loses the shell while the daemon runs and
   keeps it at startup; any other is a death, recorded with how it died, shell and disk kept.
   */
  lemma ExitedMeans(c: Cell, startup: bool, struck: bool, live: bool)
    requires c.row.Some? && !c.row.value.state.Archived? && !c.row.value.state.Restoring? && ContainerIs(c, Exited)
    ensures c.row.value.state.Stopped? && startup ==> Passed(c, startup, struck, live) == c
    ensures c.row.value.state.Stopped? && !startup ==> Passed(c, startup, struck, live) == c.(container := None)
    ensures !c.row.value.state.Stopped? ==>
      var exit := c.container.value.exit;
      var cause := if exit.oomKilled then OomKilled else if exit.runtimeDied then RuntimeDied else JustExited;
      Passed(c, startup, struck, live) == c.(row := Some(c.row.value.(
        state := Stopped, lastExit := Some(LastExit(exit.finishedAt, exit.exitCode, cause)))))
  {
    RepairTaken(c, PassOps(c, startup, struck, live));
  }

  /** What no row claims goes whole, at startup or on its second strike; on its first it is left and suspected. */
  lemma RowlessMeans(c: Cell, startup: bool, struck: bool, live: bool)
    requires c.row.None?
    ensures startup || struck ==> Passed(c, startup, struck, live) == c.(container := None, disk := false)
    ensures !startup && !struck ==> Passed(c, startup, struck, live) == c
    ensures Suspect(c, startup, struck) <==> !startup && !struck && (c.container.Some? || c.disk)
  {
    RepairTaken(c, PassOps(c, startup, struck, live));
  }

  /** A counter tells what became of the sandbox it counted. */
  predicate Tells(kind: Repair, c: Cell, d: Cell) {
    match kind
    case RepairedState => c.row.Some? && d.row.Some? && d.row.value.state != c.row.value.state
    case DeletedRow => c.row.Some? && d.row.None? && c.container.None? && !c.disk
    case DestroyedOrphan => c.row.None? && c.container.Some? && d.container.None? && !d.disk
    case RemovedDisk => c.row.None? && c.container.None? && c.disk && !d.disk
    case ArchivedSwept => c.row.Some? && c.row.value.state.Archived? && d.row == c.row && d != c
    case RemovedShell =>
      c.row.Some? && c.row.value.state.Stopped? && ContainerIs(c, Exited) && d == c.(container := None)
  }

  lemma RowTells(c: Cell, startup: bool, struck: bool, live: bool)
    requires c.row.Some? && PassOps(c, startup, struck, live) != []
    ensures Passed(c, startup, struck, live) != c
    ensures Tells(PassKind(c, PassOps(c, startup, struck, live)), c, Passed(c, startup, struck, live))
  {
    if c.row.value.state.Restoring? { RestoringMeans(c, startup, struck, live); }
    else if c.row.value.state.Archived? { ArchivedMeans(c, startup, struck, live); }
    else if c.container.None? { MissingMeans(c, startup, struck, live); }
    else if ContainerIs(c, Exited) { ExitedMeans(c, startup, struck, live); }
    else { LiveMeans(c, startup, struck, live); }
  }

  /** A pass has work on a sandbox exactly when it changes it, and counts it for what the change was. */
  lemma WorkIsChange(c: Cell, startup: bool, struck: bool, live: bool)
    ensures PassOps(c, startup, struck, live) == [] <==> Passed(c, startup, struck, live) == c
    ensures PassOps(c, startup, struck, live) != [] ==>
      Tells(PassKind(c, PassOps(c, startup, struck, live)), c, Passed(c, startup, struck, live))
  {
    if PassOps(c, startup, struck, live) != [] {
      if c.row.Some? { RowTells(c, startup, struck, live); } else { RowlessMeans(c, startup, struck, live); }
    }
  }

  // ---------------------------------------------------------------- the pass

  /**
   What a pass is given: the first strikes of the pass before, or none at startup; the
   restores whose task is alive; the names whose slot is held; and the sandboxes whose
   executor calls fail.
   */
  datatype Given = Given(prior: Option<set<Id>>, live: set<Id>, busy: set<Name>, broken: set<Id>)

  function OpsIn(c: Cell, id: Id, g: Given): seq<Op> {
    PassOps(c, g.prior.None?, g.prior.Some? && id in g.prior.value, id in g.live)
  }

  /** The pass wants to repair this sandbox, and its slot is free. */
  predicate Wanted(c: Cell, id: Id, g: Given) {
    OpsIn(c, id, g) != [] && !(c.row.Some? && c.row.value.name in g.busy)
  }

  /** What one pass makes of one sandbox; one that fails or is held stays as it was. */
  function Outcome(c: Cell, id: Id, g: Given): Cell {
    if Wanted(c, id, g) && id !in g.broken then Exec(c, OpsIn(c, id, g)) else c
  }

  predicate SuspectIn(c: Cell, id: Id, g: Given) {
    Suspect(c, g.prior.None?, g.prior.Some? && id in g.prior.value)
  }

  /** The sandboxes in `done` are dealt with, and the result says so; the others are as they were. */
  ghost predicate Progress(was: World, now: World, r: Result, done: set<Id>, g: Given) {
    && (forall id :: CellOf(now, id) == if id in done then Outcome(CellOf(was, id), id, g) else CellOf(was, id))
    && (forall id :: id in r.did <==> id in done && Wanted(CellOf(was, id), id, g) && id !in g.broken)
    && (forall id :: id in r.did ==> r.did[id] == PassKind(CellOf(was, id), OpsIn(CellOf(was, id), id, g)))
    && (forall id :: id in r.failures <==> id in done && Wanted(CellOf(was, id), id, g) && id in g.broken)
    && (forall id :: id in r.suspects <==> id in done && SuspectIn(CellOf(was, id), id, g))
  }

  /** One sandbox's share of the result. */
  function Noted(r: Result, c: Cell, id: Id, g: Given): Result {
    Result(
      if Wanted(c, id, g) && id !in g.broken then r.did[id := PassKind(c, OpsIn(c, id, g))] else r.did,
      if SuspectIn(c, id, g) then r.suspects + {id} else r.suspects,
      if Wanted(c, id, g) && id in g.broken then r.failures + {id} else r.failures)
  }

  lemma ProgressStep(was: World, now: World, r: Result, done: set<Id>, g: Given, id: Id)
    requires Progress(was, now, r, done, g) && id !in done
    ensures Progress(was, WithCell(now, id, Outcome(CellOf(was, id), id, g)),
                     Noted(r, CellOf(was, id), id, g), done + {id}, g)
  {
    forall x ensures CellOf(WithCell(now, id, Outcome(CellOf(was, id), id, g)), x)
                  == if x in done + {id} then Outcome(CellOf(was, x), x, g) else CellOf(was, x)
    {
      CellOfWith(now, id, Outcome(CellOf(was, id), id, g), x);
    }
  }

  /** Inside the slot: the repair, branch by branch, on the container as it is now. */
  method RepairInSlot(h: Host, id: Id, state: SandboxState, listed: bool, startup: bool)
    returns (kind: Option<Repair>)
    requires id in h.ledger && h.ledger[id].state == state
    modifies h
    ensures h.Model() == WithCell(old(h.Model()), id,
              Exec(old(h.Here(id)), RowRepair(state, old(h.Here(id)).container, listed, startup)))
    ensures var ops := RowRepair(state, old(h.Here(id)).container, listed, startup);
            kind == if ops == [] then None else Some(RowKind(state, ops))
  {
    ghost var was, c := h.Model(), h.Here(id);
    var current := h.Here(id).container;
    RepairTaken(c, RowRepair(state, current, listed, startup));
    WithSame(was, id);
    kind := None;
    if state.Archived? {
      if current.Some? {
        var _ := h.Perform(id, DestroyAll);
      } else if listed {
        var _ := h.Perform(id, RemoveDisk);
      } else {
        return;
      }
      return Some(ArchivedSwept);
    }
    if state.Restoring? {
      if current.Some? {
        var _ := h.Perform(id, Overwrite(LedgerState(current.value.state)));
      } else {
        var _ := h.Perform(id, RemoveDisk);
        WithTwice(was, id, c.(disk := false), WithState(c.(disk := false), Archived));
        CellOfWith(was, id, c.(disk := false), id);
        assert h.Here(id) == c.(disk := false);
        var _ := h.Perform(id, Overwrite(Archived));
      }
      return Some(RepairedState);
    }
    if current.None? {
      if !listed {
        var _ := h.Perform(id, DeleteRow);
        return Some(DeletedRow);
      }
      if !state.Stopped? {
        var _ := h.Perform(id, Overwrite(Stopped));
        return Some(RepairedState);
      }
      return;
    }
    if current.value.state.Exited? && state.Stopped? {
      if !startup {
        var _ := h.Perform(id, RemoveContainer);
        return Some(RemovedShell);
      }
      return;
    }
    if current.value.state.Exited? {
      var _ := h.Perform(id, RecordDeath(current.value.exit));
      return Some(RepairedState);
    }
    if LedgerState(current.value.state) != state {
      var _ := h.Perform(id, Overwrite(LedgerState(current.value.state)));
      return Some(RepairedState);
    }
  }

  /** One row's turn: nominated by the listings, its slot tried, re-read in the slot, repaired. */
  method RepairRow(h: Host, id: Id, row: Row, observed: Option<ContainerState>, listed: bool, g: Given, r: Result,
                   ghost was: World, ghost done: set<Id>) returns (s: Result)
    requires Progress(was, h.Model(), r, done, g) && id !in done
    requires id in was.ledger && row == was.ledger[id]
    requires observed == Observed(CellOf(was, id).container) && (listed <==> id in was.disks)
    modifies h
    ensures Progress(was, h.Model(), s, done + {id}, g)
  {
    ghost var c := CellOf(was, id);
    var startup := g.prior.None?;
    ProgressStep(was, h.Model(), r, done, g, id);
    WithSame(h.Model(), id);
    assert h.Here(id) == CellOf(h.Model(), id) == c;
    s := r;
    if !Nominated(row.state, observed, listed, startup, id in g.live) { return; }
    if row.name in g.busy { return; }
    if id !in h.ledger || h.ledger[id].state != row.state { return; }
    NominatedHasRepair(c, startup, id in g.live);
    if id in g.broken {
      s := r.(failures := r.failures + {id});
      return;
    }
    var kind := RepairInSlot(h, id, row.state, listed, startup);
    s := r.(did := r.did[id := kind.value]);
  }

  /** What the listings nominate, over a world that stands still, is repaired. */
  lemma NominatedHasRepair(c: Cell, startup: bool, live: bool)
    requires c.row.Some? && Nominated(c.row.value.state, Observed(c.container), c.disk, startup, live)
    ensures RowRepair(c.row.value.state, c.container, c.disk, startup) != []
  {
  }

  /** A sandbox no row claims: destroyed at startup or on its second strike, a suspect on its first. */
  method RepairOrphan(h: Host, id: Id, observed: bool, g: Given, r: Result, ghost was: World, ghost done: set<Id>)
    returns (s: Result)
    requires Progress(was, h.Model(), r, done, g) && id !in done
    requires id !in was.ledger && (observed <==> id in was.containers) && (observed || id in was.disks)
    modifies h
    ensures Progress(was, h.Model(), s, done + {id}, g)
  {
    ghost var c := CellOf(was, id);
    ProgressStep(was, h.Model(), r, done, g, id);
    WithSame(h.Model(), id);
    assert h.Here(id) == CellOf(h.Model(), id) == c;
    RepairTaken(c, OrphanRepair(observed));
    s := r;
    if g.prior.None? || id in g.prior.value {
      if id in h.ledger { return; }
      if id in g.broken {
        s := r.(failures := r.failures + {id});
        return;
      }
      var _ := h.Perform(id, if observed then DestroyAll else RemoveDisk);
      s := r.(did := r.did[id := if observed then DestroyedOrphan else RemovedDisk]);
    } else {
      s := r.(suspects := r.suspects + {id});
    }
  }

  /** Every sandbox is dealt with, as one pass deals with it alone. */
  ghost predicate Complete(was: World, now: World, r: Result, g: Given) {
    && (forall id :: CellOf(now, id) == Outcome(CellOf(was, id), id, g))
    && (forall id :: id in r.did <==> Wanted(CellOf(was, id), id, g) && id !in g.broken)
    && (forall id :: id in r.did ==> r.did[id] == PassKind(CellOf(was, id), OpsIn(CellOf(was, id), id, g)))
    && (forall id :: id in r.failures <==> Wanted(CellOf(was, id), id, g) && id in g.broken)
    && (forall id :: id in r.suspects <==> SuspectIn(CellOf(was, id), id, g))
  }

  lemma ProgressComplete(was: World, now: World, r: Result, done: set<Id>, g: Given)
    requires Progress(was, now, r, done, g)
    requires was.ledger.Keys + was.containers.Keys + was.disks <= done
    ensures Complete(was, now, r, g)
  {
    forall id | id !in done ensures !Wanted(CellOf(was, id), id, g) && !SuspectIn(CellOf(was, id), id, g) {
      assert id !in was.ledger && id !in was.containers && id !in was.disks;
    }
  }

  /** The first loop: every row, its container struck from the listing. */
  method RepairRows(h: Host, g: Given) returns (r: Result, unclaimed: map<Id, Container>)
    modifies h
    ensures Progress(old(h.Model()), h.Model(), r, old(h.ledger).Keys, g)
    ensures unclaimed == old(h.containers) - old(h.ledger).Keys
  {
    ghost var was := h.Model();
    var rows, disks := h.ledger, h.disks;
    unclaimed := h.containers;
    r := Result(map[], {}, {});
    var todo := rows.Keys;
    while todo != {}
      invariant todo <= rows.Keys
      invariant unclaimed == was.containers - (rows.Keys - todo)
      invariant Progress(was, h.Model(), r, rows.Keys - todo, g)
      decreases todo
    {
      var id :| id in todo;
      var observed := Observed(if id in unclaimed then Some(unclaimed[id]) else None);
      r := RepairRow(h, id, rows[id], observed, id in disks, g, r, was, rows.Keys - todo);
      assert rows.Keys - todo + {id} == rows.Keys - (todo - {id});
      todo := todo - {id};
      unclaimed := unclaimed - {id};
    }
    assert rows.Keys - todo == rows.Keys;
  }

  /** The other two loops: containers, then disks, that nothing owns. */
  method RepairOrphans(h: Host, ids: set<Id>, observed: bool, g: Given, r0: Result, ghost was: World,
      ghost done: set<Id>)
    returns (r: Result)
    requires Progress(was, h.Model(), r0, done, g)
    requires ids !! done && ids !! was.ledger.Keys
    requires observed ==> ids <= was.containers.Keys
    requires !observed ==> ids <= was.disks && ids !! was.containers.Keys
    modifies h
    ensures Progress(was, h.Model(), r, done + ids, g)
  {
    r := r0;
    var todo := ids;
    while todo != {}
      invariant todo <= ids
      invariant Progress(was, h.Model(), r, done + (ids - todo), g)
      decreases todo
    {
      var id :| id in todo;
      r := RepairOrphan(h, id, observed, g, r, was, done + (ids - todo));
      assert done + (ids - todo) + {id} == done + (ids - (todo - {id}));
      todo := todo - {id};
    }
    assert done + (ids - todo) == done + ids;
  }

  /** Out of the pass's reach: its slot is held by another task, or its executor calls fail. */
  predicate Hindered(c: Cell, id: Id, g: Given) {
    id in g.broken || (c.row.Some? && c.row.value.name in g.busy)
  }

  /** A restoring row whose task is alive. */
  predicate LiveRestore(c: Cell, id: Id, g: Given) {
    id in g.live && c.row.Some? && c.row.value.state.Restoring?
  }

  /** What a complete pass comes to, sandbox by sandbox. */
  lemma CompleteMeans(was: World, now: World, r: Result, g: Given, id: Id)
    requires Complete(was, now, r, g)
    ensures Hindered(CellOf(was, id), id, g) ==> CellOf(now, id) == CellOf(was, id)
    ensures !Hindered(CellOf(was, id), id, g) ==>
      CellOf(now, id) == Passed(CellOf(was, id), g.prior.None?, g.prior.Some? && id in g.prior.value, id in g.live)
    ensures id in r.did <==> CellOf(now, id) != CellOf(was, id)
    ensures id in r.did ==> Tells(r.did[id], CellOf(was, id), CellOf(now, id))
    ensures id in r.failures <==>
      && id in g.broken && !(id in was.ledger && was.ledger[id].name in g.busy)
      && Passed(CellOf(was, id), g.prior.None?, g.prior.Some? && id in g.prior.value, id in g.live) != CellOf(was, id)
    ensures LiveRestore(CellOf(was, id), id, g) ==>
      CellOf(now, id) == CellOf(was, id) && id !in r.did && id !in r.failures && id !in r.suspects
  {
    var c := CellOf(was, id);
    WorkIsChange(c, g.prior.None?, g.prior.Some? && id in g.prior.value, id in g.live);
    if LiveRestore(c, id, g) {
      RestoringMeans(c, g.prior.None?, g.prior.Some? && id in g.prior.value, true);
    }
  }

  /** The same of every sandbox at once. */
  lemma Concluded(was: World, now: World, r: Result, g: Given)
    requires Complete(was, now, r, g)
    ensures forall id :: id in r.did <==> CellOf(now, id) != CellOf(was, id)
    ensures forall id :: id in r.did ==> Tells(r.did[id], CellOf(was, id), CellOf(now, id))
    ensures forall id :: Hindered(CellOf(was, id), id, g) ==> CellOf(now, id) == CellOf(was, id)
    ensures forall id :: LiveRestore(CellOf(was, id), id, g) ==>
      CellOf(now, id) == CellOf(was, id) && id !in r.did && id !in r.failures && id !in r.suspects
    ensures forall id :: id in r.suspects <==>
      id !in was.ledger && (id in was.containers || id in was.disks) && g.prior.Some? && id !in g.prior.value
  {
    forall id
      ensures id in r.did <==> CellOf(now, id) != CellOf(was, id)
      ensures id in r.did ==> Tells(r.did[id], CellOf(was, id), CellOf(now, id))
      ensures Hindered(CellOf(was, id), id, g) ==> CellOf(now, id) == CellOf(was, id)
      ensures LiveRestore(CellOf(was, id), id, g) ==>
        CellOf(now, id) == CellOf(was, id) && id !in r.did && id !in r.failures && id !in r.suspects
    {
      CompleteMeans(was, now, r, g, id);
    }
  }

  /**
   One whole pass over a world that stands still: every sandbox in reach as a pass makes it
   alone, the others as they were; each changed one counted, for what its change was; the
   restores in progress left to their tasks; the first strikes among what no row claims.
   */
  method Reconcile(h: Host, g: Given) returns (r: Result)
    modifies h
    ensures Complete(old(h.Model()), h.Model(), r, g)
    ensures forall id :: id in r.did <==> CellOf(h.Model(), id) != CellOf(old(h.Model()), id)
    ensures forall id :: id in r.did ==> Tells(r.did[id], CellOf(old(h.Model()), id), CellOf(h.Model(), id))
    ensures forall id :: Hindered(CellOf(old(h.Model()), id), id, g) ==>
              CellOf(h.Model(), id) == CellOf(old(h.Model()), id)
    ensures forall id :: LiveRestore(CellOf(old(h.Model()), id), id, g) ==>
              CellOf(h.Model(), id) == CellOf(old(h.Model()), id) &&
              id !in r.did && id !in r.failures && id !in r.suspects
    ensures forall id :: id in r.suspects <==>
              id !in old(h.ledger) && (id in old(h.containers) || id in old(h.disks)) &&
              g.prior.Some? && id !in g.prior.value
  {
    ghost var was := h.Model();
    var owners := h.ledger.Keys;
    var disks := h.disks;
    var unclaimed;
    r, unclaimed := RepairRows(h, g);
    r := RepairOrphans(h, unclaimed.Keys, true, g, r, was, owners);
    owners := owners + unclaimed.Keys;
    r := RepairOrphans(h, disks - owners, false, g, r, was, owners);
    ProgressComplete(was, h.Model(), r, owners + (disks - owners), g);
    Concluded(was, h.Model(), r, g);
  }
}
