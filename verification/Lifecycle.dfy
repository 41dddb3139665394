/**
 The lifecycle verbs (packages/server/src/lifecycle.ts, packages/server/src/archive/archiver.ts):
 reality first, ledger second. Each verb's program of steps is a function of the sandbox as
 the verb finds it, and each verb's method takes exactly those steps, in that order.
 */
module Lifecycle {
  import opened Wrappers
  import opened Sandbox

  // ---------------------------------------------------------------- the programs

  const FREEZE := [FreezeShell, Transition(Frozen)]
  const STOP := [StopShell, Transition(Stopped)]
  const ARCHIVE := [ExportDisk, PutObject, Transition(Archived), DestroyAll]

  function DestroyOps(c: Cell, store: bool): seq<Op> {
    if c.row.Some? && c.row.value.state.Archived? then
      if store then [DeleteObject, DeleteRow] else []
    else [DestroyAll, DeleteRow]
  }

  function RebuildOps(row: Row): seq<Op> {
    if row.state.Stopped? then [RemoveContainer] else [RemoveContainer, Transition(Stopped)]
  }

  /** The shell was born from another image or spec than a shell born now; a stopped one also without the layer cap. */
  predicate Stale(c: Cell, want: ShellSpec)
    requires c.row.Some?
  {
    c.container.Some? &&
    var born := c.container.value;
    born.image != want.image ||
    born.limits.nanoCpus != want.nanoCpus ||
    born.limits.memoryBytes != want.memoryBytes ||
    (c.row.value.state.Stopped? && born.limits.rootfsBytes != Some(ROOTFS_BYTES))
  }

  function AwakenOps(row: Row): seq<Op> {
    if row.pausedByUser then [ClearPause, Transition(Active)] else [Transition(Active)]
  }

  /** The wake of a frozen or stopped sandbox. */
  function ColdOps(c: Cell, want: ShellSpec): seq<Op>
    requires c.row.Some?
  {
    (if Stale(c, want) then RebuildOps(c.row.value) else [])
    + (if c.row.value.state.Frozen? && !Stale(c, want) then [UnfreezeShell] else [StartShell(want)])
    + AwakenOps(c.row.value)
  }

  /** A wake; an active sandbox whose shell has died is recorded dead first, then woken cold. */
  function WakeOps(c: Cell, want: ShellSpec): seq<Op>
    requires c.row.Some?
  {
    match c.row.value.state
    case Active =>
      if ContainerIs(c, Exited) then
        [RecordDeath(c.container.value.exit)] + ColdOps(Do(c, RecordDeath(c.container.value.exit)), want)
      else []
    case Frozen => ColdOps(c, want)
    case Stopped => ColdOps(c, want)
    case Archived => []
    case Restoring => []
  }

  function CreateOps(want: ShellSpec, row: Row): seq<Op> { [CreateAll(want), InsertRow(row.(state := Active))] }

  /** The upload confirmed by the row, then the local copy freed. */
  function ArchiveOps(row: Row): seq<Op> {
    if row.state.Stopped? then ARCHIVE else []
  }

  /** Only a stopped sandbox archives, and only with a store. */
  function ArchiveWith(row: Row, store: bool): seq<Op> {
    if store then ArchiveOps(row) else []
  }

  /** A restore that succeeds: begun, downloaded, finished, its object dropped. */
  function RestoreOps(row: Row, want: ShellSpec): seq<Op> {
    [Transition(Restoring), ImportDisk, StartShell(want)] + AwakenOps(row) + [DeleteObject]
  }

  /**
   A restore that fails: before its disk is in, before its shell is up or after; the disk
   goes, unless that fails too, and the row reverts.
   */
  function FailedRestoreOps(imported: bool, started: Option<ShellSpec>, cleared: bool): seq<Op> {
    [Transition(Restoring)]
    + (if imported || started.Some? then [ImportDisk] else [])
    + (if started.Some? then [StartShell(started.value)] else [])
    + (if cleared then [RemoveDisk] else [])
    + [Transition(Archived)]
  }

  // ---------------------------------------------------------------- the verbs

  method FreezeSandbox(h: Host, id: Id) returns (ok: bool)
    modifies h
    ensures h.Ran(old(h.Model()), old(h.trace), id, FREEZE)
    ensures ok <==> Taken(old(h.Here(id)), FREEZE) == FREEZE
  {
    ghost var was, traced := h.Model(), h.trace;
    WithSame(was, id);
    ok := h.Take(id, FreezeShell, FREEZE, 0, was, traced);
    if !ok { return; }
    ok := h.Take(id, Transition(Frozen), FREEZE, 1, was, traced);
    assert FREEZE[..2] == FREEZE;
  }

  method StopSandbox(h: Host, id: Id) returns (ok: bool)
    modifies h
    ensures h.Ran(old(h.Model()), old(h.trace), id, STOP)
    ensures ok <==> Taken(old(h.Here(id)), STOP) == STOP
  {
    ghost var was, traced := h.Model(), h.trace;
    WithSame(was, id);
    ok := h.Take(id, StopShell, STOP, 0, was, traced);
    if !ok { return; }
    ok := h.Take(id, Transition(Stopped), STOP, 1, was, traced);
    assert STOP[..2] == STOP;
  }

  method DestroySandbox(h: Host, id: Id, store: bool) returns (ok: bool)
    modifies h
    ensures h.Ran(old(h.Model()), old(h.trace), id, DestroyOps(old(h.Here(id)), store))
    ensures ok <==> Taken(old(h.Here(id)), DestroyOps(old(h.Here(id)), store)) == DestroyOps(old(h.Here(id)), store)
                    && DestroyOps(old(h.Here(id)), store) != []
    ensures id in old(h.ledger) && old(h.ledger)[id].state.Archived? && !store ==>
              !ok && h.Model() == old(h.Model()) && h.trace == old(h.trace)
  {
    ghost var was, traced := h.Model(), h.trace;
    WithSame(was, id);
    ghost var ops := DestroyOps(h.Here(id), store);
    if id in h.ledger && h.ledger[id].state.Archived? {
      if !store { return false; }
      ok := h.Take(id, DeleteObject, ops, 0, was, traced);
      if !ok { return; }
      ok := h.Take(id, DeleteRow, ops, 1, was, traced);
      assert ops[..2] == ops;
      return;
    }
    ok := h.Take(id, DestroyAll, ops, 0, was, traced);
    if !ok { return; }
    ok := h.Take(id, DeleteRow, ops, 1, was, traced);
    assert ops[..2] == ops;
  }

  method RebuildSandbox(h: Host, id: Id) returns (ok: bool)
    requires id in h.ledger
    modifies h
    ensures h.Ran(old(h.Model()), old(h.trace), id, RebuildOps(old(h.ledger[id])))
    ensures ok <==> Taken(old(h.Here(id)), RebuildOps(old(h.ledger[id]))) == RebuildOps(old(h.ledger[id]))
  {
    ghost var was, traced := h.Model(), h.trace;
    WithSame(was, id);
    var row := h.ledger[id];
    ghost var ops := RebuildOps(row);
    ok := h.Take(id, RemoveContainer, ops, 0, was, traced);
    if !ok { return; }
    if row.state.Stopped? {
      assert ops[..1] == ops;
      return;
    }
    ok := h.Take(id, Transition(Stopped), ops, 1, was, traced);
    assert ops[..2] == ops;
  }

  /** The ledger side of a wake, at step k of its program. */
  method Awaken(h: Host, id: Id, row: Row, ghost ops: seq<Op>, ghost k: nat, ghost was: World, ghost traced: seq<Stamp>)
    returns (ok: bool)
    requires k <= |ops| && ops[k..] == AwakenOps(row)
    requires h.Ran(was, traced, id, ops[..k]) && Taken(CellOf(was, id), ops[..k]) == ops[..k]
    modifies h
    ensures h.Ran(was, traced, id, ops)
    ensures ok <==> Taken(CellOf(was, id), ops) == ops
  {
    assert ops == ops[..k] + AwakenOps(row);
    if row.pausedByUser {
      ok := h.Take(id, ClearPause, ops, k, was, traced);
      if !ok { return; }
      ok := h.Take(id, Transition(Active), ops, k + 1, was, traced);
      assert ops[..k + 2] == ops;
      return;
    }
    ok := h.Take(id, Transition(Active), ops, k, was, traced);
    assert ops[..k + 1] == ops;
  }

  /** The frozen and stopped arms: a stale shell is swapped, a matching one resumed, a missing one built. */
  method WakeCold(h: Host, id: Id, want: ShellSpec) returns (ok: bool)
    requires id in h.ledger
    modifies h
    ensures h.Ran(old(h.Model()), old(h.trace), id, ColdOps(old(h.Here(id)), want))
    ensures ok <==> Taken(old(h.Here(id)), ColdOps(old(h.Here(id)), want)) == ColdOps(old(h.Here(id)), want)
  {
    ghost var was, traced := h.Model(), h.trace;
    WithSame(was, id);
    var row := h.ledger[id];
    ghost var ops := ColdOps(h.Here(id), want);
    ghost var k := 0;
    assert ops[..0] == [];
    var stale := Stale(h.Here(id), want);
    if stale {
      ghost var rebuild, rest := RebuildOps(row), [StartShell(want)] + AwakenOps(row);
      assert ops == rebuild + rest;
      ok := RebuildSandbox(h, id);
      if !ok {
        ExecStuck(CellOf(was, id), rebuild, rest);
        return;
      }
      k := |rebuild|;
      assert ops[..k] == rebuild;
    }
    if row.state.Frozen? && !stale {
      ok := h.Take(id, UnfreezeShell, ops, k, was, traced);
    } else {
      ok := h.Take(id, StartShell(want), ops, k, was, traced);
    }
    if !ok { return; }
    ok := Awaken(h, id, row, ops, k + 1, was, traced);
  }

  /**
   A wake, whatever the row's state. Of an active sandbox whose shell is not dead it is
   nothing at all: the shell, its processes and the row are as they were.
   */
  method WakeSandbox(h: Host, id: Id, want: ShellSpec) returns (ok: bool)
    requires id in h.ledger
    modifies h
    ensures h.Ran(old(h.Model()), old(h.trace), id, WakeOps(old(h.Here(id)), want))
    ensures ok <==> Taken(old(h.Here(id)), WakeOps(old(h.Here(id)), want)) == WakeOps(old(h.Here(id)), want)
                    && !old(h.ledger[id]).state.Archived? && !old(h.ledger[id]).state.Restoring?
    ensures old(h.ledger[id]).state.Active? && !ContainerIs(old(h.Here(id)), Exited) ==>
              ok && h.Model() == old(h.Model()) && h.trace == old(h.trace)
    ensures old(h.ledger[id]).state.Archived? || old(h.ledger[id]).state.Restoring? ==>
              !ok && h.Model() == old(h.Model()) && h.trace == old(h.trace)
  {
    ghost var was, traced := h.Model(), h.trace;
    WithSame(was, id);
    match h.ledger[id].state {
      case Active =>
        if id !in h.containers || h.containers[id].state != Exited { return true; }
        var exit := h.containers[id].exit;
        ghost var death, cold := [RecordDeath(exit)], ColdOps(Do(h.Here(id), RecordDeath(exit)), want);
        ghost var ops := death + cold;
        assert ops[..0] == [] && ops[..1] == death;
        ok := h.Take(id, RecordDeath(exit), ops, 0, was, traced);
        ghost var mid, midway := h.Model(), h.trace;
        ExecOne(CellOf(was, id), RecordDeath(exit));
        CellOfWith(was, id, Do(CellOf(was, id), RecordDeath(exit)), id);
        assert h.Here(id) == CellOf(mid, id);
        ok := WakeCold(h, id, want);
        RanOnward(h, was, traced, mid, midway, id, death, cold);
        ExecAppend(CellOf(was, id), death, cold);
      case Frozen =>
        ok := WakeCold(h, id, want);
      case Stopped =>
        ok := WakeCold(h, id, want);
      case Archived =>
        ok := false;
      case Restoring =>
        ok := false;
    }
  }

  /** acquire's creation: the container and disk up first, the row second. */
  method CreateSandbox(h: Host, id: Id, want: ShellSpec, row: Row) returns (ok: bool)
    modifies h
    ensures h.Ran(old(h.Model()), old(h.trace), id, CreateOps(want, row))
    ensures ok <==> Taken(old(h.Here(id)), CreateOps(want, row)) == CreateOps(want, row)
  {
    ghost var was, traced := h.Model(), h.trace;
    WithSame(was, id);
    ghost var ops := CreateOps(want, row);
    ok := h.Take(id, CreateAll(want), ops, 0, was, traced);
    if !ok { return; }
    ok := h.Take(id, InsertRow(row.(state := Active)), ops, 1, was, traced);
    assert ops[..2] == ops;
  }

  method ArchiveSandbox(h: Host, id: Id, store: bool) returns (ok: bool)
    requires id in h.ledger
    modifies h
    ensures h.Ran(old(h.Model()), old(h.trace), id, ArchiveWith(old(h.ledger[id]), store))
    ensures ok <==> Taken(old(h.Here(id)), ARCHIVE) == ARCHIVE && old(h.ledger[id]).state.Stopped? && store
    ensures !old(h.ledger[id]).state.Stopped? || !store ==>
              !ok && h.Model() == old(h.Model()) && h.trace == old(h.trace)
  {
    ghost var was, traced := h.Model(), h.trace;
    WithSame(was, id);
    if !h.ledger[id].state.Stopped? { return false; }
    if !store { return false; }
    ok := h.Take(id, ExportDisk, ARCHIVE, 0, was, traced);
    if !ok { return; }
    ok := h.Take(id, PutObject, ARCHIVE, 1, was, traced);
    if !ok { return; }
    ok := ConfirmArchive(h, id, ARCHIVE, 2, was, traced);
  }

  /** The upload is confirmed by the row; from there the local copy is cleanup. */
  method ConfirmArchive(h: Host, id: Id, ghost ops: seq<Op>, ghost k: nat, ghost was: World, ghost traced: seq<Stamp>)
    returns (ok: bool)
    requires |ops| == k + 2 && ops[k] == Transition(Archived) && ops[k + 1] == DestroyAll
    requires h.Ran(was, traced, id, ops[..k]) && Taken(CellOf(was, id), ops[..k]) == ops[..k]
    modifies h
    ensures h.Ran(was, traced, id, ops)
    ensures ok <==> Taken(CellOf(was, id), ops) == ops
  {
    ok := h.Take(id, Transition(Archived), ops, k, was, traced);
    if !ok { return; }
    ok := h.Take(id, DestroyAll, ops, k + 1, was, traced);
    assert ops[..k + 2] == ops;
  }

  // ---------------------------------------------------------------- what a wake leaves

  /** Where a cold wake can start from: the row says what the container is, and the disk is there. */
  predicate Cold(c: Cell) {
    && c.row.Some? && c.disk
    && match c.row.value.state
       case Frozen => ContainerIs(c, Paused)
       case Stopped => c.container.None? || ContainerIs(c, Exited)
       case Active => ContainerIs(c, Exited)
       case Archived => false
       case Restoring => false
  }

  lemma AwakenLeaves(c: Cell, row: Row)
    requires c.row == Some(row) && (row.state.Frozen? || row.state.Stopped? || row.state.Restoring?)
    ensures Taken(c, AwakenOps(row)) == AwakenOps(row)
    ensures Exec(c, AwakenOps(row)) == c.(row := Some(row.(state := Active, pausedByUser := false)))
  {
    if row.pausedByUser {
      var d := Do(c, ClearPause);
      ExecOne(c, ClearPause);
      ExecOne(d, Transition(Active));
      assert AwakenOps(row) == [ClearPause] + [Transition(Active)];
      ExecAppend(c, [ClearPause], [Transition(Active)]);
    } else {
      ExecOne(c, Transition(Active));
    }
  }

  /** A rebuild: the shell goes, whatever it was doing, and the row is stopped; the disk stays. */
  lemma RebuildLeaves(c: Cell, row: Row)
    requires c.row == Some(row) && (c.container.Some? || c.disk)
    requires row.state.Active? || row.state.Frozen? || row.state.Stopped?
    ensures Taken(c, RebuildOps(row)) == RebuildOps(row)
    ensures Exec(c, RebuildOps(row)) == c.(container := None, row := Some(row.(state := Stopped)))
  {
    ExecOne(c, RemoveContainer);
    if !row.state.Stopped? {
      ExecOne(Do(c, RemoveContainer), Transition(Stopped));
      assert RebuildOps(row) == [RemoveContainer] + [Transition(Stopped)];
      ExecAppend(c, [RemoveContainer], [Transition(Stopped)]);
    }
  }

  /** The shell was born of the image and limits in force; a stopped sandbox's of the layer cap too, 50 GiB. */
  predicate Matching(shell: Container, want: ShellSpec, stopped: bool) {
    && shell.image == want.image
    && shell.limits.nanoCpus == want.nanoCpus
    && shell.limits.memoryBytes == want.memoryBytes
    && (stopped ==> shell.limits.rootfsBytes == Some(53687091200))
  }

  /** What a cold wake must leave: a matching shell resumed, any other replaced by a new one. */
  predicate Awoken(c: Cell, want: ShellSpec, d: Cell)
    requires c.row.Some?
  {
    && d.row == Some(c.row.value.(state := Active, pausedByUser := false))
    && d.disk && d.stored == c.stored
    && d.container ==
         if c.container.Some? && Matching(c.container.value, want, c.row.value.state.Stopped?)
         then Some(c.container.value.(state := Running))
         else Some(Container(Running, want.image, Limits(want.nanoCpus, want.memoryBytes, Some(53687091200)),
                             ShellExit(0, false, false, 0)))
  }

  lemma StaleWakeLeaves(c: Cell, want: ShellSpec)
    requires Cold(c) && !c.row.value.state.Active? && Stale(c, want)
    ensures Taken(c, ColdOps(c, want)) == ColdOps(c, want) && Awoken(c, want, Exec(c, ColdOps(c, want)))
  {
    var row := c.row.value;
    RebuildLeaves(c, row);
    var bare := c.(container := None, row := Some(row.(state := Stopped)));
    ExecOne(bare, StartShell(want));
    AwakenLeaves(Do(bare, StartShell(want)), row.(state := Stopped));
    ExecAppend(bare, [StartShell(want)], AwakenOps(row));
    ExecAppend(c, RebuildOps(row), [StartShell(want)] + AwakenOps(row));
    assert ColdOps(c, want) == RebuildOps(row) + ([StartShell(want)] + AwakenOps(row));
  }

  lemma MatchingWakeLeaves(c: Cell, want: ShellSpec)
    requires Cold(c) && !c.row.value.state.Active? && !Stale(c, want)
    ensures Taken(c, ColdOps(c, want)) == ColdOps(c, want) && Awoken(c, want, Exec(c, ColdOps(c, want)))
  {
    var row := c.row.value;
    var op := if row.state.Frozen? then UnfreezeShell else StartShell(want);
    ExecOne(c, op);
    AwakenLeaves(Do(c, op), row);
    ExecAppend(c, [op], AwakenOps(row));
    assert ColdOps(c, want) == [op] + AwakenOps(row);
  }

  /**
   Every wake of a cold sandbox completes and leaves it active on a running shell of the
   image and limits in force, its disk and its record of use untouched: the shell it had if
   that was born of them, and of the layer cap too when it was stopped, or else a new one.
   */
  lemma ColdWakeLeaves(c: Cell, want: ShellSpec)
    requires Cold(c) && !c.row.value.state.Active?
    ensures Taken(c, WakeOps(c, want)) == WakeOps(c, want)
    ensures Awoken(c, want, Exec(c, WakeOps(c, want)))
  {
    if Stale(c, want) { StaleWakeLeaves(c, want); } else { MatchingWakeLeaves(c, want); }
  }

  /** A wake that finds an active sandbox's shell dead records the death and leaves it awake all the same. */
  lemma DeadWakeLeaves(c: Cell, want: ShellSpec)
    requires Cold(c) && c.row.value.state.Active?
    ensures Taken(c, WakeOps(c, want)) == WakeOps(c, want)
    ensures var exit := c.container.value.exit;
            var cause := if exit.oomKilled then OomKilled else if exit.runtimeDied then RuntimeDied else JustExited;
            Awoken(c.(row := Some(c.row.value.(state := Stopped,
              lastExit := Some(LastExit(exit.finishedAt, exit.exitCode, cause))))), want, Exec(c, WakeOps(c, want)))
  {
    var death := RecordDeath(c.container.value.exit);
    var dead := Do(c, death);
    ExecOne(c, death);
    ColdWakeLeaves(dead, want);
    ExecAppend(c, [death], ColdOps(dead, want));
  }

  // ---------------------------------------------------------------- stage by stage

  /** Two steps: both, the first alone, or neither. */
  lemma ExecTwo(c: Cell, a: Op, b: Op)
    ensures !Can(c, a) ==> Taken(c, [a, b]) == [] && Exec(c, [a, b]) == c
    ensures Can(c, a) && !Can(Do(c, a), b) ==> Taken(c, [a, b]) == [a] && Exec(c, [a, b]) == Do(c, a)
    ensures Can(c, a) && Can(Do(c, a), b) ==> Taken(c, [a, b]) == [a, b] && Exec(c, [a, b]) == Do(Do(c, a), b)
  {
    if Can(c, a) {
      ExecOne(c, a);
      assert [a, b] == [a] + [b];
      ExecAppend(c, [a], [b]);
      if Can(Do(c, a), b) { ExecOne(Do(c, a), b); }
    }
  }

  /** A freeze: the shell is paused first, the row follows; with no running shell neither. */
  lemma FreezeStages(c: Cell)
    requires c.row.Some?
    ensures ContainerIs(c, Running) ==>
      var paused := c.(container := Some(c.container.value.(state := Paused)));
      && Exec(c, [FREEZE[0]]) == paused
      && Exec(c, FREEZE) ==
           if c.row.value.state.Active? then paused.(row := Some(c.row.value.(state := Frozen))) else paused
    ensures !ContainerIs(c, Running) ==> Exec(c, FREEZE) == c
    ensures Taken(c, FREEZE) == FREEZE <==> ContainerIs(c, Running) && c.row.value.state.Active?
  {
    ExecTwo(c, FreezeShell, Transition(Frozen));
    if ContainerIs(c, Running) { ExecOne(c, FreezeShell); }
  }

  /** A stop: a paused shell goes first, the row follows; the disk stays. */
  lemma StopStages(c: Cell)
    requires c.row.Some?
    ensures ContainerIs(c, Paused) ==>
      && Exec(c, [STOP[0]]) == c.(container := None)
      && Exec(c, STOP) == if c.row.value.state.Active? || c.row.value.state.Frozen?
                          then c.(container := None, row := Some(c.row.value.(state := Stopped)))
                          else c.(container := None)
    ensures !ContainerIs(c, Paused) ==> Exec(c, STOP) == c
    ensures Taken(c, STOP) == STOP <==>
      ContainerIs(c, Paused) && (c.row.value.state.Active? || c.row.value.state.Frozen?)
  {
    ExecTwo(c, StopShell, Transition(Stopped));
    if ContainerIs(c, Paused) { ExecOne(c, StopShell); }
  }

  /** A creation: a new shell and its disk before there is a row; then the row, active. */
  lemma CreateStages(c: Cell, want: ShellSpec, row: Row)
    requires c.row.None?
    ensures c.container.None? ==>
      var shell := Container(Running, want.image, Limits(want.nanoCpus, want.memoryBytes, Some(53687091200)),
                             ShellExit(0, false, false, 0));
      && Exec(c, [CreateOps(want, row)[0]]) == Cell(None, Some(shell), true, c.stored)
      && Exec(c, CreateOps(want, row)) == Cell(Some(row.(state := Active)), Some(shell), true, c.stored)
    ensures c.container.Some? ==> Exec(c, CreateOps(want, row)) == c
  {
    ExecTwo(c, CreateAll(want), InsertRow(row.(state := Active)));
    if c.container.None? { ExecOne(c, CreateAll(want)); }
  }

  /** A destroy: what is left of the sandbox goes first, its row last; with nothing left it is refused. */
  lemma DestroyStages(c: Cell, store: bool)
    requires c.row.Some? ==> !c.row.value.state.Archived?
    ensures c.container.Some? || c.disk ==>
      && Exec(c, [DestroyOps(c, store)[0]]) == c.(container := None, disk := false)
      && Exec(c, DestroyOps(c, store)) == c.(row := None, container := None, disk := false)
    ensures c.container.None? && !c.disk ==> Exec(c, DestroyOps(c, store)) == c
  {
    ExecTwo(c, DestroyAll, DeleteRow);
    if c.container.Some? || c.disk { ExecOne(c, DestroyAll); }
  }

  /** A destroy of an archived sandbox: its object, then its row; without a store nothing. */
  lemma DestroyArchivedStages(c: Cell, store: bool)
    requires c.row.Some? && c.row.value.state.Archived?
    ensures store ==>
      && Exec(c, [DestroyOps(c, store)[0]]) == c.(stored := false)
      && Exec(c, DestroyOps(c, store)) == c.(row := None, stored := false)
    ensures !store ==> Exec(c, DestroyOps(c, store)) == c
  {
    ExecTwo(c, DeleteObject, DeleteRow);
    ExecOne(c, DeleteObject);
  }

  predicate Archivable(c: Cell) {
    c.row.Some? && c.row.value.state.Stopped? && c.disk && (c.container.None? || ContainerIs(c, Exited))
  }

  lemma UploadStages(c: Cell)
    requires Archivable(c)
    ensures Exec(c, ARCHIVE[..1]) == c
    ensures Exec(c, ARCHIVE[..2]) == c.(stored := true) && Taken(c, ARCHIVE[..2]) == ARCHIVE[..2]
  {
    ExecOne(c, ExportDisk);
    ExecTwo(c, ExportDisk, PutObject);
    assert ARCHIVE[..1] == [ExportDisk] && ARCHIVE[..2] == [ExportDisk, PutObject];
  }

  lemma ConfirmStages(c: Cell)
    requires Archivable(c)
    ensures Exec(c, [Transition(Archived)]) == c.(row := Some(c.row.value.(state := Archived)))
    ensures Exec(c, [Transition(Archived), DestroyAll]) ==
      Cell(Some(c.row.value.(state := Archived)), None, false, c.stored)
    ensures Taken(c, [Transition(Archived), DestroyAll]) == [Transition(Archived), DestroyAll]
  {
    ExecOne(c, Transition(Archived));
    ExecTwo(c, Transition(Archived), DestroyAll);
  }

  /** An archive: the upload, its confirmation by the row, and only then the end of the local copy. */
  lemma ArchiveStages(c: Cell)
    requires Archivable(c)
    ensures Taken(c, ARCHIVE) == ARCHIVE
    ensures Exec(c, ARCHIVE[..1]) == c
    ensures Exec(c, ARCHIVE[..2]) == c.(stored := true)
    ensures Exec(c, ARCHIVE[..3]) == c.(stored := true, row := Some(c.row.value.(state := Archived)))
    ensures Exec(c, ARCHIVE) == Cell(Some(c.row.value.(state := Archived)), None, false, true)
  {
    UploadStages(c);
    ConfirmStages(c.(stored := true));
    assert ARCHIVE == ARCHIVE[..2] + [Transition(Archived), DestroyAll];
    assert ARCHIVE[..3] == ARCHIVE[..2] + [Transition(Archived)];
    ExecAppend(c, ARCHIVE[..2], [Transition(Archived), DestroyAll]);
    ExecAppend(c, ARCHIVE[..2], [Transition(Archived)]);
  }

  /** An archived sandbox with nothing of it on the host. */
  predicate Shelved(c: Cell, row: Row) {
    c.row == Some(row) && row.state.Archived? && c.container.None? && !c.disk
  }

  lemma ImportStages(c: Cell, row: Row, want: ShellSpec)
    requires Shelved(c, row)
    ensures var ops, restoring := [Transition(Restoring), ImportDisk, StartShell(want)], row.(state := Restoring);
            Taken(c, ops) == ops && Exec(c, ops) == Cell(Some(restoring), Some(Born(want)), true, c.stored)
    ensures Exec(c, [Transition(Restoring), ImportDisk]) == Cell(Some(row.(state := Restoring)), None, true, c.stored)
  {
    var d := Cell(Some(row.(state := Restoring)), None, true, c.stored);
    ExecTwo(c, Transition(Restoring), ImportDisk);
    ExecOne(d, StartShell(want));
    assert [Transition(Restoring), ImportDisk, StartShell(want)]
        == [Transition(Restoring), ImportDisk] + [StartShell(want)];
    ExecAppend(c, [Transition(Restoring), ImportDisk], [StartShell(want)]);
  }

  /** A restore: the disk back, a new shell on it, the row active; the object is let go last. */
  lemma RestoreLeaves(c: Cell, row: Row, want: ShellSpec)
    requires Shelved(c, row)
    ensures Taken(c, RestoreOps(row, want)) == RestoreOps(row, want)
    ensures var shell := Container(Running, want.image, Limits(want.nanoCpus, want.memoryBytes, Some(53687091200)),
                                   ShellExit(0, false, false, 0));
            Exec(c, RestoreOps(row, want)) ==
              Cell(Some(row.(state := Active, pausedByUser := false)), Some(shell), true, false)
  {
    var begun := [Transition(Restoring), ImportDisk, StartShell(want)];
    var d := Cell(Some(row.(state := Restoring)), Some(Born(want)), true, c.stored);
    var e := d.(row := Some(row.(state := Active, pausedByUser := false)));
    ImportStages(c, row, want);
    AwakenLeaves(d, row.(state := Restoring));
    ExecOne(e, DeleteObject);
    ExecAppend(d, AwakenOps(row), [DeleteObject]);
    ExecAppend(c, begun, AwakenOps(row) + [DeleteObject]);
    assert RestoreOps(row, want) == begun + (AwakenOps(row) + [DeleteObject]);
  }

  function RestoreBegun(imported: bool, started: Option<ShellSpec>): seq<Op> {
    if started.Some? then [Transition(Restoring), ImportDisk, StartShell(started.value)]
    else if imported then [Transition(Restoring), ImportDisk]
    else [Transition(Restoring)]
  }

  lemma RestoreBegins(c: Cell, row: Row, imported: bool, started: Option<ShellSpec>)
    requires Shelved(c, row)
    ensures Taken(c, RestoreBegun(imported, started)) == RestoreBegun(imported, started)
    ensures Exec(c, RestoreBegun(imported, started)) ==
      Cell(Some(row.(state := Restoring)), if started.Some? then Some(Born(started.value)) else None,
           imported || started.Some?, c.stored)
  {
    if started.Some? { ImportStages(c, row, started.value); }
    else if imported { ExecTwo(c, Transition(Restoring), ImportDisk); }
    else { ExecOne(c, Transition(Restoring)); }
  }

  lemma RestoreReverts(c: Cell, row: Row, cleared: bool)
    requires c.row == Some(row.(state := Restoring)) && row.state.Archived?
    ensures Exec(c, if cleared then [RemoveDisk, Transition(Archived)] else [Transition(Archived)]) ==
      c.(row := Some(row), disk := c.disk && !cleared)
  {
    ExecOne(c, Transition(Archived));
    ExecTwo(c, RemoveDisk, Transition(Archived));
  }

  /** A restore that fails leaves the row archived again and the object where it was. */
  lemma FailedRestoreLeaves(c: Cell, row: Row, imported: bool, started: Option<ShellSpec>, cleared: bool)
    requires Shelved(c, row)
    ensures Exec(c, FailedRestoreOps(imported, started, cleared)) ==
      Cell(c.row, if started.Some? then Some(Born(started.value)) else None,
           (imported || started.Some?) && !cleared, c.stored)
  {
    var begun := RestoreBegun(imported, started);
    var ended := if cleared then [RemoveDisk, Transition(Archived)] else [Transition(Archived)];
    RestoreBegins(c, row, imported, started);
    RestoreReverts(Exec(c, begun), row, cleared);
    ExecAppend(c, begun, ended);
    FailedRestoreIs(imported, started, cleared);
  }

  lemma FailedRestoreIs(imported: bool, started: Option<ShellSpec>, cleared: bool)
    ensures FailedRestoreOps(imported, started, cleared) ==
      RestoreBegun(imported, started) + (if cleared then [RemoveDisk, Transition(Archived)] else [Transition(Archived)])
  {
  }
}
