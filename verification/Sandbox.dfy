/**
 One sandbox as the daemon sees it: a ledger row, a container, a disk, an archive object
 (packages/server/src/db/ledger.ts, packages/server/src/executor/executor.ts).

 Every lifecycle verb is a program of steps; a step that the executor or the ledger
 refuses throws, and ends the program there. A crash ends it anywhere.
 */
module Sandbox {
  import opened Wrappers

  type Id = string
  type Name = string

  datatype SandboxState = Active | Frozen | Stopped | Archived | Restoring

  datatype ContainerState = Running | Paused | Exited

  datatype Limits = Limits(nanoCpus: int, memoryBytes: int, rootfsBytes: Option<int>)

  datatype ShellExit = ShellExit(exitCode: int, oomKilled: bool, runtimeDied: bool, finishedAt: int)

  /** `exit` is how the processes ended; it says something only of an exited shell. */
  datatype Container = Container(state: ContainerState, image: string, limits: Limits, exit: ShellExit)

  datatype ExitCause = OomKilled | RuntimeDied | JustExited

  datatype LastExit = LastExit(at: int, exitCode: int, cause: ExitCause)

  datatype OnDeadline = Kill | Pause

  datatype Row = Row(
    name: Name,
    state: SandboxState,
    freezeAfterSeconds: nat,
    stopAfterSeconds: Option<nat>,
    archiveAfterSeconds: Option<nat>,
    lastActiveAt: int,
    deadlineAt: Option<int>,
    onDeadline: Option<OnDeadline>,
    pausedByUser: bool,
    lastExit: Option<LastExit>)

  /** What a shell of this sandbox would be born with now: the resolved image and spec. */
  datatype ShellSpec = ShellSpec(image: string, nanoCpus: int, memoryBytes: int)

  /** The cap on a shell's own layer, in bytes: 50 GiB. */
  const ROOTFS_BYTES := 50 * 1024 * 1024 * 1024

  datatype Cell = Cell(row: Option<Row>, container: Option<Container>, disk: bool, stored: bool)

  datatype Op =
    | FreezeShell
    | UnfreezeShell
    | StopShell
    | StartShell(spec: ShellSpec)
    | CreateAll(spec: ShellSpec)
    | DestroyAll
    | RemoveContainer
    | RemoveDisk
    | ExportDisk
    | ImportDisk
    | PutObject
    | DeleteObject
    | Transition(to: SandboxState)
    | Overwrite(to: SandboxState)
    | RecordDeath(exit: ShellExit)
    | ClearPause
    | InsertRow(row: Row)
    | DeleteRow

  predicate Allowed(from: SandboxState, to: SandboxState) {
    match from
    case Active => to == Frozen || to == Stopped
    case Frozen => to == Active || to == Stopped
    case Stopped => to == Active || to == Archived
    case Archived => to == Restoring
    case Restoring => to == Active || to == Archived
  }

  function CauseOfExit(exit: ShellExit): ExitCause {
    if exit.oomKilled then OomKilled else if exit.runtimeDied then RuntimeDied else JustExited
  }

  predicate ContainerIs(c: Cell, state: ContainerState) {
    c.container.Some? && c.container.value.state == state
  }

  /** Whether the step is taken; refused, it throws and changes nothing. */
  predicate Can(c: Cell, op: Op) {
    match op
    case FreezeShell => ContainerIs(c, Running)
    case UnfreezeShell => ContainerIs(c, Paused)
    case StopShell => ContainerIs(c, Paused)
    case StartShell(_) => if c.container.None? then c.disk else ContainerIs(c, Exited)
    case CreateAll(_) => c.container.None?
    case DestroyAll => c.container.Some? || c.disk
    case RemoveContainer => c.container.Some? || c.disk
    case ExportDisk => c.disk && (c.container.None? || ContainerIs(c, Exited))
    case ImportDisk => !c.disk
    case Transition(to) => c.row.Some? && Allowed(c.row.value.state, to)
    case InsertRow(_) => c.row.None?
    case _ => true
  }

  function Born(spec: ShellSpec): Container {
    Container(Running, spec.image, Limits(spec.nanoCpus, spec.memoryBytes, Some(ROOTFS_BYTES)),
              ShellExit(0, false, false, 0))
  }

  function WithState(c: Cell, state: SandboxState): Cell {
    match c.row
    case None => c
    case Some(row) => c.(row := Some(row.(state := state)))
  }

  function Do(c: Cell, op: Op): Cell
    requires Can(c, op)
  {
    match op
    case FreezeShell => c.(container := Some(c.container.value.(state := Paused)))
    case UnfreezeShell => c.(container := Some(c.container.value.(state := Running)))
    case StopShell => c.(container := None)
    case StartShell(spec) =>
      c.(container := Some(if c.container.None? then Born(spec) else c.container.value.(state := Running)))
    case CreateAll(spec) => c.(container := Some(Born(spec)), disk := true)
    case DestroyAll => c.(container := None, disk := false)
    case RemoveContainer => c.(container := None)
    case RemoveDisk => c.(disk := false)
    case ExportDisk => c
    case ImportDisk => c.(disk := true)
    case PutObject => c.(stored := true)
    case DeleteObject => c.(stored := false)
    case Transition(to) => WithState(c, to)
    case Overwrite(to) => WithState(c, to)
    case RecordDeath(exit) =>
      if c.row.None? then c
      else c.(row := Some(c.row.value.(
        state := Stopped, lastExit := Some(LastExit(exit.finishedAt, exit.exitCode, CauseOfExit(exit))))))
    case ClearPause => if c.row.None? then c else c.(row := Some(c.row.value.(pausedByUser := false)))
    case InsertRow(row) => c.(row := Some(row))
    case DeleteRow => c.(row := None)
  }

  /** The steps of a program that are taken: all, or those before the first refused. */
  function Taken(c: Cell, ops: seq<Op>): (r: seq<Op>)
    ensures r <= ops
    decreases |ops|
  {
    if ops == [] || !Can(c, ops[0]) then [] else [ops[0]] + Taken(Do(c, ops[0]), ops[1..])
  }

  /** What a program leaves. */
  function Exec(c: Cell, ops: seq<Op>): Cell
    decreases |ops|
  {
    if ops == [] || !Can(c, ops[0]) then c else Exec(Do(c, ops[0]), ops[1..])
  }

  /** A program taken so far, and its next step: taken too, or the end of the program. */
  lemma {:induction false} ExecNext(c: Cell, ops: seq<Op>, k: nat)
    requires k < |ops| && Taken(c, ops[..k]) == ops[..k]
    ensures Can(Exec(c, ops[..k]), ops[k]) ==>
      Taken(c, ops[..k + 1]) == ops[..k + 1] && Exec(c, ops[..k + 1]) == Do(Exec(c, ops[..k]), ops[k])
    ensures !Can(Exec(c, ops[..k]), ops[k]) ==>
      Taken(c, ops) == ops[..k] && Exec(c, ops) == Exec(c, ops[..k])
    decreases k
  {
    if k > 0 {
      assert ops[..k][0] == ops[0] && ops[..k][1..] == ops[1..][..k - 1];
      assert Can(c, ops[0]);
      assert Taken(Do(c, ops[0]), ops[1..][..k - 1]) == ops[..k][1..];
      ExecNext(Do(c, ops[0]), ops[1..], k - 1);
      assert ops[..k + 1][1..] == ops[1..][..k] && ops[..k + 1] == [ops[0]] + ops[1..][..k];
      assert ops[..k] == [ops[0]] + ops[1..][..k - 1];
    } else {
      assert ops[..1] == [ops[0]] && ops[..1][1..] == [] && ops[..0] == [];
    }
  }

  lemma ExecOne(c: Cell, op: Op)
    requires Can(c, op)
    ensures Exec(c, [op]) == Do(c, op) && Taken(c, [op]) == [op]
  {
    assert [op][1..] == [];
  }

  /** A program that stops inside its first part never reaches its second. */
  lemma {:induction false} ExecStuck(c: Cell, p: seq<Op>, q: seq<Op>)
    requires Taken(c, p) != p
    ensures Taken(c, p + q) == Taken(c, p) && Exec(c, p + q) == Exec(c, p)
    decreases |p|
  {
    if p != [] && Can(c, p[0]) {
      assert p == [p[0]] + p[1..];
      ExecStuck(Do(c, p[0]), p[1..], q);
      assert (p + q)[1..] == p[1..] + q;
    }
  }

  /** Programs run one after the other. */
  lemma {:induction false} ExecAppend(c: Cell, p: seq<Op>, q: seq<Op>)
    requires Taken(c, p) == p
    ensures Exec(c, p + q) == Exec(Exec(c, p), q)
    ensures Taken(c, p + q) == p + Taken(Exec(c, p), q)
    decreases |p|
  {
    if p == [] {
      assert [] + q == q;
    } else {
      assert p[1..] == Taken(Do(c, p[0]), p[1..]);
      ExecAppend(Do(c, p[0]), p[1..], q);
      assert (p + q)[1..] == p[1..] + q;
      assert p == [p[0]] + p[1..];
    }
  }

  // ---------------------------------------------------------------- the whole host

  datatype World = World(ledger: map<Id, Row>, containers: map<Id, Container>, disks: set<Id>, objects: set<Id>)

  function CellOf(w: World, id: Id): Cell {
    Cell(if id in w.ledger then Some(w.ledger[id]) else None,
         if id in w.containers then Some(w.containers[id]) else None,
         id in w.disks, id in w.objects)
  }

  function WithCell(w: World, id: Id, c: Cell): World {
    World(if c.row.Some? then w.ledger[id := c.row.value] else w.ledger - {id},
          if c.container.Some? then w.containers[id := c.container.value] else w.containers - {id},
          if c.disk then w.disks + {id} else w.disks - {id},
          if c.stored then w.objects + {id} else w.objects - {id})
  }

  lemma CellOfWith(w: World, id: Id, c: Cell, x: Id)
    ensures CellOf(WithCell(w, id, c), x) == if x == id then c else CellOf(w, x)
  {
  }

  lemma WithSame(w: World, id: Id)
    ensures WithCell(w, id, CellOf(w, id)) == w
  {
    var r := WithCell(w, id, CellOf(w, id));
    assert r.ledger == w.ledger && r.containers == w.containers;
  }

  lemma WithTwice(w: World, id: Id, c: Cell, d: Cell)
    ensures WithCell(WithCell(w, id, c), id, d) == WithCell(w, id, d)
  {
    var l, r := WithCell(WithCell(w, id, c), id, d), WithCell(w, id, d);
    assert l.ledger == r.ledger && l.containers == r.containers;
  }

  /** Two hosts with the same sandboxes are the same host. */
  lemma SameCells(w: World, v: World)
    requires forall id :: CellOf(w, id) == CellOf(v, id)
    ensures w == v
  {
    forall id ensures (id in w.ledger <==> id in v.ledger) && (id in w.containers <==> id in v.containers)
                   && (id in w.disks <==> id in v.disks) && (id in w.objects <==> id in v.objects)
                   && (id in w.ledger ==> w.ledger[id] == v.ledger[id])
                   && (id in w.containers ==> w.containers[id] == v.containers[id])
    {
      assert CellOf(w, id) == CellOf(v, id);
    }
    assert w.ledger == v.ledger && w.containers == v.containers && w.disks == v.disks && w.objects == v.objects;
  }

  datatype Stamp = Stamp(id: Id, op: Op)

  lemma StampedAppend(id: Id, p: seq<Op>, q: seq<Op>)
    ensures Stamped(id, p + q) == Stamped(id, p) + Stamped(id, q)
  {
  }

  function Stamped(id: Id, ops: seq<Op>): (r: seq<Stamp>)
    ensures |r| == |ops|
  {
    seq(|ops|, i requires 0 <= i < |ops| => Stamp(id, ops[i]))
  }

  /**
   The daemon's ledger and the reality behind it. `trace` is every step that was taken, in
   order: it is what a crash can cut.
   */
  class Host {
    var ledger: map<Id, Row>
    var containers: map<Id, Container>
    var disks: set<Id>
    var objects: set<Id>
    ghost var trace: seq<Stamp>

    ghost function Model(): World reads this { World(ledger, containers, disks, objects) }

    function Here(id: Id): Cell
      reads this
    {
      Cell(if id in ledger then Some(ledger[id]) else None,
           if id in containers then Some(containers[id]) else None,
           id in disks, id in objects)
    }

    constructor ()
      ensures Model() == World(map[], map[], {}, {}) && trace == []
    {
      ledger, containers, disks, objects, trace := map[], map[], {}, {}, [];
    }

    /** One executor or ledger call. */
    method Perform(id: Id, op: Op) returns (ok: bool)
      modifies this
      ensures ok <==> Can(old(Here(id)), op)
      ensures ok ==> Model() == WithCell(old(Model()), id, Do(old(Here(id)), op))
      ensures ok ==> trace == old(trace) + [Stamp(id, op)]
      ensures !ok ==> Model() == old(Model()) && trace == old(trace)
    {
      var c := Here(id);
      ok := Can(c, op);
      if ok {
        var d := Do(c, op);
        ledger := if d.row.Some? then ledger[id := d.row.value] else ledger - {id};
        containers := if d.container.Some? then containers[id := d.container.value] else containers - {id};
        disks := if d.disk then disks + {id} else disks - {id};
        objects := if d.stored then objects + {id} else objects - {id};
        trace := trace + [Stamp(id, op)];
      }
    }

    /** The host after a program ran on one sandbox: what it left, and the steps taken. */
    ghost predicate Ran(was: World, traced: seq<Stamp>, id: Id, ops: seq<Op>) reads this {
      && Model() == WithCell(was, id, Exec(CellOf(was, id), ops))
      && trace == traced + Stamped(id, Taken(CellOf(was, id), ops))
    }

    /** Step k of a program that has been taken so far. */
    method Take(id: Id, op: Op, ghost ops: seq<Op>, ghost k: nat, ghost was: World, ghost traced: seq<Stamp>)
      returns (ok: bool)
      requires k < |ops| && ops[k] == op
      requires Ran(was, traced, id, ops[..k]) && Taken(CellOf(was, id), ops[..k]) == ops[..k]
      modifies this
      ensures ok <==> Can(Exec(CellOf(was, id), ops[..k]), op)
      ensures ok ==> Ran(was, traced, id, ops[..k + 1]) && Taken(CellOf(was, id), ops[..k + 1]) == ops[..k + 1]
      ensures !ok ==> Ran(was, traced, id, ops) && Taken(CellOf(was, id), ops) == ops[..k]
    {
      ExecNext(CellOf(was, id), ops, k);
      CellOfWith(was, id, Exec(CellOf(was, id), ops[..k]), id);
      ok := Perform(id, op);
      if ok {
        WithTwice(was, id, Exec(CellOf(was, id), ops[..k]), Exec(CellOf(was, id), ops[..k + 1]));
        assert Stamped(id, ops[..k + 1]) == Stamped(id, ops[..k]) + [Stamp(id, op)];
      }
    }
  }

  /** A program run where another had run: the two as one. */
  lemma RunsJoin(was: World, mid: World, now: World, id: Id, p: seq<Op>, q: seq<Op>)
    requires Taken(CellOf(was, id), p) == p
    requires mid == WithCell(was, id, Exec(CellOf(was, id), p))
    requires now == WithCell(mid, id, Exec(CellOf(mid, id), q))
    ensures now == WithCell(was, id, Exec(CellOf(was, id), p + q))
    ensures Taken(CellOf(was, id), p + q) == p + Taken(CellOf(mid, id), q)
  {
    var c := CellOf(was, id);
    ExecAppend(c, p, q);
    CellOfWith(was, id, Exec(c, p), id);
    WithTwice(was, id, Exec(c, p), Exec(Exec(c, p), q));
  }

  lemma StampsJoin(a: seq<Stamp>, b: seq<Stamp>, c: seq<Stamp>)
    ensures a + b + c == a + (b + c)
  {
  }

  lemma RanOnward(h: Host, was: World, traced: seq<Stamp>, mid: World, midway: seq<Stamp>, id: Id, p: seq<Op>,
      q: seq<Op>)
    requires Taken(CellOf(was, id), p) == p
    requires mid == WithCell(was, id, Exec(CellOf(was, id), p)) && midway == traced + Stamped(id, p)
    requires h.Ran(mid, midway, id, q)
    ensures h.Ran(was, traced, id, p + q)
  {
    var rest := Taken(CellOf(mid, id), q);
    RunsJoin(was, mid, h.Model(), id, p, q);
    StampedAppend(id, p, rest);
    StampsJoin(traced, Stamped(id, p), Stamped(id, rest));
  }
}
