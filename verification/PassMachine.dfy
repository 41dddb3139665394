/**
 A reconcile pass of the running daemon, step by step, with everything else that can run
 between its steps (packages/server/src/reconciler.ts).

 The world may change between any two steps in any way, but for the one sandbox whose slot
 the pass holds: nobody else touches its row, its disk or its name, and its shell can only
 die. Every step is one await's worth of the source.
 */
module PassMachine {
  import opened Wrappers
  import opened Sandbox
  import opened Reconciler

  /** What the pass read at its start: the ledger, then the containers, then the disks. */
  datatype Snapshot = Snapshot(rows: map<Id, Row>, listed: map<Id, Container>, disks: set<Id>)

  datatype Pc =
    | Idle
    | LedgerRead(rows: map<Id, Row>)
    | ContainersRead(rows: map<Id, Row>, listed: map<Id, Container>)
    | RowsLeft(snap: Snapshot, todo: set<Id>)
    | InSlot(snap: Snapshot, todo: set<Id>, id: Id)
    | Acting(snap: Snapshot, todo: set<Id>, id: Id, ops: seq<Op>)
    | ContainersLeft(snap: Snapshot, todo: set<Id>)
    | DisksLeft(snap: Snapshot, todo: set<Id>)

  /** `held`: the names whose slot another task holds. `live`: the restores whose task is alive. */
  datatype State = State(w: World, held: set<Name>, live: set<Id>, prior: set<Id>, suspects: set<Id>, pc: Pc)

  datatype Label =
    | Others
    | ReadLedger
    | ListContainers
    | ListDisks
    | Turn(id: Id)
    | Inspect
    | RowOp(id: Id, op: Op)
    | Fail
    | FailOrphan(id: Id)
    | Release
    | RowsDone
    | Strike(id: Id)
    | OrphanOp(id: Id, op: Op)
    | ContainersDone
    | Finish

  predicate HoldsSlot(pc: Pc) { pc.InSlot? || pc.Acting? }

  /** What can become of a shell nobody else may touch: nothing, or its death. */
  predicate OnlyDies(c: Option<Container>, d: Option<Container>) {
    d == c || d.None? || (c.Some? && d.value == c.value.(state := Exited, exit := d.value.exit))
  }

  predicate OthersStep(s: State, t: State) {
    && t.pc == s.pc && t.prior == s.prior && t.suspects == s.suspects
    && (HoldsSlot(s.pc) ==>
          var c, d := CellOf(s.w, s.pc.id), CellOf(t.w, s.pc.id);
          d.row == c.row && d.disk == c.disk && OnlyDies(c.container, d.container))
  }

  /** A row's turn. Its slot is tried if the listings nominate it, taken if free, and the row re-read in it. */
  predicate TurnStep(s: State, id: Id, t: State) {
    && s.pc.RowsLeft? && id in s.pc.todo && id in s.pc.snap.rows
    && var snap, row, left := s.pc.snap, s.pc.snap.rows[id], s.pc.todo - {id};
       var observed := Observed(if id in snap.listed then Some(snap.listed[id]) else None);
       t == s.(pc :=
         if Nominated(row.state, observed, id in snap.disks, false, id in s.live) && row.name !in s.held &&
            id in s.w.ledger && s.w.ledger[id].state == row.state
         then InSlot(snap, left, id) else RowsLeft(snap, left))
  }

  /** The container as it is now decides. */
  predicate InspectStep(s: State, t: State) {
    && s.pc.InSlot? && s.pc.id in s.pc.snap.rows
    && t == s.(pc := Acting(s.pc.snap, s.pc.todo, s.pc.id,
         RowRepair(s.pc.snap.rows[s.pc.id].state, CellOf(s.w, s.pc.id).container, s.pc.id in s.pc.snap.disks, false)))
  }

  predicate RowOpStep(s: State, id: Id, op: Op, t: State) {
    && s.pc.Acting? && s.pc.id == id && s.pc.ops != [] && s.pc.ops[0] == op
    && Can(CellOf(s.w, id), op)
    && t == s.(w := WithCell(s.w, id, Do(CellOf(s.w, id), op)), pc := s.pc.(ops := s.pc.ops[1..]))
  }

  predicate Orphaned(pc: Pc, id: Id) {
    (pc.ContainersLeft? || pc.DisksLeft?) && id in pc.todo
  }

  function OrphanDone(pc: Pc, id: Id): Pc
    requires Orphaned(pc, id)
  {
    if pc.ContainersLeft? then ContainersLeft(pc.snap, pc.todo - {id}) else DisksLeft(pc.snap, pc.todo - {id})
  }

  /** A first strike; or a second whose sandbox has a row by now. */
  predicate StrikeStep(s: State, id: Id, t: State) {
    && Orphaned(s.pc, id)
    && (id in s.prior ==> id in s.w.ledger)
    && t == s.(pc := OrphanDone(s.pc, id), suspects := if id in s.prior then s.suspects else s.suspects + {id})
  }

  predicate OrphanOpStep(s: State, id: Id, op: Op, t: State) {
    && Orphaned(s.pc, id) && id in s.prior && id !in s.w.ledger
    && [op] == OrphanRepair(s.pc.ContainersLeft?)
    && Can(CellOf(s.w, id), op)
    && t == s.(w := WithCell(s.w, id, Do(CellOf(s.w, id), op)), pc := OrphanDone(s.pc, id))
  }

  predicate Step(s: State, l: Label, t: State) {
    match l
    case Others => OthersStep(s, t)
    case ReadLedger => s.pc.Idle? && t == s.(pc := LedgerRead(s.w.ledger), suspects := {})
    case ListContainers => s.pc.LedgerRead? && t == s.(pc := ContainersRead(s.pc.rows, s.w.containers))
    case ListDisks =>
      s.pc.ContainersRead? &&
      t == s.(pc := RowsLeft(Snapshot(s.pc.rows, s.pc.listed, s.w.disks), s.pc.rows.Keys))
    case Turn(id) => TurnStep(s, id, t)
    case Inspect => InspectStep(s, t)
    case RowOp(id, op) => RowOpStep(s, id, op, t)
    case Fail => HoldsSlot(s.pc) && t == s.(pc := RowsLeft(s.pc.snap, s.pc.todo))
    case FailOrphan(id) => Orphaned(s.pc, id) && t == s.(pc := OrphanDone(s.pc, id))
    case Release => s.pc.Acting? && s.pc.ops == [] && t == s.(pc := RowsLeft(s.pc.snap, s.pc.todo))
    case RowsDone =>
      s.pc.RowsLeft? && s.pc.todo == {} &&
      t == s.(pc := ContainersLeft(s.pc.snap, s.pc.snap.listed.Keys - s.pc.snap.rows.Keys))
    case Strike(id) => StrikeStep(s, id, t)
    case OrphanOp(id, op) => OrphanOpStep(s, id, op, t)
    case ContainersDone =>
      s.pc.ContainersLeft? && s.pc.todo == {} &&
      t == s.(pc := DisksLeft(s.pc.snap, s.pc.snap.disks - s.pc.snap.rows.Keys - s.pc.snap.listed.Keys))
    case Finish => s.pc.DisksLeft? && s.pc.todo == {} && t == s.(pc := Idle, prior := s.suspects)
  }

  ghost predicate Run(states: seq<State>, labels: seq<Label>) {
    && |states| == |labels| + 1
    && states[0].pc.Idle? && states[0].prior == {}
    && forall i :: 0 <= i < |labels| ==> Step(states[i], labels[i], states[i + 1])
  }

  // ---------------------------------------------------------------- what a turn owes a row

  /** The listings disagree with a row that is neither archived nor restoring. */
  predicate Disagrees(state: SandboxState, listed: Option<Container>, disk: bool) {
    match listed
    case None => !(state.Stopped? && disk)
    case Some(shell) =>
      match shell.state
      case Running => !state.Active?
      case Paused => !state.Frozen?
      case Exited => true
  }

  /**
   The slot is entered exactly for a row still in the state the pass read, its name free,
   that the listings contradict: an archived row with anything left of it, a restoring row
   whose task is dead, any other that disagrees with its container or its disk.
   */
  lemma TurnEnters(s: State, id: Id, t: State)
    requires TurnStep(s, id, t)
    ensures t.w == s.w && t.suspects == s.suspects
    ensures var row, snap := s.pc.snap.rows[id], s.pc.snap;
            var listed := if id in snap.listed then Some(snap.listed[id]) else None;
            t.pc.InSlot? <==>
              && row.name !in s.held && id in s.w.ledger && s.w.ledger[id].state == row.state
              && (row.state.Archived? ==> listed.Some? || id in snap.disks)
              && (row.state.Restoring? ==> id !in s.live)
              && (!row.state.Archived? && !row.state.Restoring? ==> Disagrees(row.state, listed, id in snap.disks))
    ensures t.pc == if t.pc.InSlot? then InSlot(s.pc.snap, s.pc.todo - {id}, id)
                    else RowsLeft(s.pc.snap, s.pc.todo - {id})
  {
  }

  /** A restoring row whose task is alive at its turn is passed over. */
  lemma LiveRestorePassedOver(s: State, id: Id, t: State)
    requires TurnStep(s, id, t) && id in s.live && s.pc.snap.rows[id].state.Restoring?
    ensures t == s.(pc := RowsLeft(s.pc.snap, s.pc.todo - {id}))
  {
    TurnEnters(s, id, t);
  }

  /**
   Whatever the pass does to a row it read as restoring, in any run, follows a turn at which
   no task of that restore was alive and the row was still restoring; the slot is held from
   that turn on.
   */
  lemma {:induction false} RestoresEnteredDead(states: seq<State>, labels: seq<Label>, n: nat, x: Id)
    returns (m: nat)
    requires Run(states, labels) && n < |states| && HoldsSlot(states[n].pc) && states[n].pc.id == x
    requires x in states[n].pc.snap.rows && states[n].pc.snap.rows[x].state.Restoring?
    ensures m < n && labels[m] == Turn(x) && x !in states[m].live
    ensures x in states[m].w.ledger && states[m].w.ledger[x].state.Restoring?
    ensures forall j :: m < j <= n ==> HoldsSlot(states[j].pc) && states[j].pc.id == x
  {
    assert Step(states[n - 1], labels[n - 1], states[n]);
    if labels[n - 1].Turn? {
      m := n - 1;
      TurnEnters(states[m], x, states[n]);
    } else {
      m := RestoresEnteredDead(states, labels, n - 1, x);
    }
  }

  /** The repair decided in the slot, carried out on the sandbox as it is. */
  function Resolved(s: State, t: State): Cell
    requires InspectStep(s, t)
  {
    Exec(CellOf(s.w, s.pc.id), t.pc.ops)
  }

  /** What the slot decides of a restoring or archived row, whatever the listings had shown. */
  lemma HeldRowMeans(s: State, t: State, row: Row)
    requires InspectStep(s, t) && CellOf(s.w, s.pc.id).row == Some(row)
    requires s.pc.snap.rows[s.pc.id].state == row.state && (row.state.Archived? || row.state.Restoring?)
    ensures var c, d := CellOf(s.w, s.pc.id), Resolved(s, t);
            && (row.state.Archived? && c.container.Some? ==> d == c.(container := None, disk := false))
            && (row.state.Archived? && c.container.None? ==> d == c.(disk := c.disk && s.pc.id !in s.pc.snap.disks))
            && (row.state.Restoring? && c.container.None? ==> d == Moved(c, Archived).(disk := false))
            && (row.state.Restoring? && ContainerIs(c, Running) ==> d == Moved(c, Active))
            && (row.state.Restoring? && ContainerIs(c, Paused) ==> d == Moved(c, Frozen))
            && (row.state.Restoring? && ContainerIs(c, Exited) ==> d == Moved(c, Stopped))
  {
    RepairTaken(CellOf(s.w, s.pc.id), t.pc.ops);
  }

  /** What the slot decides of any other row. */
  lemma ClaimedRowMeans(s: State, t: State, row: Row)
    requires InspectStep(s, t) && CellOf(s.w, s.pc.id).row == Some(row)
    requires s.pc.snap.rows[s.pc.id].state == row.state && !row.state.Archived? && !row.state.Restoring?
    ensures var c, d := CellOf(s.w, s.pc.id), Resolved(s, t);
            && (c.container.None? && s.pc.id in s.pc.snap.disks ==> d == Moved(c, Stopped))
            && (c.container.None? && s.pc.id !in s.pc.snap.disks ==> d == c.(row := None))
            && (ContainerIs(c, Running) ==> d == Moved(c, Active))
            && (ContainerIs(c, Paused) ==> d == Moved(c, Frozen))
            && (ContainerIs(c, Exited) && row.state.Stopped? ==> d == c.(container := None))
            && (ContainerIs(c, Exited) && !row.state.Stopped? ==>
                  var exit := c.container.value.exit;
                  d == c.(row := Some(row.(state := Stopped,
                    lastExit := Some(LastExit(exit.finishedAt, exit.exitCode, CauseOfExit(exit)))))))
  {
    RepairTaken(CellOf(s.w, s.pc.id), t.pc.ops);
  }

  // ---------------------------------------------------------------- preservation

  /** The sandbox has its row and its disk, and is neither archived nor restoring. */
  predicate Lives(s: State, x: Id) {
    x in s.w.ledger && x in s.w.disks && !s.w.ledger[x].state.Archived? && !s.w.ledger[x].state.Restoring?
  }

  /** A repair that only rewrites the row, to a state some shell or disk of it can be in. */
  predicate Rewrites(op: Op) {
    op.RecordDeath? || (op.Overwrite? && (op.to.Active? || op.to.Frozen? || op.to.Stopped?))
  }

  /** The pass takes neither row, nor disk, nor a shell that is not already dead. */
  predicate Harmless(s: State, l: Label, x: Id) {
    match l
    case RowOp(id, op) =>
      id == x ==> Rewrites(op) || (op.RemoveContainer? && (id in s.w.containers ==> s.w.containers[id].state.Exited?))
    case OrphanOp(id, _) => id != x
    case _ => true
  }

  predicate Claimed(rows: map<Id, Row>, x: Id) {
    x in rows && !rows[x].state.Archived? && !rows[x].state.Restoring?
  }

  predicate GentleOps(ops: seq<Op>) {
    forall op :: op in ops ==> Rewrites(op) || op.RemoveContainer?
  }

  /** What the pass knows of a sandbox that has lived since its ledger was read. */
  predicate Knows(s: State, x: Id) {
    match s.pc
    case Idle => true
    case LedgerRead(rows) => Claimed(rows, x)
    case ContainersRead(rows, _) => Claimed(rows, x)
    case RowsLeft(snap, _) => Claimed(snap.rows, x) && x in snap.disks
    case InSlot(snap, _, _) => Claimed(snap.rows, x) && x in snap.disks
    case Acting(snap, _, id, ops) =>
      Claimed(snap.rows, x) && x in snap.disks &&
      (id == x ==> GentleOps(ops)) &&
      (id == x && RemoveContainer in ops && x in s.w.containers ==> s.w.containers[x].state.Exited?)
    case ContainersLeft(snap, todo) => x !in todo && x in snap.rows
    case DisksLeft(snap, todo) => x !in todo && x in snap.rows
  }

  lemma StepKnows(s: State, l: Label, t: State, x: Id)
    requires Step(s, l, t) && Lives(s, x) && Knows(s, x)
    ensures Harmless(s, l, x) && Knows(t, x)
  {
    match l {
      case Inspect =>
      case RowOp(id, op) =>
        assert op in s.pc.ops;
        forall o | o in s.pc.ops[1..] ensures o in s.pc.ops {}
        CellOfWith(s.w, id, Do(CellOf(s.w, id), op), x);
        assert CellOf(t.w, x).container.Some? <==> x in t.w.containers;
      case Others =>
        if HoldsSlot(s.pc) && s.pc.id == x {
          assert CellOf(s.w, x).container.Some? <==> x in s.w.containers;
          assert CellOf(t.w, x).container.Some? <==> x in t.w.containers;
        }
      case _ =>
    }
  }

  lemma StepKeepsLives(s: State, l: Label, t: State, x: Id)
    requires Step(s, l, t) && l != Others && Lives(s, x) && Harmless(s, l, x)
    ensures Lives(t, x)
  {
    match l {
      case RowOp(id, op) =>
        var d := Do(CellOf(s.w, id), op);
        CellOfWith(s.w, id, d, x);
        assert CellOf(t.w, x).row.Some? <==> x in t.w.ledger;
      case OrphanOp(id, op) =>
        CellOfWith(s.w, id, Do(CellOf(s.w, id), op), x);
        assert CellOf(t.w, x).row.Some? <==> x in t.w.ledger;
      case _ =>
    }
  }

  /** Nothing but the pass itself could end this sandbox's row or disk, archive it, or begin a restore of it. */
  ghost predicate LeftAlone(states: seq<State>, labels: seq<Label>, start: nat, n: nat, x: Id)
    requires |states| == |labels| + 1 && n <= |labels|
  {
    forall i :: start <= i < n && labels[i] == Others && Lives(states[i], x) ==> Lives(states[i + 1], x)
  }

  /**
   Whatever runs between its steps, a pass does nothing to a sandbox that had its row and
   its disk, and was neither archived nor restoring, when the pass read the ledger, and
   that nobody else deletes, archives or restores meanwhile: it takes no row, no disk, and
   no shell but a dead one, and the sandbox still lives.
   */
  lemma {:induction false} PassPreserves(states: seq<State>, labels: seq<Label>, start: nat, n: nat, x: Id)
    requires Run(states, labels) && start <= n < |labels|
    requires labels[start] == ReadLedger && Lives(states[start], x)
    requires LeftAlone(states, labels, start, n, x)
    ensures Lives(states[n], x) && Knows(states[n], x) && Harmless(states[n], labels[n], x)
  {
    if n > start {
      PassPreserves(states, labels, start, n - 1, x);
      StepKnows(states[n - 1], labels[n - 1], states[n], x);
      if labels[n - 1] != Others {
        StepKeepsLives(states[n - 1], labels[n - 1], states[n], x);
      }
    }
    StepKnows(states[n], labels[n], states[n + 1], x);
  }

  // ---------------------------------------------------------------- two strikes

  /** Suspects were listed, and had no row when their pass read the ledger. */
  predicate Suspected(s: State) {
    match s.pc
    case ContainersLeft(snap, todo) => (todo + s.suspects) !! snap.rows.Keys
    case DisksLeft(snap, todo) => (todo + s.suspects) !! snap.rows.Keys
    case _ => HoldsSlot(s.pc) || s.pc.RowsLeft? || s.pc.LedgerRead? || s.pc.ContainersRead? ==> s.suspects == {}
  }

  lemma StepSuspected(s: State, l: Label, t: State)
    requires Step(s, l, t) && Suspected(s)
    ensures Suspected(t)
  {
  }

  lemma {:induction false} AlwaysSuspected(states: seq<State>, labels: seq<Label>, n: nat)
    requires Run(states, labels) && n < |states|
    ensures Suspected(states[n])
  {
    if n > 0 {
      AlwaysSuspected(states, labels, n - 1);
      StepSuspected(states[n - 1], labels[n - 1], states[n]);
    }
  }

  /** The last pass to finish before step n, if one has: where the strikes in `prior` come from. */
  ghost predicate FinishedAt(states: seq<State>, labels: seq<Label>, f: nat, n: nat)
    requires Run(states, labels)
  {
    f < n <= |labels| && labels[f] == Finish && forall i :: f < i < n ==> labels[i] != Finish
  }

  lemma {:induction false} PriorFrom(states: seq<State>, labels: seq<Label>, n: nat) returns (f: nat)
    requires Run(states, labels) && n < |states| && states[n].prior != {}
    ensures FinishedAt(states, labels, f, n)
    ensures states[f].pc.DisksLeft? && states[n].prior == states[f].suspects
    ensures states[n].prior !! states[f].pc.snap.rows.Keys
  {
    if labels[n - 1] == Finish {
      f := n - 1;
      AlwaysSuspected(states, labels, f);
    } else {
      assert states[n - 1].prior == states[n].prior;
      f := PriorFrom(states, labels, n - 1);
    }
  }

  /**
   What a running daemon destroys as an orphan has no row at that moment, had none when
   this pass read the ledger, and had none when the pass before it did.
   */
  lemma OrphansStruckTwice(states: seq<State>, labels: seq<Label>, n: nat) returns (f: nat)
    requires Run(states, labels) && n < |labels| && labels[n].OrphanOp?
    ensures FinishedAt(states, labels, f, n) && states[f].pc.DisksLeft?
    ensures var id := labels[n].id;
            Orphaned(states[n].pc, id) && id in states[n].prior && id !in states[n].w.ledger &&
            id !in states[n].pc.snap.rows && id !in states[f].pc.snap.rows
    ensures labels[n].op == if states[n].pc.ContainersLeft? then DestroyAll else RemoveDisk
  {
    AlwaysSuspected(states, labels, n);
    assert Step(states[n], labels[n], states[n + 1]);
    f := PriorFrom(states, labels, n);
  }

  // ---------------------------------------------------------------- deleting a row

  predicate DeletesRightly(s: State) {
    s.pc.Acting? && DeleteRow in s.pc.ops ==>
      s.pc.ops == [DeleteRow] && s.pc.id !in s.pc.snap.disks && s.pc.id !in s.w.containers &&
      s.pc.id in s.pc.snap.rows && s.pc.id in s.w.ledger && s.w.ledger[s.pc.id].state == s.pc.snap.rows[s.pc.id].state
  }

  predicate ReRead(s: State) {
    s.pc.InSlot? ==>
      s.pc.id in s.pc.snap.rows && s.pc.id in s.w.ledger &&
      s.w.ledger[s.pc.id].state == s.pc.snap.rows[s.pc.id].state
  }

  lemma StepDeletes(s: State, l: Label, t: State)
    requires Step(s, l, t) && DeletesRightly(s) && ReRead(s)
    ensures DeletesRightly(t) && ReRead(t)
  {
    match l {
      case Inspect =>
        assert CellOf(s.w, s.pc.id).container.Some? <==> s.pc.id in s.w.containers;
      case Others =>
        if HoldsSlot(s.pc) {
          var x := s.pc.id;
          assert CellOf(s.w, x).row.Some? <==> x in s.w.ledger;
          assert CellOf(t.w, x).row.Some? <==> x in t.w.ledger;
          assert CellOf(s.w, x).container.Some? <==> x in s.w.containers;
          assert CellOf(t.w, x).container.Some? <==> x in t.w.containers;
        }
      case _ =>
    }
  }

  lemma {:induction false} AlwaysDeletes(states: seq<State>, labels: seq<Label>, n: nat)
    requires Run(states, labels) && n < |states|
    ensures DeletesRightly(states[n]) && ReRead(states[n])
  {
    if n > 0 {
      AlwaysDeletes(states, labels, n - 1);
      StepDeletes(states[n - 1], labels[n - 1], states[n]);
    }
  }

  /**
   A row the pass deletes has no container at that moment, is in the state the pass read,
   and had no disk when the disks were listed. The listing is the one reading that is not
   taken again in the slot.
   */
  lemma DeletedRowsAreGone(states: seq<State>, labels: seq<Label>, n: nat, x: Id)
    requires Run(states, labels) && n < |labels| && labels[n] == RowOp(x, DeleteRow)
    ensures var s := states[n];
            s.pc.Acting? && x in s.w.ledger && x !in s.w.containers && x !in s.pc.snap.disks &&
            x in s.pc.snap.rows && s.w.ledger[x].state == s.pc.snap.rows[x].state
  {
    AlwaysDeletes(states, labels, n);
    assert Step(states[n], labels[n], states[n + 1]);
  }

  /**
   The exact guard: in the slot of a row neither archived nor restoring, the row is deleted
   when it has no container now and had no disk when they were listed.
   */
  lemma DeletesWhen(s: State, t: State)
    requires InspectStep(s, t) && Claimed(s.pc.snap.rows, s.pc.id)
    ensures DeleteRow in t.pc.ops <==> s.pc.id !in s.w.containers && s.pc.id !in s.pc.snap.disks
  {
    assert CellOf(s.w, s.pc.id).container.Some? <==> s.pc.id in s.w.containers;
  }

  /** A pass that holds its disk listing. */
  predicate Listing(pc: Pc) {
    pc.RowsLeft? || pc.InSlot? || pc.Acting? || pc.ContainersLeft? || pc.DisksLeft?
  }

  /** When the listing in hand was read. */
  lemma {:induction false} ListedAt(states: seq<State>, labels: seq<Label>, n: nat) returns (i: nat)
    requires Run(states, labels) && n < |states| && Listing(states[n].pc)
    ensures i < n && labels[i] == ListDisks && states[n].pc.snap.disks == states[i].w.disks
    ensures forall j :: i < j < n ==> labels[j] != ListDisks
  {
    if labels[n - 1] == ListDisks {
      i := n - 1;
    } else {
      i := ListedAt(states, labels, n - 1);
    }
  }

  /**
   Over every run: an inspection condemns a row whose disk exists if and only if it has no
   container and its disk was away at the moment the disks were listed. The guard is the
   listing, which a second look at the disk in the slot would correct.
   */
  lemma StaleDeletesExactly(states: seq<State>, labels: seq<Label>, n: nat, x: Id) returns (i: nat)
    requires Run(states, labels) && n < |labels| && labels[n] == Inspect && states[n].pc.InSlot? && states[n].pc.id == x
    requires Claimed(states[n].pc.snap.rows, x) && x in states[n].w.disks
    ensures i < n && labels[i] == ListDisks && forall j :: i < j < n ==> labels[j] != ListDisks
    ensures states[n + 1].pc.Acting? &&
            (DeleteRow in states[n + 1].pc.ops <==> x !in states[n].w.containers && x !in states[i].w.disks)
  {
    i := ListedAt(states, labels, n);
    assert Step(states[n], labels[n], states[n + 1]);
    DeletesWhen(states[n], states[n + 1]);
  }

  const IDLE_ROW := Row("box", Stopped, 60, None, None, 0, None, None, false, None)
  const WITH_DISK := World(map["a" := IDLE_ROW], map[], {"a"}, {})
  const ARCHIVED := World(map["a" := IDLE_ROW.(state := Archived)], map[], {}, {"a"})
  const MISREAD := Snapshot(map["a" := IDLE_ROW], map[], {})

  function At(w: World, pc: Pc): State {
    State(w, {}, {}, {}, {}, pc)
  }

  function MisreadRun(): seq<State> {
    [At(WITH_DISK, Idle),
     At(WITH_DISK, LedgerRead(MISREAD.rows)),
     At(WITH_DISK, ContainersRead(MISREAD.rows, map[])),
     At(ARCHIVED, ContainersRead(MISREAD.rows, map[])),
     At(ARCHIVED, RowsLeft(MISREAD, {"a"})),
     At(WITH_DISK, RowsLeft(MISREAD, {"a"})),
     At(WITH_DISK, InSlot(MISREAD, {}, "a")),
     At(WITH_DISK, Acting(MISREAD, {}, "a", [DeleteRow])),
     At(WITH_DISK.(ledger := map[]), Acting(MISREAD, {}, "a", []))]
  }

  const MISREAD_LABELS :=
    [ReadLedger, ListContainers, Others, ListDisks, Others, Turn("a"), Inspect, RowOp("a", DeleteRow)]

  lemma MisreadTurns()
    ensures TurnStep(MisreadRun()[5], "a", MisreadRun()[6]) && InspectStep(MisreadRun()[6], MisreadRun()[7])
  {
    assert {"a"} - {"a"} == {};
  }

  lemma MisreadDeletes()
    ensures RowOpStep(MisreadRun()[7], "a", DeleteRow, MisreadRun()[8])
  {
    var s, t := MisreadRun()[7], MisreadRun()[8];
    var w := WithCell(s.w, "a", Do(CellOf(s.w, "a"), DeleteRow));
    assert s.w.ledger - {"a"} == map[] && s.w.containers - {"a"} == map[] && s.w.disks + {"a"} == s.w.disks
        && s.w.objects - {"a"} == {};
    assert w == t.w && s.pc.ops[1..] == t.pc.ops;
  }

  /**
   The limit of the above: an archive that frees the disk just before the listing, and a
   restore that brings it back before the row's turn, cost a stopped sandbox its row while
   its disk exists.
   */
  lemma StaleListingDeletesARow()
    ensures Run(MisreadRun(), MISREAD_LABELS)
    ensures MISREAD_LABELS[7] == RowOp("a", DeleteRow) && Lives(MisreadRun()[7], "a")
    ensures "a" !in MisreadRun()[8].w.ledger && "a" in MisreadRun()[8].w.disks
    ensures "a" !in MisreadRun()[6].w.containers && "a" !in MisreadRun()[3].w.disks && MISREAD_LABELS[3] == ListDisks
  {
    MisreadTurns();
    MisreadDeletes();
    assert map["a" := IDLE_ROW].Keys == {"a"};
  }
}
