/**
 The idle scanner (packages/server/src/scanner.ts): each sweep moves a sandbox at most one
 rung colder, by its own policy (packages/shared/src/policy.ts) and the time since its last
 use; a deadline outranks the policy. Times are in milliseconds.
 */
module Scanner {
  import opened Wrappers
  import opened Sandbox
  import opened Lifecycle

  datatype Rung = Freeze | Stop | Archive

  datatype Move = MovedFrozen | MovedStopped | MovedArchived | Killed

  datatype ScanResult = ScanResult(did: map<Id, Move>, failures: set<Id>)

  /** A sweep's surroundings: its clock, whether archiving is configured, the names whose slot is held. */
  datatype Sweep = Sweep(now: int, store: bool, busy: set<Name>)

  function DueDeadline(row: Row, now: int): Option<OnDeadline> {
    if row.state.Restoring? then None
    else if row.deadlineAt.None? || row.deadlineAt.value > now then None
    else if row.onDeadline != Some(Pause) then Some(Kill)
    else if row.state.Active? then Some(Pause) else None
  }

  predicate IdleFor(row: Row, now: int, seconds: nat) { now - row.lastActiveAt >= 1000 * seconds }

  function DueTransition(row: Row, now: int): Option<Rung> {
    if row.state.Active? && IdleFor(row, now, row.freezeAfterSeconds) then Some(Freeze)
    else if row.state.Frozen? && row.stopAfterSeconds.Some? && IdleFor(row, now, row.stopAfterSeconds.value)
    then Some(Stop)
    else if row.state.Stopped? && row.archiveAfterSeconds.Some? && IdleFor(row, now, row.archiveAfterSeconds.value)
    then Some(Archive)
    else None
  }

  // ---------------------------------------------------------------- one sandbox, one sweep

  /** The verb a sweep runs on a sandbox, if any, and what its success counts as. */
  function MoveOf(row: Row, s: Sweep): Option<Move> {
    match DueDeadline(row, s.now)
    case Some(Kill) => Some(Killed)
    case Some(Pause) => Some(MovedFrozen)
    case None =>
      match DueTransition(row, s.now)
      case Some(Freeze) => Some(MovedFrozen)
      case Some(Stop) => Some(MovedStopped)
      case Some(Archive) => if s.store then Some(MovedArchived) else None
      case None => None
  }

  /**
   What a sweep owes a sandbox whose name is free. An expired deadline kills it, from any
   state but restoring, unless it asks for a pause; a pause freezes it if it is active and
   is otherwise no reason to spare it. With no kill due it comes down the one rung from
   where it is, once it has been idle for that rung's seconds; the last only with a store.
   A sandbox whose name is held is left alone.
   */
  lemma MoveMeans(c: Cell, s: Sweep)
    requires c.row.Some?
    ensures c.row.value.name in s.busy ==> MoveIn(c, s) == None
    ensures c.row.value.name !in s.busy ==>
      var row, idle := c.row.value, s.now - c.row.value.lastActiveAt;
      var expired := row.deadlineAt.Some? && row.deadlineAt.value <= s.now;
      var killed := expired && row.onDeadline != Some(Pause) && !row.state.Restoring?;
      && (MoveIn(c, s) == Some(Killed) <==> killed)
      && (MoveIn(c, s) == Some(MovedFrozen) <==>
            !killed && row.state.Active? &&
            ((expired && row.onDeadline == Some(Pause)) || idle >= 1000 * row.freezeAfterSeconds))
      && (MoveIn(c, s) == Some(MovedStopped) <==>
            !killed && row.state.Frozen? &&
            row.stopAfterSeconds.Some? && idle >= 1000 * row.stopAfterSeconds.value)
      && (MoveIn(c, s) == Some(MovedArchived) <==>
            !killed && row.state.Stopped? && s.store &&
            row.archiveAfterSeconds.Some? && idle >= 1000 * row.archiveAfterSeconds.value)
  {
  }

  function VerbOps(c: Cell, m: Move, store: bool): seq<Op> {
    match m
    case MovedFrozen => FREEZE
    case MovedStopped => STOP
    case MovedArchived => ARCHIVE
    case Killed => DestroyOps(c, store)
  }

  function MoveIn(c: Cell, s: Sweep): Option<Move> {
    if c.row.None? || c.row.value.name in s.busy then None else MoveOf(c.row.value, s)
  }

  /** The verb ran to its end. */
  predicate Succeeds(c: Cell, m: Move, store: bool) {
    VerbOps(c, m, store) != [] && Taken(c, VerbOps(c, m, store)) == VerbOps(c, m, store)
  }

  function Swept(c: Cell, s: Sweep): Cell {
    if MoveIn(c, s).None? then c else Exec(c, VerbOps(c, MoveIn(c, s).value, s.store))
  }

  // ---------------------------------------------------------------- the sweep

  ghost predicate Progress(was: World, now: World, r: ScanResult, done: set<Id>, s: Sweep) {
    && (forall id :: CellOf(now, id) == if id in done then Swept(CellOf(was, id), s) else CellOf(was, id))
    && (forall id :: id in r.did <==>
         id in done && MoveIn(CellOf(was, id), s).Some? &&
         Succeeds(CellOf(was, id), MoveIn(CellOf(was, id), s).value, s.store))
    && (forall id :: id in r.did ==> MoveIn(CellOf(was, id), s) == Some(r.did[id]))
    && (forall id :: id in r.failures <==>
         id in done && MoveIn(CellOf(was, id), s).Some? &&
         !Succeeds(CellOf(was, id), MoveIn(CellOf(was, id), s).value, s.store))
  }

  function Noted(r: ScanResult, id: Id, m: Move, ok: bool): ScanResult {
    if ok then r.(did := r.did[id := m]) else r.(failures := r.failures + {id})
  }

  lemma ProgressMoved(was: World, now: World, r: ScanResult, done: set<Id>, s: Sweep, id: Id, m: Move, ok: bool)
    requires Progress(was, now, r, done, s) && id !in done
    requires MoveIn(CellOf(was, id), s) == Some(m) && ok == Succeeds(CellOf(was, id), m, s.store)
    ensures Progress(was, WithCell(now, id, Swept(CellOf(was, id), s)), Noted(r, id, m, ok), done + {id}, s)
  {
    forall x ensures CellOf(WithCell(now, id, Swept(CellOf(was, id), s)), x)
                  == if x in done + {id} then Swept(CellOf(was, x), s) else CellOf(was, x)
    {
      CellOfWith(now, id, Swept(CellOf(was, id), s), x);
    }
  }

  lemma ProgressSkipped(was: World, now: World, r: ScanResult, done: set<Id>, s: Sweep, id: Id)
    requires Progress(was, now, r, done, s) && MoveIn(CellOf(was, id), s).None?
    ensures Progress(was, now, r, done + {id}, s)
  {
  }

  /** What is left for the second phase: due for archive, archiving on, and no deadline in the way. */
  predicate Late(row: Row, s: Sweep) {
    s.store && DueDeadline(row, s.now).None? && DueTransition(row, s.now) == Some(Archive)
  }

  ghost function Early(rows: map<Id, Row>, ids: set<Id>, s: Sweep): set<Id> {
    set id | id in ids && id in rows && !Late(rows[id], s)
  }

  /** In the slot, in the first phase: the deadline first, then one rung. */
  method MoveInSlot(h: Host, id: Id, s: Sweep) returns (m: Move, ok: bool)
    requires id in h.ledger && MoveOf(h.ledger[id], s).Some? && !Late(h.ledger[id], s)
    modifies h
    ensures Some(m) == MoveOf(old(h.ledger[id]), s)
    ensures h.Model() == WithCell(old(h.Model()), id, Exec(old(h.Here(id)), VerbOps(old(h.Here(id)), m, s.store)))
    ensures ok == Succeeds(old(h.Here(id)), m, s.store)
  {
    var current := h.ledger[id];
    assert h.Here(id) == CellOf(h.Model(), id);
    var deadline := DueDeadline(current, s.now);
    if deadline == Some(Kill) {
      m := Killed;
      ok := DestroySandbox(h, id, s.store);
      return;
    }
    if deadline == Some(Pause) {
      m := MovedFrozen;
      ok := FreezeSandbox(h, id);
      return;
    }
    var due := DueTransition(current, s.now);
    if due == Some(Freeze) {
      m := MovedFrozen;
      ok := FreezeSandbox(h, id);
    } else {
      m := MovedStopped;
      ok := StopSandbox(h, id);
    }
  }

  /** A row's turn in the first phase. */
  method FirstTurn(h: Host, id: Id, row: Row, s: Sweep, r0: ScanResult, ghost was: World, ghost done: set<Id>)
    returns (r: ScanResult)
    requires Progress(was, h.Model(), r0, done, s) && id !in done
    requires id in was.ledger && row == was.ledger[id]
    modifies h
    ensures Progress(was, h.Model(), r, if Late(row, s) then done else done + {id}, s)
  {
    assert CellOf(h.Model(), id) == CellOf(was, id) == h.Here(id);
    r := r0;
    var due := DueTransition(row, s.now);
    if DueDeadline(row, s.now).None? && (due.None? || due == Some(Archive)) {
      if !Late(row, s) { ProgressSkipped(was, h.Model(), r, done, s, id); }
      return;
    }
    if row.name in s.busy {
      ProgressSkipped(was, h.Model(), r, done, s, id);
      return;
    }
    ghost var mid := h.Model();
    var m, ok := MoveInSlot(h, id, s);
    ProgressMoved(was, mid, r, done, s, id, m, ok);
    r := Noted(r, id, m, ok);
  }

  /** Phase one: every cheap move. The rows due for archive when read are kept for phase two. */
  method PhaseOne(h: Host, s: Sweep) returns (r: ScanResult, archiveDue: set<Id>)
    modifies h
    ensures archiveDue <= old(h.ledger).Keys
    ensures forall id :: id in archiveDue <==>
              id in old(h.ledger) && s.store && DueTransition(old(h.ledger)[id], s.now) == Some(Archive)
    ensures Progress(old(h.Model()), h.Model(), r,
              Early(old(h.ledger), old(h.ledger).Keys, s), s)
  {
    ghost var was := h.Model();
    var rows := h.ledger;
    r, archiveDue := ScanResult(map[], {}), {};
    var todo := rows.Keys;
    while todo != {}
      invariant todo <= rows.Keys
      invariant forall id :: id in archiveDue <==>
                  id in rows.Keys - todo && s.store && DueTransition(rows[id], s.now) == Some(Archive)
      invariant Progress(was, h.Model(), r, Early(rows, rows.Keys - todo, s), s)
      decreases todo
    {
      var id :| id in todo;
      var row := rows[id];
      if DueTransition(row, s.now) == Some(Archive) && s.store {
        archiveDue := archiveDue + {id};
      }
      ghost var done := Early(rows, rows.Keys - todo, s);
      r := FirstTurn(h, id, row, s, r, was, done);
      todo := todo - {id};
      assert Early(rows, rows.Keys - todo, s) == if Late(row, s) then done else done + {id};
    }
    assert rows.Keys - todo == rows.Keys;
  }

  /** A kill that was refused left the row, deadline and all; one that ran left none. */
  lemma KillLeaves(c: Cell, store: bool)
    requires c.row.Some?
    ensures Exec(c, DestroyOps(c, store)) == c || Exec(c, DestroyOps(c, store)).row.None?
  {
    if c.row.value.state.Archived? {
      if store { ExecTwo(c, DeleteObject, DeleteRow); }
    } else {
      ExecTwo(c, DestroyAll, DeleteRow);
    }
  }

  /** A row's turn in the second phase, re-verified in its slot. */
  method SecondTurn(h: Host, id: Id, row: Row, s: Sweep, r0: ScanResult, ghost was: World, ghost done: set<Id>)
    returns (r: ScanResult)
    requires id in was.ledger && row == was.ledger[id] && s.store && DueTransition(row, s.now) == Some(Archive)
    requires Progress(was, h.Model(), r0, done, s) && (id in done <==> !Late(row, s))
    modifies h
    ensures Progress(was, h.Model(), r, done + {id}, s)
  {
    ghost var c := CellOf(was, id);
    assert h.Here(id) == CellOf(h.Model(), id);
    r := r0;
    if row.name in s.busy {
      ProgressSkipped(was, h.Model(), r, done, s, id);
      return;
    }
    if DueDeadline(row, s.now).Some? { KillLeaves(c, s.store); }
    if id !in h.ledger || DueDeadline(h.ledger[id], s.now).Some? ||
       DueTransition(h.ledger[id], s.now) != Some(Archive) {
      assert id in done;
      assert done + {id} == done;
      return;
    }
    r := ArchiveInSlot(h, id, s, r, was, done);
  }

  method ArchiveInSlot(h: Host, id: Id, s: Sweep, r0: ScanResult, ghost was: World, ghost done: set<Id>)
    returns (r: ScanResult)
    requires Progress(was, h.Model(), r0, done, s) && id !in done
    requires id in h.ledger && h.ledger[id].state.Stopped? && s.store
    requires MoveIn(CellOf(was, id), s) == Some(MovedArchived)
    modifies h
    ensures Progress(was, h.Model(), r, done + {id}, s)
  {
    ghost var mid := h.Model();
    assert h.Here(id) == CellOf(mid, id) == CellOf(was, id);
    var ok := ArchiveSandbox(h, id, s.store);
    ProgressMoved(was, mid, r0, done, s, id, MovedArchived, ok);
    r := Noted(r0, id, MovedArchived, ok);
  }

  ghost predicate Complete(was: World, now: World, r: ScanResult, s: Sweep) {
    && (forall id :: CellOf(now, id) == Swept(CellOf(was, id), s))
    && (forall id :: id in r.did <==>
         MoveIn(CellOf(was, id), s).Some? && Succeeds(CellOf(was, id), MoveIn(CellOf(was, id), s).value, s.store))
    && (forall id :: id in r.did ==> MoveIn(CellOf(was, id), s) == Some(r.did[id]))
    && (forall id :: id in r.failures <==>
         MoveIn(CellOf(was, id), s).Some? && !Succeeds(CellOf(was, id), MoveIn(CellOf(was, id), s).value, s.store))
  }

  lemma ProgressComplete(was: World, now: World, r: ScanResult, done: set<Id>, s: Sweep)
    requires Progress(was, now, r, done, s) && was.ledger.Keys <= done
    ensures Complete(was, now, r, s)
  {
    forall id | id !in done ensures MoveIn(CellOf(was, id), s).None? {
      assert id !in was.ledger;
    }
  }

  /** One sweep over a world that stands still: cheap moves first, archives second, as if each sandbox were alone. */
  method ScanOnce(h: Host, s: Sweep) returns (r: ScanResult)
    modifies h
    ensures Complete(old(h.Model()), h.Model(), r, s)
  {
    ghost var was := h.Model();
    var rows := h.ledger;
    var archiveDue;
    r, archiveDue := PhaseOne(h, s);
    ghost var early := Early(rows, rows.Keys, s);
    var todo := archiveDue;
    while todo != {}
      invariant todo <= archiveDue
      invariant Progress(was, h.Model(), r, early + (archiveDue - todo), s)
      decreases todo
    {
      var id :| id in todo;
      ghost var done := early + (archiveDue - todo);
      r := SecondTurn(h, id, rows[id], s, r, was, done);
      assert early + (archiveDue - (todo - {id})) == done + {id};
      todo := todo - {id};
    }
    assert rows.Keys <= early + (archiveDue - todo);
    ProgressComplete(was, h.Model(), r, early + (archiveDue - todo), s);
  }
}
