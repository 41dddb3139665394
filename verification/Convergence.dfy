/**
 Reconciliation converges (packages/server/src/reconciler.ts): over a world that stands
 still, one startup pass or three runtime passes leave nothing to repair.
 */
module Convergence {
  import opened Wrappers
  import opened Sandbox
  import opened Reconciler

  /** The row says what the container is; what no row claims does not exist. */
  predicate InStep(c: Cell) {
    match c.row
    case None => c.container.None? && !c.disk
    case Some(row) =>
      match row.state
      case Active => ContainerIs(c, Running)
      case Frozen => ContainerIs(c, Paused)
      case Stopped => if c.container.None? then c.disk else ContainerIs(c, Exited)
      case Archived => c.container.None? && !c.disk
      case Restoring => false
  }

  /** A repair's effect: nothing, one step, or a half-restore undone. */
  function Repaired(c: Cell, ops: seq<Op>): Cell {
    if ops == [] then c
    else if |ops| == 1 && Can(c, ops[0]) then Do(c, ops[0])
    else WithState(c.(disk := false), Archived)
  }

  lemma PassedIs(c: Cell, startup: bool, struck: bool)
    ensures Passed(c, startup, struck, false) == Repaired(c, PassOps(c, startup, struck, false))
  {
    RepairTaken(c, PassOps(c, startup, struck, false));
  }

  lemma OrphanRepaired(c: Cell, struck: bool)
    requires c.row.None?
    ensures InStep(Repaired(c, PassOps(c, true, struck, false)))
  {
  }

  lemma MissingRepaired(c: Cell, struck: bool)
    requires c.row.Some? && c.container.None?
    ensures InStep(Repaired(c, PassOps(c, true, struck, false)))
  {
    var ops := PassOps(c, true, struck, false);
    if c.row.value.state.Restoring? {
      assert ops == [RemoveDisk, Overwrite(Archived)];
    } else {
      assert |ops| <= 1;
    }
  }

  lemma ShellRepaired(c: Cell, struck: bool)
    requires c.row.Some? && c.container.Some?
    ensures InStep(Repaired(c, PassOps(c, true, struck, false)))
  {
    assert |PassOps(c, true, struck, false)| <= 1;
  }

  lemma StartupRepairs(c: Cell, struck: bool)
    ensures InStep(Repaired(c, PassOps(c, true, struck, false)))
  {
    if c.row.None? { OrphanRepaired(c, struck); }
    else if c.container.None? { MissingRepaired(c, struck); }
    else { ShellRepaired(c, struck); }
  }

  lemma InStepIsFixed(c: Cell, struck: bool)
    requires InStep(c)
    ensures PassOps(c, true, struck, false) == []
  {
  }

  /** One startup pass, from anything at all: in step, and nothing left for a startup pass to do. */
  lemma StartupSettles(c: Cell, struck: bool)
    ensures InStep(Passed(c, true, struck, false))
    ensures PassOps(Passed(c, true, struck, false), true, struck, false) == []
  {
    PassedIs(c, true, struck);
    StartupRepairs(c, struck);
    InStepIsFixed(Passed(c, true, struck, false), struck);
  }

  /** A row in step with a live shell, or stopped without one, is left alone by a runtime pass. */
  lemma HealthyLeftAlone(c: Cell, struck: bool, live: bool)
    requires InStep(c) && !ContainerIs(c, Exited)
    ensures Passed(c, false, struck, live) == c && PassOps(c, false, struck, live) == []
  {
  }

  /** A shell that died under a row that ordered no stop: any pass records the death, and keeps shell and disk. */
  lemma DeathIsRecorded(c: Cell, startup: bool, struck: bool, live: bool)
    requires c.row.Some? && (c.row.value.state.Active? || c.row.value.state.Frozen?) && ContainerIs(c, Exited)
    ensures var exit := c.container.value.exit;
            Passed(c, startup, struck, live) == c.(row := Some(c.row.value.(state := Stopped,
              lastExit := Some(LastExit(exit.finishedAt, exit.exitCode, CauseOfExit(exit))))))
  {
    RepairTaken(c, PassOps(c, startup, struck, live));
    assert PassOps(c, startup, struck, live) == [RecordDeath(c.container.value.exit)];
  }

  /** How many runtime passes a sandbox still needs. `struck`: it was a suspect of the pass before. */
  function Energy(c: Cell, struck: bool): (n: nat)
    ensures n <= 3
  {
    match c.row
    case None => if c.container.None? && !c.disk then 0 else if struck then 1 else 2
    case Some(row) =>
      if PassOps(c, false, struck, false) == [] then 0
      else if row.state.Archived? || !ContainerIs(c, Exited) then 1
      else (if row.state.Stopped? then 0 else 1) + (if c.disk then 1 else 2)
  }

  lemma MissingDescends(c: Cell, struck: bool)
    requires c.row.Some? && c.container.None? && PassOps(c, false, struck, false) != []
    ensures Energy(Repaired(c, PassOps(c, false, struck, false)), false) < Energy(c, struck)
  {
    var ops := PassOps(c, false, struck, false);
    if c.row.value.state.Restoring? {
      assert ops == [RemoveDisk, Overwrite(Archived)];
    } else {
      assert |ops| == 1;
    }
  }

  lemma LiveDescends(c: Cell, struck: bool)
    requires c.row.Some? && c.container.Some? && !ContainerIs(c, Exited) && PassOps(c, false, struck, false) != []
    ensures Energy(Repaired(c, PassOps(c, false, struck, false)), false) < Energy(c, struck)
  {
    assert |PassOps(c, false, struck, false)| == 1;
  }

  lemma DeadDescends(c: Cell, struck: bool)
    requires c.row.Some? && ContainerIs(c, Exited) && PassOps(c, false, struck, false) != []
    ensures Energy(Repaired(c, PassOps(c, false, struck, false)), false) < Energy(c, struck)
  {
    assert |PassOps(c, false, struck, false)| == 1;
  }

  lemma RowDescends(c: Cell, struck: bool)
    requires c.row.Some? && PassOps(c, false, struck, false) != []
    ensures Energy(Repaired(c, PassOps(c, false, struck, false)), false) < Energy(c, struck)
  {
    if c.container.None? { MissingDescends(c, struck); }
    else if ContainerIs(c, Exited) { DeadDescends(c, struck); }
    else { LiveDescends(c, struck); }
  }

  /** A runtime pass brings a sandbox strictly closer, until there is nothing to do and no suspicion. */
  lemma RuntimePassDescends(c: Cell, struck: bool)
    ensures var d, again := Passed(c, false, struck, false), Suspect(c, false, struck);
            if Energy(c, struck) == 0 then d == c && !again && PassOps(c, false, struck, false) == []
            else Energy(d, again) < Energy(c, struck)
  {
    PassedIs(c, false, struck);
    if c.row.Some? && PassOps(c, false, struck, false) != [] {
      RowDescends(c, struck);
    }
  }

  // ---------------------------------------------------------------- the whole host

  function AtStartup(): Given { Given(None, {}, {}, {}) }

  function AtRuntime(suspects: set<Id>): Given { Given(Some(suspects), {}, {}, {}) }

  /** A boot's pass over any ledger and any reality; a second one would do nothing. */
  method SettleAtStartup(h: Host) returns (first: Result, second: Result)
    modifies h
    ensures forall id :: InStep(CellOf(h.Model(), id))
    ensures second.did == map[] && second.failures == {} && second.suspects == {}
  {
    ghost var was := h.Model();
    first := Reconcile(h, AtStartup());
    ghost var mid := h.Model();
    forall id ensures InStep(CellOf(mid, id)) && OpsIn(CellOf(mid, id), id, AtStartup()) == [] {
      StartupSettles(CellOf(was, id), false);
    }
    second := Reconcile(h, AtStartup());
    assert forall id :: CellOf(h.Model(), id) == CellOf(mid, id);
  }

  ghost predicate AllWithin(w: World, suspects: set<Id>, n: nat) {
    forall id :: Energy(CellOf(w, id), id in suspects) <= n
  }

  lemma PassDescends(was: World, now: World, r: Result, suspects: set<Id>, n: nat)
    requires Complete(was, now, r, AtRuntime(suspects))
    requires AllWithin(was, suspects, n)
    ensures AllWithin(now, r.suspects, if n == 0 then 0 else n - 1)
    ensures n == 0 ==> now == was && r.did == map[] && r.suspects == {} && r.failures == {}
  {
    forall id ensures Energy(CellOf(now, id), id in r.suspects) <= if n == 0 then 0 else n - 1 {
      RuntimePassDescends(CellOf(was, id), id in suspects);
    }
    if n == 0 {
      forall id ensures CellOf(was, id) == CellOf(now, id) && id !in r.did && id !in r.suspects && id !in r.failures {
        RuntimePassDescends(CellOf(was, id), id in suspects);
      }
      SameCells(was, now);
      assert r.did == map[] && r.suspects == {} && r.failures == {};
    }
  }

  /** Three runtime passes threading their suspects, from any ledger and any reality; the fourth does nothing. */
  method SettleAtRuntime(h: Host) returns (fourth: Result)
    modifies h
    ensures fourth == Result(map[], {}, {})
    ensures forall id :: PassOps(CellOf(h.Model(), id), false, false, false) == []
  {
    var suspects: set<Id> := {};
    assert AllWithin(h.Model(), suspects, 3);
    for i := 0 to 3
      invariant AllWithin(h.Model(), suspects, 3 - i)
    {
      ghost var was := h.Model();
      var r := Reconcile(h, AtRuntime(suspects));
      PassDescends(was, h.Model(), r, suspects, 3 - i);
      suspects := r.suspects;
    }
    ghost var was := h.Model();
    fourth := Reconcile(h, AtRuntime(suspects));
    PassDescends(was, h.Model(), fourth, suspects, 0);
    forall id ensures PassOps(CellOf(h.Model(), id), false, false, false) == [] {
      assert Energy(CellOf(h.Model(), id), id in fourth.suspects) <= 0;
      RuntimePassDescends(CellOf(h.Model(), id), false);
    }
  }
}
