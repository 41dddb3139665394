/**
 Crash consistency: any verb cut between any two of its steps, then a boot's reconcile
 (packages/server/src/lifecycle.ts, packages/server/src/reconciler.ts).
 */
module Crash {
  import opened Wrappers
  import opened Sandbox
  import opened Lifecycle
  import opened Reconciler
  import opened Convergence

  datatype Verb =
    | Freeze
    | Stop
    | Rebuild
    | Wake(want: ShellSpec)
    | Archive
    | Restore(want: ShellSpec)
    | FailedRestore(imported: bool, started: Option<ShellSpec>, cleared: bool)
    | BeginRestore
    | Resume(want: ShellSpec, imported: bool)
    | GiveUp(cleared: bool)
    | Create(want: ShellSpec, row: Row)
    | Destroy(store: bool)

  /** What a restore still has to do; its disk, once in, is its own. */
  function ResumeOps(row: Row, want: ShellSpec, imported: bool): seq<Op> {
    (if imported then [] else [ImportDisk]) + [StartShell(want)] + AwakenOps(row) + [DeleteObject]
  }

  /** The end of a restore that fails: the disk goes, unless that fails too, and the row reverts. */
  function GiveUpOps(cleared: bool): seq<Op> {
    (if cleared then [RemoveDisk] else []) + [Transition(Archived)]
  }

  /**
   The steps a verb takes on a sandbox as it finds it; a verb of a sandbox that does not
   exist takes none. Restore and FailedRestore are a restore with nothing run in between;
   BeginRestore, Resume and GiveUp are its parts, for the slot is free between them.
   */
  function Program(c: Cell, verb: Verb): seq<Op> {
    match verb
    case Freeze => FREEZE
    case Stop => STOP
    case Rebuild => if c.row.Some? then RebuildOps(c.row.value) else []
    case Wake(want) => if c.row.Some? then WakeOps(c, want) else []
    case Archive => if c.row.Some? then ArchiveOps(c.row.value) else []
    case Restore(want) => if c.row.Some? then RestoreOps(c.row.value, want) else []
    case FailedRestore(imported, started, cleared) => FailedRestoreOps(imported, started, cleared)
    case BeginRestore => [Transition(Restoring)]
    case Resume(want, imported) =>
      if c.row.Some? && c.row.value.state.Restoring? && (imported ==> c.disk)
      then ResumeOps(c.row.value, want, imported) else []
    case GiveUp(cleared) => if c.row.Some? && c.row.value.state.Restoring? then GiveUpOps(cleared) else []
    case Create(want, row) => if c.row.None? then CreateOps(want, row) else []
    case Destroy(store) => DestroyOps(c, store)
  }

  // ---------------------------------------------------------------- the data

  /** The row exists, and with it the sandbox's data: in the archive if the row claims one, else on the disk. */
  predicate Kept(c: Cell) {
    c.row.Some? && if Away(c) then c.stored else c.disk
  }

  predicate Away(c: Cell) {
    c.row.Some? && (c.row.value.state.Archived? || c.row.value.state.Restoring?)
  }

  /** A sandbox and what is on its disk and in its object; `latest` is the last thing its shell wrote. */
  datatype Body = Body(c: Cell, disk: Option<nat>, archive: Option<nat>, latest: nat)

  function DoBody(b: Body, op: Op): Body
    requires Can(b.c, op)
  {
    var c := Do(b.c, op);
    match op
    case CreateAll(_) => b.(c := c, disk := Some(b.latest))
    case DestroyAll => b.(c := c, disk := None)
    case RemoveDisk => b.(c := c, disk := None)
    case ImportDisk => b.(c := c, disk := b.archive)
    case PutObject => b.(c := c, archive := b.disk)
    case DeleteObject => b.(c := c, archive := None)
    case _ => b.(c := c)
  }

  function ExecBody(b: Body, ops: seq<Op>): Body
    decreases |ops|
  {
    if ops == [] || !Can(b.c, ops[0]) then b else ExecBody(DoBody(b, ops[0]), ops[1..])
  }

  /** Nothing lost and nothing stale: the disk, if there is one, and the archive the row claims hold the latest. */
  predicate Latest(b: Body) {
    && Kept(b.c)
    && (b.disk.Some? <==> b.c.disk) && (b.archive.Some? <==> b.c.stored)
    && (b.disk.Some? ==> b.disk.value == b.latest)
    && (Away(b.c) ==> b.archive == Some(b.latest))
  }

  /** Where a step is one that loses nothing. */
  predicate Harmless(b: Body, op: Op) {
    match op
    case Transition(to) => if to.Active? then b.c.disk else to.Archived? ==> b.archive == Some(b.latest)
    case Overwrite(to) =>
      if to.Archived? || to.Restoring? then b.archive == Some(b.latest) else b.c.disk
    case RecordDeath(_) => b.c.disk
    case ImportDisk => Away(b.c)
    case PutObject => b.c.disk
    case DestroyAll => Away(b.c)
    case RemoveDisk => Away(b.c)
    case DeleteObject => !Away(b.c)
    case CreateAll(_) => false
    case InsertRow(_) => false
    case DeleteRow => false
    case _ => true
  }

  lemma StepKeeps(b: Body, op: Op)
    requires Latest(b) && Can(b.c, op) && Harmless(b, op)
    ensures Latest(DoBody(b, op))
  {
  }

  /** Every step of the program that is taken is harmless where it is taken. */
  predicate HarmlessAll(b: Body, ops: seq<Op>)
    decreases |ops|
  {
    ops == [] || !Can(b.c, ops[0]) || (Harmless(b, ops[0]) && HarmlessAll(DoBody(b, ops[0]), ops[1..]))
  }

  lemma {:induction false} LatestAtCut(b: Body, ops: seq<Op>, k: nat)
    requires Latest(b) && HarmlessAll(b, ops) && k <= |ops|
    ensures Latest(ExecBody(b, ops[..k]))
    decreases k
  {
    if k > 0 && Can(b.c, ops[0]) {
      StepKeeps(b, ops[0]);
      LatestAtCut(DoBody(b, ops[0]), ops[1..], k - 1);
      assert ops[..k][1..] == ops[1..][..k - 1];
    }
  }

  /** The sandbox of a body goes where the sandbox alone goes. */
  lemma {:induction false} ExecBodyCell(b: Body, ops: seq<Op>)
    ensures ExecBody(b, ops).c == Exec(b.c, ops)
    decreases |ops|
  {
    if ops != [] && Can(b.c, ops[0]) { ExecBodyCell(DoBody(b, ops[0]), ops[1..]); }
  }

  // ---------------------------------------------------------------- the verbs

  /** Steps that touch neither disk nor object and take no row out of the archive or into it. */
  predicate Gentle(op: Op) {
    op.FreezeShell? || op.UnfreezeShell? || op.StopShell? || op.StartShell? || op.RemoveContainer? || op.ClearPause?
    || op == Transition(Frozen) || op == Transition(Stopped)
  }

  lemma {:induction false} GentleKeeps(b: Body, ops: seq<Op>)
    requires forall op :: op in ops ==> Gentle(op) || (b.c.disk && (op == Transition(Active) || op.RecordDeath?))
    ensures HarmlessAll(b, ops)
    decreases |ops|
  {
    if ops != [] && Can(b.c, ops[0]) {
      assert ops[0] in ops;
      forall op | op in ops[1..] ensures op in ops {}
      GentleKeeps(DoBody(b, ops[0]), ops[1..]);
    }
  }

  /** Whatever a restore and its failure do to a sandbox that is away, while it stays away. */
  lemma {:induction false} AwayKeeps(b: Body, ops: seq<Op>)
    requires Latest(b) && Away(b.c)
    requires forall op :: op in ops ==>
      op == Transition(Restoring) || op == Transition(Archived) || op.ImportDisk? || op.StartShell? || op.RemoveDisk?
    ensures HarmlessAll(b, ops)
    decreases |ops|
  {
    if ops != [] && Can(b.c, ops[0]) {
      assert ops[0] in ops;
      forall op | op in ops[1..] ensures op in ops {}
      StepKeeps(b, ops[0]);
      AwayKeeps(DoBody(b, ops[0]), ops[1..]);
    }
  }

  lemma HarmlessCons(b: Body, op: Op, rest: seq<Op>)
    requires Can(b.c, op) ==> Harmless(b, op) && HarmlessAll(DoBody(b, op), rest)
    ensures HarmlessAll(b, [op] + rest)
  {
    assert ([op] + rest)[1..] == rest;
  }

  lemma AwakenOpsAre(row: Row, op: Op)
    requires op in AwakenOps(row)
    ensures op == ClearPause || op == Transition(Active)
  {
  }

  lemma WakeKeeps(b: Body, want: ShellSpec)
    requires Latest(b)
    ensures HarmlessAll(b, WakeOps(b.c, want))
  {
    forall op | op in WakeOps(b.c, want)
      ensures Gentle(op) || (b.c.disk && (op == Transition(Active) || op.RecordDeath?))
    {
      WakeOpsAre(b.c, want, op);
    }
    GentleKeeps(b, WakeOps(b.c, want));
  }

  lemma ColdOpsAre(c: Cell, want: ShellSpec, op: Op)
    requires c.row.Some? && op in ColdOps(c, want)
    ensures Gentle(op) || op == Transition(Active)
  {
    if op in AwakenOps(c.row.value) { AwakenOpsAre(c.row.value, op); }
  }

  lemma WakeOpsAre(c: Cell, want: ShellSpec, op: Op)
    requires c.row.Some? && op in WakeOps(c, want)
    ensures !Away(c) && (Gentle(op) || op == Transition(Active) || op.RecordDeath?)
  {
    if c.row.value.state.Active? {
      if !op.RecordDeath? { ColdOpsAre(Do(c, RecordDeath(c.container.value.exit)), want, op); }
    } else {
      ColdOpsAre(c, want, op);
    }
  }

  lemma ArchiveKeeps(b: Body)
    requires Latest(b)
    ensures HarmlessAll(b, ArchiveOps(b.c.row.value))
  {
    if b.c.row.value.state.Stopped? {
      var up := DoBody(b, PutObject);
      assert ARCHIVE == [ExportDisk] + ([PutObject] + ([Transition(Archived)] + ([DestroyAll] + [])));
      HarmlessCons(DoBody(up, Transition(Archived)), DestroyAll, []);
      HarmlessCons(up, Transition(Archived), [DestroyAll] + []);
      HarmlessCons(b, PutObject, [Transition(Archived)] + ([DestroyAll] + []));
      HarmlessCons(b, ExportDisk, [PutObject] + ([Transition(Archived)] + ([DestroyAll] + [])));
    }
  }

  /** Waking the row, then dropping the object: by then the row is awake. */
  lemma {:induction false} OnDiskKeeps(b: Body, ops: seq<Op>)
    requires b.c.disk
    requires forall op :: op in ops ==> Gentle(op)
    ensures HarmlessAll(b, ops + [Transition(Active), DeleteObject])
    decreases |ops|
  {
    if ops == [] {
      assert [] + [Transition(Active), DeleteObject] == [Transition(Active)] + ([DeleteObject] + []);
      if Can(b.c, Transition(Active)) { HarmlessCons(DoBody(b, Transition(Active)), DeleteObject, []); }
      HarmlessCons(b, Transition(Active), [DeleteObject] + []);
    } else {
      assert ops[0] in ops;
      forall op | op in ops[1..] ensures op in ops {}
      if Can(b.c, ops[0]) { OnDiskKeeps(DoBody(b, ops[0]), ops[1..]); }
      assert ops + [Transition(Active), DeleteObject] == [ops[0]] + (ops[1..] + [Transition(Active), DeleteObject]);
      HarmlessCons(b, ops[0], ops[1..] + [Transition(Active), DeleteObject]);
    }
  }

  lemma ResumeKeeps(b: Body, row: Row, want: ShellSpec, imported: bool)
    requires Latest(b) && Away(b.c) && (imported ==> b.c.disk)
    ensures HarmlessAll(b, ResumeOps(row, want, imported))
  {
    var up := [StartShell(want)] + if row.pausedByUser then [ClearPause] else [];
    var tail := up + [Transition(Active), DeleteObject];
    if imported {
      OnDiskKeeps(b, up);
      assert ResumeOps(row, want, imported) == tail;
    } else {
      if Can(b.c, ImportDisk) { OnDiskKeeps(DoBody(b, ImportDisk), up); }
      HarmlessCons(b, ImportDisk, tail);
      assert ResumeOps(row, want, imported) == [ImportDisk] + tail;
    }
  }

  lemma RestoreKeeps(b: Body, want: ShellSpec)
    requires Latest(b)
    ensures HarmlessAll(b, RestoreOps(b.c.row.value, want))
  {
    var row := b.c.row.value;
    assert RestoreOps(row, want) == [Transition(Restoring)] + ResumeOps(row, want, false);
    if Can(b.c, Transition(Restoring)) {
      var d := DoBody(b, Transition(Restoring));
      StepKeeps(b, Transition(Restoring));
      ResumeKeeps(d, row, want, false);
    }
    HarmlessCons(b, Transition(Restoring), ResumeOps(row, want, false));
  }

  /** Whatever shell is left over, every verb but destroy keeps the latest data through every step it takes. */
  lemma VerbKeeps(b: Body, verb: Verb)
    requires Latest(b) && !verb.Destroy?
    ensures HarmlessAll(b, Program(b.c, verb))
  {
    match verb {
      case Freeze => GentleKeeps(b, FREEZE);
      case Stop => GentleKeeps(b, STOP);
      case Rebuild => GentleKeeps(b, RebuildOps(b.c.row.value));
      case Wake(want) => WakeKeeps(b, want);
      case Archive => ArchiveKeeps(b);
      case Restore(want) => RestoreKeeps(b, want);
      case FailedRestore(imported, started, cleared) =>
        if Away(b.c) { AwayKeeps(b, FailedRestoreOps(imported, started, cleared)); }
      case BeginRestore => if Away(b.c) { AwayKeeps(b, [Transition(Restoring)]); }
      case Resume(want, imported) =>
        if b.c.row.value.state.Restoring? && (imported ==> b.c.disk) {
          ResumeKeeps(b, b.c.row.value, want, imported);
        }
      case GiveUp(cleared) => if Away(b.c) { AwayKeeps(b, Program(b.c, verb)); }
      case Create(_, _) =>
    }
  }

  // ---------------------------------------------------------------- the passes

  /** A shell without a disk under a restoring row whose restore is over: what a pass takes for more than it is. */
  predicate Hollow(c: Cell, live: bool) {
    c.row.Some? && c.row.value.state.Restoring? && !live && c.container.Some? && !c.disk
  }

  function Upto(ops: seq<Op>, k: nat): seq<Op> { if k <= |ops| then ops[..k] else ops }

  /**
   The exact guard of a pass, at startup or after: it keeps the row and its data if and only
   if the row is not restoring, without a restore alive, over a shell that has no disk.
   */
  lemma PassKeeps(c: Cell, startup: bool, struck: bool, live: bool)
    requires Kept(c)
    ensures Kept(Passed(c, startup, struck, live)) <==> !Hollow(c, live)
  {
    RepairTaken(c, PassOps(c, startup, struck, live));
  }

  lemma RestoringPassKeeps(b: Body, startup: bool, struck: bool, live: bool, j: nat)
    requires Latest(b) && b.c.row.value.state.Restoring?
    ensures Latest(ExecBody(b, Upto(PassOps(b.c, startup, struck, live), j))) <==> j == 0 || !Hollow(b.c, live)
  {
    var ops := PassOps(b.c, startup, struck, live);
    if live {
      assert Upto(ops, j) == [];
    } else if b.c.container.Some? {
      var op := Overwrite(LedgerState(b.c.container.value.state));
      assert ops == [op];
      assert j == 0 ==> Upto(ops, j) == [];
      assert j > 0 ==> Upto(ops, j) == [op] && [op][1..] == [];
    } else {
      assert ops == [RemoveDisk] + ([Overwrite(Archived)] + []);
      StepKeeps(b, RemoveDisk);
      HarmlessCons(DoBody(b, RemoveDisk), Overwrite(Archived), []);
      HarmlessCons(b, RemoveDisk, [Overwrite(Archived)] + []);
      assert ops[..|ops|] == ops;
      LatestAtCut(b, ops, |Upto(ops, j)|);
    }
  }

  lemma OtherPassKeeps(b: Body, startup: bool, struck: bool, live: bool, j: nat)
    requires Latest(b) && !b.c.row.value.state.Restoring?
    ensures Latest(ExecBody(b, Upto(PassOps(b.c, startup, struck, live), j)))
  {
    var ops := PassOps(b.c, startup, struck, live);
    assert |ops| <= 1;
    if ops != [] {
      assert ops == [ops[0]] + [];
      assert Harmless(b, ops[0]);
      HarmlessCons(b, ops[0], []);
    }
    LatestAtCut(b, ops, |Upto(ops, j)|);
    assert ops[..|ops|] == ops;
  }

  /** The same of the data itself, for a pass that fails after j steps of its repair. */
  lemma PassKeepsLatest(b: Body, startup: bool, struck: bool, live: bool, j: nat)
    requires Latest(b)
    ensures Latest(ExecBody(b, Upto(PassOps(b.c, startup, struck, live), j))) <==> j == 0 || !Hollow(b.c, live)
  {
    if b.c.row.value.state.Restoring? {
      RestoringPassKeeps(b, startup, struck, live, j);
    } else {
      OtherPassKeeps(b, startup, struck, live, j);
    }
  }

  /**
   A verb cut anywhere, then a boot. Whatever the sandbox was: its row, if it has one, says
   what its container is, and nothing without a row is left. And unless the verb was
   destroy, a sandbox that had its data keeps it exactly when the cut left no hollow shell.
   */
  lemma CutThenBoot(b: Body, verb: Verb, k: nat)
    requires k <= |Program(b.c, verb)|
    ensures var cut := ExecBody(b, Program(b.c, verb)[..k]);
            && InStep(Passed(cut.c, true, false, false))
            && (Latest(b) && !verb.Destroy? ==>
                  (Latest(ExecBody(cut, PassOps(cut.c, true, false, false))) <==> !Hollow(cut.c, false)))
  {
    var cut := ExecBody(b, Program(b.c, verb)[..k]);
    StartupSettles(cut.c, false);
    if Latest(b) && !verb.Destroy? {
      VerbKeeps(b, verb);
      LatestAtCut(b, Program(b.c, verb), k);
      PassKeepsLatest(cut, true, false, false, |PassOps(cut.c, true, false, false)| + 1);
    }
  }

  // ---------------------------------------------------------------- whole runs

  /**
   What can happen to one sandbox: its shell writes; a verb takes its first k steps and then
   fails, the daemon staying up, or is done; a verb is cut after k steps by a crash, and the
   boot's pass fails after j steps of its repair, or is done; a runtime pass does the same.
   */
  datatype Event =
    | Writes
    | Ran(verb: Verb, k: nat)
    | Crashed(verb: Verb, k: nat, j: nat)
    | Reconciled(struck: bool, live: bool, j: nat)

  function Written(b: Body): Body {
    if b.c.row.Some? && b.c.row.value.state.Active? && ContainerIs(b.c, Running) && b.c.disk
    then b.(disk := Some(b.latest + 1), latest := b.latest + 1) else b
  }

  function AfterVerb(b: Body, verb: Verb, k: nat): Body { ExecBody(b, Upto(Program(b.c, verb), k)) }

  function AfterPass(b: Body, startup: bool, struck: bool, live: bool, j: nat): Body {
    ExecBody(b, Upto(PassOps(b.c, startup, struck, live), j))
  }

  function Step(b: Body, e: Event): Body {
    match e
    case Writes => Written(b)
    case Ran(verb, k) => AfterVerb(b, verb, k)
    case Crashed(verb, k, j) => AfterPass(AfterVerb(b, verb, k), true, false, false, j)
    case Reconciled(struck, live, j) => AfterPass(b, false, struck, live, j)
  }

  function Run(b: Body, events: seq<Event>): Body {
    if events == [] then b else Step(Run(b, events[..|events| - 1]), events[|events| - 1])
  }

  predicate Destroys(e: Event) {
    (e.Ran? && e.verb.Destroy?) || (e.Crashed? && e.verb.Destroy?)
  }

  /** A pass in this event repairs a hollow shell. */
  predicate Misjudges(b: Body, e: Event) {
    match e
    case Crashed(verb, k, j) => j > 0 && Hollow(AfterVerb(b, verb, k).c, false)
    case Reconciled(_, live, j) => j > 0 && Hollow(b.c, live)
    case _ => false
  }

  /** No pass of the run does. */
  predicate Spared(b: Body, events: seq<Event>) {
    events == [] ||
    (Spared(b, events[..|events| - 1]) && !Misjudges(Run(b, events[..|events| - 1]), events[|events| - 1]))
  }

  ghost predicate LatestAllAlong(b: Body, events: seq<Event>) {
    forall n :: 0 <= n <= |events| ==> Latest(Run(b, events[..n]))
  }

  lemma VerbStepKeeps(b: Body, verb: Verb, k: nat)
    requires Latest(b) && !verb.Destroy?
    ensures Latest(AfterVerb(b, verb, k))
  {
    var ops := Program(b.c, verb);
    VerbKeeps(b, verb);
    LatestAtCut(b, ops, |Upto(ops, k)|);
    assert ops[..|ops|] == ops;
  }

  lemma EventKeeps(b: Body, e: Event)
    requires Latest(b) && !Destroys(e)
    ensures Latest(Step(b, e)) <==> !Misjudges(b, e)
  {
    match e {
      case Writes =>
      case Ran(verb, k) => VerbStepKeeps(b, verb, k);
      case Crashed(verb, k, j) =>
        VerbStepKeeps(b, verb, k);
        PassKeepsLatest(AfterVerb(b, verb, k), true, false, false, j);
      case Reconciled(struck, live, j) => PassKeepsLatest(b, false, struck, live, j);
    }
  }

  lemma LatestSoFar(b: Body, events: seq<Event>)
    requires events != []
    ensures LatestAllAlong(b, events) <==>
              LatestAllAlong(b, events[..|events| - 1]) && Latest(Run(b, events))
  {
    var before := events[..|events| - 1];
    assert events[..|events|] == events;
    forall n | 0 <= n <= |before| ensures events[..n] == before[..n] {}
    if LatestAllAlong(b, events) {
      assert Latest(Run(b, events[..|events|]));
      forall n | 0 <= n <= |before| ensures Latest(Run(b, before[..n])) { assert Latest(Run(b, events[..n])); }
    } else {
      var n :| 0 <= n <= |events| && !Latest(Run(b, events[..n]));
      if n <= |before| { assert !Latest(Run(b, before[..n])); }
    }
  }

  /**
   Over every run without a destroy, whatever fails, whenever the daemon goes down and
   whatever a boot or a pass leaves undone: the sandbox keeps its row and the last thing it
   wrote, all along, if and only if no pass repairs a restoring row over a shell that has
   no disk.
   */
  lemma {:induction false} DataSurvives(b: Body, events: seq<Event>)
    requires Latest(b)
    requires forall e :: e in events ==> !Destroys(e)
    ensures LatestAllAlong(b, events) <==> Spared(b, events)
  {
    if events == [] {
      assert events[..0] == [];
    } else {
      var before, last := events[..|events| - 1], events[|events| - 1];
      forall e | e in before ensures e in events {}
      DataSurvives(b, before);
      LatestSoFar(b, events);
      if LatestAllAlong(b, before) {
        assert before[..|before|] == before;
        assert last in events;
        EventKeeps(Run(b, before), last);
      }
    }
  }

  // ---------------------------------------------------------------- with no failure, no loss

  /** A shell stands on a disk. */
  predicate Stands(c: Cell) { c.container.Some? ==> c.disk }

  /** An archived sandbox has no shell: what an archive that ran to its end leaves. */
  predicate Quiet(c: Cell) {
    c.row.Some? && c.row.value.state.Archived? ==> c.container.None?
  }

  /** Only the daemon goes down: no verb or pass stops short, and no restore fails over a shell of its own. */
  predicate Unfailing(b: Body, e: Event) {
    match e
    case Writes => true
    case Ran(verb, k) => k >= |Program(b.c, verb)| && !ShellFailed(b.c, verb)
    case Crashed(verb, k, j) => j >= |PassOps(AfterVerb(b, verb, k).c, true, false, false)| && !ShellFailed(b.c, verb)
    case Reconciled(struck, live, j) => j >= |PassOps(b.c, false, struck, live)|
  }

  predicate ShellFailed(c: Cell, verb: Verb) {
    (verb.FailedRestore? && verb.started.Some?) || (verb.GiveUp? && c.container.Some?)
  }

  predicate NothingFails(b: Body, events: seq<Event>) {
    events == [] ||
    (NothingFails(b, events[..|events| - 1]) && Unfailing(Run(b, events[..|events| - 1]), events[|events| - 1]))
  }

  lemma {:induction false} StandsAtCut(c: Cell, ops: seq<Op>)
    requires Stands(c) && RemoveDisk !in ops
    ensures Stands(Exec(c, ops))
    decreases |ops|
  {
    if ops != [] && Can(c, ops[0]) {
      assert ops[0] in ops;
      StandsAtCut(Do(c, ops[0]), ops[1..]);
    }
  }

  /** No step of these builds a shell. */
  lemma {:induction false} NoShellAtCut(c: Cell, ops: seq<Op>)
    requires c.container.None? && forall op :: op in ops ==> !op.StartShell? && !op.CreateAll?
    ensures Exec(c, ops).container.None?
    decreases |ops|
  {
    if ops != [] && Can(c, ops[0]) {
      assert ops[0] in ops;
      forall op | op in ops[1..] ensures op in ops {}
      NoShellAtCut(Do(c, ops[0]), ops[1..]);
    }
  }

  lemma {:induction false} NeverArchived(c: Cell, ops: seq<Op>)
    requires c.row.Some? && !c.row.value.state.Archived?
    requires forall op :: op in ops ==>
      op != Transition(Archived) && op != Overwrite(Archived) && !op.InsertRow? && !op.DeleteRow?
    ensures Exec(c, ops).row.Some? && !Exec(c, ops).row.value.state.Archived?
    decreases |ops|
  {
    if ops != [] && Can(c, ops[0]) {
      assert ops[0] in ops;
      forall op | op in ops[1..] ensures op in ops {}
      NeverArchived(Do(c, ops[0]), ops[1..]);
    }
  }

  lemma UptoIn(ops: seq<Op>, k: nat, op: Op)
    requires op in Upto(ops, k)
    ensures op in ops
  {
  }

  /** However far a verb gets, a shell it leaves stands on a disk. */
  lemma VerbStands(c: Cell, verb: Verb, k: nat)
    requires Kept(c) && Stands(c) && Quiet(c) && !verb.Destroy? && !ShellFailed(c, verb)
    ensures Stands(Exec(c, Upto(Program(c, verb), k)))
  {
    var ops := Program(c, verb);
    forall op | op in Upto(ops, k) ensures op in ops { UptoIn(ops, k, op); }
    if verb.FailedRestore? {
      if c.row.value.state.Archived? {
        NoShellAtCut(c, Upto(ops, k));
      } else {
        assert ops[0] == Transition(Restoring) && !Can(c, ops[0]);
      }
    } else if verb.GiveUp? {
      NoShellAtCut(c, Upto(ops, k));
    } else {
      if verb.Resume? && RemoveDisk in AwakenOps(c.row.value) { AwakenOpsAre(c.row.value, RemoveDisk); }
      if verb.Wake? && RemoveDisk in ops { WakeOpsAre(c, verb.want, RemoveDisk); }
      if verb.Restore? && RemoveDisk in AwakenOps(c.row.value) { AwakenOpsAre(c.row.value, RemoveDisk); }
      StandsAtCut(c, Upto(ops, k));
    }
  }

  lemma QuietArchive(c: Cell)
    requires Kept(c) && Quiet(c)
    ensures Quiet(Exec(c, ArchiveOps(c.row.value)))
  {
    if c.row.value.state.Stopped? {
      var up := c.(stored := true);
      var archived := WithState(up, Archived);
      assert ArchiveOps(c.row.value) == [ExportDisk] + ([PutObject] + ([Transition(Archived)] + ([DestroyAll] + [])));
      ExecFirst(archived, DestroyAll, []);
      ExecFirst(up, Transition(Archived), [DestroyAll] + []);
      ExecFirst(c, PutObject, [Transition(Archived)] + ([DestroyAll] + []));
      ExecFirst(c, ExportDisk, [PutObject] + ([Transition(Archived)] + ([DestroyAll] + [])));
    }
  }

  lemma QuietRestore(c: Cell, want: ShellSpec)
    requires Kept(c) && c.row.value.state.Archived?
    ensures Quiet(Exec(c, RestoreOps(c.row.value, want)))
  {
    var row := c.row.value;
    var rest := [ImportDisk, StartShell(want)] + AwakenOps(row) + [DeleteObject];
    assert RestoreOps(row, want) == [Transition(Restoring)] + rest;
    ExecFirst(c, Transition(Restoring), rest);
    NeverArchived(Do(c, Transition(Restoring)), rest);
  }

  lemma QuietFromArchived(c: Cell, verb: Verb)
    requires Kept(c) && c.row.value.state.Archived? && c.container.None?
    requires !verb.Destroy? && !ShellFailed(c, verb)
    ensures Quiet(Exec(c, Program(c, verb)))
  {
    if verb.Restore? {
      QuietRestore(c, verb.want);
    } else {
      NoShellAtCut(c, Program(c, verb));
    }
  }

  lemma NoArchiveStep(c: Cell, verb: Verb, op: Op)
    requires c.row.Some? && !verb.Destroy? && !verb.Archive? && !verb.FailedRestore? && !verb.GiveUp?
    requires op in Program(c, verb)
    ensures op != Transition(Archived) && op != Overwrite(Archived) && !op.InsertRow? && !op.DeleteRow?
  {
    if verb.Wake? {
      WakeOpsAre(c, verb.want, op);
    } else if (verb.Restore? || verb.Resume?) && op in AwakenOps(c.row.value) {
      AwakenOpsAre(c.row.value, op);
    }
  }

  lemma QuietFromHere(c: Cell, verb: Verb)
    requires Kept(c) && !c.row.value.state.Archived?
    requires !verb.Destroy? && !verb.Archive? && !ShellFailed(c, verb)
    ensures Quiet(Exec(c, Program(c, verb)))
  {
    if verb.FailedRestore? {
      assert !Can(c, Program(c, verb)[0]);
    } else if verb.GiveUp? {
      NoShellAtCut(c, Program(c, verb));
    } else {
      forall op | op in Program(c, verb)
        ensures op != Transition(Archived) && op != Overwrite(Archived) && !op.InsertRow? && !op.DeleteRow?
      {
        NoArchiveStep(c, verb, op);
      }
      NeverArchived(c, Program(c, verb));
    }
  }

  lemma QuietAfter(c: Cell, verb: Verb)
    requires Kept(c) && Quiet(c) && !verb.Destroy? && !ShellFailed(c, verb)
    ensures Quiet(Exec(c, Program(c, verb)))
  {
    if verb.Archive? {
      QuietArchive(c);
    } else if c.row.value.state.Archived? {
      QuietFromArchived(c, verb);
    } else {
      QuietFromHere(c, verb);
    }
  }

  lemma PassStands(c: Cell, startup: bool, struck: bool, live: bool)
    requires Kept(c) && Stands(c)
    ensures Stands(Passed(c, startup, struck, live))
    ensures Quiet(c) || startup ==> Quiet(Passed(c, startup, struck, live))
  {
    RepairTaken(c, PassOps(c, startup, struck, live));
  }

  lemma UptoAll(ops: seq<Op>, k: nat)
    requires k >= |ops|
    ensures Upto(ops, k) == ops
  {
    assert ops[..|ops|] == ops;
  }

  lemma UnfailingStands(b: Body, e: Event)
    requires Latest(b) && Stands(b.c) && Quiet(b.c) && !Destroys(e) && Unfailing(b, e)
    ensures !Misjudges(b, e) && Stands(Step(b, e).c) && Quiet(Step(b, e).c)
  {
    match e {
      case Writes =>
      case Ran(verb, k) =>
        VerbStands(b.c, verb, k);
        QuietAfter(b.c, verb);
        UptoAll(Program(b.c, verb), k);
        ExecBodyCell(b, Program(b.c, verb));
      case Crashed(verb, k, j) =>
        var cut := AfterVerb(b, verb, k);
        VerbStands(b.c, verb, k);
        ExecBodyCell(b, Upto(Program(b.c, verb), k));
        VerbStepKeeps(b, verb, k);
        PassStands(cut.c, true, false, false);
        UptoAll(PassOps(cut.c, true, false, false), j);
        ExecBodyCell(cut, PassOps(cut.c, true, false, false));
      case Reconciled(struck, live, j) =>
        PassStands(b.c, false, struck, live);
        UptoAll(PassOps(b.c, false, struck, live), j);
        ExecBodyCell(b, PassOps(b.c, false, struck, live));
    }
  }

  /**
   So it takes a failure: with the daemon the only thing that goes down, at any step of any
   verb, a sandbox that is not archived over a shell or standing without a disk to begin
   with never loses its row or anything it wrote.
   */
  lemma {:induction false} NoFailureNoLoss(b: Body, events: seq<Event>)
    requires Latest(b) && Stands(b.c) && Quiet(b.c)
    requires (forall e :: e in events ==> !Destroys(e)) && NothingFails(b, events)
    ensures Spared(b, events) && Latest(Run(b, events)) && Stands(Run(b, events).c) && Quiet(Run(b, events).c)
  {
    if events != [] {
      var before, last := events[..|events| - 1], events[|events| - 1];
      forall e | e in before ensures e in events {}
      NoFailureNoLoss(b, before);
      assert last in events;
      UnfailingStands(Run(b, before), last);
      EventKeeps(Run(b, before), last);
    }
  }

  // ---------------------------------------------------------------- a run that loses everything

  const DEAD := Container(Exited, "image", Limits(1, 1, None), ShellExit(137, true, false, 0))
  const RESTING := Row("box", Stopped, 60, None, None, 0, None, None, false, None)
  const BEFORE := Body(Cell(Some(RESTING), Some(DEAD), true, false), Some(7), None, 7)

  /** An archive whose clean-up fails; a restore refused for the disk left, which it clears; a restore a crash cuts. */
  const MISHAPS: seq<Event> :=
    [Ran(Archive, 3), Ran(FailedRestore(false, None, true), 3), Crashed(Restore(ShellSpec("image", 1, 1)), 1, 1),
     Reconciled(false, false, 1), Reconciled(false, false, 1)]

  function Mishap(c: Cell): Body { Body(c, if c.disk then Some(7) else None, if c.stored then Some(7) else None, 7) }

  lemma OneStep(b: Body, op: Op)
    requires Can(b.c, op)
    ensures ExecBody(b, [op]) == DoBody(b, op)
  {
    assert [op][1..] == [];
  }

  lemma ArchiveUncleared()
    ensures Step(BEFORE, MISHAPS[0]) == Mishap(Cell(Some(RESTING.(state := Archived)), Some(DEAD), true, true))
  {
    var ops := ARCHIVE[..3];
    assert ops[1..] == [PutObject, Transition(Archived)] && ops[1..][1..] == [Transition(Archived)];
    var up := DoBody(BEFORE, PutObject);
    OneStep(up, Transition(Archived));
    assert ExecBody(BEFORE, ops) == ExecBody(BEFORE, ops[1..]) == ExecBody(up, ops[1..][1..]);
  }

  lemma RestoreRefused(b: Body)
    requires b == Mishap(Cell(Some(RESTING.(state := Archived)), Some(DEAD), true, true))
    ensures Step(b, MISHAPS[1]) == Mishap(Cell(Some(RESTING.(state := Archived)), Some(DEAD), false, true))
  {
    var ops := FailedRestoreOps(false, None, true);
    assert ops == [Transition(Restoring), RemoveDisk, Transition(Archived)] && ops[..3] == ops;
    assert ops[1..] == [RemoveDisk, Transition(Archived)] && ops[1..][1..] == [Transition(Archived)];
    var begun := DoBody(b, Transition(Restoring));
    var cleared := DoBody(begun, RemoveDisk);
    OneStep(cleared, Transition(Archived));
    assert ExecBody(b, ops) == ExecBody(begun, ops[1..]) == ExecBody(cleared, ops[1..][1..]);
  }

  lemma RestoreCut(b: Body)
    requires b == Mishap(Cell(Some(RESTING.(state := Archived)), Some(DEAD), false, true))
    ensures Misjudges(b, MISHAPS[2])
    ensures Step(b, MISHAPS[2]) == Mishap(Cell(Some(RESTING), Some(DEAD), false, true))
  {
    var want := ShellSpec("image", 1, 1);
    assert RestoreOps(b.c.row.value, want)[..1] == [Transition(Restoring)];
    OneStep(b, Transition(Restoring));
    var cut := AfterVerb(b, Restore(want), 1);
    assert PassOps(cut.c, true, false, false) == [Overwrite(Stopped)];
    OneStep(cut, Overwrite(Stopped));
    assert [Overwrite(Stopped)][..1] == [Overwrite(Stopped)];
  }

  lemma TwoPassesDelete(b: Body)
    requires b == Mishap(Cell(Some(RESTING), Some(DEAD), false, true))
    ensures Step(Step(b, MISHAPS[3]), MISHAPS[4]) == Mishap(Cell(None, None, false, true))
  {
    assert PassOps(b.c, false, false, false) == [RemoveContainer] && [RemoveContainer][..1] == [RemoveContainer];
    OneStep(b, RemoveContainer);
    var bare := Step(b, MISHAPS[3]);
    assert PassOps(bare.c, false, false, false) == [DeleteRow] && [DeleteRow][..1] == [DeleteRow];
    OneStep(bare, DeleteRow);
  }

  /**
   The loss: an archive commits its row and fails to free the local copy; a restore is
   refused for the disk it left, and clears it; the next is cut by a crash. The boot takes
   the leftover shell for a stopped sandbox, and two passes later the row is gone, the
   object unclaimed.
   */
  lemma LeftoverShellLosesAll()
    ensures Latest(BEFORE) && Stands(BEFORE.c) && Quiet(BEFORE.c) && !Spared(BEFORE, MISHAPS)
    ensures Run(BEFORE, MISHAPS).c.row.None?
  {
    var b1 := Step(BEFORE, MISHAPS[0]);
    ArchiveUncleared();
    RestoreRefused(b1);
    var b2 := Step(b1, MISHAPS[1]);
    RestoreCut(b2);
    TwoPassesDelete(Step(b2, MISHAPS[2]));
    RunOfFive(BEFORE, MISHAPS[0], MISHAPS[1], MISHAPS[2], MISHAPS[3], MISHAPS[4]);
  }

  lemma RunNext(b: Body, before: seq<Event>, e: Event)
    ensures Run(b, before + [e]) == Step(Run(b, before), e)
    ensures Spared(b, before + [e]) <==> Spared(b, before) && !Misjudges(Run(b, before), e)
  {
    assert (before + [e])[..|before|] == before;
  }

  lemma RunOfFive(b: Body, e0: Event, e1: Event, e2: Event, e3: Event, e4: Event)
    ensures Run(b, [e0, e1, e2, e3, e4]) == Step(Step(Step(Step(Step(b, e0), e1), e2), e3), e4)
    ensures Misjudges(Step(Step(b, e0), e1), e2) ==> !Spared(b, [e0, e1, e2, e3, e4])
  {
    assert [] + [e0] == [e0] && [e0] + [e1] == [e0, e1] && [e0, e1] + [e2] == [e0, e1, e2];
    assert [e0, e1, e2] + [e3] == [e0, e1, e2, e3] && [e0, e1, e2, e3] + [e4] == [e0, e1, e2, e3, e4];
    RunNext(b, [], e0);
    RunNext(b, [e0], e1);
    RunNext(b, [e0, e1], e2);
    RunNext(b, [e0, e1, e2], e3);
    RunNext(b, [e0, e1, e2, e3], e4);
  }

  // ---------------------------------------------------------------- a destroy cut

  lemma {:induction false} ExecFirst(c: Cell, op: Op, rest: seq<Op>)
    ensures Exec(c, [op] + rest) == if Can(c, op) then Exec(Do(c, op), rest) else c
  {
    assert ([op] + rest)[1..] == rest;
  }

  /** The destroy's first step is taken. */
  predicate Begins(c: Cell, store: bool) {
    c.row.Some? && DestroyOps(c, store) != [] && Can(c, DestroyOps(c, store)[0])
  }

  /** The states whose row a destroy cut after its first step does not lose. */
  predicate RowOutlasts(c: Cell)
    requires c.row.Some?
  {
    c.row.value.state.Archived? || c.row.value.state.Restoring?
  }

  lemma CutLocalDestroy(c: Cell, store: bool, k: nat)
    requires Begins(c, store) && !c.row.value.state.Archived? && 0 < k <= 2
    ensures var d := Passed(Exec(c, DestroyOps(c, store)[..k]), true, false, false);
            && d.container.None? && !d.disk && d.stored == c.stored
            && d.row == if k == 1 && c.row.value.state.Restoring? then Some(c.row.value.(state := Archived)) else None
  {
    var gone := Do(c, DestroyAll);
    ExecOne(c, DestroyAll);
    ExecFirst(c, DestroyAll, [DeleteRow]);
    ExecOne(gone, DeleteRow);
    assert [DestroyAll, DeleteRow][..1] == [DestroyAll] && [DestroyAll, DeleteRow][..2] == [DestroyAll] + [DeleteRow];
    RepairTaken(gone, PassOps(gone, true, false, false));
    RepairTaken(gone.(row := None), []);
  }

  lemma CutArchivedDestroy(c: Cell, k: nat)
    requires c.row.Some? && c.row.value.state.Archived? && 0 < k <= 2
    ensures var d := Passed(Exec(c, DestroyOps(c, true)[..k]), true, false, false);
            d == Cell(if k == 1 then c.row else None, None, false, false)
  {
    var bare := Do(c, DeleteObject);
    ExecOne(c, DeleteObject);
    ExecFirst(c, DeleteObject, [DeleteRow]);
    ExecOne(bare, DeleteRow);
    assert [DeleteObject, DeleteRow][..1] == [DeleteObject];
    assert [DeleteObject, DeleteRow][..2] == [DeleteObject] + [DeleteRow];
    RepairTaken(bare, PassOps(bare, true, false, false));
    RepairTaken(bare.(row := None), PassOps(bare.(row := None), true, false, false));
  }

  /**
   A destroy cut once it has begun is finished by the next boot if and only if both its
   steps were taken or the row was neither archived nor restoring; container and disk go
   either way. A row that outlasts it is archived: a restoring one keeps the object it was
   being restored from, an archived one has lost it.
   */
  lemma CutDestroyFinishes(c: Cell, store: bool, k: nat)
    requires Begins(c, store) && 0 < k <= 2
    ensures var d := Passed(Exec(c, DestroyOps(c, store)[..k]), true, false, false);
            && (d.row.None? <==> k == 2 || !RowOutlasts(c))
            && d.container.None? && !d.disk
            && (d.row.Some? ==> d.row == Some(c.row.value.(state := Archived)))
            && (d.row.Some? ==> (d.stored <==> c.row.value.state.Restoring? && c.stored))
  {
    if c.row.value.state.Archived? {
      assert c.row == Some(c.row.value.(state := Archived));
      CutArchivedDestroy(c, k);
    } else {
      CutLocalDestroy(c, store, k);
    }
  }

  /** Passes, at startup or after, one after another. */
  datatype Kind = Kind(startup: bool, struck: bool, live: bool)

  function PassedBy(c: Cell, passes: seq<Kind>): Cell {
    if passes == [] then c
    else
      var last := passes[|passes| - 1];
      Passed(PassedBy(c, passes[..|passes| - 1]), last.startup, last.struck, last.live)
  }

  /** A pass clears what an archived row has left here, and leaves the row. */
  lemma ArchivedPassed(c: Cell, startup: bool, struck: bool, live: bool)
    requires c.row.Some? && c.row.value.state.Archived?
    ensures Passed(c, startup, struck, live) == c.(container := None, disk := false)
  {
    RepairTaken(c, PassOps(c, startup, struck, live));
  }

  lemma DestroyedAgain(c: Cell)
    requires c.row.Some? && c.row.value.state.Archived?
    ensures Exec(c, DestroyOps(c, true)).row.None?
  {
    ExecFirst(c, DeleteObject, [DeleteRow]);
    ExecOne(Do(c, DeleteObject), DeleteRow);
    assert [DeleteObject, DeleteRow] == [DeleteObject] + [DeleteRow];
  }

  /**
   An archived sandbox's destroy cut after its object went, whatever was left over of its
   shell and disk: no passes, however many, take the row, and after any the data is nowhere.
   Only another destroy ends it.
   */
  lemma {:induction false} CutArchivedDestroyStays(c: Cell, passes: seq<Kind>)
    requires c.row.Some? && c.row.value.state.Archived?
    ensures var d := PassedBy(Exec(c, DestroyOps(c, true)[..1]), passes);
            && d.row == c.row && !d.stored
            && (passes != [] ==> d == Cell(c.row, None, false, false) && !Kept(d))
            && (passes != [] ==> Exec(d, DestroyOps(d, true)).row.None?)
  {
    ExecOne(c, DeleteObject);
    assert [DeleteObject, DeleteRow][..1] == [DeleteObject];
    if passes != [] {
      var before, last := passes[..|passes| - 1], passes[|passes| - 1];
      CutArchivedDestroyStays(c, before);
      ArchivedPassed(PassedBy(Exec(c, DestroyOps(c, true)[..1]), before), last.startup, last.struck, last.live);
      DestroyedAgain(Cell(c.row, None, false, false));
    }
  }
}
