# Dormice, modelled and verified

Dormice runs two kinds of process. A daemon keeps a ledger of sandboxes in step with the
containers and disks of its host; a gateway finds, places, lists and upgrades across the
daemons. This project models the decisions both make, in the form the source gives them
(objects as classes, loops as loops, verdicts as functions), and proves what their comments
promise. `dafny verify dfyconfig.toml` checks all of it.

Five groups of modules, each leading to theorems over every input or every run:

- **The daemon's ledger and reality.** `Sandbox` is one sandbox as the daemon sees it, a
  row, a container, a disk and an archive object, with the steps that move them; a verb is a
  program of steps. `Lifecycle` has the verbs, `Reconciler` one pass, `Convergence` shows
  that passes settle, `Crash` exactly when verbs and passes that are cut or fail at any step
  lose data, `PassMachine` what a pass may do while every other task runs between its steps,
  `Scanner` and `Cooling` the idle ladder over whole runs. `KeyedQueue` is the slot they all rely on.
- **The gateway's single home.** `NameCache` and `Recency` are the cache and its order of
  use, `Finder` the adjudication of the nodes' answers, `SingleHome` the protocol that keeps
  a name on one node, `Placement` and `Outstanding` the choice of a node and its counting.
- **The rolling upgrade and the configuration.** `Fleet`, `Rolling` and `Rollout`: one node
  told at a time, told once, and no node older than the gateway after 2m rounds. `Config` and
  `ConfigRuns`: a version number stands for the whole content.
- **Lists.** `Cursor`, `Paging` and `Ties`: paging a fleet is paging one merged list.
- **Small algorithms with a simple law.** `Swap`, `LoginThrottle`, `History`.

## What the proofs found

The code is modelled as it is; where a promise fails, a lemma gives the input, and the exact
condition is proved where there is one.

- The gateway breaks ties by sandbox id, the daemon's list does not
  (packages/server/src/e2b/control.ts:601-602). With two sandboxes born in one instant a
  client can be given one twice and the other never (`Ties.TieLosesASandbox`). What is taken
  of a page is always a prefix of it if and only if the page is in the gateway's order
  (`Ties.PrefixesIffInOrder`).
- `NameCache.evict` of a stale entry can empty one map and not the other, after which the
  cache can outgrow its limit (`Recency.UnsafeEvictOutgrows`). `NameCache.EvictAgrees` is
  the exact condition on one evict; over whole histories the maps are in step if and only if
  every evict met it (`Recency.InStepIffSafe`). A find that awaits between reading the cache
  and evicting, `verify` and a destroy can all make such an evict.
- A destroy cut between its two steps is finished by the next boot if and only if its row
  was neither archived nor restoring (`Crash.CutDestroyFinishes`). An archived one has lost
  its object and its row stays for good (`Crash.CutArchivedDestroyStays`); a restoring one,
  which a kill can meet in its slot (packages/server/src/e2b/control.ts:504-520), comes back
  archived.
- The disk listing is the one reading a reconcile pass does not take again in the slot. A
  row whose disk exists is condemned if and only if it has no container and its disk was away
  when the disks were listed (`PassMachine.StaleDeletesExactly`); an archive and a restore
  around the listing do it (`PassMachine.StaleListingDeletesARow`).
- A reconcile pass trusts a leftover shell under a restoring row without looking at the disk
  (packages/server/src/reconciler.ts:223-234). An archive that commits and then cannot free
  its local copy, a restore refused for the disk left over, and a restore cut by a crash
  lead there, and the row is lost while its object still exists
  (`Crash.LeftoverShellLosesAll`). That is the only way: over every run without a destroy,
  whatever fails, data is lost if and only if a pass does this (`Crash.DataSurvives`), and
  with no failure but the daemon's own it never happens (`Crash.NoFailureNoLoss`).
- The placement counter can fall short of what is on its way: a placement of an earlier
  interval that is refused late, or answered late and then destroyed, is taken off this
  interval's count, and nothing else does it (`Outstanding.CounterCounts`,
  `Outstanding.LateRefusalUncounts`).
- A lookup outside the name's slot reports a conflict if and only if a node that said yes
  dropped the name before another said yes (`SingleHome.ConflictExactly`, and a run in
  `SingleHome.ConflictOutsideTheSlot`); inside the slot none ever does.
- Removing a node does not count as a configuration change, so one that comes back can run
  an old swap target; a check-in repairs it if and only if it carries a bundle
  (`ConfigRuns.CheckInMovesSwap`, `ConfigRuns.RemovedKeepsItsSwap`).
- A task that calls its own key before its first await runs beside that call if and only if
  the key had no tail (`KeyedQueue.ReentryRunsTwoAtOnce`).

Two bounds the source leaves open: a roll of m nodes behind is done in 2m rounds of check-ins,
and a guesser at the login gets 15 tries and 15 more for every hour it keeps trying.

## What is assumed

- **Executor and ledger calls** are atomic: taken whole, or failed without effect. A crash,
  or a failure that ends a verb or a repair, falls between two of them. While a restore is
  between its steps nobody else takes the disk it built.
- **`Convergence`, `Scanner`** speak of a pass or a sweep over a world that stands still
  (`PassMachine` does not). Reconcile claims hold given that the startup guard let the boot
  get to reconcile.
- **`SingleHome`** follows one name, with fixed membership; creates come only through the
  gateway; a node knows of a create before it answers any later lookup of the name
  (packages/shared/src/lookup.ts:15-23), and a node not dialled because it was last
  seen with no configuration and no sandbox has no create on its way either
  (`SingleHome.HeardTruthfully` shows that this is exactly what is needed).
- **`Rolling`**: the clock does not go back, a commit has one time, the rows written are the
  rows read back, and the gateway's build never moves backwards. `Rollout` adds that a told
  node comes back on a build that is not older than the gateway's and that no other upgrade
  unit runs on a node behind.
- **`Paging`**: each node's list is in the comparator's order and does not change between
  pages; `Ties` shows what happens without that.
- **`KeyedQueue`**: a task does not re-enter its own key before its first await.
- **`Recency`**: an evict in a history is safe when it is made; what happens otherwise is
  under the findings.

## Model

| member | source | states |
|---|---|---|
| `Cursor.CompareMeans` | packages/gateway/src/cursor.ts:68-74 | Newest first, then the lesser id; only the same item ties. |
| `Cursor.InsertInto` | packages/gateway/src/cursor.ts:68-74 | One insertion of the in-place sort: the array holds exactly the stable insertion of the element into the sorted front, the rest untouched. |
| `Cursor.SortTagged` | packages/gateway/src/cursor.ts:68-74 | The array sorted in place is the stable sort, in the comparator's order (newest first, ties by id), of what it held. |
| `Cursor.SortInOrder` | packages/gateway/src/cursor.ts:68-74 | The specification sort is in the comparator's order and a permutation of its input. |
| `Cursor.CountUsed` | packages/gateway/src/cursor.ts:76-77 | The map counts, for every node, how many of its items were taken. |
| `Cursor.AdvanceAll` | packages/gateway/src/cursor.ts:78-86 | Every page's node advances by what was taken from it, other offsets stay; `more` exactly when some node has items not taken or said there are more. |
| `Cursor.MergePages` | packages/gateway/src/cursor.ts:60-88 | The whole merge, imperative: its items and cursor are the specification's. |
| `Paging.EverythingSorted` | packages/gateway/src/cursor.ts:52-88 | The merged list of the whole fleet is strictly ordered and holds exactly the nodes' items. |
| `Paging.PrefixesOfLists` | packages/gateway/src/cursor.ts:52-59 | Every prefix of the merged list holds a prefix of every node's own list, as long as the count of that node's items in it. |
| `Paging.PageIsSlice` | packages/gateway/src/cursor.ts:60-88 | From a cursor that stands at t, one page is exactly items t to t + limit of the merged list. |
| `Paging.AllDelivered` | packages/gateway/src/cursor.ts:78-87 | Everything has been delivered exactly when every node's list has. |
| `Paging.PageStep` | packages/gateway/src/cursor.ts:60-88 | One page: the next slice; `next` is null exactly when nothing is left; otherwise the new cursor stands past the slice. |
| `Paging.SliceAt` | packages/gateway/src/cursor.ts:52-59 | What simple paging of one list means: page k is slice k, none empty. |
| `Paging.SlicesCover` | packages/gateway/src/cursor.ts:52-59 | The slices joined are the list. |
| `Paging.PagingIsSlicing` | packages/gateway/src/cursor.ts:60-88 | Main theorem of the list: following the cursor over any fleet, with any page size, gives exactly the slices of the one merged list, and ends. |
| `Paging.EverythingOnce` | packages/gateway/src/cursor.ts:52-59 | The pages joined hold every item of every node exactly once. |
| `Ties.SortFixes` | packages/gateway/src/cursor.ts:68-74 | The sort leaves a page alone exactly when it is already in the comparator's order. |
| `Ties.TakenOf` | packages/gateway/src/cursor.ts:75-86 | What is taken of a node's page is the front of that page put in order. |
| `Ties.PrefixesIffInOrder` | packages/gateway/src/cursor.ts:52-59 | What is taken of a page is always a prefix of it, at every limit, if and only if every node sends its page in the gateway's own order. |
| `Ties.TieLosesASandbox` | packages/server/src/e2b/control.ts:601-602 | The daemon orders by creation time only: two sandboxes born in one instant, and one is listed twice and the other never. |
| `NameCache.EvictAgrees` | packages/gateway/src/cache.ts:83-90 | For any entry: evicting it keeps the two maps in step if and only if the two maps' tests come out alike. |
| `NameCache.StaleEntrySplits` | packages/gateway/src/cache.ts:83-90 | A stale entry without a name removes the id and leaves the name. |
| `NameCache.PutInStep` | packages/gateway/src/cache.ts:38-63 | On maps in step a put is the plain list's put, and the maps stay in step and within the limit. |
| `NameCache.EvictEachSweeps` | packages/gateway/src/cache.ts:93-102 | The sweep of a node empties the list of exactly its entries, whatever the name map holds, and keeps maps in step. |
| `NameCache.NameCache.constructor` | packages/gateway/src/cache.ts:36 | An empty cache, its indexes in step. |
| `NameCache.NameCache.PutEntry` | packages/gateway/src/cache.ts:38-63 | What both maps become, in step or not; in step, the new entry last, everyone displaced by its id or its name gone, the oldest dropped past the limit, and still in step. |
| `NameCache.NameCache.EvictOldest` | packages/gateway/src/cache.ts:59-62 | The first of the list goes, by the two maps' own tests. |
| `NameCache.NameCache.GetByName` | packages/gateway/src/cache.ts:65-69 | What the name map answers, re-inserted at the recent end; in step that is the holder of the name, and they stay in step. |
| `NameCache.NameCache.GetById` | packages/gateway/src/cache.ts:71-75 | The same by id. |
| `NameCache.NameCache.Evict` | packages/gateway/src/cache.ts:83-90 | What each map becomes for any entry and any maps, and exactly when two maps in step stay so. |
| `NameCache.NameCache.EvictIfOn` | packages/gateway/src/cache.ts:95-100 | One turn of the sweep: the snapshot's entry is evicted if it is the node's. |
| `NameCache.NameCache.EvictNode` | packages/gateway/src/cache.ts:93-102 | Exactly the node's entries go from the list, order kept, their count answered; maps in step stay so. |
| `Recency.CallKeepsStep` | packages/gateway/src/cache.ts:31-102 | One call on maps in step leaves them in step if and only if it is not an unsafe evict, and then does to the list what it should. |
| `Recency.CacheIsLru` | packages/gateway/src/cache.ts:31-102 | After any history whose evicts were safe when made: both maps are views of the one list, ordered by last use, no id and no name twice, never longer than the limit. |
| `Recency.InStepIffSafe` | packages/gateway/src/cache.ts:83-90 | Over any history of calls: the maps are in step and within the limit all along if and only if every evict was safe when it was made. |
| `Recency.UnsafeEvictOutgrows` | packages/gateway/src/cache.ts:65-90 | What an unsafe evict leads to: a name whose id is gone answers again, and the cache holds more than its limit. |
| `Recency.PutLeaves` | packages/gateway/src/cache.ts:38-63 | After such a history a put leaves the new entry, nobody else under its id or name, and everyone else but, when full, the one used before all others. |
| `KeyedQueue.KeyedQueue.constructor` | packages/server/src/keyed-queue.ts:17-19 | An empty map of tails. |
| `KeyedQueue.KeyedQueue.Run` | packages/server/src/keyed-queue.ts:26-43 | The call is one step of the event machine: chained behind the key's tail or started at once, and the new tail stored. |
| `KeyedQueue.KeyedQueue.TryRun` | packages/server/src/keyed-queue.ts:52-60 | Skipped exactly when the key has a tail; otherwise a call. |
| `KeyedQueue.KeyedQueue.OnTailSettled` | packages/server/src/keyed-queue.ts:35-41 | The clean-up deletes the key only while its own tail is the one stored. |
| `KeyedQueue.AlwaysInv` | packages/server/src/keyed-queue.ts:17-61 | The queue's invariant holds after every legal sequence of calls, starts, settlements and clean-ups. |
| `KeyedQueue.OneAtATimeInOrder` | packages/server/src/keyed-queue.ts:21-34 | Of two tasks on one key, the later starts only when the earlier has settled: one at a time, in call order. |
| `KeyedQueue.TryRunsWhenFree` | packages/server/src/keyed-queue.ts:45-60 | tryRun runs only when no task of the key is unfinished. |
| `KeyedQueue.KeyMoves` | packages/server/src/keyed-queue.ts:21-41 | Whatever was rejected before it, an unfinished task always has a next step of its own key that is enabled. |
| `KeyedQueue.Drains` | packages/server/src/keyed-queue.ts:26-43 | Every step but a new call lowers the work left by one: the queue drains. |
| `KeyedQueue.KeysIndependent` | packages/server/src/keyed-queue.ts:14-15 | A step of one key neither enables nor disables a step of another. |
| `KeyedQueue.EmptyWhenQuiet` | packages/server/src/keyed-queue.ts:35-41 | Once every task has settled and been cleaned up, the map is empty. |
| `KeyedQueue.NestedCallWaits` | packages/server/src/keyed-queue.ts:27-34 | A task that waited and calls its own key as it starts has that call wait in turn. |
| `KeyedQueue.ReentryRunsTwoAtOnce` | packages/server/src/keyed-queue.ts:27-34 | After any interleaving: a call whose task calls its own key before its first await keeps the queue's order if and only if the key has a tail; without one two tasks run at once. |
| `Sandbox.Host.constructor` | packages/server/src/db/ledger.ts:65-98 | An empty host. |
| `Sandbox.Host.Perform` | packages/server/src/executor/executor.ts:404-478 | One executor or ledger call: taken, it changes that sandbox alone and is on the trace; refused, it changes nothing. |
| `Sandbox.Host.Take` | packages/server/src/lifecycle.ts:19-28 | One step of a verb: the host is what the program so far leaves, or the verb ends there. |
| `Lifecycle.FreezeSandbox` | packages/server/src/lifecycle.ts:38-45 | Exactly the freeze program, step by step, and success exactly when every step was taken. |
| `Lifecycle.StopSandbox` | packages/server/src/lifecycle.ts:47-56 | The same for stop. |
| `Lifecycle.DestroySandbox` | packages/server/src/lifecycle.ts:71-97 | Container and disk, then the row; an archived sandbox's object, then the row; of an archived one without a store it is refused and changes nothing. |
| `Lifecycle.RebuildSandbox` | packages/server/src/lifecycle.ts:151-163 | The shell goes, the disk stays, the row is stopped unless it was. |
| `Lifecycle.Awaken` | packages/server/src/lifecycle.ts:294-300 | The ledger side of a wake: the pause mark cleared, then active. |
| `Lifecycle.WakeCold` | packages/server/src/lifecycle.ts:240-277 | A stale shell is swapped, a matching frozen one resumed, a missing one built; then the row wakes. |
| `Lifecycle.WakeSandbox` | packages/server/src/lifecycle.ts:201-287 | Every arm of a wake, the death of an active shell recorded before the cold wake. Of an active sandbox whose shell is not dead it is nothing at all: success, and host and trace as they were; of an archived or restoring one it is refused and changes nothing. |
| `Lifecycle.CreateSandbox` | packages/server/src/routes/sandboxes.ts:241-266 | Creation: container and disk first, the row second. |
| `Lifecycle.ArchiveSandbox` | packages/server/src/archive/archiver.ts:190-215 | Exported, stored, the row archived, then the local copy freed; unless stopped, or without a store, it is refused and changes nothing. |
| `Lifecycle.ConfirmArchive` | packages/server/src/archive/archiver.ts:207-210 | The row confirms the upload before the local copy goes. |
| `Lifecycle.ColdWakeLeaves` | packages/server/src/lifecycle.ts:240-300 | Every wake of a frozen or stopped sandbox completes, disk and record of use untouched, on the shell it had if that was born of the image and limits in force (and of the 50 GiB layer cap when stopped), or else on a new one. |
| `Lifecycle.DeadWakeLeaves` | packages/server/src/lifecycle.ts:208-239 | A wake that finds the shell dead records how it died and leaves the sandbox awake as a stopped one's wake does. |
| `Lifecycle.RebuildLeaves` | packages/server/src/lifecycle.ts:151-163 | A rebuild of an active, frozen or stopped sandbox: the shell goes, the disk stays, the row is stopped. |
| `Lifecycle.FreezeStages` | packages/server/src/lifecycle.ts:38-45 | The shell is paused before the row says frozen; with no running shell neither happens, and it fails. |
| `Lifecycle.StopStages` | packages/server/src/lifecycle.ts:47-56 | The paused shell goes before the row says stopped, the disk stays; with no paused shell nothing happens, and it fails. |
| `Lifecycle.CreateStages` | packages/server/src/routes/sandboxes.ts:241-266 | A new shell and its disk stand before there is a row; the row comes second, active; over an existing container nothing happens. |
| `Lifecycle.DestroyStages` | packages/server/src/lifecycle.ts:93-97 | Container and disk go while the row stands, the row last; with neither there it is refused. |
| `Lifecycle.DestroyArchivedStages` | packages/server/src/lifecycle.ts:71-91 | The object goes while the row stands, the row last; without a store nothing. |
| `Lifecycle.ArchiveStages` | packages/server/src/archive/archiver.ts:190-215 | What stands after each step of an archive: the object before the row says archived, the local copy until after it does. |
| `Lifecycle.RestoreLeaves` | packages/server/src/archive/archiver.ts:288-350 | A restore ends on the disk, a new shell, an active row with no pause mark, and no object. |
| `Lifecycle.FailedRestoreLeaves` | packages/server/src/archive/archiver.ts:350-360 | However far it got, a restore that fails leaves the row archived again and the object where it was. |
| `Reconciler.RepairInSlot` | packages/server/src/reconciler.ts:204-282 | In the slot: every arm of the row repair, as a function of the row's state, the container as it is now and a disk listing that may be stale; and which counter it moves. |
| `Reconciler.NominatedHasRepair` | packages/server/src/reconciler.ts:236-244 | Whatever the listings nominate, over a still world, is repaired. |
| `Reconciler.RepairRow` | packages/server/src/reconciler.ts:204-282 | One row's turn: nominated by the listings, its slot tried, re-read, repaired; a failure recorded and the rest unaffected. |
| `Reconciler.RepairOrphan` | packages/server/src/reconciler.ts:284-314 | A sandbox no row claims: destroyed at startup or on its second strike, suspected on its first. |
| `Reconciler.RepairRows` | packages/server/src/reconciler.ts:204-282 | The first loop: every row dealt with, and the containers left over exactly those no row claims. |
| `Reconciler.RepairOrphans` | packages/server/src/reconciler.ts:284-314 | The other two loops, over containers and over disks. |
| `Reconciler.Reconcile` | packages/server/src/reconciler.ts:145-317 | One whole pass over a still world: every sandbox in reach becomes what the pass makes of it alone, one held or failing stays; counted exactly the changed ones, each for what its change was; a restore in progress left to its task and named nowhere; suspects exactly the first strikes of what no row claims. |
| `Reconciler.PassTaken` | packages/server/src/reconciler.ts:236-282 | Over a still world no repair is refused by the executor or the ledger. |
| `Reconciler.RestoringMeans` | packages/server/src/reconciler.ts:223-235 | A restoring row is untouched while its task lives, container or none; once it is dead its container says the state, and with none the disk goes and the row is archived. |
| `Reconciler.ArchivedMeans` | packages/server/src/reconciler.ts:209-222 | Of an archived row container and disk go, row and object stay. |
| `Reconciler.MissingMeans` | packages/server/src/reconciler.ts:236-256 | A row with no container is stopped if its disk is there and deleted if not. |
| `Reconciler.LiveMeans` | packages/server/src/reconciler.ts:277-282 | A row with a live container takes the container's state, and nothing else changes. |
| `Reconciler.ExitedMeans` | packages/server/src/reconciler.ts:257-277 | A stopped row's dead shell goes while the daemon runs and stays at startup; under any other row it is a death, recorded with its exit and cause, shell and disk kept. |
| `Reconciler.RowlessMeans` | packages/server/src/reconciler.ts:284-314 | What no row claims goes whole at startup or on its second strike; on its first it is left as it is and suspected. |
| `Reconciler.WorkIsChange` | packages/server/src/reconciler.ts:145-317 | A pass has work on a sandbox exactly when it changes it, and the counter it moves tells what the change was. |
| `Reconciler.CompleteMeans` | packages/server/src/reconciler.ts:145-317 | The same of a whole pass, id by id: in reach or not, counted, failed, or a live restore. |
| `Convergence.StartupSettles` | packages/server/src/reconciler.ts:204-314 | From any ledger and any reality one startup pass leaves every sandbox in step, and a second has nothing to do. |
| `Convergence.HealthyLeftAlone` | packages/server/src/reconciler.ts:236-244 | A runtime pass leaves alone a row in step with a live shell, or stopped without one. |
| `Convergence.DeathIsRecorded` | packages/server/src/reconciler.ts:264-276 | A shell that died under a row that ordered no stop: state and exit are recorded, shell and disk kept. |
| `Convergence.RuntimePassDescends` | packages/server/src/reconciler.ts:204-316 | A runtime pass strictly lowers a sandbox's distance, at most three, or there is nothing to repair and nothing to suspect. |
| `Convergence.SettleAtStartup` | packages/server/src/reconciler.ts:145-317 | The whole host: after one startup pass all rows say what their containers are; the next pass repairs, fails and suspects nothing. |
| `Convergence.SettleAtRuntime` | packages/server/src/reconciler.ts:145-317 | The whole host: after three runtime passes that thread their suspects, the fourth does nothing. |
| `Crash.VerbKeeps` | packages/server/src/lifecycle.ts:38-300 | Whatever shell is left over, every step any verb but destroy takes keeps the row and the latest data: on the disk, or in the archive the row claims. |
| `Crash.PassKeeps` | packages/server/src/reconciler.ts:204-314 | The exact guard of a pass: it keeps the row and its data if and only if the row is not restoring, with no restore alive, over a shell that has no disk. |
| `Crash.PassKeepsLatest` | packages/server/src/reconciler.ts:204-314 | The same of the latest data, for a pass whose repair fails after any number of steps. |
| `Crash.CutThenBoot` | packages/server/src/reconciler.ts:204-314 | Any verb cut after any number of steps, then a startup pass: row and container agree, nothing rowless is left; and unless the verb was destroy the latest data is kept if and only if the cut left no shell without a disk under a restoring row. |
| `Crash.DataSurvives` | packages/server/src/lifecycle.ts:38-300 | Over every run of writes, verbs that fail or finish, crashes at any step with boots that repair or fail, and passes that fail or finish: the row and the last thing written are there all along if and only if no pass repairs a restoring row over a shell without a disk. |
| `Crash.NoFailureNoLoss` | packages/server/src/lifecycle.ts:38-300 | With the daemon the only thing that goes down, whatever the run, nothing is ever lost. |
| `Crash.LeftoverShellLosesAll` | packages/server/src/reconciler.ts:223-234 | A run that loses a sandbox: an archive that cannot free its local copy, a restore refused for the disk left, a restore cut by a crash, and three passes. |
| `Crash.CutDestroyFinishes` | packages/server/src/lifecycle.ts:93-97 | A destroy cut once begun is finished by the next boot if and only if both steps were taken or the row was neither archived nor restoring; container and disk go either way, and a row that outlasts it is archived, its object kept only if it was restoring. |
| `Crash.CutArchivedDestroyStays` | packages/server/src/lifecycle.ts:80-91 | An archived sandbox's destroy cut after its object went, whatever was left over: no sequence of passes takes the row, its data is nowhere, and only another destroy ends it. |
| `PassMachine.StepKnows` | packages/server/src/reconciler.ts:153-314 | Each step of a pass does nothing to a living sandbox, and keeps what the pass knows of it, whatever ran in between. |
| `PassMachine.TurnEnters` | packages/server/src/reconciler.ts:190-244 | At a row's turn its slot is entered exactly when the name is free, the row still in the state read, and the listings contradict it, or it is archived with something left, or restoring with no task alive. |
| `PassMachine.LiveRestorePassedOver` | packages/server/src/reconciler.ts:223-227 | A restoring row whose task is alive at its turn is passed over, whatever was listed. |
| `PassMachine.RestoresEnteredDead` | packages/server/src/reconciler.ts:223-235 | In any run, whatever a pass does to a row it read as restoring follows a turn at which no task of it was alive and the row was still restoring, the slot held ever since. |
| `PassMachine.HeldRowMeans` | packages/server/src/reconciler.ts:209-235 | What the slot decides of an archived or restoring row from the container as it is now and a listing that may be stale. |
| `PassMachine.ClaimedRowMeans` | packages/server/src/reconciler.ts:236-282 | The same of any other row. |
| `PassMachine.PassPreserves` | packages/server/src/reconciler.ts:145-317 | Main theorem of a pass among other tasks: a sandbox alive when the ledger was read, and not deleted, archived or restored by others, loses no row, no disk and no live shell. |
| `PassMachine.PriorFrom` | packages/server/src/reconciler.ts:284-314 | Strikes come from the last pass that finished, and from sandboxes without a row when it read the ledger. |
| `PassMachine.OrphansStruckTwice` | packages/server/src/reconciler.ts:284-314 | What is destroyed as an orphan has no row now, had none when this pass read the ledger, and had none when the pass before did; of a container everything goes, of a bare disk the disk. |
| `PassMachine.DeletedRowsAreGone` | packages/server/src/reconciler.ts:245-252 | A row that is deleted has no container at that moment, is in the state that was read, and had no disk when the disks were listed. |
| `PassMachine.DeletesWhen` | packages/server/src/reconciler.ts:245-252 | The exact guard: in the slot a row neither archived nor restoring is deleted if and only if it has no container now and had no disk in the listing. |
| `PassMachine.StaleDeletesExactly` | packages/server/src/reconciler.ts:153-252 | Over every run: an inspection condemns a row whose disk exists if and only if it has no container and its disk was away when the disks were listed. |
| `PassMachine.StaleListingDeletesARow` | packages/server/src/reconciler.ts:153-159 | A run in which an archive before the disk listing and a restore after it cost a stopped sandbox its row while its disk exists. |
| `Scanner.MoveInSlot` | packages/server/src/scanner.ts:141-173 | In the slot: the deadline first, then one rung; what it leaves and whether it succeeded. |
| `Scanner.FirstTurn` | packages/server/src/scanner.ts:131-180 | A row's turn in the first phase; a busy name is skipped. |
| `Scanner.PhaseOne` | packages/server/src/scanner.ts:130-180 | The first loop: every cheap move made; the rows due for archive kept for the second. |
| `Scanner.SecondTurn` | packages/server/src/scanner.ts:184-203 | A row's turn in the second phase, re-verified: a killed or deadlined row is left. |
| `Scanner.ArchiveInSlot` | packages/server/src/scanner.ts:198-203 | The archive itself, counted on success and a failure otherwise. |
| `Scanner.ScanOnce` | packages/server/src/scanner.ts:109-212 | The two phases together: every sandbox is swept as if it were alone; counters and failures are exact. |
| `Scanner.MoveMeans` | packages/server/src/scanner.ts:17-75 | Exactly which verb a sweep owes a sandbox, from its state, its deadline and its idle time in milliseconds: a kill outranks all, a pause only freezes, a rung waits for its own seconds, archiving for a store, and a held name for another sweep. |
| `Cooling.MoveLeaves` | packages/server/src/scanner.ts:141-203 | What each verb leaves of any sandbox, in step or not, and that it succeeds exactly when it changed something. |
| `Cooling.SweepCounts` | packages/server/src/scanner.ts:109-212 | A sweep counts exactly the sandboxes it changed; those it meant to move and could not are its failures. |
| `Cooling.OneRungPerSweep` | packages/server/src/scanner.ts:44-75 | Any sweep, any sandbox: untouched, exactly one rung colder past its own threshold (or frozen by its deadline) with its data kept, or killed by an expired deadline that did not ask for a pause. |
| `Cooling.DeadlineKills` | packages/server/src/scanner.ts:29-42 | An expired deadline that asks for a kill is carried out from every state but restoring, and leaves nothing. |
| `Cooling.DeadlinePauses` | packages/server/src/scanner.ts:17-42 | An expired deadline that asks for a pause freezes an active sandbox however recently used, and kills nothing. |
| `Cooling.SweepDescends` | packages/server/src/scanner.ts:49-75 | A sandbox idle past all its thresholds comes down one rung per sweep until its policy's coldest, and stays. |
| `Cooling.CoolsToTheColdest` | packages/server/src/scanner.ts:109-212 | Over any sequence of sweeps: n rungs down or at the coldest the policy allows; three always get there; none moves it on. |
| `Cooling.SweepThrice` | packages/server/src/scanner.ts:109-212 | The whole host swept three times: every long-idle sandbox is on its coldest rung. |
| `Fleet.Fleet.constructor` | packages/gateway/src/fleet.ts:219-226 | A restarted gateway has the rows, and none of the last process's counters. |
| `Fleet.ReloadedMeans` | packages/gateway/src/fleet.ts:219-226 | Every row is there as it was written, with no placements counted. |
| `Fleet.Fleet.CheckIn` | packages/gateway/src/fleet.ts:337-405 | What a check-in makes of the fleet: joined, refused as a second machine, or everything the node said with its counters at zero. |
| `Fleet.SecondMachineRefused` | packages/gateway/src/fleet.ts:312-329 | A report of the same id from another address is refused for exactly the interval stated by the one before, and changes nothing. |
| `Fleet.TakenWhen` | packages/gateway/src/fleet.ts:312-360 | A check-in is refused only from another address within the interval last stated. |
| `Fleet.CheckedInMeans` | packages/gateway/src/fleet.ts:337-405 | A check-in taken puts everything it says on record, with no placements since; swap target, tell and every other node are untouched. |
| `Fleet.DownMeans` | packages/gateway/src/fleet.ts:93-102 | Down is never heard from, or silent for more than twice the stated interval. |
| `Fleet.Fleet.SetUpgradeTold` | packages/gateway/src/fleet.ts:416-428 | One node's tell, nothing else. |
| `Fleet.Fleet.Remove` | packages/gateway/src/fleet.ts:479-483 | The node goes; nothing else changes. |
| `Rolling.Rolling.OnCheckIn` | packages/gateway/src/rolling.ts:271-292 | A fulfilled or moot tell cleared, then the rule decides, then the tell is written: the fleet afterwards, and whether the node was told. |
| `Rolling.Rolling.ReceiveCheckIn` | packages/gateway/src/routes/nodes.ts:81-143 | A check-in as its route takes it: the report, then the verdict; exactly one event of a run, and the answer says whether it tells. |
| `Rolling.Rolling.Unstick` | packages/gateway/src/rolling.ts:305-343 | Exactly on a node told at least twenty minutes ago, still on that older build and building nothing, the tell is cleared and nothing else of any node changes; on any other nothing changes and it is refused. |
| `Rolling.Rolling.constructor` | packages/gateway/src/rolling.ts:255-259 | Holds the fleet and the gateway's build, nothing of its own. |
| `Rolling.StandingMeans` | packages/gateway/src/rolling.ts:115-227 | Upgrading, stuck and behind, each in closed form: an older build, and a young tell or a unit at work; a tell that ran out with none; no tell, heard from and able. |
| `Rolling.OtherStandings` | packages/gateway/src/rolling.ts:115-227 | The other five standings, each in closed form. |
| `Rolling.ClearsMeans` | packages/gateway/src/rolling.ts:271-286 | A node just heard from loses its tell exactly when it left the commit it was told on, or runs the gateway's build or a newer one. |
| `Rolling.ToldWhen` | packages/gateway/src/rolling.ts:235-248 | A node is told if and only if it is on an older build, heard from, able, idle and without a standing tell, and no other older node is building or freshly told. |
| `Rolling.TellReads` | packages/gateway/src/rolling.ts:164-198 | A tell that stands never reads behind and is not cleared, and while young reads upgrading, for every gateway build from then on. |
| `Rolling.CheckedInNode` | packages/gateway/src/rolling.ts:271-292 | What a check-in leaves of the node that checked in, and of nobody else. |
| `Rolling.NoOtherYoung` | packages/gateway/src/rolling.ts:235-248 | No tell is written while another member reads upgrading, so none while another's tell is young. |
| `Rolling.StepKeeps` | packages/gateway/src/rolling.ts:255-343 | Every check-in, unstick, removal and restart keeps the invariant. |
| `Rolling.OneAtATime` | packages/gateway/src/rolling.ts:164-292 | In every run that never takes the gateway back, no two members hold a standing tell younger than the timeout. |
| `Rolling.BeginsUntold` | packages/gateway/src/rolling.ts:38-51 | A fleet nobody has told anything satisfies the invariant. |
| `Rolling.ToldOnce` | packages/gateway/src/rolling.ts:19-60 | Between two tells to one member on one commit there is its removal, an unstick of it while stuck, or its check-in on another build or none. |
| `Rolling.BackInLine` | packages/gateway/src/rolling.ts:294-313 | After an unstick of a stuck node, whatever the others and the gateway do meanwhile, its next check-in taken on an older build, able and idle, is answered with a tell if and only if no other node on an older build is young or building. |
| `Rollout.TurnEffect` | packages/gateway/src/rolling.ts:271-292 | One turn: a told node lands, a node behind is told exactly when nobody else reads upgrading, and nothing else changes; nodes ahead or of unknown build are waited for by nobody. |
| `Rollout.TurnsNeverLose` | packages/gateway/src/rolling.ts:271-292 | Through any turns no node falls back, and each tell takes one node out of the untold. |
| `Rollout.RoundGains` | packages/gateway/src/rolling.ts:115-292 | A round in which every node checks in once, in any order, brings the fleet strictly closer until all are there. |
| `Rollout.RollCompletes` | packages/gateway/src/rolling.ts:115-292 | With m nodes behind, whatever else is in the fleet, any 2m rounds leave no node older than the gateway's build, with exactly m tells; all on it where told nodes land on it. |
| `Placement.PassesMeans` | packages/gateway/src/placement.ts:22-45 | Who passes the gates, in closed form: heard from, configured, below the CPU limit and the ceiling, above the disk floor; an unknown CPU or disk reading passes. |
| `Placement.RefusalMeans` | packages/gateway/src/placement.ts:79-123 | Each reason exactly when it is the first gate failed. |
| `Placement.ChosenMeans` | packages/gateway/src/placement.ts:124-136 | The choice in whole numbers, both directions: fewest active and placed per core, cross-multiplied, a node of no cores counting one; then most memory; then the lesser id. |
| `Placement.LexMeans` | packages/gateway/src/placement.ts:134 | The order of ids: the first place where two differ decides. |
| `Placement.ChosenUnique` | packages/gateway/src/placement.ts:131-136 | The choice does not depend on the order the nodes are looked at. |
| `Placement.Gate` | packages/gateway/src/placement.ts:72-130 | Each node refused exactly by the first gate it fails, with that reason, or a candidate with its load. |
| `Placement.First` | packages/gateway/src/placement.ts:131-136 | The least candidate: load per core, then most memory, then id. |
| `Placement.Pick` | packages/gateway/src/placement.ts:67-137 | The first in order of the nodes that pass; null if and only if every node refuses; refusals exact. |
| `Placement.Place` | packages/gateway/src/routes/create.ts:49-57 | The pick, counted against its node at once; nothing counted when there is none. |
| `Placement.ForwardCreate` | packages/gateway/src/routes/create.ts:109-151 | What each kind of answer makes of the counters and the cache, for a placement and for a wake. |
| `Placement.ForwardDestroy` | packages/gateway/src/routes/destroy.ts:32-51 | Only a 2xx forgets the entry and takes a placement of this interval off the count. |
| `Placement.AnsweredMeans` | packages/gateway/src/routes/create.ts:88-137 | By status: a 2xx keeps the placement and its id, 502, 503, 504 and silence keep everything, any other status takes it back, never below none. |
| `Placement.ForgottenMeans` | packages/gateway/src/routes/destroy.ts:40-48 | A destroy takes one off the count exactly for a sandbox placed since the last reading. |
| `Placement.PlaceBalances` | packages/gateway/src/placement.ts:67-137 | One more placement keeps the balance of those before it. |
| `Placement.BurstBalances` | packages/gateway/src/placement.ts:47-55 | After any burst, every node placed on was, before its last placement, no fuller per core than any node still open. |
| `Placement.BalancedCrosswise` | packages/gateway/src/placement.ts:47-55 | The same over whole numbers, cross-multiplied. |
| `Placement.NeverPastTheCeiling` | packages/gateway/src/placement.ts:109-115 | Through any placements, answers, destroys and check-ins, active plus the counter never passes the larger of the reading and the limit. |
| `Outstanding.EventCounts` | packages/gateway/src/routes/create.ts:132-138 | One event keeps the counter at the number of this interval's open placements if and only if it does not take an earlier interval's placement off it. |
| `Outstanding.CounterCounts` | packages/gateway/src/routes/create.ts:85-108 | Over every run the counter is the number of this interval's placements not refused or destroyed, all along, if and only if no placement of an earlier interval is refused late, or answered late and destroyed, while one of this interval stands. |
| `Outstanding.CounterNeverOver` | packages/gateway/src/routes/create.ts:85-108 | Over every run the counter is never more than them. |
| `Outstanding.OpenUnderCeiling` | packages/gateway/src/placement.ts:109-115 | In a run without such a late answer, what is active and what is truly on its way stay together within the larger of the reading and the limit. |
| `Outstanding.LateRefusalUncounts` | packages/gateway/src/routes/create.ts:134-138 | A run that shows it: two creates with a check-in between, the first refused late, and the counter reads 0 with one open. |
| `Finder.VerdictUnique` | packages/gateway/src/find.ts:14-27 | The answers leave room for one verdict only. |
| `Finder.Adjudicate` | packages/gateway/src/find.ts:141-181 | One, conflict, none or unsure, each exactly when it is due, with exactly the nodes it names. |
| `Finder.Finder.constructor` | packages/gateway/src/find.ts:42-48 | Holds the fleet and the cache. |
| `Finder.Finder.Consult` | packages/gateway/src/find.ts:109-122 | Up to the first await: an entry of a removed node is evicted, any other trusted or to be confirmed. |
| `Finder.Finder.Confirmed` | packages/gateway/src/find.ts:123-140 | After the cached node's answer, over a cache that may have moved on: settled, undecided, or the entry evicted; and exactly when that keeps the maps in step. |
| `Finder.Finder.Conclude` | packages/gateway/src/find.ts:141-182 | After every node's answer: the verdict, and a single finding cached. |
| `Finder.Finder.Find` | packages/gateway/src/find.ts:109-182 | A whole find with nothing run at its awaits: the cached entry trusted, confirmed or evicted, or the fleet asked, a node with no configuration copy heard by its reading (none held is a no, some held is silence); the verdict due, and what the cache learns. |
| `Finder.Finder.ByName` | packages/gateway/src/find.ts:63-69 | The same from a name, the hit counted as a use. |
| `Finder.Finder.ById` | packages/gateway/src/find.ts:71-73 | The same from an id, trusted without confirmation. |
| `Finder.Finder.Verify` | packages/gateway/src/find.ts:193-201 | Only a plain no, or the node's removal, evicts; silence, and a node with no configuration copy that holds sandboxes, keep the entry; and exactly when the evict keeps the maps in step. |
| `Finder.AdjudicatedFleet` | packages/gateway/src/find.ts:86-95 | The verdict over what the fleet is taken to say is the verdict told from its members and answers, and the other way round. |
| `Finder.UnseenIsNeverNowhere` | packages/gateway/src/find.ts:74-95 | While a member holds sandboxes and no configuration copy nothing is found nowhere: with no yes elsewhere the find is unsure and names it, and confirming an entry of its own keeps the entry. |
| `SingleHome.NowhereMeansNone` | packages/gateway/src/find.ts:157-181 | When every node has said no, one after another, inside the slot, the name has no home at all. |
| `SingleHome.NoConflict` | packages/gateway/src/find.ts:157-165 | Two nodes never both say yes to a lookup inside the slot. |
| `SingleHome.HeardTruthfully` | packages/gateway/src/find.ts:74-95 | What is heard of a node without asking it is true if and only if, last seen empty, it has neither the row nor a create on its way. |
| `SingleHome.FindMissesNoHome` | packages/gateway/src/find.ts:109-182 | A find in the slot over honest nodes, shut ones among them: no conflict, and a home there is is found or left undecided. |
| `SingleHome.StepKeeps` | packages/gateway/src/routes/create.ts:110-151 | Every step of creators, nodes and gateway keeps at most one home for the name. |
| `SingleHome.SingleHomeInEveryRun` | packages/gateway/src/find.ts:50-62 | In every run at most one node holds, builds or is being sent the name; no creator sees a conflict; a name with a home is found there or undecided, never placed anew. |
| `SingleHome.ConflictExactly` | packages/gateway/src/find.ts:109-165 | Over every run: a lookup outside the slot reports a conflict if and only if a node that said yes then dropped the name and another said yes after that; with no row dropped it never does. |
| `SingleHome.ConflictOutsideTheSlot` | packages/gateway/src/find.ts:109-165 | A run that shows it: a lookup outside the slot is told of a conflict though the name never had two homes. |
| `Swap.PlanSwap` | packages/server/src/swap.ts:62-84 | The loop computes the plan that `Swap.PlanOfIs` tells block by block: removals and activations in index order, the missing gap, the excess. |
| `Swap.PlanOfIs` | packages/server/src/swap.ts:51-84 | In index order: an inactive block with a size is activated if and only if the active total, those activated before it and its own size come to no more than the target, and is removed otherwise; an active one is left; the new block is exactly what is missing, the excess put off. |
| `Swap.SumActive` | packages/server/src/swap.ts:63-65 | The total of the active blocks. |
| `Swap.SwapManager.constructor` | packages/server/src/swap.ts:112-121 | An empty directory. |
| `Swap.SwapManager.RunAll` | packages/server/src/swap.ts:149-154 | Operations one after another. |
| `Swap.SwapManager.ReconcileNow` | packages/server/src/swap.ts:140-182 | Exactly the operations of a reconcile, in order: sweep, remove, mount, create; and the total answered is the total mounted. |
| `Swap.PlanSettles` | packages/server/src/swap.ts:62-84 | Removing and mounting what the plan names leaves exactly the active blocks and those that fit. |
| `Swap.SettledBlocks` | packages/server/src/swap.ts:51-61 | All of it active, every block that was active kept, none removed, and with the new block exactly the gap filled. |
| `Swap.NextIndexUnused` | packages/server/src/swap.ts:155-162 | The new block's index is above every block that is left. |
| `Swap.NextIndexIs` | packages/server/src/swap.ts:155-162 | It is one above the highest kept, or 0 with nothing kept. |
| `Swap.ReconcileLeaves` | packages/server/src/swap.ts:140-182 | A completed reconcile mounts exactly the larger of the target and what was mounted, leaves nothing inactive or unfinished and touches no active block. |
| `Swap.ReconcileSettles` | packages/server/src/swap.ts:140-182 | A second reconcile to the same target does nothing. |
| `Swap.CutKeeps` | packages/server/src/swap.ts:140-182 | However far a reconcile got, the directory is sound and every active block is there. |
| `Swap.NextReconcileSettles` | packages/server/src/swap.ts:51-61 | After any sequence of reconciles cut anywhere and reboots, the next completed one settles; exactly the target right after a reboot. |
| `Swap.RebootRestores` | packages/server/src/swap.ts:51-61 | After a reconcile that mounted exactly its target and a reboot, the next one to that target mounts every block again and deletes and builds nothing, if and only if no block first found active had no size. |
| `Swap.FilesBounded` | packages/server/src/swap.ts:140-182 | However far a reconcile got, its files never come to more than before it, what was mounted, or the target. |
| `LoginThrottle.LoginThrottle.constructor` | packages/gateway/src/login-throttle.ts:29-30 | No entries. |
| `LoginThrottle.LoginThrottle.RetryAfterSeconds` | packages/gateway/src/login-throttle.ts:33-41 | The wait left, rounded up; a forgotten entry answers 0 and goes. |
| `LoginThrottle.LoginThrottle.RecordFailure` | packages/gateway/src/login-throttle.ts:43-58 | Forgotten entries swept, the key's count and delay moved on. |
| `LoginThrottle.LoginThrottle.Clear` | packages/gateway/src/login-throttle.ts:60-62 | The key is forgotten. |
| `LoginThrottle.LoginThrottle.Sweep` | packages/gateway/src/login-throttle.ts:69-75 | Exactly the entries idle past the horizon go. |
| `LoginThrottle.DelayDoubles` | packages/gateway/src/login-throttle.ts:15-18 | The delay starts at one second, doubles with each failure, and stops at the cap. |
| `LoginThrottle.RecordedMeans` | packages/gateway/src/login-throttle.ts:43-58 | The count goes on from what stood within the hour, or from none; of the other keys exactly those that failed within the hour are left, as they were. |
| `LoginThrottle.WaitAfterFailure` | packages/gateway/src/login-throttle.ts:33-58 | One more failure costs nothing up to the fifth; past it a wait of exactly the delay, then the seconds left of it, then none. |
| `LoginThrottle.ForgettingIsInvisible` | packages/gateway/src/login-throttle.ts:64-75 | A sweep changes no key's answer, now or later. |
| `LoginThrottle.ForgettingLeavesNoTrace` | packages/gateway/src/login-throttle.ts:43-75 | Nor what any later failure records. |
| `LoginThrottle.FullDelay` | packages/gateway/src/login-throttle.ts:52-56 | From the fifteenth failure the delay is the cap. |
| `LoginThrottle.GuessingBound` | packages/gateway/src/login-throttle.ts:33-75 | A key that tries only when allowed and always fails gets at most 15 guesses and 15 more per hour of its window, whatever other keys do. |
| `Config.GatewayDb.constructor` | packages/gateway/src/db/settings.ts:59-62 | No row before the first start. |
| `Config.GatewayDb.EnsureSettings` | packages/gateway/src/db/settings.ts:59-87 | Seeded once; columns never set filled from the seed, counted as a change when any is. |
| `Config.GatewayDb.BumpConfigVersion` | packages/gateway/src/db/settings.ts:203-213 | The version one up, the content as it was. |
| `Config.GatewayDb.WriteSettings` | packages/gateway/src/db/settings.ts:224-265 | Each given group replaced whole, absent ones kept, the version up. |
| `Config.GatewayDb.RegisterTemplate` | packages/gateway/src/db/templates.ts:18-46 | Inserted or re-pointed under a new version; the same image again writes nothing. |
| `Config.GatewayDb.RemoveTemplate` | packages/gateway/src/db/templates.ts:57-64 | Removed under a new version; an unknown name writes nothing. |
| `Config.SeededMeans` | packages/gateway/src/db/settings.ts:59-87 | The first start takes the seed whole; later ones fill only what was never set of the two late columns, counted if anything was. |
| `Config.WrittenMeans` | packages/gateway/src/db/settings.ts:224-265 | Group by group: given replaces, absent keeps; registry and templates as they were; one version on, stamped. |
| `Config.RegisteredMeans` | packages/gateway/src/db/templates.ts:18-46 | The template is there with its image, born when it was; every other as it was; a version on unless nothing changed. |
| `Config.RemovedMeans` | packages/gateway/src/db/templates.ts:57-64 | That template gone and no other; a version on unless it was unknown. |
| `Config.GatewayDb.SetSwapGb` | packages/gateway/src/fleet.ts:467-476 | A node's target and the version move together; an unknown node moves neither. |
| `Config.CheckIn.constructor` | packages/server/src/check-in.ts:127-133 | The node starts from the copy it holds. |
| `Config.CheckIn.Once` | packages/server/src/check-in.ts:145-256 | A bundle is applied whole or not at all; anything else keeps the copy. |
| `Config.CheckIn.Stop` | packages/server/src/check-in.ts:139-142 | The node is closing. |
| `Config.CheckIn.UntilConfigured` | packages/server/src/check-in.ts:279-288 | Ends at the first reply that leaves a copy or at the stop, and not before; none is asked with a copy held or while closing. |
| `ConfigRuns.EveryWriteCounts` | packages/gateway/src/db/settings.ts:59-265 | No write takes the version back, and none changes the content under the same version. |
| `ConfigRuns.StartsRight` | packages/gateway/src/db/settings.ts:59-62 | A gateway just seeded, asked by nobody yet, is where runs begin: the invariant holds. |
| `ConfigRuns.StepKeeps` | packages/gateway/src/db/node-config.ts:14-34 | Every gateway write, check-in, arrival, loss, removal and restart keeps the meaning of every copy and every answer on its way. |
| `ConfigRuns.VersionMeansContent` | packages/gateway/src/db/node-config.ts:5-34 | In every run a copy of version v is exactly the settings and templates the gateway held at v, and for a node never removed its swap target at v. |
| `ConfigRuns.VersionsOnlyRise` | packages/server/src/check-in.ts:145-206 | In every run a node's version never goes down, and what a version meant is never rewritten. |
| `ConfigRuns.CheckInCatchesUp` | packages/gateway/src/routes/nodes.ts:144-169 | A check-in whose answer arrives and applies brings the node to what the gateway holds. |
| `ConfigRuns.CheckInMovesSwap` | packages/gateway/src/routes/nodes.ts:144-169 | In every reachable state a check-in brings a node to its swap target if and only if it had no copy, one of another version, or that target already. |
| `ConfigRuns.WrongOnlyIfRemoved` | packages/gateway/src/fleet.ts:478-483 | A copy of the current version with another swap target belongs to a node that was removed at some time. |
| `ConfigRuns.RemovedKeepsItsSwap` | packages/gateway/src/fleet.ts:478-483 | A run that shows it: a node removed and back runs an old swap target under the gateway's version. |
| `History.Fill` | packages/server/src/history.ts:78-81 | The map holds, for every bucket with a row, its last row. |
| `History.BucketLast` | packages/server/src/history.ts:73-83 | One point per bucket that has a row, its last row whole, strictly ascending. |
| `History.BucketedOnce` | packages/server/src/history.ts:65-72 | The rows leave room for one such answer only. |
| `History.BucketingAgain` | packages/server/src/history.ts:65-83 | Bucketing an answer again is the same answer. |
| `History.NarrowestWidth` | packages/server/src/history.ts:47-54 | Raw up to 360 rows; past that the least whole number of seconds that covers the window in 360 buckets. |
| `History.BucketMeans` | packages/server/src/history.ts:56-63 | A row is in bucket b exactly from the b-th multiple of the width after the start up to the next, also before the start. |
| `History.WidthCovers` | packages/server/src/history.ts:47-54 | The width chosen covers the window in MAX_POINTS buckets. |
| `History.PointsBounded` | packages/server/src/history.ts:43-83 | At most MAX_POINTS + 1 points, and at most MAX_POINTS unless a row sits on the window's end. |

## Left out

- Docker, S3, systemd, git, SQLite, DNS, TLS, sockets and HTTP forwarding: their effect is an atomic step, an answer or a parameter.
- Executor calls that fail halfway: a call fails without effect, and the verb or the repair ends there; a crash falls between two calls.
- Log lines, refusal sentences, warnings said once per change and the `CheckIn` timer: the decisions and their reasons are datatypes.
- Watchers, metrics samples, beats and progress callbacks in the verbs, the scanner and the reconciler.
- The result counters of reconcile and the scanner are the sets of sandboxes they count.
- The E2B faces of create and kill, unnamed creates and `bySignature`: they add no step to the name's protocol.
- Several names in one gateway run: `SingleHome` is one name's projection; names share only the placement counters.
- Zod parsing, rows that cannot be read back, and best-effort row writes that fail.
- Cursor.Compare: strings are ranks in one total order, so `localeCompare` and the order of ISO dates are taken as that order.
- Cursor.MergePages: node ids are numbers, and the base64 coding of the cursor is not modelled.
- Placement.First: only the first of the sorted candidates is read, so the rest of the in-place sort is not modelled.
- Placement.Pick: loads are exact quotients, where the source divides doubles.
- Placement.Gate: the refusals are a map, so their order in the message is not modelled.
- Finder.Finder.Find: the three parts joined with nothing else run at the awaits; `Consult`, `Confirmed` and `Conclude` say what each does over a cache that has moved on.
- Finder.Finder.ByName: the same, from a name.
- Finder.Finder.ById: the same, from an id.
- Finder.Adjudicate: the nodes of a conflict and of an unsure verdict are sets, so their order and endpoints are not modelled.
- Reconciler.Reconcile: rows and leftovers are taken in any order; the source takes them in the order listed.
- Lifecycle.WakeSandbox: a wake of an active row whose exit cannot be read returns as it is, with the reading of the exit part of the step that records it.
- Lifecycle.CreateSandbox: templates, disk sizes and the admission of a create are not modelled.
- Config.CheckIn.Once: the pids sweep, the swap reconcile and the image prefetch that follow an applied bundle are not modelled.
- Swap.SwapManager.ReconcileNow: block names are their numbers, so a name with leading zeros is not modelled, and `status` beside a reconcile is not.
- History.PointsBounded: dates are whole milliseconds and the width is exact, where the source divides doubles.
- `resolveWindow`, `sumReadings`, `encodeCursor`, `decodeCursor`, `refusalMessage`, the pids sweep, the disk grower and `doctor`: they would only add easy members.
