# Control plane: a verified model

The control plane keeps the configuration of a service mesh in an in-memory database, writes it
through to PostgreSQL, and lets one pod at a time do so: the pod named by the single row of an
election table, which holds it under a lease. This project models the parts of the Go code whose
correctness depends on more than one function, and proves what they keep.

| file | what it models |
|---|---|
| `Election.dfy` | the election table, its service, whole runs of contending nodes, the lease |
| `Lifecycle.dfy`, `Elector.dfy`, `Clustering.dfy` | a node's role, readiness and error stack; the election and prolongation loops, with the elector's own record aliased by the manager's current master |
| `Domain.dfy`, `FlushPlan.dfy`, `Flusher.dfy` | tables and relations, the statements a flush sends and their order, the flush behind its master check |
| `Repository.dfy` | the in-memory database of row objects, its transactions, payloads that write into stored rows, write-through, loading |
| `Fence.dfy` | election transactions interleaved with the steps of all pods' flushes, loads and writes into stored rows, and the repository's own methods as runs of those steps |
| `Snapshots.dfy` | backup and restore of the in-memory database |
| `RouteDuplicates.dfy`, `RouteRegex.dfy`, `PathVars.dfy`, `RegexpRewrite.dfy`, `Migration17.dfy`, `Strings.dfy` | data repairs: migrations 132, 18, 27, 21, the late insertion of 17, and the string functions they call |
| `TlsConfigs.dfy` | saving a TLS configuration with its many-to-many table |
| `Subscribers.dfy`, `EventBus.dfy`, `NodesCommunication.dfy` | the subscription cache, the bus aggregator's switching between master and slave, and the external subscriber that a role change connects to the master |
| `Common.dfy` | options, sequence, set and map facts |

`dafny verify dfyconfig.toml` checks everything.

## How the code is modelled

Go objects whose fields change are classes with the same fields; loops are loops; each method is
proved against a function of the old state, and the results are about that function: over one
step, over every run, over every interleaving. Failures of the surroundings (a statement, a read,
a commit, a callback, an initialisation) are inputs, so every error path is covered.

- A `WithTx` of the election service is one atomic step at one instant. A failed statement aborts
  its transaction. What other nodes do between two transactions of one call is an input
  (`others`), so it is arbitrary.
- The value a serial column would give is an input. A record with id 0 asks for it, any other id
  is written as it is. The namespace column may hold NULL, and comparing NULL selects nothing.
- The master check and the commit of a flush are two steps in `Fence.dfy`, because the check reads
  through a connection of its own. The database commits before memory does, in a step of its own,
  and every table of a load is read in a step of its own. No claim is made that no takeover falls
  between check and commit: there are theorems for runs in which none does and for runs under a
  lease that is kept, which has that effect, and one that shows what happens otherwise.
- The in-memory database stores pointers. A finder returns the stored row itself, so a payload is
  any sequence of saves and removals and of writes into rows it holds, published ones among them.
  Writes leave the primary key alone.
- Rows are keyed by their primary key; foreign keys and other columns are maps by column.
  Any failing statement stands for any constraint violation.
- A route key is the value of an injective function of what it is made from, in place of a SHA-256
  digest of JSON.
- An index order is a position for every key among the reals; any order of countably many keys
  has such positions.

## Results that differ from what one might expect

- The win flag of `TryWriteAsMaster` is set before the commit and survives its failure:
  `Election.ReportedWinIsReal` says that the reported win is real exactly when the commit
  succeeded. If reading the master back fails, the service dereferences nil (`Crashed`).
- `ShiftSyncClock` has no WHERE clause, so a prolongation by any node moves the holder's lease;
  the lease theorems count every node's.
- A win initialises nothing when its record equals the current master and the latest role change
  went through: because a repeated win compares the record with itself, or because the node has
  read its own row back before (`Lifecycle.WinIsSilentIff` gives the exact condition).
- A payload that writes into a row it has found changes published memory at once, and an aborted
  transaction does not take that back: the services do so, for example
  `control-plane/services/entity/cluster.go:57-60`. When the flush then fails, memory keeps the new
  value and the database the old one (`Fence.FailedFlushLeavesWrite`,
  `Repository.SavedButNotUndone`). Memory is as before a failure if and only if the writes undo
  themselves, and agrees with the database after a success if and only if every row left with
  another value is saved (`Repository.InMemRepo.WithWTxVal`). Over whole runs a loaded master holds
  the database but for the rows written and not saved since
  (`Fence.MasterHoldsDatabaseIff`, `Fence.DriftIsUnsaved`).
- A takeover between a pod's master check and its commit can leave a loaded master behind the
  database (`Fence.GapBreaksCoherence`).
- A snapshot loses the persisted HTTP and TLS details of health checks, and nothing else that is
  persisted (`Snapshots.PersistedPartLostIff`).
- Migration 132 can lose a route class when a prefix ends in two slashes
  (`RouteDuplicates.EveryClassHeldIff` gives the exact condition).
- Migration 21 cuts into its last reference when fewer than two letters follow the last wildcard
  (`RegexpRewrite.ReferencesSurviveIff`).
- `SaveTlsConfig` leaves wrong join rows after a rename or under a foreign id, and when it is given
  the stored object itself, whose listed groups it overwrites by the rows it has
  (`TlsConfigs.TlsRepository.SaveTlsConfig` gives the exact condition on the caller's list).
- The reference that migration 18 appends to a rewrite names the group it appends to the regexp
  only if there are as many capturing groups as old variables
  (`RouteRegex.AppendedReferenceNamesTrail` gives the exact condition).
- The size of the subscription cache goes wrong when what is removed was not there exactly once
  (`Subscribers.SizeAfterRemove`).
- A slave that was master in between calls the external subscriber for every handler a second time
  (`EventBus.ReturningSlaveSubscribesAgain`; `EventBus.SubscribedOnceIff` says when each handler has
  been passed once). These are calls: each is alive once, because the role change has shut the
  subscriber down first. A slave that changes its master without changing its part calls nothing,
  and none of its earlier handlers is alive on the new master, against the comment above
  `RestartEventBus` (`EventBus.AllAliveIff` gives the exact condition). A node that loses its master
  keeps running in the part it had (`EventBus.PartIsLastDecision`).
- Where documentation and code differ the model follows the code: the clustering diagram lets the
  placeholder row be inserted with a clock in the future, the code always inserts it an hour back;
  the flusher diagram sends all inserts before all updates, the code alternates table by table.

## Model

| member | source | states |
|---|---|---|
| Election.NodeInfoService.InsertRecordOutdated | control-plane/clustering/sql_service.go:49-55 | the placeholder row is appended, an hour old, one row affected |
| Election.NodeInfoService.InsertRecord | control-plane/clustering/sql_service.go:57-66 | the contender's row is appended with a lease of a minute and its own id unless that is zero |
| Election.NodeInfoService.DeleteAllRecords | control-plane/clustering/sql_service.go:68-74 | the table is empty, all rows affected |
| Election.NodeInfoService.DeleteNotInternalRecords | control-plane/clustering/sql_service.go:76-82 | exactly the rows named internal remain, in order |
| Election.OnlyInternalIsFilter | control-plane/clustering/sql_service.go:76-82 | a row survives if and only if it was there and is named internal |
| Election.OnlyInternalInOrder | control-plane/clustering/sql_service.go:76-82 | and the survivors keep their order |
| Election.NodeInfoService.UpdateMasterRecord | control-plane/clustering/sql_service.go:84-93 | row by row: one whose clock has passed, or that names another namespace, becomes the contender's under its old id, leased for a minute; every other one stays; the count returned is the number of the former |
| Election.NodeInfoService.ShiftSyncClock | control-plane/clustering/sql_service.go:95-102 | every row's clock is now plus the shift, or nothing changes when the transaction fails |
| Election.NodeInfoService.ResetSyncClock | control-plane/clustering/sql_service.go:104-111 | the clocks of the rows of that name, and no others, are now |
| Election.NodeInfoService.GetMaster | control-plane/clustering/sql_service.go:113-120 | a row with the least id, or an error exactly on an empty table or a failing read |
| Election.NodeInfoService.TryAddInternalRecord | control-plane/clustering/service.go:14-43 | commits the rebuild to one row, or leaves the table as it was |
| Election.NodeInfoService.DeleteSeveralRecordsFromDb | control-plane/clustering/service.go:73-95 | drop and rebuild are two transactions with any transactions of other nodes between them; a failed drop changes nothing |
| Election.NodeInfoService.UpdateAsMaster | control-plane/clustering/service.go:97-116 | written if and only if some row was suitable, an error if and only if more than one was |
| Election.SingleRowIsSuitableOrNot | control-plane/clustering/service.go:97-116 | on a table of one row the update affects one row if and only if the contender wins, so the branch for several rows is never reached |
| Election.NodeInfoService.RestoreElectionTable | control-plane/clustering/service.go:118-139 | the contender's row is added, to an empty table if erasing |
| Election.NodeInfoService.TryWriteAsMaster | control-plane/clustering/service.go:141-164 | lost if and only if a statement fails, or the table is one row whose clock has not passed and which names this namespace or none; crashed if and only if it has written and the read back finds nothing; otherwise the record carries the id of a row of the table |
| Election.NodeInfoService.Interleave | control-plane/clustering/service.go:141-164 | other nodes' transactions act as the run of steps they are |
| Election.WinnerOwnsTable | control-plane/clustering/service.go:141-164 | a committed win leaves one row, the caller's, leased for 60 seconds, under the id of the row it took, or else its own or a new one; a committed loss changes nothing |
| Election.WinsIff | control-plane/clustering/sql_service.go:84-93 | a contender wins if and only if there is not exactly one row, or that row's clock has passed, or it names another namespace |
| Election.TakenOverIff | control-plane/clustering/sql_service.go:84-93 | another contender replaces the holder of a single row if and only if the lease has expired or the row names another namespace, and otherwise changes nothing |
| Election.PlaceholderGivesWay | control-plane/clustering/service.go:14-43 | the row a rebuild leaves is the placeholder's, and a contender takes it unless it comes an hour or more before the rebuild |
| Election.ResetEndsLease | control-plane/clustering/sql_service.go:104-111 | a reset moves the clock of the node it names to now, so that the next later contender takes the row, and touches no other node's row |
| Election.ReportedWinIsReal | control-plane/clustering/service.go:141-164 | a reported win holds the table if and only if its commit succeeded |
| Election.OwnerChanges | control-plane/clustering/sql_service.go:84-93 | the row's owner changes if and only if another contender commits and the row's clock has passed or it names another namespace, and then to that contender; the row vanishes if and only if a start-up drops it |
| Election.RebuildLeavesOneRow | control-plane/clustering/service.go:14-43 | a committed rebuild leaves one row whatever it finds |
| Election.OtherStepsKeepTheCount | control-plane/clustering/service.go:73-95 | every other step keeps the number of rows, except a drop, which may lower it |
| Election.TableStabilises | control-plane/clustering/service.go:14-43 | from any table, after the first rebuild there is at most one row for ever, and none only between a drop and the next rebuild |
| Election.LeaseKept | control-plane/clustering/sql_service.go:84-102 | while every step of a quiet run comes no later than the deadline, the table is the holder's row with that deadline as its clock |
| Election.TakeoverIffPastDeadline | control-plane/clustering/sql_service.go:84-93 | the next contender is refused if and only if it comes no later than the deadline, and takes the row otherwise |
| Election.DeadlineCovers | control-plane/clustering/elector.go:8-12 | a moment within 30 seconds of a prolongation, or a minute of the win, is within the deadline |
| Election.LeaseRetention | control-plane/clustering/elector.go:105-126 | a holder whose prolongations are at most 30 seconds apart keeps its row in every interleaving of a quiet run |
| Lifecycle.NodeState.ChangeNodeState | control-plane/clustering/state.go:23-29 | role and master are set and readiness is lost; loaded data stays noted |
| Lifecycle.NodeState.SetMasterReady | control-plane/clustering/state.go:80-86 | ready and loaded, role unchanged |
| Lifecycle.FatalErrorStack.AppendFatal | control-plane/clustering/lifecycle.go:20-28 | the error is on top, unless it is a second init-master error |
| Lifecycle.FatalErrorStack.CleanFatalErrors | control-plane/clustering/lifecycle.go:49-54 | the stack is empty |
| Lifecycle.FatalErrorStack.HasInitMasterErrorInNode | control-plane/clustering/lifecycle.go:108-115 | true if and only if some entry is an init-master error |
| Lifecycle.FatalErrorStack.HasInitErrorInNode | control-plane/clustering/lifecycle.go:104-124 | true if and only if some entry is an init error |
| Lifecycle.FatalErrorStack.GetFatalErrorsExceptInitErrors | control-plane/clustering/lifecycle.go:36-47 | the entries that are not init errors, order kept; shorter if and only if there is an init error |
| Lifecycle.LifeCycleManager.RunCallbacks | control-plane/clustering/lifecycle.go:172-195 | callbacks run in order up to the first that fails, which is the result |
| Lifecycle.LifeCycleManager.InitAndNotify | control-plane/clustering/lifecycle.go:172-195 | initialisation only as master, and before any callback; the first error ends it and is the result |
| Lifecycle.LifeCycleManager.HandleNodeRoleChange | control-plane/clustering/lifecycle.go:172-195 | the whole role change on the manager's value, calls to the outside included |
| Lifecycle.LifeCycleManager.DefineNodeRole | control-plane/clustering/lifecycle.go:78-102 | the new value is that of one observation, also when the record observed is the very current master |
| Lifecycle.AppendedStaysUnique | control-plane/clustering/lifecycle.go:20-28 | there are never two init-master errors |
| Lifecycle.CallsAre | control-plane/clustering/lifecycle.go:172-195 | which calls a role change makes, one by one: the initialisation first if and only if the role is master, then the callbacks in order with the master's address and the role, up to the first that fails |
| Lifecycle.ObservationOutcome | control-plane/clustering/lifecycle.go:78-102 | over every run: a silent observation changes nothing but the record, any other leaves the role, readiness, loaded data and errors that its outcome asks for |
| Lifecycle.AppendOutcome | control-plane/clustering/lifecycle.go:20-28 | an error of another part of the program goes on top and changes nothing else |
| Lifecycle.InfoFollowsMaster | control-plane/clustering/state.go:23-29 | over every run the node state carries the address of the current master |
| Lifecycle.WinBreaksOffIff | control-plane/clustering/elector.go:78-103 | a win leaves an init error if and only if it calls something and that fails |
| Lifecycle.HandledIsSound | control-plane/clustering/lifecycle.go:172-195 | after a role change the node is ready if and only if it is master without init errors |
| Lifecycle.StepIsSound | control-plane/clustering/lifecycle.go:78-102 | one event keeps the invariant of runs |
| Lifecycle.RunIsSound | control-plane/clustering/lifecycle.go:78-102 | over every run: role fits the current master in spite of the overwritten id, master means exactly one of ready and init error, init error if and only if the last change was broken off |
| Lifecycle.RoleFollowsObservation | control-plane/clustering/lifecycle.go:78-102 | Phantom, Master or Slave according to the last observation, except for an initial node that sees the zero record |
| Lifecycle.EqualRecordRetriesIff | control-plane/clustering/lifecycle.go:93-100 | an observation equal to the current master, by a win or a read, repeats initialisation and callbacks if and only if the last change was broken off; otherwise only the record changes |
| Lifecycle.ObservationCalls | control-plane/clustering/lifecycle.go:78-102 | the exact calls of every observation over every run: none if it is silent, else one whole role change, into the role at hand when the record is equal |
| Lifecycle.WinIsSilentIff | control-plane/clustering/elector.go:78-103 | a win calls nothing if and only if the last change went through and the current master is the very same record or an equal copy read before; otherwise it initialises the master |
| Elector.Elector.ReportWin | control-plane/clustering/elector.go:78-103 | reporting the overwritten own record is one win event, and the record becomes the current master |
| Elector.Elector.ReportRead | control-plane/clustering/elector.go:78-103 | reporting a row that was read, or none, is one read event |
| Elector.Elector.RunOnce | control-plane/clustering/elector.go:78-103 | a pass is one event, and which ending it has: it waits if and only if the write fails or the table is one row whose lease lives on and which names this namespace or none; else it dies if and only if the read back finds nothing, sleeps if and only if the win calls something that fails, and prolongs in the remaining cases; the table afterwards is that of its own write and the other nodes' transactions; a waiting pass has observed a row of the table or none |
| Elector.Elector.Contend | control-plane/clustering/elector.go:78-103 | the node's own write: lost, crashed or won in exactly these cases, and what the table is then |
| Elector.Elector.Observe | control-plane/clustering/elector.go:92-99 | what is reported is a row of the table, or none if and only if the read fails or the table is empty |
| Elector.Elector.StartMasterProlongation | control-plane/clustering/elector.go:105-126 | never dereferences a nil master and leaves role and record alone; it stops at a round only if that falls back; after a full set of rounds the table is what the schedule of all transactions makes of it; with rounds at most 30 seconds apart after the win, and nothing failing, it goes through all of them and the row is still this node's, whatever other nodes do in a quiet run |
| Elector.Elector.Prolong | control-plane/clustering/elector.go:107-124 | a round prolongs every clock, or falls back because something fails or the least row is not this node's; falling back leaves the table as it was read, or as other nodes have it by then when the shift fails |
| Elector.Elector.ProlongAll | control-plane/clustering/elector.go:105-126 | the rounds up to the first that falls back, and why it does |
| Elector.RegularIsCovered | control-plane/clustering/elector.go:8-12 | rounds at most 30 seconds apart after the win make a schedule that is covered at every transaction, whoever executes it |
| Elector.RegularKeepsRow | control-plane/clustering/elector.go:105-126 | so the row is the holder's after every transaction of such a schedule |
| Domain.OrderListsEveryTable | control-plane/domain/table.go:37-66 | every table is in the relation order, at its rank |
| Domain.RankOfPlace | control-plane/domain/table.go:37-66 | and at no other place |
| Domain.OrderIsTopological | control-plane/domain/domain.go:51-296 | the parent of every primary-key relation comes before its child |
| Domain.RelationsAreLinks | control-plane/domain/domain.go:23-724 | the relations are exactly the pointer fields with a column of their own, joined on the primary key of the parent |
| FlushPlan.RunWrites | control-plane/constancy/flusher.go:43-68 | a pack of inserts or updates of one rank runs soundly from any front that has passed the ranks before, and leads to the front with its slots done |
| FlushPlan.RunDeletes | control-plane/constancy/flusher.go:69-74 | a pack of deletes of one rank runs soundly from any front that has passed the ranks after |
| FlushPlan.PickTargets | control-plane/constancy/flusher.go:30-62 | the statements of one kind and table cover each change of that kind and table once |
| FlushPlan.PickComesFrom | control-plane/constancy/flusher.go:43-68 | each of them is the statement of such a change |
| FlushPlan.ForwardedHasIntegrity | control-plane/constancy/flusher.go:43-68 | while inserts and updates run, every intermediate store satisfies all relations |
| FlushPlan.DeletingHasIntegrity | control-plane/constancy/flusher.go:69-74 | while deletes run, every intermediate store satisfies all relations |
| FlushPlan.ForwardRuns | control-plane/constancy/flusher.go:43-68 | inserts and updates of all tables in order lead to everything new in place, soundly at every statement |
| FlushPlan.BackwardRuns | control-plane/constancy/flusher.go:69-74 | deletes in reverse order lead to the target, soundly at every statement |
| FlushPlan.SoundAtEveryPrefix | control-plane/constancy/flusher.go:41-74 | a sound run satisfies all relations after each statement, and each statement affects one row |
| FlushPlan.PlanKeepsIntegrity | control-plane/constancy/flusher.go:41-74 | if the stores before and after a change set satisfy all relations, so does the store after every single statement of its flush, and at every statement an insert meets no row and an update or delete finds one |
| FlushPlan.PlanReachesTarget | control-plane/constancy/flusher.go:41-74 | the whole plan turns the store before into the store after |
| FlushPlan.PlanRuns | control-plane/constancy/flusher.go:41-74 | the same for any order that lists every table once |
| FlushPlan.PlanTakes | control-plane/constancy/flusher.go:41-74 | sent to a database with other values in the same slots, the plan puts right exactly the slots among the changes |
| FlushPlan.PlanReachesIff | control-plane/constancy/flusher.go:41-74 | it reaches the store after if and only if no slot outside the changes differs |
| FlushPlan.PlanIsSorted | control-plane/constancy/flusher.go:41-74 | every statement of a plan stands where it should: writes by rank and before deletes, inserts before updates within a table, deletes against the rank |
| FlushPlan.PlanIsOncePerChange | control-plane/constancy/flusher.go:30-74 | no two statements are about the same row, and a row has one if and only if some change is about it |
| Flusher.Stuck.Push | control-plane/constancy/flusher.go:110-112 | the pack is on top |
| Flusher.Stuck.Pop | control-plane/constancy/flusher.go:114-122 | the top pack is taken off, or none on an empty stack; what is taken and what is left unwind to what was there |
| Flusher.BatchStorage.Run | control-plane/constancy/batch.go:11-47 | one statement per entity in order; fails if and only if one of them does |
| Flusher.GroupByTable | control-plane/constancy/flusher.go:30-40 | the group of a table is its changes in order; a table without changes has none |
| Flusher.PickOfTable | control-plane/constancy/flusher.go:30-40 | picking from a table's group is picking from all changes |
| Flusher.Packs | control-plane/constancy/flusher.go:43-68 | the three packs are the inserts, updates and deletes of the group |
| Flusher.Flusher.SendTable | control-plane/constancy/flusher.go:43-68 | one table's inserts and updates are sent and its deletes pushed |
| Flusher.Flusher.SendPlan | control-plane/constancy/flusher.go:41-74 | the open transaction has run exactly the plan if and only if it takes that many statements |
| Flusher.Flusher.SendWrites | control-plane/constancy/flusher.go:43-68 | the first half of the plan is sent, and the stack will unwind to the second |
| Flusher.Flusher.SendDeletes | control-plane/constancy/flusher.go:69-74 | the stack is unwound in full, or up to the first failing statement |
| Flusher.Flusher.Flush | control-plane/constancy/flusher.go:25-100 | flushed if and only if the transaction opens, every statement comes through, the election table is one row with this pod's name and address, and the commit succeeds; a master error if and only if that one row is another's; then the database has run exactly the plan, otherwise it is as before |
| Repository.Txn.Insert | control-plane/ram/storage.go:134-155 | the row lies under its key, and the slot is tracked whether or not the row differs |
| Repository.Txn.Delete | control-plane/dao/generic.go:17-21 | the slot is empty, and tracked whether or not there was a row |
| Repository.Txn.DeleteTable | control-plane/ram/loader.go:130-142 | exactly the table's rows are gone |
| Repository.Txn.Changes | control-plane/dao/impl.go:69-84 | one change per slot, read from the row objects as they are by then, and none missing whose value differs; reported are exactly the tracked slots with a row before or after |
| Repository.InMemRepo.GetTxCtx | control-plane/dao/impl.go:36-44 | the surrounding transaction, or a fresh one of its own |
| Repository.InMemRepo.Perform | control-plane/dao/impl.go:36-50 | inside a transaction the operation lands in it; outside one nothing is ever published |
| Repository.InMemRepo.RunPayload | control-plane/dao/impl.go:69-76 | operations land in the transaction and are tracked, and every row holds what was written into it last, published ones included |
| Repository.InMemRepo.FlushAndCommit | control-plane/dao/impl.go:76-84 | the rows are published if and only if the flush succeeds |
| Repository.InMemRepo.WithWTxVal | control-plane/dao/impl.go:69-84 | it succeeds if and only if the payload does and the environment lets the flush of the net changes through; then, place by place, the published row is the one the last call to the place saved, none if that call removed it, and the old one if no call went there, and the database follows in the same terms; otherwise published rows and database are as before; writes into rows stay: after a failure memory is as before if and only if they undo themselves, and two stores that agreed do so after a success if and only if every row left with another value is saved |
| Repository.LastCallDecides | control-plane/dao/generic.go:17-28 | the last call to a place decides it: saved, it holds that row, removed, none; a place without a call is as it was |
| Repository.TakenFollows | control-plane/dao/impl.go:69-84 | and the database that takes over the saved and removed slots holds there what the saved row holds in the end, or nothing |
| Repository.SavedButNotUndone | control-plane/services/entity/cluster.go:57-64 | a row found, written with another value and saved: after a failure memory is not as before, after a success the database follows; not saved, it does not even then |
| Repository.SelectAll | control-plane/ram/loader.go:130-142 | every row of the table once, in some order |
| Repository.LoadEntity | control-plane/ram/loader.go:130-142 | the table's database rows are laid over the view |
| Repository.ClearTables | control-plane/ram/loader.go:158-176 | nothing is left in the view |
| Repository.LoadTables | control-plane/ram/loader.go:158-176 | the view holds every table as the database had it when that table was read, or the first failing table ends it |
| Repository.ClearAndLoad | control-plane/ram/loader.go:158-176 | memory is every table as it was when read, and the database of any one moment if and only if every table was read as that database has it; or it is as before, if and only if a table fails |
| Repository.LoadedIsDatabaseIff | control-plane/ram/loader.go:158-176 | what is loaded in several transactions is a given database if and only if each table was read as it has it |
| Fence.PhaseHasHistory | control-plane/constancy/flusher.go:25-100 | a pod past its check has begun, sent its whole plan and then passed the check, doing nothing else in between |
| Fence.FencedCommit | control-plane/constancy/flusher.go:43-100 | every commit has a check after its last statement at which the election table was one row naming the pod |
| Fence.AbsenceLasts | control-plane/clustering/service.go:141-164 | a pod without a row stays without one until it wins itself |
| Fence.TakeoverStopsCommits | control-plane/constancy/flusher.go:76-100 | after another pod's win before the check, no flush of the pod commits until it wins again, and its check fails whenever it comes |
| Fence.NamesOne | control-plane/constancy/pod_state_manager.go:16-30 | the check can pass for one pod only |
| Fence.ExecKeepsKeyed | control-plane/constancy/batch.go:11-47 | statements keep every row under its own key |
| Fence.StepKeepsWellFormed | control-plane/constancy/flusher.go:25-100 | no step separates a pending flush from the memory it was computed from; a loaded pod is named, and so is one counted as loading |
| Fence.StepKeepsCoherent | control-plane/dao/impl.go:69-84 | no step falsifies a loaded memory, with what is adrift undone, or what a load has read so far, while checked pods stay named |
| Fence.MasterMemoryIsDatabase | control-plane/dao/impl.go:69-84 | in every interleaving without a takeover between check and commit, a master that has loaded, table by table, since its election holds the database but for the rows written in place and not saved since, whatever fails; between the two commits of its flush it is about to |
| Fence.MasterHoldsDatabaseIff | control-plane/dao/impl.go:69-84 | outside its two commits it holds exactly the database if and only if each of these rows has its old value again |
| Fence.DriftIsUnsaved | control-plane/dao/generic.go:28-38 | over every run these rows are exactly those that some step has written and no published flush or load since has saved |
| Fence.LeasedIsGapless | control-plane/clustering/elector.go:105-126 | while the pod's lease is kept, no takeover falls between any check and its commit |
| Fence.LeasedMasterHoldsDatabaseIff | control-plane/dao/impl.go:69-84 | so under such a lease the same holds with no assumption about checks and commits |
| Fence.RoundsAreLeased | control-plane/clustering/elector.go:105-126 | rounds of the prolongation loop at most 30 seconds apart make such a lease |
| Fence.CommitKeepsCoherentIff | control-plane/constancy/flusher.go:76-86 | without that assumption a commit keeps the loaded memories and the loading views true if and only if the table still names the pod or the commit changes nothing that a loaded or loading pod has read |
| Fence.GapBreaksCoherence | control-plane/constancy/flusher.go:76-86 | whenever a checked plan changes something and another pod can win, that pod can win, load every table and miss the commit |
| Fence.LoadRunLoads | control-plane/ram/loader.go:158-176 | a load without any other step in between can happen and leaves exactly the database in memory; the pod counts as loaded if and only if it is named |
| Fence.FlushRunFlushes | control-plane/constancy/flusher.go:25-100 | a flush without any other step in between can happen in every environment; it changes both stores if and only if the environment lets it, else neither; what it saves is no longer adrift |
| Fence.FailedFlushLeavesWrite | control-plane/services/entity/cluster.go:57-64 | for every loaded pod, row, other value and failing environment: the pod finds the row, writes the value, saves it, and is left with it in memory and the old one in the database |
| Fence.Transact | control-plane/dao/impl.go:69-84 | a write transaction of the repository is such a run of its pod, its writes into published rows first: memory and database are afterwards what the run leaves, success is its commit, and stores that agreed do so afterwards if and only if every row left with another value is saved, or after a failure there is none |
| Fence.Reload | control-plane/ram/loader.go:158-176 | and so is a load by the repository |
| Snapshots.Row.MarshalPrepare | control-plane/domain/domain_marshalling.go:9-162 | the table's link fields become nil, and a health check's two details |
| Snapshots.PreparedIsStable | control-plane/domain/domain_marshalling.go:9-162 | preparing keeps key, foreign keys and place in the index, takes away exactly the table's link fields, and repeats without effect |
| Snapshots.PersistedPartLostIff | control-plane/domain/domain_marshalling.go:115-121 | persisted columns are lost if and only if a health check has HTTP or TLS details |
| Snapshots.LinkIsLostOrNot | control-plane/domain/domain_marshalling.go:9-162 | of all pointer fields of all tables exactly four are left by preparing |
| Snapshots.PreparedLinksAreFlat | control-plane/domain/domain_marshalling.go:9-162 | and what these lead to has no pointers, so a prepared row is free of cycles |
| Snapshots.IndexTellsApart | control-plane/ram/schema.go:323-343 | two rows share a place in the index if and only if they share the primary key, or, for header matchers, route and name |
| Snapshots.BackupListsInOrder | control-plane/ram/storage.go:170-409 | a backup lists every row of a table once, prepared, in ascending order of the keys |
| Snapshots.Next | control-plane/ram/storage.go:96-107 | an iteration takes the least key that is left |
| Snapshots.BackupTable | control-plane/ram/storage.go:170-409 | copies of the table's rows in index order, each prepared, the stored rows untouched |
| Snapshots.RamStorage.Backup | control-plane/ram/storage.go:170-409 | a list for every table, with the storage unchanged |
| Snapshots.RestoreTable | control-plane/ram/storage.go:411-651 | the list's copies over an emptied table, or over the rows not yet deleted where clearing failed |
| Snapshots.InsertRows | control-plane/ram/storage.go:411-651 | a copy of each listed row is put under its key in order, up to the first failing insert |
| Snapshots.RamStorage.RestoreTables | control-plane/ram/storage.go:411-651 | the tables gone through are restored, the others as before; fails if and only if an insert does |
| Snapshots.RamStorage.Restore | control-plane/ram/storage.go:411-651 | every table holds what the snapshot says, or nothing at all has changed |
| Snapshots.FilledIsOverlay | control-plane/ram/storage.go:411-651 | inserting the listed rows of a table lays that table over what was there |
| Snapshots.TableRoundTrip | control-plane/ram/storage.go:170-651 | refilling from a backup gives the prepared table if and only if no row is left that the source lacks |
| Snapshots.RestoreOfBackup | control-plane/ram/storage.go:170-651 | for any target: every table becomes the source's, prepared, if and only if clearing it left no key that the source lacks |
| Snapshots.SecondBackup | control-plane/ram/storage.go:170-409 | backing up what was restored gives the same lists again |
| RouteDuplicates.Database.RemoveDuplicateRoutes | control-plane/constancy/migration/00000000000132_route_duplicate_fix.go:63-128 | the table is that of the specified loop; the ids reported are exactly those removed, and their header matchers go with them; if the stored keys are the routes' own, then in terms of rows and matchers: what is left has lost at most one slash and nothing else, no two rows left agree in host, prefix, regexp, path, version and matchers, every row removed had another that is like it or becomes so, and every row before still stands without its slash unless one can swallow another |
| RouteDuplicates.MatcherIsSameIff | control-plane/constancy/migration/00000000000132_route_duplicate_fix.go:237-257 | the key takes two matchers for the same if and only if their seven plain columns agree and so do their ranges, or neither range has both ends |
| RouteDuplicates.AlikeIff | control-plane/constancy/migration/00000000000132_route_duplicate_fix.go:220-235 | two routes have one identity if and only if host, prefix, regexp, path, version and matchers agree column by column |
| RouteDuplicates.PlainIffTrimmed | control-plane/constancy/migration/00000000000132_route_duplicate_fix.go:80-84 | the prefix loses exactly one slash at its end, if it has one |
| RouteDuplicates.RemovedHadRival | control-plane/constancy/migration/00000000000132_route_duplicate_fix.go:88-111 | no route is removed unless another has, or gets, its identity or its class |
| RouteDuplicates.Database.Process | control-plane/constancy/migration/00000000000132_route_duplicate_fix.go:76-125 | one turn removes exactly the other rows of the class and saves the route in it |
| RouteDuplicates.RowsAre | control-plane/constancy/migration/00000000000132_route_duplicate_fix.go:63-128 | a row that is left is fixed if it has been looked at and untouched if not |
| RouteDuplicates.DuplicatesAre | control-plane/constancy/migration/00000000000132_route_duplicate_fix.go:88-94 | the SELECT by key finds exactly the other rows with that host, prefix and rest |
| RouteDuplicates.StepIs | control-plane/constancy/migration/00000000000132_route_duplicate_fix.go:76-125 | a step gives the route its class and removes exactly the rows that stood there |
| RouteDuplicates.SettledAreDistinct | control-plane/constancy/migration/00000000000132_route_duplicate_fix.go:63-128 | a route that has been looked at shares its identity with no other row |
| RouteDuplicates.FinalTable | control-plane/constancy/migration/00000000000132_route_duplicate_fix.go:63-128 | afterwards all rows are fixed, keys match, and no two share host and key |
| RouteDuplicates.PlainStaysHeld | control-plane/constancy/migration/00000000000132_route_duplicate_fix.go:63-128 | an identity without a trailing slash is held for ever |
| RouteDuplicates.SettledStays | control-plane/constancy/migration/00000000000132_route_duplicate_fix.go:63-128 | and so is one that a route has taken |
| RouteDuplicates.Waits | control-plane/constancy/migration/00000000000132_route_duplicate_fix.go:63-128 | a route ending in a slash survives until its turn unless a longer one exists |
| RouteDuplicates.SwallowedIsLost | control-plane/constancy/migration/00000000000132_route_duplicate_fix.go:63-128 | if the longer one comes first the class is lost for good |
| RouteDuplicates.EveryClassHeldIff | control-plane/constancy/migration/00000000000132_route_duplicate_fix.go:63-128 | every initial class is held afterwards for all orders of selection if and only if no route can swallow another |
| RouteDuplicates.OneSurvivorPerClass | control-plane/constancy/migration/00000000000132_route_duplicate_fix.go:63-128 | if no prefix ends in two slashes, exactly one remaining row holds each initial class |
| RouteRegex.Route.ProcessRegexp | control-plane/constancy/migration/00000000000018_route_regex_fix.go:210-232 | regexp and rewrite become the specified ones |
| RouteRegex.RewrittenRegexp | control-plane/constancy/migration/00000000000018_route_regex_fix.go:210-232 | without an old variable nothing changes; with some, the text between them is joined by the new variable, its last slashes cut off and the trail appended; an empty rewrite stays empty |
| RouteRegex.OnlySlashesAreTrimmed | control-plane/constancy/migration/00000000000018_route_regex_fix.go:219-229 | all slashes at the end are cut off, and nothing else |
| RouteRegex.DecimalIsRead | control-plane/constancy/migration/00000000000018_route_regex_fix.go:230 | a number is written in digits without a zero in front, and reading them gives it back |
| RouteRegex.DecimalsDiffer | control-plane/constancy/migration/00000000000018_route_regex_fix.go:230 | so different numbers are written differently |
| RouteRegex.NoOldVarLeft | control-plane/constancy/migration/00000000000018_route_regex_fix.go:210-232 | no old variable is left, neither in a replacement nor across its ends |
| RouteRegex.ProcessingIsIdempotent | control-plane/constancy/migration/00000000000018_route_regex_fix.go:210-232 | processing the whole route again changes nothing |
| RouteRegex.ReplacingIsNotRead | control-plane/constancy/migration/00000000000018_route_regex_fix.go:210-232 | replacing the old variables changes neither the number of capturing groups, escaped, non-capturing and bracketed parentheses told apart, nor where reading ends |
| RouteRegex.TrailIsGroupIff | control-plane/constancy/migration/00000000000018_route_regex_fix.go:210-232 | the appended trail is a group of its own if and only if a parenthesis opens one there |
| RouteRegex.AppendedReferenceNamesTrail | control-plane/constancy/migration/00000000000018_route_regex_fix.go:210-232 | the rewrite ends in the number of the group appended to the regexp, and there is one, if and only if the regexp has as many capturing groups as old variables and, slashes trimmed, does not end behind a backslash |
| RouteRegex.FirstAt | control-plane/constancy/migration/00000000000018_route_regex_fix.go:108-147 | a route is first if and only if nothing of its class stands before it, and every class has a first |
| RouteRegex.FirstOfHost | control-plane/constancy/migration/00000000000018_route_regex_fix.go:108-147 | grouping by host neither makes nor loses a first route |
| RouteRegex.ShadowedIffNotFirst | control-plane/constancy/migration/00000000000018_route_regex_fix.go:123-141 | a route is marked by a unique one if and only if it is not first |
| RouteRegex.GroupByHost | control-plane/constancy/migration/00000000000018_route_regex_fix.go:108-115 | each host's slice is its routes in order |
| RouteRegex.FindInHost | control-plane/constancy/migration/00000000000018_route_regex_fix.go:120-143 | unique are exactly the firsts, duplicates exactly the others, each once |
| RouteRegex.FindRouteDuplicates | control-plane/constancy/migration/00000000000018_route_regex_fix.go:108-147 | whatever order the hosts come in: a permutation of the input, unique routes pairwise different, every duplicate behind a unique route of its class |
| PathVars.RemoveOldStylePathVars | control-plane/constancy/migration/00000000000027_route_path_vars_fix.go:61-67 | every route is rewritten, also one listed twice |
| PathVars.NewStyleIsIdempotent | control-plane/constancy/migration/00000000000027_route_path_vars_fix.go:61-67 | no wildcard is left before the trail, and a second pass changes nothing |
| PathVars.NewStyleIs | control-plane/constancy/migration/00000000000027_route_path_vars_fix.go:61-67 | the trail aside, the text between the wildcards is joined by the new variable, and the trail follows |
| PathVars.BareSurvives | control-plane/constancy/migration/00000000000018_route_regex_fix.go:210-232 | migration 18 leaves a wildcard if and only if one stood outside an old variable |
| PathVars.MigratedIsFinalIff | control-plane/constancy/migration/00000000000027_route_path_vars_fix.go:61-67 | the output of migration 18 is a fixed point if and only if every wildcard stood inside an old variable |
| PathVars.ContainsRoute | control-plane/constancy/migration/00000000000027_route_path_vars_fix.go:77-86 | found if and only if some route agrees in all eight fields |
| PathVars.KnownInBucket | control-plane/constancy/migration/00000000000027_route_path_vars_fix.go:95-105 | searching the bucket of the regexp is searching everything |
| PathVars.SplitToUniqueAndDuplicates | control-plane/constancy/migration/00000000000027_route_path_vars_fix.go:72-108 | with the index: exactly the first-occurrence deduplication of the whole list, order kept |
| PathVars.NothingIsLost | control-plane/constancy/migration/00000000000027_route_path_vars_fix.go:72-108 | kept and dropped routes together are a permutation of the list |
| PathVars.KeptAreDifferent | control-plane/constancy/migration/00000000000027_route_path_vars_fix.go:72-108 | no two kept agree in the eight fields, and every route agrees with one that is kept |
| PathVars.FirstsAreKept | control-plane/constancy/migration/00000000000027_route_path_vars_fix.go:72-108 | of routes that are alike the first is kept and all others are dropped, both in the order of the list |
| RegexpRewrite.FixRouteRegexRewrite | control-plane/constancy/migration/00000000000021_route_regexp_rewrite_fix.go:58-64 | the loop of single replacements gives the rewrite specified in one sweep |
| RegexpRewrite.WildcardTakesTwo | control-plane/constancy/migration/00000000000021_route_regexp_rewrite_fix.go:34-57 | every text with a wildcard, and no other is passed, has the two letters that are cut off |
| RegexpRewrite.ReplaceNext | control-plane/constancy/migration/00000000000021_route_regexp_rewrite_fix.go:60-62 | replacing the first wildcard left numbers the next one of the original text |
| Strings.PiecesJoin | control-plane/constancy/migration/00000000000021_route_regexp_rewrite_fix.go:58-64 | the pieces of a text joined by the pattern are the text, and there is one more than occurrences counted |
| Strings.PiecesReplace | control-plane/constancy/migration/00000000000018_route_regex_fix.go:210-232 | replacing all occurrences is joining the pieces by the replacement |
| Strings.PiecesHoldNone | control-plane/constancy/migration/00000000000018_route_regex_fix.go:210-232 | and no piece holds an occurrence |
| RegexpRewrite.PiecesNumber | control-plane/constancy/migration/00000000000021_route_regexp_rewrite_fix.go:58-64 | renumbering is joining the pieces by references in order |
| RegexpRewrite.FixedHoldsNone | control-plane/constancy/migration/00000000000021_route_regexp_rewrite_fix.go:45-63 | no wildcard is left, so that another run passes the route over |
| RegexpRewrite.ReferencesSurviveIff | control-plane/constancy/migration/00000000000021_route_regexp_rewrite_fix.go:58-64 | the references survive the cut if and only if two letters follow the last wildcard |
| RegexpRewrite.BrokenFormIsRepaired | control-plane/constancy/migration/00000000000021_route_regexp_rewrite_fix.go:34-64 | on a rewrite ending in the first reference: the same pieces joined by the references in order, ending in the next |
| Migration17.MigrationStore.MoveUp | control-plane/constancy/fix/migration17.go:75-78 | the row moves to the next id, or is refused if and only if that is taken |
| Migration17.MigrationStore.ShiftUp | control-plane/constancy/fix/migration17.go:54-83 | succeeds if and only if all names are numbers and every migration after 17 has room above; then exactly those have moved |
| Migration17.ShiftMovesExactly | control-plane/constancy/fix/migration17.go:62-83 | afterwards every migration after 17 stands one id higher, every other one where it stood, and nothing else is there |
| Migration17.NotYetShifted | control-plane/constancy/fix/migration17.go:62-83 | at its turn a row is untouched and the place above it taken if and only if it has no room, so ids stay distinct after every update |
| Migration17.MigrationStore.CatchUp | control-plane/constancy/fix/migration17.go:93-100 | ends with the sequence at least one beyond the old greatest id, and no further than needed |
| Migration17.MigrationStore.WriteMigration17ToTable | control-plane/constancy/fix/migration17.go:54-102 | succeeds if and only if the shift does and leaves the new record's place free; otherwise table and sequence are as before; the sequence has passed every shifted id; on a table whose ids follow the numbers, with 18 and without 17, it succeeds, 17 takes the place of 18 and ids follow the numbers again |
| Migration17.OrderedTableIsRepairable | control-plane/constancy/fix/migration17.go:54-102 | with ids in the order of the numbers, 18 present and 17 not, the repair goes through |
| Migration17.RepairKeepsOrder | control-plane/constancy/fix/migration17.go:54-102 | and ids are in the order of the numbers again, 17 included |
| TlsConfigs.TlsRepository.FirstByName | control-plane/dao/tlsConfig.go:73-77 | an object of that name, or none if and only if there is none |
| TlsConfigs.TlsRepository.FindTlsConfigByName | control-plane/dao/tlsConfig.go:73-95 | the stored object itself, its list of groups overwritten by its rows, nothing else changed |
| TlsConfigs.TlsRepository.SaveTlsConfig | control-plane/dao/tlsConfig.go:17-71 | final id, configurations and join rows as specified; the rows of the final id are the caller's groups if and only if they were before, for the stored object itself, and the configurations reconcile, for any other |
| TlsConfigs.ReconcilesIff | control-plane/dao/tlsConfig.go:40-68 | the rows of the final id are exactly the listed groups if and only if a condition on id, name and existing rows holds; it always does under the stored id |
| TlsConfigs.OthersKeepTheirRows | control-plane/dao/tlsConfig.go:40-68 | no other configuration's rows change, but for one that gave its name to another id |
| Subscribers.Topic.RemoveSub | control-plane/event/bus/bus.go:119-130 | the in-place loop is the order-preserving filter, and the array beyond is untouched |
| Subscribers.WithoutCounts | control-plane/event/bus/bus.go:119-130 | every occurrence of the one goes and none of the others |
| Subscribers.WithoutByParts | control-plane/event/bus/bus.go:119-130 | a list is filtered part by part, so what is kept stays in its order |
| Subscribers.SubscribersCache.Add | control-plane/event/bus/bus.go:70-76 | one more at the end of the topic's list, one more in all; no topic is empty |
| Subscribers.SubscribersCache.Remove | control-plane/event/bus/bus.go:78-91 | all occurrences go, an emptied topic with them; a right size stays right if and only if there was one occurrence or no topic |
| Subscribers.SizeAfterRemove | control-plane/event/bus/bus.go:78-91 | taking one off the size is right if and only if exactly one was there or nothing is taken off |
| EventBus.EventBusAggregator.RestartEventBus | control-plane/event/bus/aggregator.go:52-66 | master and slave switch the part, any other role does nothing |
| EventBus.EventBusAggregator.StartAsMaster | control-plane/event/bus/aggregator.go:79-88 | only the flags change; the aggregator leaves the external subscriber alone |
| EventBus.EventBusAggregator.StartAsSlave | control-plane/event/bus/aggregator.go:90-101 | every cached handler is passed to the external subscriber, unless the node runs as slave already |
| EventBus.EventBusAggregator.ResubscribeOnNewMaster | control-plane/event/bus/aggregator.go:68-77 | the external subscriber is called for exactly the cached handlers as a multiset, in whatever order the cache is visited |
| EventBus.EventBusAggregator.Publish | control-plane/event/bus/aggregator.go:103-125 | internally in any role, externally only as master and only after the internal publisher took it |
| EventBus.EventBusAggregator.Subscribe | control-plane/event/bus/aggregator.go:127-139 | cached, internal once, external only as slave |
| EventBus.EventBusAggregator.Shutdown | control-plane/event/bus/aggregator.go:141-154 | the part ends and its external side is shut down, the internal publisher always |
| EventBus.ShutdownEnds | control-plane/event/bus/aggregator.go:141-154 | after a shutdown the bus has no part; a slave's subscriptions are dead, anybody else's as they were |
| EventBus.FailedPublish | control-plane/event/bus/aggregator.go:103-125 | an event refused inside goes nowhere, one refused outside is published inside only |
| EventBus.RunIsSound | control-plane/event/bus/aggregator.go:52-154 | over every run: never master and slave; cache and internal bus hold each handler exactly as often as it was subscribed; the external subscriber is active only while receiving |
| EventBus.SlaveHasBegun | control-plane/event/bus/aggregator.go:90-101 | every slave became one at some restart and has been one since |
| EventBus.EpisodeCalls | control-plane/event/bus/aggregator.go:68-101 | since a node became a slave the external subscriber has been called exactly once for each handler subscribed so far, on top of what had been called before |
| EventBus.SubscribedOnceIff | control-plane/event/bus/aggregator.go:68-101 | a slave's handlers have been passed on exactly once if and only if nothing had been before it became one |
| EventBus.NothingCalledIff | control-plane/event/bus/aggregator.go:68-101 | nothing had been if and only if the node had never been a slave that knew a handler |
| EventBus.AliveOnMaster | control-plane/lib/runner.go:251-257 | after a change of master the subscriber is connected to it, and what is missing there is exactly what the node had as a slave of the old one |
| EventBus.AllAliveIff | control-plane/event/bus/aggregator.go:50-101 | a slave's handlers are all alive on its current master, each as often as it was subscribed, if and only if the change of master came with a change of part or there was no handler yet |
| EventBus.PartIsLastDecision | control-plane/event/bus/aggregator.go:52-154 | the node runs as master or slave if and only if the last restart in either role or shutdown was that one |
| EventBus.PublishReachesOthersIff | control-plane/event/bus/aggregator.go:103-125 | an event reaches the other nodes if and only if the last decision was for master |
| EventBus.ReturningSlaveSubscribesAgain | control-plane/event/bus/aggregator.go:79-101 | slave, master, slave: every cached handler is passed on a second time and is alive once |
| NodesCommunication.GRPCBusSubscriber.Subscribe | control-plane/event/bus/grpcbus.go:285-291 | every call counts, and a subscription comes alive only on an active subscriber |
| NodesCommunication.GRPCBusSubscriber.Activate | control-plane/event/bus/grpcbus.go:293-301 | takes the address, or is refused if and only if it is active, and then changes nothing |
| NodesCommunication.GRPCBusSubscriber.Shutdown | control-plane/event/bus/grpcbus.go:506-515 | an active subscriber loses every live subscription |
| NodesCommunication.Configurator.SetUpNodesCommunication | control-plane/com9n/configurator.go:44-84 | a slave is reconnected to the new master and a master disconnected; it fails if and only if a slave gets no snapshot |
| NodesCommunication.ConnectedIsCoupled | control-plane/com9n/receiver.go:33-71 | a role change keeps the subscriber active only while receiving; it connects a slave to the new master with nothing alive yet, unless the snapshot fails, disconnects a master, and leaves any other role alone |

## Left out

- Fence.MasterMemoryIsDatabase: assumes that no takeover falls between a check and its commit, which the code does not exclude; `Fence.LeasedMasterHoldsDatabaseIff` does without, under a lease that is kept, and `Fence.CommitKeepsCoherentIff` and `Fence.GapBreaksCoherence` say what happens otherwise.
- Fence.DriftIsUnsaved: no row is written between the first statement of its pod's flush and the end of it; writes by other goroutines at that moment race with the flush in the code.
- Repository.InMemRepo.RunPayload: a write leaves the primary key alone, so that a row stays in its place; pointers between rows are no part of a row's value.
- Repository.InMemRepo.WithWTxVal: `header_matchers` is keyed by route and name in memory and by id in the database; the theorem takes one key per row, so it covers that table only while ids are not exchanged between rows of one route and name.
- FlushPlan.PlanKeepsIntegrity: relations that are not joined on the parent's primary key (rate limit by name, Lua filter by name) are not among the relations; the rate limit table comes after its referrers in the order.
- Election.LeaseRetention: says nothing about runs with a node start-up, a reset of the holder or a contender of another namespace, because the code lets each of them end the lease.
- Subscribers.SubscribersCache.Remove: the lists of the cache are values here; the in-place filter is proved on an array of its own, so a reader that still holds the old slice while it is filtered is not modelled.
- Subscribers.SubscribersCache.Add: the 32-bit size and its non-atomic increment under concurrent calls on different topics are not modelled.
- Migration17.MigrationStore.WriteMigration17ToTable: ids are unbounded; a record without a place (18 absent) asks the id column for a value, as the ORM does for a zero id; failures of the sequence itself are not modelled.
- TlsConfigs.TlsRepository.SaveTlsConfig: node groups are names, and every join row's node group is taken to exist, since the code dereferences the group it looks up; with several stored objects of one name any of them may be found.
- RegexpRewrite.FixRouteRegexRewrite: requires two letters, because on fewer the code slices out of range; its only caller passes texts with a wildcard.
- Elector.Elector.StartMasterProlongation: the row is kept for the default shift of 30 seconds, in runs without a start-up, a reset of the holder or a contender of another namespace, which may end the lease.
- Elector.Elector.RunOnce: sleeping, tickers and the stop flag are not modelled, only what a pass does to table and manager.
- RouteRegex.AppendedReferenceNamesTrail: requires that no old variable begins inside a character class; `\Q...\E` quoting and POSIX classes are read as ordinary letters.
- NodesCommunication.Configurator.SetUpNodesCommunication: the sender that a role change starts or stops, and with it a master's own failure, is not modelled; the receiver's own subscription is not counted; its goroutine, its channels and the waiting for a snapshot are not modelled.
- Fence.Transact: the run and the transaction are compared for an election table that does not change meanwhile.
- Lifecycle.LifeCycleManager.AddOnRoleChanged: callbacks are a number and an outcome; what they do is not modelled.
- In-memory database internals: secondary indexes, watch channels and snapshots of the radix tree; a table is a map.
- PostgreSQL: parsing, isolation levels and locks; a committed transaction is one step.
- Standby mode of the flush beyond the fact that it writes nothing.
- Concurrency inside a node: role state, error stack and bus are used sequentially here.
- `Clear`, `Save`, the finders, read transactions, entity clones and null types: easy members.
- The SELECT, UPDATE and DELETE statements around the loops of migrations 18, 21 and 27, and the deletion of config server routes in migration 132.
- SHA-256 and JSON: a route key is an injective function of its parts.
- 32-bit wrap-around of ids and versions, and the duration arithmetic of the driver.
- Bus transports, gRPC, serf, web sockets, proxy, controllers, Envoy configuration builders, certificates, database provider.
