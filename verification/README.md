# Assessment engine: verified model

A Dafny model of the parts of the assessment engine that hold its state machines, its one concurrent
protocol and its sizing arithmetic, with proofs about every run and every input.  `dafny verify
dfyconfig.toml` checks the whole project.

How it is laid out, component by component:

- **Report jobs.**  `job_table.dfy` is the `diagnostic_jobs` table as a state machine: one atomic event per
  SQL statement, rows of open transactions kept apart, any interleaving of web requests and workers.
  `diagnostic_sql.dfy` and `diagnostic_service.dfy` are the repository and service objects over it, with
  other sessions' statements in every gap.  `report_worker.dfy` adds the workers and calls that may raise
  although they were committed.
- **Ingest.**  `collect_store.dfy` holds the inventory, its history and the seven time-series tables;
  `metrics_ingest.dfy`, `metric_rows.dfy` and `inventory_history.dfy` say what they contain after any sequence
  of committed writes.  `collect_sql.dfy` is the repository inside one transaction, `consumer_handlers.dfy`
  the bounded retry, `consumer_run.dfy` whole runs of deliveries behind the Redis gate.
- **Install tasks.**  `task_table.dfy` is the `tasks` table with the broker's messages, `install_tasks.dfy`
  the issuing request, `task_lifecycle.dfy` the result policy, result handling and the reaper.
- **Right-sizing.**  `recommendation.dfy` and `host_rollup.dfy` are the verdict kernel, `mount_capacity.dfy`
  the per-mount SQL arithmetic and its verdict, `sizing.dfy` the API axes made of both.  `verdict_sizes.dfy` and
  `host_verdict.dfy` tell sizes, status, cause and symptoms from the raw statistics.
- **Snapshots and services.**  `serialization.dfy`, `snapshot_tolerance.dfy` and `report_serializer.dfy` store
  and restore report view models; `report_types.dfy` checks that against the declarations, `stored_dicts.dfy`
  for older and damaged dicts.  `service_classifier.dfy` and `service_workloads.dfy` classify sockets and units
  by the rules stated in `classifier_rules.dfy`; `service_order.dfy` and `service_stability.dfy` say when the
  order of the sockets matters.  `sorting.dfy` is Python's stable sort, `wrappers.dfy` the option type.

Conventions.  Code that changes rows, fields or local collections is a class or a method with loops, proved
against a specification function; the theorems are lemmas about those functions.  Inputs the code does not
control (what other sessions do, whether a call raised after taking effect, Redis replies, clocks, drawn ids)
are parameters ranging over everything.  An event or step whose precondition does not hold changes nothing,
so theorems quantify over every sequence.  Floats and SQL numerics are reals, `None` and NULL are `Option`.

Results that differ from what the code's comments say, or that bound what it promises:

- `mark_succeeded` and `mark_failed` have no status guard; exactly one terminal write per job needs two
  assumptions, and without either one a second write is possible from every good state.
- The Redis gate is not exactly-once: while the key lives, a message is committed exactly when its first
  delivery past the gate committed it, so a rejected or cancelled delivery loses it.
- An inventory retried after a lost acknowledgement puts an older snapshot back exactly when the agent's last
  inventory in between is another one.
- Inventories are compared with the row their transaction read, not with the row they overwrite.  Two handlers
  of one agent can leave a last history row whose columns are not the current ones, exactly when an upsert finds
  its columns in an outdated row while the current row has others.
- A task message outlives its row exactly when the publish raised after delivering or the commit after it had
  no effect, and a result with the free status "pending" reopens a finished task exactly when its slot is free.
- A result that arrives before its task is committed is dropped, and the task times out.
- Socket detection depends on the order of the sockets exactly when entries of one (proto, port) belong to
  different categories; when the category of a unit and its ports do has an exact condition too.
- A mount with negative free space and no trend may still be filling after its recommended expansion.
- Host severity is monotone in load except from an "optimal" host whose memory peak was measured as 0.
- The disk saturation index says "saturated" at an await of exactly 20 ms, where the verdict does not.
- A memory axis on a host reporting 0 MB in total is "increase" to the same size.
- Subnet gateways and non-empty workload donuts do not survive a snapshot, nor does any field a restorer with
  named arguments does not name.
- The table's own comment says a conflicting insert raises and is caught; the repository uses ON CONFLICT DO
  NOTHING, which is what is modelled.

## Model

| member | source | states |
|---|---|---|
| JobTable.AtMostOneActive | src/assessment_engine/db/models/diagnostic_job.py:23-32 | in every reachable state at most one pending or running job exists per (scope, input_hash, job_type) |
| JobTable.AfterInv | src/assessment_engine/db/repositories/diagnostic_sql.py:22-126 | every interleaving of enqueue, emit, claim, finish, fail, recover, retention, commit and rollback keeps the slots exclusive, in-flight rows included, and every row well formed |
| JobTable.FieldsFollowStatus | src/assessment_engine/db/repositories/diagnostic_sql.py:22-44 | pending rows have no times and stage queued or requeued, running rows a start and no finish, terminal rows a finish and no stage |
| JobTable.TerminalIsNeverLeft | src/assessment_engine/db/repositories/diagnostic_sql.py:71-126 | from its first terminal status on, a job is terminal as long as its row exists, whatever late writers and recoveries do |
| JobTable.RetentionDeletesExactlyOldTerminal | src/assessment_engine/db/repositories/diagnostic_sql.py:160-162 | retention deletes exactly the rows finished before the cutoff, and those are terminal |
| JobTable.RecoveryRequeuesExactlyStale | src/assessment_engine/db/repositories/diagnostic_sql.py:117-126 | after any run a recovery changes a row exactly when it is running and started before now minus the stale seconds, and puts it back pending, requeued and without a start |
| JobTable.ClaimLasts | src/assessment_engine/db/repositories/diagnostic_sql.py:117-126 | a claimed job keeps running through any events that neither finish it nor recover within its time |
| JobTable.ClaimsMatchRecoveries | src/assessment_engine/db/repositories/diagnostic_sql.py:84-126 | over any run, claims equal recoveries while pending, exceed them by one while running, and by at most one once terminal |
| JobTable.NoTwoClaimsWithoutRecovery | src/assessment_engine/db/repositories/diagnostic_sql.py:84-102 | two claims never return the same job without a recovery of it in between |
| DiagnosticSql.DiagnosticRepository.Enqueue | src/assessment_engine/db/repositories/diagnostic_sql.py:22-44 | inserts a queued row in flight exactly when neither an active nor an in-flight row holds the key, else changes nothing |
| DiagnosticSql.DiagnosticRepository.GetActiveByHash | src/assessment_engine/db/repositories/diagnostic_sql.py:46-63 | returns the one committed active row of the key, None exactly when there is none |
| DiagnosticSql.DiagnosticRepository.ClaimNextPending | src/assessment_engine/db/repositories/diagnostic_sql.py:84-102 | claims an oldest unlocked pending row and nothing else; None exactly when every pending row is locked |
| DiagnosticSql.DiagnosticRepository.MarkSucceeded | src/assessment_engine/db/repositories/diagnostic_sql.py:71-82 | writes the row succeeded whatever its status was, and changes nothing for a missing id |
| DiagnosticSql.DiagnosticRepository.MarkFailed | src/assessment_engine/db/repositories/diagnostic_sql.py:104-115 | writes the row failed whatever its status was, and changes nothing for a missing id |
| DiagnosticSql.DiagnosticRepository.RecoverStaleRunning | src/assessment_engine/db/repositories/diagnostic_sql.py:117-126 | requeues exactly the running rows started before now minus the stale seconds, told in their columns, and returns their number |
| DiagnosticSql.DiagnosticRepository.DeleteRetention | src/assessment_engine/db/repositories/diagnostic_sql.py:160-162 | removes exactly the expired rows and returns their number |
| DiagnosticService.ParamsIdentifyRequest | src/assessment_engine/web/services/diagnostic_service.py:41-57 | two requests build the same parameters exactly when their fields agree and their server ids are permutations of each other |
| DiagnosticService.KeyForgetsServerOrder | src/assessment_engine/web/services/diagnostic_service.py:41-57 | permuting the server ids of a request leaves its key unchanged |
| DiagnosticService.KeyCarriesRequest | src/assessment_engine/web/services/diagnostic_service.py:41-57 | the key holds the scope, the report type of the view, and the hash over scope, view, sorted server ids, range, anchor and a lone server of scope "server" |
| DiagnosticService.KeyIdentifiesRequest | src/assessment_engine/web/services/diagnostic_service.py:164-180 | with a collision-free hash two requests share a slot exactly when they agree up to the order of the servers |
| DiagnosticService.Service.EnqueueReport | src/assessment_engine/web/services/diagnostic_service.py:164-207 | returns a job of the requested key that was active at an instant during the call, which is a new pending row with the request's own columns exactly when the slot was free at its INSERT; a second round or the error come only after rounds that conflicted on INSERT and found nothing on SELECT; leaves no open row behind |
| DiagnosticService.Service.EnqueueRound | src/assessment_engine/web/services/diagnostic_service.py:181-206 | one round under arbitrary interference: a new row exactly when the slot is free at its INSERT, else an active job of the key, or a conflict and no active row at its SELECT |
| DiagnosticService.Service.EmitReport | src/assessment_engine/web/services/diagnostic_service.py:111-162 | inserts and succeeds in one transaction exactly when the slot is free, so nobody ever reads the emitted row in an active status; on a conflict returns the active job of the key, None exactly when there is none |
| ReportWorker.ExactlyOneTerminalWrite | src/assessment_engine/worker/report_worker.py:32-92 | if recoveries only hit stopped claimers and a raising finish did not commit, each terminal job had exactly one terminal write and carries a result or an error message, never both |
| ReportWorker.OneClaimerPerJob | src/assessment_engine/worker/report_worker.py:54-92 | under the same assumptions two workers never hold the same job |
| ReportWorker.UnsafeActionCanWriteTwice | src/assessment_engine/worker/report_worker.py:32-51 | each assumption is necessary: from every good state, an action that breaks one opens a run that writes a job twice |
| ReportWorker.LostAcknowledgementExample | src/assessment_engine/worker/report_worker.py:38-51 | a run from the empty system, with one lost acknowledgement, ends failed with both a result and an error message after two terminal writes |
| ReportWorker.StaleRecoveryExample | src/assessment_engine/worker/report_worker.py:54-92 | a run from the empty system, with a recovery that takes a job from a worker still at work, has both workers finish it and keeps the slower result |
| ReportWorker.FleetRunsTheTable | src/assessment_engine/worker/report_worker.py:32-92 | whatever workers and calls do, the table is in a state its own statements lead to |
| ReportWorker.WebRunsFreely | src/assessment_engine/web/services/diagnostic_service.py:111-207 | every run of statements of the web process is possible next to the workers |
| ReportWorker.HeldUntilFinished | src/assessment_engine/worker/report_worker.py:77-92 | a worker keeps its job, whatever others do, until it finishes it, fails it or stops |
| ReportWorker.System.ProcessOne | src/assessment_engine/worker/report_worker.py:32-51 | what becomes of the row: a report that was stored makes it succeeded with that result, a refusal failed with its reason, a crash or a finish that raised failed with "internal error", and a call without effect leaves it; and which calls were made |
| ReportWorker.System.Turned | src/assessment_engine/worker/report_worker.py:77-92 | one turn claims an oldest unlocked pending job or none; when its calls return, the claimed row ends with the times of the turn and the result or message of its generation, and a claim that raised after committing leaves it running |
| ReportWorker.System.RunReportWorker | src/assessment_engine/worker/report_worker.py:54-92 | the exact calls of the whole loop: one recovery, then per turn an oldest unlocked pending job or none, processed only when its claim returned; every outcome is survived and the worker ends idle |
| CollectStore.ServerIdsAreDistinct | src/assessment_engine/db/repositories/collect_sql.py:139-282 | over any writes, agents have distinct server ids and history rows only known ones |
| CollectStore.ServerIdIsStable | src/assessment_engine/db/repositories/collect_sql.py:139-166 | a registered agent keeps its server id under every write |
| CollectStore.InventoryLeaves | src/assessment_engine/db/repositories/collect_sql.py:139-246 | what an inventory leaves behind: its agent's row under the old or the next id, and a history row exactly when a column or by more than 5 s the boot time differs from the row read and the instant is new |
| CollectStore.MetricsLeave | src/assessment_engine/db/repositories/collect_sql.py:248-282 | a metrics message registers an unknown agent with the placeholder and otherwise touches the metric tables only, each by its own insert |
| CollectSql.SqlCollectRepository.UpsertServer | src/assessment_engine/db/repositories/collect_sql.py:139-166 | with other commits between its SELECT and its upsert: replaces the row, keeps the id, and appends history exactly when the SELECT found no row or one that differs from the inventory |
| CollectSql.SqlCollectRepository.AppendInventoryHistory | src/assessment_engine/db/repositories/collect_sql.py:204-246 | appends the snapshot unless the server has one of that instant |
| CollectSql.SqlCollectRepository.EnsureServerId | src/assessment_engine/db/repositories/collect_sql.py:248-282 | with other commits between its statements it always finds or registers the agent, never gives up, and never overwrites an existing inventory |
| CollectSql.SqlCollectRepository.InsertChild | src/assessment_engine/db/repositories/collect_sql.py:394-416 | adds the rows of new keys only and returns the number of keys the statement brings that the table lacks |
| CollectSql.SqlCollectRepository.RecordMetrics | src/assessment_engine/db/repositories/collect_sql.py:369-392 | the seven inserts, each count being the number of keys the message brings that its table lacks; what rows and keys these are is said by MetricRows |
| MetricRows.RowsAreEntries | src/assessment_engine/db/repositories/collect_sql.py:369-416 | in all seven tables a message has one row per entry, with its columns, server and instant |
| MetricRows.KeysAgreeIff | src/assessment_engine/db/repositories/collect_sql.py:53-57 | two rows of a table share a key exactly when server, instant and identifying columns agree: device; interface; mountpoint; core; resource and scope; device, kind, class and member |
| MetricRows.NewInstantAddsEveryEntry | src/assessment_engine/db/repositories/collect_sql.py:394-416 | a message of a new instant adds exactly as many rows as it has distinct identifiers |
| MetricsIngest.TablesAreFirstWins | src/assessment_engine/db/repositories/collect_sql.py:369-416 | after any committed writes each table has one row per natural key, the one that arrived first, and no other |
| MetricsIngest.InsertIgnoreAddsNewKeys | src/assessment_engine/db/repositories/collect_sql.py:394-416 | an insert grows the table by exactly the keys it brings that the table lacks, however often it repeats them |
| MetricsIngest.RowCountsAddUp | src/assessment_engine/db/repositories/collect_sql.py:369-416 | the new keys counted write by write sum to the number of distinct keys that ever arrived, and to the table size |
| MetricsIngest.AbsentMemberIsEmptyMember | src/assessment_engine/db/repositories/collect_sql.py:384-391 | a disk error without a member and one with '' have the same natural key exactly when their other key columns agree |
| MetricsIngest.AbsorbedIsNoOp | src/assessment_engine/db/repositories/collect_sql.py:139-166 | applying a write that already took effect changes nothing at all |
| MetricsIngest.NoOpIff | src/assessment_engine/db/repositories/collect_sql.py:139-282 | applying a write changes nothing exactly when it is in effect already |
| MetricsIngest.StaysAbsorbed | src/assessment_engine/db/repositories/collect_sql.py:248-282 | every write but another inventory of the same agent leaves an applied write in effect |
| InventoryHistory.UnchangedMeans | src/assessment_engine/boot_time.py:29-39 | no change is reported exactly when all compared columns are equal and the boot times are both absent or within the tolerance |
| InventoryHistory.HistoryDriftIsBounded | src/assessment_engine/db/repositories/collect_sql.py:139-246 | for every agent without repeated instants whose upserts miss no change of the current row, however stale the rows they read, the last history row equals the current row but for a boot time drift of at most 5 s per upsert since it |
| InventoryHistory.ShowsColumnsIff | src/assessment_engine/db/repositories/collect_sql.py:139-166 | all along a run the history ends with the columns of the current row exactly when no upsert found the columns it brings in an outdated row while the current row had others |
| InventoryHistory.StaleReadHarmlessIff | src/assessment_engine/db/repositories/collect_sql.py:139-166 | an upsert that read an older row does the same as one that read the current row exactly when both rows answer the change test alike or the instant has its history row |
| InventoryHistory.FreshReadsMissNothing | src/assessment_engine/db/repositories/collect_sql.py:139-166 | when no inventory of the agent commits between the read and the upsert, no change is missed |
| InventoryHistory.StaleReadLosesHistory | src/assessment_engine/db/repositories/collect_sql.py:139-166 | two handlers that read the same row can leave a current row whose columns are not those of the last history row |
| InventoryHistory.RacedReadsAreReal | src/assessment_engine/db/repositories/collect_sql.py:139-166 | every read of that run is a row that was current at an earlier commit |
| InventoryHistory.TrailIsChronological | src/assessment_engine/db/repositories/collect_sql.py:204-246 | with increasing instants the history rows of every agent are in time order |
| InventoryHistory.DriftIsReached | src/assessment_engine/boot_time.py:29-39 | the bound is tight: n silent upserts can leave exactly n tolerances behind one history row |
| InventoryHistory.RepeatedInstantLosesHistory | src/assessment_engine/db/repositories/collect_sql.py:243-246 | with a repeated instant the current row changes while its history row is dropped |
| InventoryHistory.NoHistoryIff | src/assessment_engine/db/repositories/collect_sql.py:139-282 | a registered agent has no history row exactly when a metrics message registered it and every inventory since was unchanged from the row its transaction had read |
| ConsumerHandlers.DbRetry | src/assessment_engine/consumer/handlers/_common.py:148-178 | at most three attempts, every one before the last transient; the store is exactly what the committed attempts and the other handlers made of it |
| ConsumerHandlers.DbAttempt | src/assessment_engine/consumer/handlers/_common.py:136-145 | one session applies the whole write or nothing, with other commits before its SELECT and between that and its writes, and a metrics save returns its number of new keys per table |
| ConsumerHandlers.RetriedIff | src/assessment_engine/consumer/handlers/_common.py:100-132 | exactly timeouts, operational and interface errors, and other database errors but violated constraints whose code starts with 08 or is one of five, are retried |
| ConsumerHandlers.RetryAppliesOnceIff | src/assessment_engine/consumer/handlers/_common.py:148-178 | for all outcomes and interleavings, repeated commits change nothing exactly when none finds the write overtaken by another inventory of the agent or, by a stale read, adds a history row; then the store is as if the message had been applied once at its first commit, or never |
| ConsumerHandlers.ReturnedMeansCommitted | src/assessment_engine/consumer/handlers/_common.py:148-178 | a retry that returns was committed |
| ConsumerHandlers.RepeatIsNoOpIff | src/assessment_engine/consumer/handlers/_common.py:148-178 | repeating a write after others, with any row read, changes nothing exactly when it is a metrics message, or the agent's last inventory since is the same one and the repeat adds no history row |
| ConsumerHandlers.FreshRepeatIsNoOpIff | src/assessment_engine/consumer/handlers/_common.py:148-178 | when no inventory of the agent commits between the repeat's read and its upsert, only the agent's last inventory since decides |
| ConsumerHandlers.RepeatReverts | src/assessment_engine/consumer/handlers/inventory.py:33-45 | a repeated inventory puts its own snapshot back, whatever the agent's newest one was |
| ConsumerRun.DeliveryIsAccounted | src/assessment_engine/consumer/handlers/metrics.py:34-52 | in every run an acknowledged delivery was committed, a skipped one never, and none more than three times |
| ConsumerRun.GateSkipsIffSeen | src/assessment_engine/consumer/handlers/_common.py:213-221 | a delivery is skipped exactly when Redis answers that the message is there; it is there from then on unless Redis raised before setting it |
| ConsumerRun.AttemptEndsIff | src/assessment_engine/consumer/handlers/_common.py:148-178 | an attempt ends its delivery exactly when it returns, cannot be retried or is the third, and commits exactly when it returned or only its acknowledgement was lost |
| ConsumerRun.DuplicatesAddNothing | src/assessment_engine/consumer/handlers/_common.py:213-221 | repeated messages add no metric row, agent or id: tables and ids are those of each distinct message applied once |
| ConsumerRun.RunTablesAreFirstWins | src/assessment_engine/consumer/handlers/metrics.py:34-52 | for any deliveries, Redis replies and attempt outcomes each table is the first-wins table of the distinct processed messages |
| ConsumerRun.OneDeliveryPasses | src/assessment_engine/consumer/handlers/_common.py:213-221 | while Redis answers and keeps its keys, at most one delivery per message passes the gate |
| ConsumerRun.SkippedIffPassedBefore | src/assessment_engine/consumer/handlers/_common.py:213-221 | while Redis works, a delivery whose gate ran was skipped exactly when another delivery of its message is past the gate |
| ConsumerRun.CommittedIffByFirst | src/assessment_engine/consumer/handlers/_common.py:213-221 | while Redis works a message is committed exactly when the one delivery past its gate has committed it |
| ConsumerRun.CommittedIffByEnded | src/assessment_engine/consumer/main.py:89-95 | once that delivery ended, acknowledged, rejected or cancelled unacknowledged, the message is committed in any continuation exactly when that delivery had committed it |
| ConsumerRun.UnseenMessageCanBeLost | src/assessment_engine/consumer/main.py:89-95 | in every run each message not seen yet can be lost: its delivery passes the gate, is cancelled, and while Redis works nothing later commits it |
| TaskTable.AtMostOnePending | src/assessment_engine/db/models/task.py:20-28 | over any run two pending tasks of one server and type are the same task, whatever free-string statuses results carry |
| TaskTable.PublishedBeforeCommit | src/assessment_engine/web/services/task_service.py:293-313 | in every run the event that makes a task visible is a commit whose message was already at the broker; that a request publishes before it commits is the guard of the commit event, and TaskService.PublishAndCommit keeps it |
| TaskTable.TickClearsOverdue | src/assessment_engine/db/repositories/collect_sql.py:319-331 | in every run a reaper tick times out a task exactly when it is pending with a deadline before now, told in its columns, and leaves every other one |
| TaskTable.ServerExpiryIsExact | src/assessment_engine/db/repositories/collect_sql.py:301-317 | the expiry before an issuing request does the same for the listed servers only |
| TaskTable.TasksArePermanent | src/assessment_engine/db/repositories/collect_sql.py:301-366 | no event removes a committed task or changes its server, type or deadline |
| TaskTable.ReopenedIfSlotFree | src/assessment_engine/db/repositories/collect_sql.py:349-366 | a result with status "pending" reopens a finished task exactly when no other task of its server and type is pending, committed or not |
| InstallTasks.TaskService.FindPendingDeadlineServers | src/assessment_engine/db/repositories/collect_sql.py:333-347 | returns exactly the servers with a pending task: the deadline filter hides none |
| InstallTasks.BusyIffInTime | src/assessment_engine/web/services/task_service.py:215-229 | a requested server is busy exactly when it has a pending task whose deadline has not passed |
| InstallTasks.InstallableIff | src/assessment_engine/web/services/task_service.py:244-258 | a host without a family counts as linux, and only linux and windows have a package |
| InstallTasks.AllInstallableIff | src/assessment_engine/web/services/task_service.py:244-258 | the packages are checked for every fetched host |
| InstallTasks.IssuableIff | src/assessment_engine/web/services/task_service.py:260-290 | issuing all targets undisturbed takes details for every server, no pending install on any, committed or not, and no server twice |
| InstallTasks.HasDetailIff | src/assessment_engine/web/services/task_service.py:262-266 | a server has details exactly when a fetched row is its own |
| InstallTasks.TaskService.IssueOne | src/assessment_engine/web/services/task_service.py:270-313 | conflicts exactly when the slot is held; otherwise stored exactly when publish returned and the commit took effect; leaves a message without a task exactly when the publish raised after delivering or the commit after it had no effect |
| InstallTasks.TaskService.IssueAll | src/assessment_engine/web/services/task_service.py:260-330 | stores exactly a prefix of the targets, makes exactly the calls up to the first failure, and undisturbed succeeds exactly when every target has details and a free slot of its own |
| InstallTasks.TaskService.CreateInstallTasks | src/assessment_engine/web/services/task_service.py:190-330 | an unknown, busy, unsupported or unreachable target cancels the request with nothing of its own inserted or published, and a pending install in time makes it busy and stays; otherwise a prefix is stored, each task an install on its target's server with the request's deadline; undisturbed it succeeds exactly under the stated condition |
| TaskLifecycle.JudgeTaskResult | src/assessment_engine/consumer/task_policy.py:42-90 | the branches and the key loop give a judgement: success by the verdict of the agent or an excuse of the allowlist, a rejection always with a reason, every other result untouched |
| TaskLifecycle.JudgementIsUnique | src/assessment_engine/consumer/task_policy.py:42-90 | those rules determine the judgement |
| TaskLifecycle.JudgedMeans | src/assessment_engine/consumer/task_policy.py:69-90 | the verdict of the agent decides, with "install_unverified" where it gives no reason; without one only a failed script with an exit code allowed for its build, for "windows" or for id and major version succeeds |
| TaskLifecycle.MajorIsUpToDot | src/assessment_engine/consumer/task_policy.py:83-85 | the major version is the text before the first dot, or all of it |
| TaskLifecycle.AllowlistOnlyRescues | src/assessment_engine/consumer/task_policy.py:69-90 | extending the allowlist can only turn a failed script without a verdict into a success |
| TaskLifecycle.JudgingIsIdempotent | src/assessment_engine/consumer/task_policy.py:42-90 | judging a judged result again changes nothing |
| TaskLifecycle.TaskRepository.CompleteTask | src/assessment_engine/db/repositories/collect_sql.py:349-366 | updates exactly the known task with the judged status; unknown ids change nothing; "pending" over a held slot raises and changes nothing |
| TaskLifecycle.TaskRepository.ExpireAllOverdueTasks | src/assessment_engine/db/repositories/collect_sql.py:319-331 | times out exactly the pending tasks with a deadline before now, told in their columns, and returns their number |
| TaskLifecycle.TaskRepository.RunTaskReaper | src/assessment_engine/worker/task_reaper.py:31-56 | every tick whose transaction committed takes effect, a raising one is skipped and the loop goes on |
| TaskLifecycle.ReapedForGood | src/assessment_engine/worker/task_reaper.py:39-56 | one committed tick after its deadline finishes a task for good unless a later result says "pending" |
| TaskLifecycle.CommittedTickReaps | src/assessment_engine/worker/task_reaper.py:39-56 | in the loop every committed tick finishes for good what was overdue then, whatever other ticks did, and one that raised without effect sends nothing |
| TaskLifecycle.ResultKeptIff | src/assessment_engine/db/repositories/collect_sql.py:349-366 | the last result of a task is kept exactly when the row was committed when it came; else it is dropped and the task stays pending or times out |
| TaskLifecycle.EarlyResultTimesOut | src/assessment_engine/web/services/task_service.py:293-313 | from every run with a published, uncommitted row: a result that comes now is lost although the commit goes through, and the reaper times it out |
| Recommendation.CpuTargetIsTight | src/assessment_engine/recommendation.py:519-532 | the CPU target is the least core count with the load at 70 % or less and, under saturation, the run queue per core at 0.7 of the line or less |
| Recommendation.CpuUnderIff | src/assessment_engine/recommendation.py:535-576 | with utilization and a positive core count known, CPU is under exactly from 70 % on |
| Recommendation.CpuOverIff | src/assessment_engine/recommendation.py:535-576 | CPU is over exactly when one core less would carry the load at 70 % and no core is at 85 % |
| Recommendation.OptimalIff | src/assessment_engine/recommendation.py:535-576 | with inputs known, CPU is optimal exactly below 70 % with every core needed or held by a busy one |
| Recommendation.ResizedIsOptimalIff | src/assessment_engine/recommendation.py:519-576 | reassessing a host resized to its target gives optimal exactly when, should the run queue ask for more cores than the load, a core is busy, and else the load is no positive multiple of 70 |
| Recommendation.ResizedByUtilizationIsOptimal | src/assessment_engine/recommendation.py:519-576 | in particular for a utilization-driven target and a positive load that is no multiple of 70 |
| Recommendation.SaturationMatchesIndex | src/assessment_engine/recommendation.py:159-201 | CPU saturation is an index of at least 1 unless a measured utilization is below 70 % |
| Recommendation.DiskSaturationMatchesIndexIff | src/assessment_engine/recommendation.py:144-214 | the disk verdict and the live index agree exactly when await is not 20 ms sharp |
| Recommendation.MemoryUnderIff | src/assessment_engine/recommendation.py:618-675 | memory is under exactly from a measured 90 % on or after an OOM kill |
| Recommendation.MemTargetIsTight | src/assessment_engine/recommendation.py:579-587 | the memory target is the least size holding the positive peak at 80 % |
| Recommendation.MemoryOverIff | src/assessment_engine/recommendation.py:618-675 | memory is over exactly when measured below 90 % without OOM and the positive peak fits a smaller size at 80 % |
| Recommendation.NetSignalIsCongestion | src/assessment_engine/recommendation.py:232-248 | the live network signal holds exactly when the verdict is congested |
| Recommendation.CpuDownsizeIff | src/assessment_engine/recommendation.py:1027-1040 | a CPU downsize is prescribed exactly under the stated raw statistics |
| Recommendation.MemoryDownsizeIff | src/assessment_engine/recommendation.py:1027-1040 | a memory downsize is prescribed exactly under the stated raw statistics |
| VerdictSizes.CpuVerdictSizes | src/assessment_engine/recommendation.py:535-576 | the CPU verdict carries, when under or over, exactly the least core count with the load at 70 % or less and a saturated queue at 0.7 of its line; under with that load held gets one core more as its floor, optimal its own size |
| VerdictSizes.MemoryVerdictSizes | src/assessment_engine/recommendation.py:594-675 | the memory verdict carries the least size with the peak at 80 % or less and, after paging or an OOM kill, 30 % more; without it the floor with 30 % more |
| HostVerdict.DiskIoIs | src/assessment_engine/recommendation.py:793-810 | disk I/O is bound exactly above 20 ms of await or, on Windows without await, at a queue of 2, and unmeasured exactly without await, queue and IOPS |
| HostVerdict.DiskCapacityIs | src/assessment_engine/recommendation.py:684-731 | disks are filling exactly when bytes or inodes last less than 30 days or, without a rate, are used to 85 % |
| HostVerdict.DiskTargetIs | src/assessment_engine/recommendation.py:684-731 | the target of a filling disk is the rounded-up statistic, given unless inodes run out first or alone |
| HostVerdict.NetworkIs | src/assessment_engine/recommendation.py:813-851 | the network is congested exactly above 1 % retransmits or 0.5 % drops while busy, or from 0.8 of the connection table on |
| HostVerdict.CpuEvidenceIs | src/assessment_engine/recommendation.py:494-576 | which reasons a CPU verdict names and which doubts it carries: short history or bursts, a missing signal, stolen time, a rising trend |
| HostVerdict.MemoryEvidenceIs | src/assessment_engine/recommendation.py:618-675 | the same for memory: utilization, paging and OOM kills |
| HostVerdict.DiskEvidenceIs | src/assessment_engine/recommendation.py:684-810 | the same for disk space and disk I/O, which is always biased |
| HostVerdict.NetworkEvidenceIs | src/assessment_engine/recommendation.py:813-851 | the same for the network: retransmits, drops and the connection table |
| HostRollup.RollupHost | src/assessment_engine/recommendation.py:889-932 | the assignments and the first-match loop compute the specified root cause, symptoms and status |
| HostRollup.ShortageViewsAgree | src/assessment_engine/recommendation.py:854-932 | status under, a root cause, a non-empty prescription and a non-empty display are equivalent |
| HostRollup.PrescribesEveryShortage | src/assessment_engine/recommendation.py:980-992 | a resource is prescribed exactly when it is short: no causal suppression |
| HostRollup.RootCauseIsObserved | src/assessment_engine/recommendation.py:889-932 | the root cause and its symptoms are resources under observed pressure, and disk I/O is blamed only with blocked processes behind a short CPU |
| HostVerdict.RootCauseIs | src/assessment_engine/recommendation.py:889-932 | the root cause, or none, and both symptoms are given exactly under raw conditions: paging memory behind a slow disk or a short CPU, a slow disk with blocked processes behind a short CPU, else the first shortage |
| HostVerdict.PrescriptionIs | src/assessment_engine/recommendation.py:980-992 | the prescribed resources are exactly the short ones, memory before CPU before disk space |
| HostVerdict.DisplayIs | src/assessment_engine/recommendation.py:1008-1024 | the displayed cause is the blamed resource with its symptoms, or else the short resources side by side |
| HostVerdict.RollupCarries | src/assessment_engine/recommendation.py:889-932 | the host carries the five verdicts, the congestion flag and the sample sufficiency |
| HostRollup.HostOptimalIff | src/assessment_engine/recommendation.py:854-886 | a host is under, and is optimal, exactly under the stated conditions on its raw statistics |
| HostVerdict.HostStatusIs | src/assessment_engine/recommendation.py:854-886 | each of the five host statuses is given exactly under its raw condition: short, not judged, idle, oversized, or none of these |
| HostRollup.SeverityGrows | src/assessment_engine/recommendation.py:854-886 | raising load on the same hardware and measurements never lowers the status (idle or insufficient, over, optimal, under), an optimal host with a zero memory peak excepted |
| HostRollup.SeverityIsMonotoneIff | src/assessment_engine/recommendation.py:854-886 | the exception is exact: raising load never lowers the status exactly when the statistics are not those of an optimal host with a memory peak of 0 on at least 2 MB |
| MountCapacity.ReportMountCapacityBatch | src/assessment_engine/db/repositories/query/report_sql.py:639-652 | the setdefault loop gives each server its mounts in row order and no empty lists |
| MountCapacity.GroupedInOrder | src/assessment_engine/db/repositories/query/report_sql.py:639-652 | a server's list has one entry per row of it, in row order |
| MountCapacity.RunwayIsWholeDays | src/assessment_engine/db/repositories/query/report_sql.py:610-613 | the runway is the whole number of days the free space lasts at the rate of the span, null unless it shrinks over 1.25 days and more |
| MountCapacity.RateIsPerDay | src/assessment_engine/db/repositories/query/report_sql.py:610-613 | the rate times the span is what was lost over the span |
| MountCapacity.UsedPctIs | src/assessment_engine/db/repositories/query/report_sql.py:609 | the used share is known exactly with a total and free space, and times the total gives the used bytes |
| MountCapacity.TargetIsLeast | src/assessment_engine/db/repositories/query/report_sql.py:614-622 | the target is the least size that holds the used bytes and a year of growth, on a short span a month of growth at 70 %, without a trend the used bytes at 70 % from 85 % on |
| MountCapacity.CapacityRowIs | src/assessment_engine/db/repositories/query/report_sql.py:608-622 | bytes and inodes get their own runways |
| MountCapacity.NoTargetIff | src/assessment_engine/db/repositories/query/report_sql.py:608-622 | a filling mount lacks a target exactly when its free space is negative and no trend is usable, so the floor branch is unreachable for free space of at least 0 |
| MountCapacity.RecommendedIsLeast | src/assessment_engine/recommendation.py:770-780 | the recommended GiB is the least size holding the mount and its target |
| MountCapacity.MountSizingIs | src/assessment_engine/recommendation.py:751-790 | every mount's sizes are the least GiB that hold it and its target, or without one its size at 70 %; a mount that does not fill keeps its size and notes whether its inodes do |
| MountCapacity.DisksNeverShrink | src/assessment_engine/recommendation.py:751-790 | disks never shrink, increase exactly when larger, keep exactly when equal, and are skipped exactly without a total |
| MountCapacity.ExpansionStopsFillingIff | src/assessment_engine/recommendation.py:751-790 | a filling mount resized as recommended with the same used bytes and fill rate is no longer filling, on all three target paths; with negative free space and no trend it gets a floor and is still filling exactly when its used bytes reach 85 % of it |
| MountCapacity.HostFillsLikeItsMounts | src/assessment_engine/recommendation.py:684-731 | the host verdict uses the per-mount rule for bytes and inodes, and has a target exactly when bytes run out and inodes not first |
| Sizing.SizingAxes | src/assessment_engine/web/services/mappers/assessment_api.py:212-266 | the two loops emit the specified axes in order, skipping unknown quantities; which axes and sizes these are is said by AxesAre and VerdictSizes |
| Sizing.AxesAre | src/assessment_engine/web/services/mappers/assessment_api.py:212-266 | CPU first and memory next, each if its size is known, then one axis for every mount with a size, in order, with that mount's sizing |
| VerdictSizes.CpuAxisSizes | src/assessment_engine/web/services/mappers/assessment_api.py:181-201 | the CPU axis recommends exactly the least core count that fits, or one core more where the size fits already, and keeps the size else |
| VerdictSizes.MemoryAxisSizes | src/assessment_engine/web/services/mappers/assessment_api.py:181-201 | the memory axis recommends exactly the least size that fits, or the 30 % headroom, and keeps the size else |
| Sizing.ActionsAgreeIff | src/assessment_engine/web/services/mappers/assessment_api.py:181-266 | on every axis increase, decrease and keep mean larger, smaller and equal, except exactly on a memory total of 0 with utilization from 90 % on or an OOM kill |
| VerdictSizes.CpuShrinksIff | src/assessment_engine/web/services/mappers/assessment_api.py:181-201 | the CPU axis shrinks exactly when one core less holds the load at 70 %, no core is at 85 %, the queue was measured, steal is below 5 % and the window is well observed, all in raw statistics |
| VerdictSizes.MemoryShrinksIff | src/assessment_engine/web/services/mappers/assessment_api.py:181-201 | the memory axis shrinks exactly below 90 % without an OOM kill when one MB less holds the positive peak at 80 % and the window is well observed |
| Sizing.CpuAxisDecreasesIff | src/assessment_engine/web/services/mappers/assessment_api.py:181-201 | the CPU axis decreases exactly under the stated raw statistics |
| Sizing.MemoryAxisDecreasesIff | src/assessment_engine/web/services/mappers/assessment_api.py:181-201 | the memory axis decreases exactly under the stated raw statistics |
| Sizing.UncertainIff | src/assessment_engine/web/services/mappers/assessment_api.py:181-201 | a host size is uncertain exactly when the resource was not measured: every shortage has a target or a floor |
| Serialization.StoredUnchangedIff | src/assessment_engine/web/services/serialization.py:25-48 | a value is stored as it is exactly when it holds no object and no datetime |
| Serialization.WhatComesBack | src/assessment_engine/web/services/report_serializer.py:72-116 | restoring a stored instance always succeeds, with each field as its rule returns it, at any depth |
| Serialization.RoundTripIff | src/assessment_engine/web/services/report_serializer.py:72-116 | storing then restoring is the identity exactly on instances whose fields without a rule are plain, without legacy words and with unpassed fields at their default |
| SnapshotTolerance.AlikeRestored | src/assessment_engine/web/services/report_serializer.py:72-91 | keys a class does not know, at any level, do not change the restored object |
| ReportSerializer.SnapshotRoundTripIff | src/assessment_engine/web/services/report_serializer.py:126-229 | with the restorers' own rules, spread and named arguments alike, a snapshot of any class comes back exactly when it is faithful |
| ReportTypes.RestoresDeclaredTypes | src/assessment_engine/web/view_models/environment_report.py:65-247 | every nested view model, list of them and instant that a stored class declares has a rule that rebuilds it, the workload donut excepted, and no other field but the support stage is touched |
| ReportTypes.TypedFieldComesBack | src/assessment_engine/web/services/report_serializer.py:126-229 | after a round trip each declared field has its declared type again and each instant is the stored one; the donut only when empty |
| ReportTypes.AbsentFieldBecomes | src/assessment_engine/web/services/report_serializer.py:126-189 | what an environment snapshot without a field gives: an error for the three basic parts, empty lists, null, or the class default |
| StoredDicts.RestoredIff | src/assessment_engine/web/services/report_serializer.py:72-91 | for any stored value a restorer raises exactly when it is no dict, an argument it names is lost, a nested part cannot be restored, or a field without default is missing; else the object has exactly the fields of the class |
| StoredDicts.StoredFieldBecomes | src/assessment_engine/web/services/report_serializer.py:98-283 | what any stored field becomes under its rule: lists element by element, falsy parts as absent ones, strings parsed as instants, old words translated |
| StoredDicts.MissingTotalsAreZero | src/assessment_engine/web/services/report_serializer.py:109-116 | a summary without totals or with falsy ones gets zero totals |
| StoredDicts.MissingActionIsEmpty | src/assessment_engine/web/services/report_serializer.py:279-283 | a missing or misshapen action block is restored as an empty dict |
| StoredDicts.FalsyIff | src/assessment_engine/web/services/report_serializer.py:109-116 | null, false, 0 and the empty string, list and dict are the falsy values |
| ReportSerializer.StorageTreeRoundTripIff | src/assessment_engine/web/services/report_serializer.py:232-236 | the unbounded storage tree comes back exactly when all its attributes are JSON values |
| ReportSerializer.StorageNodeFromDict | src/assessment_engine/web/services/report_serializer.py:232-236 | copying the dict and replacing the children gives the specified restoration |
| ReportSerializer.ReportRowFromDict | src/assessment_engine/web/services/report_serializer.py:98-106 | the row restorer gives the specified restoration, legacy words included |
| ReportSerializer.ReportSummaryFromDict | src/assessment_engine/web/services/report_serializer.py:109-116 | the summary restorer gives the specified restoration, absent totals and dates included |
| ReportSerializer.AttentionRowFromDict | src/assessment_engine/web/services/report_serializer.py:266-269 | the attention row restorer gives the specified restoration |
| ReportSerializer.AttentionFromDict | src/assessment_engine/web/services/report_serializer.py:257-263 | the restorer with named arguments gives the specified restoration, and raises for a name the class has lost |
| ReportSerializer.ActionTargetsFromDict | src/assessment_engine/web/services/report_serializer.py:279-283 | the action target restorer gives the specified restoration |
| ReportSerializer.OldEolWordsAreTranslated | src/assessment_engine/web/services/report_serializer.py:93-106 | exactly the three old support words come back changed |
| ReportSerializer.UnnamedFieldIsLost | src/assessment_engine/web/services/report_serializer.py:138-145 | a field that a restorer with named arguments does not name, one added later included, comes back as its default |
| ReportSerializer.UnruledFieldBecomes | src/assessment_engine/web/services/report_serializer.py:83-283 | exactly the seven restorers that name their arguments lose a field they do not name; every other one passes it on as it was stored |
| ReportSerializer.GatewayIsLost | src/assessment_engine/web/services/report_serializer.py:135-147 | a subnet's gateway comes back as the class default |
| ReportSerializer.WorkloadDonutComesBackIff | src/assessment_engine/web/services/report_serializer.py:245-254 | the overview's workload donut comes back exactly when it is empty |
| ServiceClassifier.BuildPortIndex | src/assessment_engine/service_classifier.py:379-388 | a port maps to the first catalog category that lists it, and to none otherwise |
| ClassifierRules.PortGoesToFirst | src/assessment_engine/service_classifier.py:379-388 | the category of a port is that of the first definition with a list that has it |
| ClassifierRules.ContainsIff | src/assessment_engine/service_classifier.py:409-416 | a keyword matches exactly the texts it occurs in at some position |
| ClassifierRules.KeywordDecides | src/assessment_engine/service_classifier.py:409-416 | a text belongs to the category of the first keyword of the index that occurs in it, an empty text to none |
| ClassifierRules.SuffixIsCutOnce | src/assessment_engine/service_classifier.py:469 | the service suffix is cut off once, and only where it is |
| ClassifierRules.KeyIsReported | src/assessment_engine/service_classifier.py:434-438 | a missing port counts as 0, a missing protocol as the empty text |
| ClassifierRules.CommIsReported | src/assessment_engine/service_classifier.py:453 | a missing process name counts as the empty one, and names are compared in lower case |
| ServiceClassifier.PickedIff | src/assessment_engine/service_classifier.py:432-458 | the deduplicating loops pick a (proto, port) exactly when some entry with it qualifies |
| ClassifierRules.PickedIffFirst | src/assessment_engine/service_classifier.py:432-458 | of the entries of one (proto, port) exactly the first reported one that qualifies is picked: the sort is stable |
| ClassifierRules.PickedInOrder | src/assessment_engine/service_classifier.py:432-458 | the picked entries are strictly ordered by port and protocol |
| ServiceClassifier.GetAttributedPorts | src/assessment_engine/service_classifier.py:419-460 | both loops pick the first attributable entry of each (proto, port) in order |
| ClassifierRules.AttributedIff | src/assessment_engine/service_classifier.py:419-460 | an entry is a unit's own exactly when it is the first of its (proto, port) with the unit's pid or, without a pid, with a process name that holds or is held by the unit's name and is not systemd, or on a well-known port of the name |
| ClassifierRules.ClassifyIs | src/assessment_engine/service_classifier.py:463-488 | the unit's name decides, then its first socket with a telling process name, then its first one on a catalog port, else it is unknown |
| ServiceClassifier.GetMatchedPorts | src/assessment_engine/service_classifier.py:491-522 | the loop with its lazily computed category picks the first eligible entry of each (proto, port) in order |
| ClassifierRules.MatchedInOrder | src/assessment_engine/service_classifier.py:491-522 | a unit's ports are strictly ordered |
| ServiceClassifier.DetectListenCategories | src/assessment_engine/service_classifier.py:525-549 | groups the first classified entry of each (proto, port) by category, in order, without empty groups |
| ClassifierRules.DetectedIff | src/assessment_engine/service_classifier.py:525-549 | a (proto, port) is listed under the category of its first entry that has one |
| ClassifierRules.DetectedInOrder | src/assessment_engine/service_classifier.py:525-549 | the sockets of a category are strictly ordered |
| ClassifierRules.SocketCategoryIs | src/assessment_engine/service_classifier.py:541-546 | a socket has the category of its process name, else that of its port, else none |
| ServiceWorkloads.MatchedIff | src/assessment_engine/service_classifier.py:491-522 | a unit gets a port exactly when an entry of it is owned by its pid, or ownerless and of its category |
| ClassifierRules.UnitGetsPortIff | src/assessment_engine/service_classifier.py:491-522 | the same in the catalog's own terms |
| ServiceWorkloads.OwnedPortStaysHome | src/assessment_engine/service_classifier.py:491-522 | a port owned by one pid appears with the unit of that pid and with no other |
| ServiceWorkloads.SocketInOneCategory | src/assessment_engine/service_classifier.py:525-549 | no (proto, port) is listed under two categories |
| ServiceWorkloads.ComputeServiceCategories | src/assessment_engine/service_classifier.py:599-616 | the list is strictly sorted and holds exactly the categories of some counted unit or non-baseline socket |
| ClassifierRules.RunsIff | src/assessment_engine/service_classifier.py:599-616 | a category runs exactly when a unit adds it or it is that of the first categorized non-baseline entry of some (proto, port) |
| ClassifierRules.FromUnitIff | src/assessment_engine/service_classifier.py:608-614 | a unit adds its category exactly when it is named, its name holds no baseline keyword and it is not unknown |
| ClassifierRules.BaselineIff | src/assessment_engine/service_classifier.py:585-596 | a socket is baseline exactly by its port or by a keyword in its process name |
| ServiceWorkloads.UnknownNeverRuns | src/assessment_engine/service_classifier.py:599-616 | "unknown" is never stored |
| ServiceOrder.ClassifierForgetsOrder | src/assessment_engine/service_classifier.py:463-549 | if entries sharing (proto, port) are equal, classification, matching and detection do not depend on the order of the sockets |
| ServiceOrder.DetectionStableIff | src/assessment_engine/service_classifier.py:525-549 | detection groups the sockets alike for every order exactly when the classified entries of each (proto, port) share one category |
| ServiceStability.ClassifyStableIff | src/assessment_engine/service_classifier.py:463-488 | a unit gets the same category for every order of the sockets exactly when its name decides, or all entries that some order lets decide agree, with the port numbers where some order leaves it to them |
| ServiceStability.MayBeIff | src/assessment_engine/service_classifier.py:463-488 | some order gives a unit a category exactly when its name has it, or an entry that may decide, or the port numbers where they may |
| ServiceStability.MatchedForgetsOrderIff | src/assessment_engine/service_classifier.py:491-522 | two orders give a unit the same ports exactly when the categories they give it claim the same ownerless ports, those of its own process aside |
| ServiceStability.MayRunIff | src/assessment_engine/service_classifier.py:599-616 | some order makes a category run exactly when it is possible for a counted unit or is that of a non-baseline socket |
| ServiceStability.WorkloadForgetsOrder | src/assessment_engine/service_classifier.py:599-616 | if every counted unit is classified alike in every order and so are the non-baseline sockets, the categories that run depend on neither the order of the units nor that of the sockets |
| ServiceStability.StoredListForgetsOrder | src/assessment_engine/service_classifier.py:599-616 | then permuting the units and sockets of a host stores the very same list |
| Sorting.SortForgetsOrder | src/assessment_engine/service_classifier.py:434-447 | Python's stable sort gives permutations the same result when ties are between equal elements |
| Sorting.SortStringsCanonical | src/assessment_engine/web/services/diagnostic_service.py:51 | two lists of strings sort alike exactly when they are permutations |
| Sorting.StrLeIsLexicographic | src/assessment_engine/web/services/diagnostic_service.py:51 | strings are ordered by their first differing character, a prefix first |

## Left out

- HTTP routers, templates, labels, texts, colours and log lines; the `detail` and `note` strings of verdicts.
- RabbitMQ, Redis, SQLAlchemy, asyncio and signals, except for their visible outcomes: Redis replies, attempt, publish and commit outcomes.
- Chart SQL, continuous aggregates, percentiles and regressions; their results are inputs.
- SHA-256 and ISO dates: the hash is any function, and isoformat followed by fromisoformat is assumed exact.
- Float rounding, SQL numeric rounding and column widths: arithmetic is on reals and unbounded integers.
- Migrations, settings, secrets, pydantic schemas, IP and URL validation, and the ZDM package lookup, whose result is an input.
- Online keys, cache invalidation and restart tracking in Redis after a message is stored.
- InventoryHistory.HistoryDriftIsBounded: says nothing about the host name, composite id and machine id, which the code's change test ignores.
- DiagnosticSql.DiagnosticRepository.Enqueue: an insert that meets an uncommitted row of its key conflicts at once; the one that waits is the one made after that transaction ended.
- InstallTasks.TaskService.IssueOne: likewise for an insert that meets an uncommitted row of its slot.
- DiagnosticService.Service.EmitReport: does not model the content of the stored result beyond the value passed in.
- InstallTasks.TaskService.CreateInstallTasks: does not model the published payload, the queue declaration, the online advisory or the returned rows.
- TaskLifecycle.TaskRepository.CompleteTask: does not model the output tails, exit code, signal and duration columns, which are stored as they come.
- ServiceStability.StoredListForgetsOrder: sufficient, not necessary; a category may be stored in every order although the units that bring it change.
- Serialization.WhatComesBack: does not model aliasing; the code replaces the subnets inside the stored dict in place, the model builds a new one. Tuples are not modelled, no stored class has any.
- ReportSerializer.SnapshotRoundTripIff: the class definitions are parameters, and it holds for every version of them that has the fields the restorers name and gives a default to those a naming restorer leaves out; otherwise the code raises.
- ServiceClassifier.GetMatchedPorts: the catalog, the baseline lists and `str.lower` are parameters; JSON entries that are no objects are not modelled.
- `cache_serializer.py`, `host_saturation_unmeasured`, `recommend_action`, `mem_pressure_active` and the trend threshold: easy members that no proved property needs.
