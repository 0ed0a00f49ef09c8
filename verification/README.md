# Running-process: the probe daemon, verified

A Dafny model of the stateful cores of running-process: its probe daemon, the
interposer's emit queue and three small algorithms. `dafny verify dfyconfig.toml`
checks all of it.

- **Crash store.** `CrashProtocol` is the durable crash history as a protocol: any number
  of processes share one database and one directory, file operations and transactions
  are steps of their own, and a process may die between any two. `CrashDb` has the
  tables and transactions, `CrashStore` the store object with its loops, which works
  from any state of tables and directory, and `RetentionGc` the collector's choice of
  rows. `StoreRuns` proves that what the object does is a run of the protocol.
- **Capture jobs.** `CaptureJobs` is the scheduler as a transition system and carries the
  results about runs. `CaptureScheduler` is the object with its job map and queue; each
  method takes one step of the transition system. `CaptureOutcomes` says of each call what
  it does to the jobs, and how long an expired job holds its connection.
- **Registry.** `Registrations` is the registry as a transition system, with its lifecycle.
  `RegisterSections` takes registration apart into its two lock sections and proves that
  this refines the former. `RegisterRequests` gives each request its own verdict and says
  exactly when an armed entry owes its state to its own request. `RegistryService` is the
  object.
- **Requests.** `ProbeDaemon` puts registry and scheduler together as they interleave, a
  lock at a time; `ProbeOps` is the request core that drives the two objects.
- **Queries.** `LiveQuery` merges registrations and OS process rows. `QueryReplies` says, on
  the fields of registrations and rows, what a query matches and what a reply shows.
- **Emit queue.** `EmitQueue` has every shared-memory access as a step: many producers that
  never wait, and one drain thread.
- **Algorithms.** `CommandLine` renders argument lists and reads them back by Microsoft's
  rules, which its reader meets rule by rule (`ReadsEscapedQuote`, `ReadsPairsBeforeQuote`,
  `ReadsBackslashes`, `ReadsQuotes`). `LikeEscape` escapes literals for SQL's LIKE, whose
  patterns mean what `FoldMeans`, `LikeMeans` and `PercentMeans` say. `ProcessTree` builds
  the dashboard's forest.

Objects whose methods change fields are classes here, loops are loops, and concurrency is
a transition system whose runs are arbitrary interleavings. Clocks, random ids, the OS
process table, file sizes, identity checks and the liveness of processes are parameters.

Three properties that the code suggests are false of it as they stand. Each comes with an
input that breaks it and with the exact condition under which it holds:

- An armed entry need not be verified. Two overlapping registrations of one process can arm
  an entry against its own check (`ArmedButUnverified`, `OverlapArmsAnother`). Armed entries
  are verified exactly as long as no verdict with a false flag reaches an armed entry
  (`ArmedMeansVerifiedExactly`), and armed by their own request exactly as long as no clean
  verdict reaches a registering entry of another one (`ArmedByOwnExactly`). One request per
  key at a time is enough for both.
- The collector's byte budget, and that collecting twice changes nothing, can fail once the
  64-bit byte total saturates (`SaturationBreaksBudget`). `BudgetsFailExactly` and
  `IdempotentExactlyWhenHonoured` say when, for one policy; `HonoursEveryPolicyExactly` and
  `IdempotentExactly` for which rows each holds under every policy.
- A zero counter does not mean an empty emit queue (`ZeroCounterMissesALine`). `FlushSeesZero`
  says exactly when it does, and what is missed otherwise.

The comment in `registry.rs` that the guard and the state change of arming cannot
interleave is right about one call of `verify_and_arm`, which is one step here; a second
call for the same key can still follow.

## Model

| member | source | states |
|---|---|---|
| `CrashProtocol.NoRowNamesAMissingArtifact` | crates/running-process-probe-daemon/src/crash_store.rs:264-286 | in every interleaving of recording, collecting and opening by any number of processes, with a death between any two steps, no committed row names a missing artifact |
| `CrashProtocol.SweptDirectoryIsExact` | crates/running-process-probe-daemon/src/crash_store.rs:922-964 | right after an open, or after a collector's own sweep, the store's files on disk are exactly the artifacts that rows name |
| `CrashProtocol.ForeignFilesUntouched` | crates/running-process-probe-daemon/src/crash_store.rs:947-962 | files the store does not own are never created or removed |
| `CrashProtocol.StepKeepsFiles` | crates/running-process-probe-daemon/src/crash_store.rs:389-415 | each single step keeps rows, files, half-written files and pending unlinks consistent |
| `CrashProtocol.CountsAlwaysAgree` | crates/running-process-probe-daemon/src/crash_store.rs:467-502 | in every reachable state a row's reference count is the sum of its sessions' pin counts |
| `CrashProtocol.GuardedRowSurvives` | crates/running-process-probe-daemon/src/crash_store.rs:1053-1066 | while a live session holds a fetch guard the row stays, is pinned, and its artifact stays on disk; no collection selects it |
| `CrashProtocol.StepKeepsPins` | crates/running-process-probe-daemon/src/crash_store.rs:356-371 | each step keeps counts and pins equal and every live guard backed by a pin |
| `CrashProtocol.SpoolRecordNeverLost` | crates/running-process-probe-daemon/src/crash_store.rs:616-649 | a completed spool record is still in the spool or was committed, and no two live rows share a source |
| `CrashProtocol.RemovedOnlyAfterCommit` | crates/running-process-probe-daemon/src/crash_store.rs:638-644 | a spool file disappears only by the ingester's removal, after its row was committed |
| `CrashProtocol.CommittedHadARow` | crates/running-process-probe-daemon/src/crash_store.rs:257-263 | whatever counts as committed did have a row with that source at some earlier moment |
| `CrashProtocol.StepKeepsSources` | crates/running-process-probe-daemon/src/crash_store.rs:765-766 | each step keeps sources unique and every recorded source committed |
| `CrashProtocol.RunKeepsInv` | crates/running-process-probe-daemon/src/crash_store.rs:444-506 | the joint invariant of files, pins and sources holds at every point of every run |
| `CrashDb.PinnedKeepsCounts` | crates/running-process-probe-daemon/src/crash_store.rs:356-371 | taking a pin raises count and sum together |
| `CrashDb.UnpinnedKeepsCounts` | crates/running-process-probe-daemon/src/crash_store.rs:422-440 | releasing a held pin lowers count and sum together, also when the pin row goes; which pin, and by how much, is UnpinnedReleases |
| `CrashDb.OpenedCounts` | crates/running-process-probe-daemon/src/crash_store.rs:467-502 | removing dead sessions and recomputing makes every count right, whatever it was before |
| `CrashDb.ReconciledIsExact` | crates/running-process-probe-daemon/src/crash_store.rs:922-964 | from any state, also a damaged one: after reconciliation no row names a missing file and every owned file is named |
| `CrashStore.SumPins` | crates/running-process-probe-daemon/src/crash_store.rs:490-502 | the loop over a row's pins computes their sum |
| `CrashStore.ListRows` | crates/running-process-probe-daemon/src/crash_store.rs:987-1016 | the collector's listing has every row once, newest first |
| `CrashStore.SelectedAreUnpinned` | crates/running-process-probe-daemon/src/crash_store.rs:1017-1051 | what the collector selects is in the table and unpinned, so its deletion is a step of the protocol |
| `CrashStore.CollectionIsExact` | crates/running-process-probe-daemon/src/crash_store.rs:1053-1087 | on a consistent store a collection leaves exactly the rows that were not selected, with their fields, and exactly their artifacts |
| `CrashStore.Store.ReconcileArtifacts` | crates/running-process-probe-daemon/src/crash_store.rs:922-964 | the row loop clears names of missing files, the file loop removes what no row names |
| `CrashStore.Store.ReconcileOnOpen` | crates/running-process-probe-daemon/src/crash_store.rs:444-506 | afterwards the sessions are the live ones of before and the own one; every pin of a live session is kept as it was, those of the sessions dropped are gone; each count is the sum of the row's pins; then names of missing files are cleared and unnamed files swept |
| `CrashStore.Store.Record` | crates/running-process-probe-daemon/src/crash_store.rs:224-292 | exactly when recording fails and how, with the source's own numbers; a failure changes nothing, a known source gives its row, otherwise there is a new row and artifact, and a collection if it goes through |
| `CrashStore.Store.RecordingKeepsOthers` | crates/running-process-probe-daemon/src/crash_store.rs:264-292 | a recording takes away no row but unpinned ones its collection selects, and changes no source or count |
| `CrashStore.Store.BeginFetch` | crates/running-process-probe-daemon/src/crash_store.rs:333-378 | pins exactly when row, name, file and size are right: one pin more of the own session on that row and one more in its count, everything else as it was; otherwise nothing changes |
| `CrashStore.Store.EndFetch` | crates/running-process-probe-daemon/src/crash_store.rs:417-442 | one pin less of the own session on that row, gone at the last one, the count one less and never below zero, everything else as it was |
| `CrashStore.Store.Gc` | crates/running-process-probe-daemon/src/crash_store.rs:987-1088 | removes exactly what the policy selects from the listing, only unpinned rows, and reconciles |
| `CrashStore.Store.DeleteRows` | crates/running-process-probe-daemon/src/crash_store.rs:1053-1080 | the delete loop removes the selected rows with their pins and returns the artifacts to unlink |
| `CrashStore.Store.IngestPending` | crates/running-process-probe-daemon/src/crash_store.rs:609-651 | every spool file ends where its kind says, each complete one through one recording, in order, whose artifact is returned; the first error leaves its file and all later ones |
| `RetentionGc.SelectForGc` | crates/running-process-probe-daemon/src/crash_store.rs:987-1051 | the two loops with their maps, sets and running totals compute the selection that RetiredExactly, SelectedForCause and the budget results characterise |
| `RetentionGc.SelectsOldestUnpinned` | crates/running-process-probe-daemon/src/crash_store.rs:1017-1051 | nothing pinned is selected, and what the budget pass adds is older than every unpinned survivor |
| `RetentionGc.BudgetsMet` | crates/running-process-probe-daemon/src/crash_store.rs:1033-1051 | while sizes add up within 64 bits: every unpinned row went, or rows and bytes left are within both budgets |
| `RetentionGc.NothingEvictedInVain` | crates/running-process-probe-daemon/src/crash_store.rs:1033-1051 | minimality: with the newest evicted row put back, a budget is exceeded |
| `RetentionGc.HonoursEveryPolicyExactly` | crates/running-process-probe-daemon/src/crash_store.rs:1034-1050 | the budgets are honoured under every policy if and only if the sizes fit in 64 bits or all rows are pinned |
| `RetentionGc.BudgetsFailExactly` | crates/running-process-probe-daemon/src/crash_store.rs:1033-1051 | for one policy and one collection: the budgets are not honoured if and only if some cut of the oldest unpinned rows meets the row budget and exceeds the byte budget by no more than the saturated total has lost, with an unpinned row left |
| `RetentionGc.UnpinnedSurvivorIsRecent` | crates/running-process-probe-daemon/src/crash_store.rs:1017-1032 | an unpinned survivor crashed within the age bound, and fewer rows of its application are newer than the quota keeps |
| `RetentionGc.QuotaHolds` | crates/running-process-probe-daemon/src/crash_store.rs:1017-1032 | the set of an application's unpinned rows that are left has at most the quota's size |
| `RetentionGc.SafeRowsAreIdempotent` | crates/running-process-probe-daemon/src/crash_store.rs:1033-1051 | rows that fit in 64 bits, or have no unpinned row with bytes under a newer unpinned one: a second collection removes nothing |
| `RetentionGc.HeavyRowsAreNotIdempotent` | crates/running-process-probe-daemon/src/crash_store.rs:1034-1050 | all other rows have a policy under which a second collection removes more |
| `RetentionGc.IdempotentExactly` | crates/running-process-probe-daemon/src/crash_store.rs:1034-1050 | idempotence under every policy if and only if that condition holds |
| `RetentionGc.IdempotentExactlyWhenHonoured` | crates/running-process-probe-daemon/src/crash_store.rs:1033-1051 | for one policy: a second collection removes nothing if and only if the first honoured the budgets or the byte budget is the largest there is |
| `RetentionGc.SaturationBreaksBudget` | crates/running-process-probe-daemon/src/crash_store.rs:1034-1050 | a concrete store of three rows and a policy that break both |
| `CaptureJobs.AtMostOneJobPerConnection` | crates/running-process-probe-daemon/src/capture_jobs.rs:134-155 | in every reachable state a connection correlates with at most one job |
| `CaptureJobs.LateReplyConsumedOnce` | crates/running-process-probe-daemon/src/capture_jobs.rs:165-188 | after a late reply, until the connection leases again, its next upload finds no job |
| `CaptureJobs.UploadInTimeKeepsLease` | crates/running-process-probe-daemon/src/capture_jobs.rs:181-194 | in any run, an upload in time changes nothing, and a second upload over the connection before the deadline finds the same job |
| `CaptureJobs.RunningJobIsFound` | crates/running-process-probe-daemon/src/capture_jobs.rs:165-180 | in any run, an upload over a running job's connection before its deadline is this job's upload |
| `CaptureJobs.QueueIsExact` | crates/running-process-probe-daemon/src/capture_jobs.rs:300-305 | in every reachable state the queue has no duplicate and no unknown id, and each pending job stands in it once |
| `CaptureJobs.LeasedInOrder` | crates/running-process-probe-daemon/src/capture_jobs.rs:145-154 | jobs of one target are leased in the order they were enqueued |
| `CaptureJobs.TicketsGrow` | crates/running-process-probe-daemon/src/capture_jobs.rs:104-122 | the ticket that orders jobs is their rank in the enqueueing order |
| `CaptureJobs.BoundsHold` | crates/running-process-probe-daemon/src/capture_jobs.rs:88-102 | in every reachable state at most 1024 jobs, at most 32 active per target, and complete jobs finished before their deadline |
| `CaptureJobs.RefusesExactlyWhenFull` | crates/running-process-probe-daemon/src/capture_jobs.rs:258-299 | enqueueing is refused for capacity if and only if 1024 unexpired active jobs remain |
| `CaptureJobs.StepMovesForward` | crates/running-process-probe-daemon/src/capture_jobs.rs:197-232 | one call moves a job only forward, and completes it only in time, from running, by its own completion |
| `CaptureJobs.JobsMoveForward` | crates/running-process-probe-daemon/src/capture_jobs.rs:340-357 | over any part of a run a job's state only moves forward and a finished job keeps kind and result |
| `CaptureJobs.UncorrelatedUntilLeased` | crates/running-process-probe-daemon/src/capture_jobs.rs:131-156 | a connection without a job has none until it leases |
| `CaptureJobs.StepKeepsInv` | crates/running-process-probe-daemon/src/capture_jobs.rs:258-306 | every call, with its maintenance, keeps the scheduler's invariant |
| `CaptureJobs.RunKeepsInv` | crates/running-process-probe-daemon/src/capture_jobs.rs:75-256 | the invariant holds at every point of every run |
| `CaptureScheduler.Scheduler.constructor` | crates/running-process-probe-daemon/src/capture_jobs.rs:60-72 | starts as the empty scheduler |
| `CaptureScheduler.Scheduler.Expire` | crates/running-process-probe-daemon/src/capture_jobs.rs:340-357 | the loop over the jobs computes their expiry, which ExpiryMeans states job by job |
| `CaptureScheduler.Scheduler.Maintain` | crates/running-process-probe-daemon/src/capture_jobs.rs:258-306 | expiry, retention and eviction of the oldest finished jobs, and the queue cleaned of what is no longer pending |
| `CaptureScheduler.EvictOldest` | crates/running-process-probe-daemon/src/capture_jobs.rs:274-299 | eviction removes only finished jobs, oldest first, and only until there is room |
| `CaptureScheduler.Scheduler.Enqueue` | crates/running-process-probe-daemon/src/capture_jobs.rs:75-128 | takes the enqueue step, with a fresh id out of the ids drawn |
| `CaptureScheduler.Scheduler.Lease` | crates/running-process-probe-daemon/src/capture_jobs.rs:131-156 | takes the lease step and hands out the leased job's request |
| `CaptureScheduler.Scheduler.AcceptUpload` | crates/running-process-probe-daemon/src/capture_jobs.rs:158-195 | takes the upload step, whose outcome UploadMeans states |
| `CaptureScheduler.Scheduler.Complete` | crates/running-process-probe-daemon/src/capture_jobs.rs:197-213 | takes the completion step after expiring what is overdue |
| `CaptureScheduler.Scheduler.Fail` | crates/running-process-probe-daemon/src/capture_jobs.rs:215-232 | takes the failure step, on active jobs only |
| `CaptureScheduler.Scheduler.Status` | crates/running-process-probe-daemon/src/capture_jobs.rs:235-256 | the reply tells kind, progress, artifact and error of the job exactly, as it is after maintenance |
| `Registrations.Arm` | crates/running-process-probe-daemon/src/state.rs:70-88 | arming succeeds exactly from registering with both guards, and each refusal names its guard |
| `Registrations.ReachableIsSound` | crates/running-process-probe-daemon/src/registry.rs:442-485 | after every run entries and pid index are mutually inverse, states are only registering or armed, claims are well-formed |
| `Registrations.NextKeepsInv` | crates/running-process-probe-daemon/src/registry.rs:525-570 | every operation keeps that |
| `Registrations.HolderIsLatest` | crates/running-process-probe-daemon/src/registry.rs:446-484 | a pid's holder is its latest accepted registrant |
| `Registrations.NonceAdmittedOnce` | crates/running-process-probe-daemon/src/registry.rs:434-441 | no nonce is admitted twice in any run |
| `Registrations.EntriesBelongToOwner` | crates/running-process-probe-daemon/src/registry.rs:326-340 | every registration is one of the daemon's owner |
| `Registrations.CheckedEnvIsAuthorised` | crates/running-process-probe-daemon/src/registry.rs:414-427 | the environment check passes if and only if every disclosed name is allowed and within bounds |
| `Registrations.AcceptedExactlyWhenWellFormed` | crates/running-process-probe-daemon/src/registry.rs:341-432 | a request has no defect if and only if every field is within its bound, the symbol source is consistent and every disclosed variable is allowed and short |
| `Registrations.DefectIsJustified` | crates/running-process-probe-daemon/src/registry.rs:341-432 | a complaint names a field, path, variable or symbol source that really is at fault, with its real size and bound |
| `Registrations.SoundEntryIsWellFormed` | crates/running-process-probe-daemon/src/registry.rs:341-432 | every stored entry's claim is well-formed |
| `Registrations.ArmedExactlyWhenVerified` | crates/running-process-probe-daemon/src/registry.rs:493-508 | with the two calls interleaved freely: armed if and only if there was a verification with both flags true since the entry's own registration; flags are those of the last verification |
| `Registrations.ArmedLosesMeaningExactly` | crates/running-process-probe-daemon/src/registry.rs:493-508 | while armed entries are verified and alive, an operation ends that if and only if it is a verdict with a false flag on an armed entry |
| `Registrations.ArmedMeansVerifiedExactly` | crates/running-process-probe-daemon/src/registry.rs:493-508 | over a whole run, armed entries are verified and alive at every moment if and only if no verdict with a false flag ever reaches an armed entry |
| `Registrations.ArmedButUnverified` | crates/running-process-probe-daemon/src/probe_ops.rs:387-406 | two overlapping registrations of one process, as the daemon runs them: the first one's verdict arms the second one's entry, whose own failed check leaves it armed and unverified |
| `Registrations.ArmedIsVerifiedAndAlive` | crates/running-process-probe-daemon/src/probe_ops.rs:387-406 | with registration taken as one operation, armed if and only if verified and alive |
| `RegisterRequests.ArmedByOwnExactly` | crates/running-process-probe-daemon/src/probe_ops.rs:387-406 | over a whole run of requests that each deliver one verdict: every armed entry has its own request's clean verdict at every moment if and only if no clean verdict ever reaches a registering entry of another request |
| `RegisterRequests.ArmsOwnExactly` | crates/running-process-probe-daemon/src/probe_ops.rs:394-405 | the same for one action: exactly such a verdict arms an entry its own request has not cleared |
| `RegisterRequests.OneAtATimeArmsItsOwn` | crates/running-process-probe-daemon/src/probe_ops.rs:387-406 | if no request is accepted while another for its key waits for its verdict, every armed entry was armed by its own request |
| `RegisterRequests.OneAtATimeKeepsMeaning` | crates/running-process-probe-daemon/src/probe_ops.rs:387-406 | and every armed entry is verified and alive |
| `RegisterRequests.OverlapArmsAnother` | crates/running-process-probe-daemon/src/probe_ops.rs:394-405 | two requests that do overlap, after which an entry is armed against its own request's verdict |
| `RegisterRequests.DeskFollowsRegistry` | crates/running-process-probe-daemon/src/probe_ops.rs:387-406 | the registry in a run of requests is the registry after the run's own events, so the registry's results apply |
| `RegisterSections.SectionsRefineRegistrations` | crates/running-process-probe-daemon/src/registry.rs:434-484 | the nonce section and the entry section interleaved freely refine whole registrations |
| `RegisterSections.SplitRegistryIsSound` | crates/running-process-probe-daemon/src/registry.rs:434-484 | so index, ownership and the meaning of armed hold for every interleaving of the sections |
| `RegistryService.ValidateEnv` | crates/running-process-probe-daemon/src/registry.rs:414-427 | the loop finds the first defect and the saturated total size |
| `RegistryService.Validate` | crates/running-process-probe-daemon/src/registry.rs:341-432 | accepts exactly the well-formed requests, and otherwise complains of something that really is wrong, the first in the source's order |
| `RegistryService.LiveRegistry.BeginRegister` | crates/running-process-probe-daemon/src/registry.rs:326-485 | succeeds exactly for the owner's well-formed request with a fresh nonce and room for it, and then enters exactly this request, in place of whatever held its pid; a refusal says why and leaves the entries |
| `RegistryService.LiveRegistry.VerifyAndArm` | crates/running-process-probe-daemon/src/registry.rs:493-508 | writes both flags on the entry and arms it exactly if it was registering and both are true; no other entry changes |
| `RegistryService.LiveRegistry.Heartbeat` | crates/running-process-probe-daemon/src/registry.rs:511-519 | refreshes exactly an entry on its own connection |
| `RegistryService.LiveRegistry.DropByConn` | crates/running-process-probe-daemon/src/registry.rs:525-546 | removes exactly the connection's entries, from the index too, and counts them |
| `RegistryService.LiveRegistry.ReapExpired` | crates/running-process-probe-daemon/src/registry.rs:553-570 | keeps exactly the entries whose last heartbeat is no longer ago than the grace period, and counts the others |
| `ProbeDaemon.EveryJobWasPermitted` | crates/running-process-probe-daemon/src/probe_ops.rs:340-385 | however requests interleave, every job's target was earlier seen armed, permitting and offering captures |
| `ProbeDaemon.EveryHolderWasRegistered` | crates/running-process-probe-daemon/src/probe_ops.rs:255-275 | a job is only held by a connection over which the target's registration had given a heartbeat |
| `ProbeDaemon.CapturedOnlyIfVerified` | crates/running-process-probe-daemon/src/probe_ops.rs:340-406 | every captured process was registered by the owner, permitted captures, and a verdict for its key had been clean since that registration |
| `ProbeDaemon.ConnectionHoldsOneOwnJob` | crates/running-process-probe-daemon/src/probe_ops.rs:255-275 | two jobs on one connection are the same job, and its target had given a heartbeat over this connection while its entry was registered on it |
| `ProbeDaemon.SchedulerPart` | crates/running-process-probe-daemon/src/probe_ops.rs:229-325 | the scheduler's part of any daemon run is a run of the scheduler, so its results carry over |
| `ProbeDaemon.RegistryFollowsEvents` | crates/running-process-probe-daemon/src/probe_ops.rs:229-325 | the registry in a daemon run is the registry of the run's registry events |
| `ProbeOps.Core.Register` | crates/running-process-probe-daemon/src/probe_ops.rs:387-406 | arms exactly an admissible request verified over a live connection, and each refusal's code names a defect the request or verdict really has |
| `ProbeOps.Core.Heartbeat` | crates/running-process-probe-daemon/src/probe_ops.rs:254-276 | leases only over the registration's connection and hands out the job's request with the registration's symbols |
| `ProbeOps.Core.CaptureStack` | crates/running-process-probe-daemon/src/probe_ops.rs:340-385 | the three refusals told apart exactly, and enqueueing exactly when permitted |
| `ProbeOps.Core.Unregister` | crates/running-process-probe-daemon/src/probe_ops.rs:310-328 | withdraws exactly over the registration's own connection |
| `ProbeOps.Core.GetJobStatus` | crates/running-process-probe-daemon/src/probe_ops.rs:286-292 | reports the job as it is after maintenance, or refuses exactly if there is none |
| `ProbeOps.Core.AskProcesses` | crates/running-process-probe-daemon/src/probe_ops.rs:293-295 | the reply is the specified answer over the registry as it is |
| `ProbeOps.Core.DispatchKeepsInv` | crates/running-process-probe-daemon/src/probe_ops.rs:229-331 | every request keeps the registry's invariant, which queries rest on |
| `ProbeOps.Core.Dispatch` | crates/running-process-probe-daemon/src/probe_ops.rs:229-331 | a foreign peer is refused and changes nothing; each request of the owner has exactly its own effect on the registry and makes exactly its own call of the scheduler |
| `LiveQuery.QueryEngine.Execute` | crates/running-process-probe-daemon/src/query.rs:550-608 | the reply is the first `limit` matches, in (pid, start) order, of the armed entries and the OS rows no armed entry covers; what matches and what is shown of it is in QueryReplies |
| `LiveQuery.QueryEngine.OsSnapshot` | crates/running-process-probe-daemon/src/query.rs:610-628 | the cached table is used exactly while it is younger than its age limit, and replaced with its time otherwise |
| `LiveQuery.BootIdIsNotNeeded` | crates/running-process-probe-daemon/src/query.rs:550-575 | in every reachable registry no two entries share pid and start, so the map key loses none |
| `LiveQuery.GatherEntries` | crates/running-process-probe-daemon/src/query.rs:550-575 | the entry loop gathers exactly the armed registrations |
| `LiveQuery.AddRows` | crates/running-process-probe-daemon/src/query.rs:575-598 | the row loop adds exactly the first row of each slot whose pid is not armed |
| `LiveQuery.TakeMatching` | crates/running-process-probe-daemon/src/query.rs:598-608 | the ordered walk takes the first `limit` matches |
| `LiveQuery.SelectionIsAnswer` | crates/running-process-probe-daemon/src/query.rs:550-608 | the walk over the gathered map is the specified answer |
| `LiveQuery.RepliesStayWithinAllowlist` | crates/running-process-probe-daemon/src/query.rs:334-375 | over any run of the registry, disclosed environment names are on the registrant's own allowlist, and unregistered processes disclose none |
| `EmitQueue.QueueAndCounter` | crates/running-process-probe-interposer-linux/src/lib.rs:356-371 | in every interleaving at most 4096 lines are queued, and the counter is queued plus in-flight lines whenever no producer is inside |
| `EmitQueue.CounterNeverWraps` | crates/running-process-probe-interposer-linux/src/lib.rs:383-404 | no step underflows or overflows the counter |
| `EmitQueue.NoLineLostOrReordered` | crates/running-process-probe-interposer-linux/src/lib.rs:356-404 | accepted lines are those that left, then the queue; written lines are a subsequence of the accepted ones |
| `EmitQueue.NoStrandedLine` | crates/running-process-probe-interposer-linux/src/lib.rs:392-402 | a parked drain thread has left no line behind |
| `EmitQueue.FlushSeesZero` | crates/running-process-probe-interposer-linux/src/lib.rs:410-417 | at a zero counter, all accepted lines are written or evicted if and only if no producer stands between queueing and counting its line; otherwise that line is the whole queue |
| `EmitQueue.ZeroCounterMissesALine` | crates/running-process-probe-interposer-linux/src/lib.rs:356-371 | a run that gets there: counter zero, one line queued |
| `EmitQueue.StepKeepsInv` | crates/running-process-probe-interposer-linux/src/lib.rs:356-404 | each atomic step of producers and drain keeps the invariant |
| `EmitQueue.RunKeepsInv` | crates/running-process-probe-interposer-linux/src/lib.rs:334-404 | the invariant holds at every point of every run |
| `CommandLine.List2Cmdline` | src/running_process/command_render.py:4-36 | a reader that follows Microsoft's rules gets exactly the arguments back from the rendered line |
| `CommandLine.SplitRendered` | src/running_process/command_render.py:4-36 | splitting inverts rendering for every list of arguments |
| `CommandLine.RenderingIsInjective` | src/running_process/command_render.py:4-36 | different lists never render alike |
| `CommandLine.ScanQuoted` | src/running_process/command_render.py:17-33 | the inside of a quoted argument reads back, with every run of backslashes and every quote |
| `CommandLine.ScanRenderedArgument` | src/running_process/command_render.py:4-36 | one rendered argument reads back and stops at the separator |
| `LikeEscape.EscapeLike` | crates/running-process-probe-daemon/src/crash_query.rs:194-203 | the escaped literal matches exactly the literal, up to ASCII case |
| `LikeEscape.EscapedThenPattern` | crates/running-process-probe-daemon/src/crash_query.rs:153-155 | an escaped literal before any pattern matches exactly the literal before a match of that pattern |
| `LikeEscape.EscapedPrefix` | crates/running-process-probe-daemon/src/crash_query.rs:153-155 | followed by a percent sign it matches exactly the texts it is a prefix of |
| `LikeEscape.UnescapedIsLiteralExactlyWhenPlain` | crates/running-process-probe-daemon/src/crash_query.rs:190-203 | without escaping a literal means itself if and only if it has no special character |
| `ProcessTree.BuildProcessTree` | src/running_process/dashboard.py:157-166 | the nodes hang as a forest that holds each process whose links end exactly once, and no process whose links run into a circle; its roots are exactly the processes whose parent is absent, unknown or themselves |
| `ProcessTree.AppearsOnceOrNever` | src/running_process/dashboard.py:157-166 | any forest that follows the links has each grounded process once and no other |
| `ProcessTree.GroundedOrCircular` | src/running_process/dashboard.py:160-165 | the links of a process end or enter a circle, never both |
| `ProcessTree.SortTreeNodes` | src/running_process/dashboard.py:145-154 | the recursive sort of the nodes' lists in place terminates, permutes every list, keeps sorted lists sorted, and leaves all lists below sorted |
| `ProcessTree.SortSiblings` | src/running_process/dashboard.py:146-151 | a list of nodes is permuted into the order of time and pid |
| `ProcessTree.LinkChildren` | src/running_process/dashboard.py:158-165 | the loop that appends to the nodes' lists puts each node into the one list its link names, in table order |
| `ProcessTree.PathIsSimple` | src/running_process/dashboard.py:152-153 | a path down from a root never meets itself, which is why the recursion ends |
| `ProcessTree.MakeNodes` | src/running_process/dashboard.py:158-158 | one node for each pid, in the place of its first row and with the fields of its last |
| `ProcessTree.ReadForest` | src/running_process/dashboard.py:145-154 | sorted lists that hang under each other are a forest of the table |
| `RetentionGc.RetiredExactly` | crates/running-process-probe-daemon/src/crash_store.rs:1017-1032 | a row is retired if and only if it is unpinned and the age bound is on and it crashed longer ago, or the quota is on and at least that many newer rows of its application exist |
| `RetentionGc.SelectedForCause` | crates/running-process-probe-daemon/src/crash_store.rs:1033-1051 | any other row is selected only if, without the retired ones, there are more rows or more bytes than the budgets allow |
| `CrashDb.PinnedTakes` | crates/running-process-probe-daemon/src/crash_store.rs:356-371 | taking a pin raises the own session's pins and the row's count by one and touches nothing else |
| `CrashDb.UnpinnedReleases` | crates/running-process-probe-daemon/src/crash_store.rs:422-440 | a release lowers the own session's pins on that row by one, or removes the last one, lowers the count by one, and touches nothing else |
| `CrashDb.FetchRoundTrip` | crates/running-process-probe-daemon/src/crash_store.rs:333-442 | releasing a pin undoes taking it: the tables are as before |
| `CrashDb.OpenedOpens` | crates/running-process-probe-daemon/src/crash_store.rs:467-502 | an open drops exactly the dead sessions and their pins, enters the own session and recounts |
| `CrashDb.ReconciledMeans` | crates/running-process-probe-daemon/src/crash_store.rs:922-964 | reconciliation clears exactly the names of missing files and sweeps exactly the owned files that no row names |
| `CrashDb.InsertedAddsOne` | crates/running-process-probe-daemon/src/crash_store.rs:812-857 | an insert adds one row under a number never used, with its own fields and no pins, and changes no other |
| `CrashDb.DeletedTakesThose` | crates/running-process-probe-daemon/src/crash_store.rs:1053-1066 | a delete takes the selected rows with their pins and nothing else |
| `CrashStore.Store.RecordedRowHolds` | crates/running-process-probe-daemon/src/crash_store.rs:812-857 | the new row holds the report's own class, name, time, size and source, names the new artifact and is unpinned; it is missing only if the collection selected it |
| `CrashStore.UnselectedStays` | crates/running-process-probe-daemon/src/crash_store.rs:1053-1087 | from any state, a row that is not selected and whose file is there comes through a collection unchanged |
| `CrashStore.ListedRowIsRow` | crates/running-process-probe-daemon/src/crash_store.rs:987-1016 | the collector sees each row's own class, name, time, size and count |
| `CrashProtocol.UnguardedRowIsUnpinned` | crates/running-process-probe-daemon/src/crash_store.rs:417-442 | in any run without a lost release: a live session's pins on a row are exactly its guards, and a row without guards is unpinned once no dead session is listed |
| `CrashProtocol.StepStaysExact` | crates/running-process-probe-daemon/src/crash_store.rs:417-442 | each step except a lost release keeps pins equal to guards |
| `StoreRuns.ReconcileIsARun` | crates/running-process-probe-daemon/src/crash_store.rs:444-506 | what the store object does at an open or sweep is reached by steps of the protocol, for any sessions dropped that are not alive |
| `StoreRuns.CollectionIsARun` | crates/running-process-probe-daemon/src/crash_store.rs:987-1088 | so is a collection: commit, unlinks outside the lock, sweep |
| `StoreRuns.RecordIsARun` | crates/running-process-probe-daemon/src/crash_store.rs:224-292 | so is a recording: write, publish, commit |
| `StoreRuns.IngestIsARun` | crates/running-process-probe-daemon/src/crash_store.rs:616-649 | so is the ingestion of a complete spool file, after which it has a row and has left the spool, and every other row is as it was |
| `StoreRuns.FetchIsARun` | crates/running-process-probe-daemon/src/crash_store.rs:333-442 | so are a fetch and its end, which lead back to the same world |
| `CaptureOutcomes.ExpiryMeans` | crates/running-process-probe-daemon/src/capture_jobs.rs:340-357 | job by job: only an active job past its deadline changes; it fails with the deadline's code and detail at that time, and a running one remembers its connection |
| `CaptureOutcomes.MaintenanceMeans` | crates/running-process-probe-daemon/src/capture_jobs.rs:258-306 | active jobs in time stay; a finished job stays unchanged for 300 seconds unless the table is full, and no longer |
| `CaptureOutcomes.EvictionMeans` | crates/running-process-probe-daemon/src/capture_jobs.rs:274-299 | a finished job within its time is evicted only from a full table, before all that finished later, and only as far as needed |
| `CaptureOutcomes.OverdueMeans` | crates/running-process-probe-daemon/src/capture_jobs.rs:340-357 | an overdue active job that is still there after maintenance is failed, with its connection if it ran |
| `CaptureOutcomes.EnqueueMeans` | crates/running-process-probe-daemon/src/capture_jobs.rs:75-128 | the new job is pending for the request's own target, last in the queue, until the deadline asked for or 30 seconds from now |
| `CaptureOutcomes.BusyTargetMeans` | crates/running-process-probe-daemon/src/capture_jobs.rs:95-102 | below the total bound a job is refused if and only if 32 jobs of its target are active |
| `CaptureOutcomes.LeaseMeans` | crates/running-process-probe-daemon/src/capture_jobs.rs:131-156 | a lease is given if and only if a job of the target waits and the connection owes no reply; it runs one such job on that connection |
| `CaptureOutcomes.UploadMeans` | crates/running-process-probe-daemon/src/capture_jobs.rs:158-195 | an upload finds a job if and only if one owes a reply on the connection; an error fails a running job, success leaves it, a late reply clears the remembered connection and nothing else |
| `CaptureOutcomes.CompletionMeans` | crates/running-process-probe-daemon/src/capture_jobs.rs:197-213 | completion succeeds if and only if the job runs and is in time, and records artifact and time |
| `CaptureOutcomes.FailureMeans` | crates/running-process-probe-daemon/src/capture_jobs.rs:215-232 | failing an active job records error, detail and time; any other call changes nothing |
| `CaptureOutcomes.ExpiredStaysMarked` | crates/running-process-probe-daemon/src/capture_jobs.rs:165-195 | over any run: a job that expired while running keeps its connection remembered until an upload over it, whatever else happens, while it is in the table |
| `CaptureOutcomes.ExpiredJobHoldsConnection` | crates/running-process-probe-daemon/src/capture_jobs.rs:134-180 | over any run: until then its connection is given no other job, and the next upload over it is taken for this job |
| `QueryReplies.RegistrationMatches` | crates/running-process-probe-daemon/src/query.rs:377-416 | a registration matches if and only if its own name, paths, class, pid, start time and disclosed variables meet every criterion of the query |
| `QueryReplies.RowMatches` | crates/running-process-probe-daemon/src/query.rs:377-416 | the same for a row of the OS table, which never meets a criterion on class or environment |
| `QueryReplies.RegistrationShows` | crates/running-process-probe-daemon/src/query.rs:334-456 | field by field, a reply about a registration shows that registration's own data, operations as their codes, and environment only if asked for |
| `QueryReplies.RowShows` | crates/running-process-probe-daemon/src/query.rs:418-456 | a reply about an OS row shows the row's own data and is marked unregistered |
| `QueryReplies.RepliesDescribe` | crates/running-process-probe-daemon/src/query.rs:550-608 | over any run of the registry, every info of a reply describes an armed registration, or a row no armed one holds, that the query asks for |
| `QueryReplies.NoRegistrationMissed` | crates/running-process-probe-daemon/src/query.rs:550-608 | an armed registration the query asks for is in the reply, or the reply is full and wholly earlier in the order |
| `QueryReplies.NoRowMissed` | crates/running-process-probe-daemon/src/query.rs:575-608 | the same for the first OS row of a process that no armed registration holds |
| `QueryReplies.RepliesInOrder` | crates/running-process-probe-daemon/src/query.rs:598-608 | replies are strictly in the order of pid and start time |
| `QueryReplies.RepliesWithinLimit` | crates/running-process-probe-daemon/src/query.rs:598-608 | and at most as many as the limit |
| `Registrations.AdmittedEnters` | crates/running-process-probe-daemon/src/registry.rs:442-485 | an accepted request takes the place of its pid's holder, has its own fields, connection and time, and starts registering, unverified; its nonce is noted and no other pid's entry changes |
| `ProbeOps.RefusalFits` | crates/running-process-probe-daemon/src/probe_ops.rs:436-452 | each refusal code names a defect that the request, peer, nonce or verdict really has |
| `ProcessTree.SiblingOrder` | src/running_process/dashboard.py:146-151 | siblings stand in the order of creation time, or registration time where that is missing or zero, then of pid |
| `ProcessTree.RootsExactly` | src/running_process/dashboard.py:160-165 | the roots are exactly the table's rows whose parent is absent, unknown or themselves |
| `ProcessTree.ChildrenExactly` | src/running_process/dashboard.py:160-165 | below a process stand exactly the other rows that name it as their parent |
| `ProcessTree.TableKeepsLast` | src/running_process/dashboard.py:158-158 | of several rows with one pid the last one counts |
| `ProcessTree.OrderKeepsFirst` | src/running_process/dashboard.py:158-158 | and the first one gives its place |
| `EmitQueue.EvictsOnlyWhenFull` | crates/running-process-probe-interposer-linux/src/lib.rs:356-366 | a line is given up only from a queue of 4096, and it is the oldest |
| `EmitQueue.FreeLockMeansQueued` | crates/running-process-probe-interposer-linux/src/lib.rs:356-371 | a producer that finds the lock free puts its own line at the end and counts it |
| `EmitQueue.DrainWritesOldest` | crates/running-process-probe-interposer-linux/src/lib.rs:383-404 | the drain takes the oldest line, lets go of the lock, writes it and counts it off |
| `CommandLine.QuotedExactlyWhenNeeded` | src/running_process/command_render.py:7-16 | an argument is left as it is if and only if it is not empty and has no blank, quote or backslash; otherwise it stands in quotes |
| `CommandLine.JoinedBySpaces` | src/running_process/command_render.py:5-36 | arguments are joined by exactly one space |

## Left out

- SQL text, schema migration and SQLite's internals: tables are maps, and an immediate transaction commits whole or not at all.
- Hashing, random ids, JSON and protobuf: values are opaque; artifact names and session ids are assumed never to be drawn twice, and a drawn job id that is taken is drawn again as in the source.
- Symlink, permission and reparse-point checks, syncing of directories, and the symbolication worker: file operations succeed or the step does not happen.
- Deletion of artifacts by other programs: the protocol of processes excludes it; `Store.ReconcileArtifacts` is proved from any state of the directory.
- The judgement that a session is dead: the protocol assumes it is right, that is, no live session is judged dead.
- Removal of a finished capture's report files when its job is forgotten: a file operation without effect on the scheduler.
- CrashStore.Store.Record: the collection after an insert goes through or does not happen; one that fails half way is a run of the protocol. Columns that no decision depends on are left out.
- CrashStore.Store.IngestPending: which row each source has is stated at the time of its recording, because a later collection may remove it; `RecordingKeepsOthers` says that nothing else does.
- ProcessTree.SortTreeNodes: a child list is a value that its node holds, so a list is sorted when it is put back; the sort by key is an insertion sort.
- EmitQueue: a transition system and no class, because its threads share memory without a common lock; a poisoned lock, at which the drain thread ends, is left out.
- Poisoned mutexes of the daemon: the source panics or takes the data over, and neither is modelled.
- LiveQuery: `from_proto`'s validation of queries and the insides of glob and regular-expression matching; a matcher is any predicate.
- Crash queries other than LIKE escaping, and the rollups: SQL does the work there. NUL characters in LIKE patterns are left out.
- ProbeOps.Core.Dispatch: what the crash history answers is a parameter; a registry that no run reaches is excluded by its invariant, which every request keeps.
- CommandLine.SplitRendered: the reader treats all arguments alike, so the special rules for the program name are not part of it.
- The bring-up of the daemon, where at most one daemon follows from the atomicity of binding.
- The interposer's descriptor table and foreign calls, and the macOS interposer, whose queue repeats this one.
- The platform layer, the command-line supervisor, the dashboard's HTML and the Python wrappers.
