# A verified model of the serverless function platform

The platform stores uploaded Python functions, queues executions of them in Redis, runs each one in a sandbox, and
records the outcome in PostgreSQL; a scheduler fires functions by cron expression, and an endpoint runs ephemeral code.
This project models the parts of it where several processes, several tables or two ends of a text format have to agree,
and proves what holds over every run, and where a promise fails, exactly when it fails.

`dafny verify dfyconfig.toml` checks everything.

## How it is organised

| files | what they model |
|---|---|
| `Lifecycle`, `Worker` | the execution row, its status table, the worker's two transactions, the recovery sweep |
| `JobQueue`, `Handoff` | the Redis sorted sets, the client calls with retries, the hand-off under every interleaving |
| `Pipeline`, `PipelineCases`, `TerminalRows`, `Recovery` | producers, workers, cancellation, recovery, crashes and the clock as one state machine |
| `Lease`, `Scheduler`, `SchedulerCases` | the SET-NX lease and the cron scheduler behind it |
| `Json`, `JsonText`, `JsonForms`, `JsonRoundTrip`, `JsonScan` | `json.dumps` and `json.loads`, what is written, what comes back, and which texts cannot be read |
| `ResultWire`, `LogPaging` | the result line in the log, stored log rows, pages of logs |
| `Tables`, `FunctionDeletion`, `Versions`, `AuditTrail`, `Routing`, `Catalog`, `Archives`, `FunctionsRouter`, `FunctionQuota` | functions, versions, canaries, audit rows, cascading delete, stored archives, limits and names |
| `CodeValidator` | the deny-list visitor for uploaded archives |
| `RateLimit`, `Ephemeral` | admission of ephemeral executions |
| `RunnerCache`, `RunnerPaths`, `RunnerSteps`, `RunnerCacheCases`, `RunnerMarkerCase`, `RunnerMain` | the runner's source tree, dependencies and marker files under crashes |

Code that updates objects is a class whose methods are proved equal to a specification function of the old state. What such
a function computes is stated once more in columns, positions and numbers, without naming it.
Concurrent protocols are state machines: a step predicate says when a step may happen, a function says what it does, and
theorems quantify over all step sequences. The protocols' steps use the very functions the methods are proved to compute.

## What is assumed

- Each database session block (shared/db/session.py:51-71) is one atomic step. The code takes no row lock
  (worker/worker.py:111-113; the comment at scheduler/scheduler.py:108 speaks of a lock the query does not take).
- Each Redis command is atomic; the pop and the insertion into the processing set are two commands. ZSCAN answers with
  members that are there and meets every member that is there throughout; anything may be written between its calls.
- Times are integers, one clock per protocol. Identifiers and lock tokens drawn with uuid4 never repeat. Creation stamps
  of version and audit rows differ.
- A job message's timeout is its row's timeout. A cron expression is the function "least matching instant strictly after".
- A float is its repr text, which `float` reads back to the same float. Python strings are sequences of code points.
- pip, the parser and the sandbox are parameters: what they return is arbitrary. Commands to the object store are done,
  refused, or done and not answered. pip never writes anything called `.sopm-installed` at the top of the dependency
  directory. Handlers do not write into the cache directory.
- What `zipfile` finishes writing is the member's content (it checks a checksum), or it raises. A member called
  `source.zip` overwrites the archive being read; extraction may go on or break off after it.
- Everything within one run of the runner belongs to one version, and runs do not overlap.

## Where the repository's own promises fail

- docs/ARCHITECTURE.md:69 speaks of an atomic Lua pop; the code pops and inserts in two commands, and a failure between
  them loses the job (`Handoff.TwoCommandsCanLose`; `Handoff.RunsConserve` counts what is lost).
- docs/ARCHITECTURE.md:146 creates executions as PENDING; the code creates them as QUEUED.
- A status history is not always a path in the transition table, not even when a failed enqueue delivered nothing: a
  cancellation between the commit and the failure handler becomes FAILED
  (`PipelineCases.UndeliveredJobCanLeaveTheTable`). `Pipeline.HistoryIsAPathIffNotClobbered` gives the exact condition.
- Terminal rows are not frozen: a late report rewrites everything but the status, a failed enqueue status and error
  (`TerminalRows.FinishedRowIsLastRewrite`). A row is frozen exactly from when no worker is busy with it and its
  enqueuer is through (`TerminalRows.FrozenIff`).
- A scheduler pass at least as long as its lease of twice the poll interval can fire a slot twice; shorter ones cannot
  (`SchedulerCases.OncePerSlotIff`).
- A JSON value does not survive the round trip if, and only if, one of its strings holds a high surrogate directly
  before a low one (`JsonRoundTrip.RoundTrip`).
- A result printed while an output line is still open is lost, whatever that line holds, and only then
  (`ResultWire.EmittedResult`); the success path always ends the line first (`ResultWire.SuccessPathRoundTrip`).
- The rate counter's expiry is safe for INCRs less than 60 seconds after their minute's end, and for none later
  (`RateLimit.SlackIsSafeIff`).
- The limit of functions per user holds exactly until a deprecated function is revived at the limit
  (`FunctionQuota.LimitHoldsIff`); a user can come to any number of them (`FunctionQuota.NoBound`).
- The concurrency limit is exact only for serial requests (`Ephemeral.BoundIsExact`).
- An archive can make the runner's own markers exist, as files or as directories
  (`RunnerMarkerCase.NestedMarkerMisleads`); `RunnerCacheCases.AlwaysTruthfulIff` says which archives are safe.
- A delete that fails half-way is rolled back in the tables but not in the object store: archives are lost exactly when
  the first removal takes effect and then its answer, a later removal, or the commit fails
  (`Archives.DeletionKeepsVettedIff`; `Archives.InterruptedDeletion`, `Archives.UnheardDeletion`,
  `Archives.UncommittedDeletion`). Calling it again repairs that (`Archives.RetryRepairs`).

## Model

| member | source | states |
|---|---|---|
| Lifecycle.TransitionsClimb | shared/db/models.py:132-159 | every allowed transition climbs a rank, exactly the terminal statuses have no way out and are not active, only PENDING leads to QUEUED |
| Lifecycle.EnteredFrom | shared/db/models.py:132-159 | the table entry by entry: from where each status is entered |
| Lifecycle.PathExtends | shared/db/models.py:132-159 | adding a status keeps a history a path exactly when the table allows it |
| Lifecycle.PathIsShort | shared/db/models.py:132-159 | a history that follows the table changes at most three times |
| Lifecycle.Execution.TransitionTo | shared/db/models.py:403-405 | accepted exactly when the table allows it; changes the status and nothing else, or raises with the allowed set and changes nothing |
| WorkerTransactions.Worker.Claim | worker/worker.py:108-137 | the first transaction: exactly a QUEUED row becomes RUNNING with start time and worker, every other column and row stays |
| WorkerTransactions.Worker.Report | worker/worker.py:167-220 | the second transaction on a RUNNING row: TIMED_OUT exactly if the outcome timed out, COMPLETED exactly if it succeeded and did not, FAILED otherwise; on others the status stays unless the table allows it; the result columns always as the outcome has them; one numbered log row per entry |
| WorkerTransactions.Worker.AppendLogs | worker/worker.py:210-218 | the new log rows are the entries in order, numbered from 0 |
| WorkerTransactions.ReportedColumns | worker/worker.py:186-207 | every column a report leaves, in terms of the outcome: status, failure kind ("infra" for three error texts, "handler" for other failures, none for a success), duration, result, error, completion time |
| WorkerTransactions.WorkerErrorsAreInfra | worker/worker.py:146-206 | an outcome the worker reports itself, for its own timeout or any exception of the sandbox, is always an infrastructure failure, whatever the exception says |
| WorkerTransactions.Worker.RecoverStale | worker/worker.py:255-309 | fails exactly the RUNNING rows whose start lies 2 * max(1, timeout) + grace seconds back or more, leaves all others alone; the count is the number of rows changed, with one log row for each |
| WorkerTransactions.Worker.RecoverOne | worker/worker.py:268-297 | one row of the sweep |
| WorkerTransactions.SweptColumns | worker/worker.py:268-297 | that deadline as a number, and every column a failed row is left with |
| WorkerTransactions.SweepChanges | worker/worker.py:255-309 | the rows handled are those the sweep changes, each once |
| JobQueue.Redis.PopMin | shared/queue/redis_client.py:173-175 | removes the member no other comes before: lower score, or the same and the smaller text |
| JobQueue.Redis.EnqueueJob | shared/queue/redis_client.py:146-157 | the queue after up to three pushes, whichever were refused or lost their reply: the job at its time minus 1,000,000 times its priority for the last push not refused before an answer, untouched if all are refused |
| JobQueue.RetriedPushIsOneEntry | shared/queue/redis_client.py:61-66 | a retried push leaves at most one entry for the job, at the score of the last push that landed |
| JobQueue.LastPushCounts | shared/queue/redis_client.py:146-157 | which push decides the score: the last that took effect up to the first answered one |
| JobQueue.OneMinimum | shared/queue/redis_client.py:173 | the member to pop is unique |
| JobQueue.Redis.TryDequeue | shared/queue/redis_client.py:173-180 | each outcome of the two commands: empty, untouched, dropped, stranded in processing, handed over |
| JobQueue.Redis.DequeueJob | shared/queue/redis_client.py:160-180 | over all retries, what left the queue is handed over, stranded or lost, and the last two number at most the failed commands |
| JobQueue.Redis.TryAck | shared/queue/redis_client.py:190-205 | one attempt: which commands can fail it, and that it takes out one entry with the id, finds one that somebody else has taken out, or scans past everything that stays |
| JobQueue.Redis.AckJob | shared/queue/redis_client.py:183-205 | over up to three attempts and any writes in between, only entries with the id go, at most one more than removals whose reply was lost; none goes only if no such entry was there throughout some scan, or somebody else took out the one found; undisturbed, exactly one goes or there was none |
| Handoff.StepConserves | shared/queue/redis_client.py:146-205 | each Redis command keeps every delivery in exactly one place |
| Handoff.RunsConserve | shared/queue/redis_client.py:146-205 | in every reachable state each delivery is queued, in a hand, in processing, acked or lost, and as many are lost as commands failed or workers died between pop and insertion |
| Handoff.TwoCommandsCanLose | shared/queue/redis_client.py:173-179 | a run from the empty state in which the only job pushed ends in no set and in no hand |
| Handoff.AttemptIsSteps | shared/queue/redis_client.py:173-180 | a dequeue attempt of the client is at most two protocol steps with the same effect |
| Handoff.PopsAreSorted | shared/queue/redis_client.py:156-173 | jobs leave in the order of time minus 1,000,000 times priority |
| Handoff.NeverOvertaken | shared/queue/redis_client.py:156-157 | a job of priority p pushed at t leaves before any job of priority q pushed after t + (q - p) * 1,000,000 |
| Pipeline.SandboxAtMostOnce | worker/worker.py:108-144 | in every interleaving of producers, retries, workers, cancels, recovery and crashes the sandbox is invoked at most once per execution |
| Pipeline.StepRunsOnce | worker/worker.py:108-144 | the inductive step: a started row stays started, one live worker per execution |
| Pipeline.InvokeRunsOnce | worker/worker.py:139-145 | invoking the sandbox keeps one invocation per execution |
| Pipeline.ClaimRunsOnce | worker/worker.py:119-137 | claiming a row keeps one live worker per execution |
| Pipeline.StartedForever | shared/db/models.py:132-159 | no step re-enters QUEUED |
| Pipeline.StatusStep | api/routers/executions.py:117-123 | what each step can do to a status: an allowed transition, or the failed enqueue's assignment |
| Pipeline.RowStays | worker/worker.py:102-220 | no step of the pipeline removes an execution |
| Pipeline.CreateWrites | api/routers/executions.py:83-95 | a new execution is QUEUED with empty columns |
| Pipeline.PushWrites | shared/queue/redis_client.py:146-157 | a push attempt and what the enqueuer does after it |
| Pipeline.GiveUpWrites | api/routers/executions.py:117-123 | a failed enqueue writes FAILED, its error and "queue", and nothing else |
| Pipeline.CancelWrites | api/routers/executions.py:275-294 | a cancellation changes only the status of a row that is not over |
| Pipeline.ClaimWrites | worker/worker.py:119-137 | a claim takes exactly a QUEUED row |
| Pipeline.SweepWrites | worker/worker.py:255-297 | a sweep fails exactly the rows past the deadline |
| Pipeline.OthersWriteNothing | worker/worker.py:86-145 | no other step but a report writes execution rows |
| Pipeline.InvokesAreRecorded | worker/worker.py:139-145 | the recorded sandbox runs are the invocations, in order |
| Pipeline.ReturnIsKept | worker/worker.py:139-186 | a worker reports what the sandbox returned to it |
| Pipeline.HistoryRecords | shared/db/models.py:132-159 | a history gains each new status once |
| Pipeline.JobsConserved | worker/worker.py:86-100 | conservation of deliveries carries over to the whole pipeline |
| Pipeline.HistoryIsAPathIffNotClobbered | api/routers/executions.py:117-123 | over any run a status history is a path in the table exactly when no failed enqueue overwrote a completed, timed-out or cancelled row |
| Pipeline.HistoryStep | shared/db/models.py:132-159 | one step extends the history by a table entry, or clobbers |
| Pipeline.AtMostThreeChanges | shared/db/models.py:132-159 | no execution changes its status more than three times in any run |
| Pipeline.FirstTerminalStatusStays | worker/worker.py:188-191 | the first terminal writer among worker, cancel and recovery wins; the status stays exactly as long as no failed enqueue clobbers it |
| Pipeline.LateReportRewritesAllButStatus | worker/worker.py:188-207 | a report on a terminal row keeps the status and writes the outcome's result, error, failure kind, duration and the completion time |
| TerminalRows.FinishedStep | worker/worker.py:167-220 | a step leaves every column of a finished row alone unless it is a report on it or its failed enqueue, and what these two leave |
| TerminalRows.FinishedRowIsLastRewrite | worker/worker.py:167-220 | in any run a finished row is what the last report or failed enqueue left, or what it was when there was none |
| TerminalRows.FrozenIff | api/routers/executions.py:100-123 | in every reachable state a finished row stays as it is in all continuations exactly when no worker is busy with it and its enqueuer is through |
| TerminalRows.BusyWorkerSpoils | worker/worker.py:139-220 | a worker busy with a finished row in any way has a continuation that changes it |
| TerminalRows.EnqueuerSpoils | api/routers/executions.py:100-123 | so has an enqueuer that is not through |
| PipelineCases.UndeliveredJobCanLeaveTheTable | api/routers/executions.py:117-123 | a run in which nothing was delivered and the history is QUEUED, CANCELLED, FAILED |
| StaleRecovery.SweepFailsOnlyOrphans | worker/worker.py:255-279 | a sweep with grace of at least 60 never touches the row of a worker that is within timeout + 30 seconds plus write, however slow other workers are |
| StaleRecovery.OnTimeIsNotStale | worker/worker.py:268-274 | the deadline arithmetic for every timeout, including zero |
| StaleRecovery.WorkersRemember | worker/worker.py:135-145 | in every run what a live worker knows of its claim agrees with the row it claimed |
| StaleRecovery.StepTakesRowIff | worker/worker.py:255-279 | one step takes a RUNNING row from its live worker exactly if it is a cancellation, its failed enqueue, or a sweep past the claim's deadline |
| StaleRecovery.ClaimHoldsIff | worker/worker.py:255-279 | in every run a claimed row is still RUNNING exactly if none of the three has happened since the claim |
| StaleRecovery.ReportLandsUnlessTaken | worker/worker.py:135-191 | in every run, if none of the three has happened since its claim, a worker's report makes its row TIMED_OUT, COMPLETED or FAILED by the outcome's own flags; else the row is CANCELLED or FAILED and stays so |
| StaleRecovery.PromptReportLands | worker/worker.py:135-191 | the status by the outcome's flags lands for a worker that is on time at every sweep since its claim, unless the row is cancelled or its enqueuer gives up, whatever other workers do |
| StaleRecovery.SweepTakesRowIff | worker/worker.py:268-279 | a sweep takes a live worker's row exactly from 2 * max(1, timeout) + grace seconds after the claim |
| Lease.Server.SetNx | shared/queue/redis_client.py:106-111 | SET NX EX succeeds exactly when there is no entry or it has expired, and then the entry carries the token for the lease's length |
| Lease.DistributedLock.Acquire | shared/queue/redis_client.py:101-115 | polls until the deadline; on success the key carries the fresh token, on failure nothing ever carries it |
| Lease.DistributedLock.ReleaseLock | shared/queue/redis_client.py:117-129 | deletes the key exactly when it is unexpired and carries this object's token |
| Lease.StepKeepsLock | shared/queue/redis_client.py:101-135 | the lock invariant under acquisition, expiry, release and crash |
| Lease.TurnTakesFreeKey | shared/queue/redis_client.py:101-115 | one turn of the polling loop: the key is taken exactly if none is there or it has expired, and owned exactly if the client hears so |
| Lease.OneHolder | shared/queue/redis_client.py:101-135 | at most one client owns the unexpired lease |
| Lease.ReleaseSparesOthers | shared/queue/redis_client.py:117-129 | no release by a failed acquirer, an expired holder or a repeated call deletes another client's entry |
| Lease.SectionsExclude | shared/queue/redis_client.py:131-135 | sections shorter than the lease never overlap |
| Lease.LockInvariantHolds | shared/queue/redis_client.py:101-135 | the lock invariant in every reachable state |
| Lease.MutualExclusion | shared/queue/redis_client.py:101-135 | one holder in every reachable state, whose entry no other client's release removes |
| Scheduling.Scheduler.FireSchedule | scheduler/scheduler.py:104-201 | the code for one schedule decides as specified (nothing happens when the first transaction fails), creates the execution for the slot it was due at, and when its second transaction commits sets the next run to the first matching instant after now, with none in between, notes the run, names the execution and fails it if the queue refused it; every schedule names the execution created when it last ran |
| Scheduling.Scheduler.ProcessDueSchedules | scheduler/scheduler.py:76-102 | the loop over what the query found due has the effect of its turns in order, failed ones included; if none fails, nothing is due any more at the time of the query |
| Scheduling.FireScheduleIsVisitThenFinish | scheduler/scheduler.py:104-201 | that effect is the protocol's two steps |
| Scheduling.StepKeepsSchedules | scheduler/scheduler.py:104-201 | all invariants of schedules, passes and firings under every step of scheduler and API |
| Scheduling.SchedulesHold | scheduler/scheduler.py:63-201 | those invariants in every run of several replicas whose passes fit in their lease |
| Scheduling.SlotFiresOnce | scheduler/scheduler.py:63-201 | a slot creates one execution, plus one for each firing broken off between its two commits |
| Scheduling.FiredSlotsIncrease | scheduler/scheduler.py:138-149 | fired slots strictly increase unless a firing broke off, and a slot fires 0 to poll interval times missed-run limit late |
| Scheduling.NoSlotIsLeftOut | scheduler/scheduler.py:138-201 | in any run of any replicas: after a firing that is finished, the next one of the schedule is for the very next matching instant after it, unless something reschedules in between |
| Scheduling.AdvanceGoesToNext | scheduler/scheduler.py:118-149 | a slot passed over, for want of a version or for being too late, creates nothing, and the next run is the very next matching instant |
| Scheduling.ApiSchedulesNext | api/routers/schedules.py:75-145 | a schedule created or given another expression is due at the next matching instant; switching it on or off leaves that alone |
| Scheduling.WalkMovesEveryScheduleOn | scheduler/scheduler.py:93-102 | a pass leaves every schedule it meets due only in the future |
| Scheduling.WalkTouchesOnlyItsTurns | scheduler/scheduler.py:93-102 | a pass leaves all other schedules alone |
| Scheduling.PassLeavesNothingDue | scheduler/scheduler.py:76-102 | after a pass over what the query found, with working commits, nothing is due any more at the time of the query |
| SchedulerCases.LongPassFiresTwice | scheduler/scheduler.py:66-72 | for every configuration, a run of two replicas whose passes last at most d, with d at least the lease, in which a slot fires twice with nothing broken off |
| SchedulerCases.OncePerSlotIff | scheduler/scheduler.py:63-201 | for every positive poll interval and missed-run limit: in all runs whose passes last at most d every slot fires once, plus once per firing broken off, exactly when d is less than twice the poll interval |
| Json.StringReadsBack | sandbox/runner.py:131 | an escaped string reads back as itself with split surrogate pairs joined, whatever follows |
| Json.MergeIsIdentityIff | sandbox/runner.py:131 | joining changes a string exactly when it holds a split surrogate pair |
| Json.EscapeForms | sandbox/runner.py:131 | the escape of each code point: itself, a two-character form, one or two hexadecimal units |
| Json.AstralParts | sandbox/runner.py:131 | the two surrogates of a code point above 0xFFFF determine it |
| JsonForms.LiteralForms | sandbox/runner.py:131 | the texts of null, true, false and of an empty string, list and dict |
| JsonForms.ShortEscapes | sandbox/runner.py:131 | the seven short escapes |
| JsonForms.OtherCharacters | sandbox/runner.py:131 | every other code point: itself if printable, else backslash, u and four lower-case digits with its value, or two such beyond 0xFFFF |
| JsonForms.IntegerForms | sandbox/runner.py:131 | decimal digits, a minus sign |
| JsonForms.StringForms | sandbox/runner.py:131 | a string is its characters' forms in order between quotes |
| JsonForms.ListForms | sandbox/runner.py:131 | a list is its items in order, a comma and a space between them |
| JsonForms.DictForms | sandbox/runner.py:131 | a dict is its entries in order: key, colon and space, value, a comma and a space between them |
| JsonText.IntReads | sandbox/runner.py:131 | a printed integer is read to its end, as an integer, with its value |
| JsonText.NumberExtends | sandbox/k8s_sandbox.py:398 | what follows a number does not change how far it is read |
| JsonRoundTrip.RoundTrip | sandbox/runner.py:131 | reading what was written gives the value with split pairs joined; the value itself exactly when it has none |
| JsonRoundTrip.ValueReadsBack | sandbox/k8s_sandbox.py:398 | the same for a value inside any larger text |
| JsonRoundTrip.MergedIsIdentityIff | sandbox/runner.py:131 | which values are unchanged |
| JsonRoundTrip.FromPairsShrinks | sandbox/k8s_sandbox.py:398 | a repeated key keeps its place and takes the last value |
| JsonScan.ReadableIsBalanced | sandbox/k8s_sandbox.py:398 | a text that can be read closes every string it opens, with no backslash and no letter S outside them |
| JsonScan.EncodedInside | sandbox/runner.py:131 | a written value, met from inside a string, leaves the reader inside a string, or stuck |
| JsonScan.GluedIsUnreadable | sandbox/k8s_sandbox.py:398 | text, a word beginning with S, then a written value: never a JSON text |
| ResultWire.ParseResultFromLogs | sandbox/k8s_sandbox.py:388-401 | the backward scan returns the last decodable result line |
| ResultWire.FormatLogs | sandbox/k8s_sandbox.py:403-409 | one INFO entry on stdout for each line that does not begin with SOPM_RESULT:, in order, each as often as it was printed |
| ResultWire.UserLinesAre | sandbox/k8s_sandbox.py:403-409 | the lines kept are those not beginning with the marker, by their positions |
| ResultWire.LastResultIs | sandbox/k8s_sandbox.py:395-401 | the result is that of the last line that decodes; none exactly when no line does |
| ResultWire.DecodedIs | sandbox/k8s_sandbox.py:395-401 | a line decodes when it begins with SOPM_RESULT: and goes on with readable JSON |
| ResultWire.SplitLinesIs | sandbox/k8s_sandbox.py:395 | the lines with what ended them are the text; no line holds a line end; only the last may lack one; CR LF is one |
| ResultWire.EncodedIsPlain | sandbox/runner.py:131 | encoded JSON holds none of the characters Python splits lines at |
| ResultWire.SplitAtBreak | sandbox/k8s_sandbox.py:395 | splitting lines distributes over a cut after a line end |
| ResultWire.LaterPartWins | sandbox/k8s_sandbox.py:395-401 | the later part of a log decides whenever it holds a decodable result |
| ResultWire.DecodedBehind | sandbox/k8s_sandbox.py:395-401 | a result glued behind any text on its line decodes exactly when that text is empty |
| ResultWire.EmittedResult | sandbox/runner.py:130-131 | exactly what becomes of a result printed amid any output: outdone by a later one, else returned if no line was open, else lost |
| ResultWire.SuccessPathRoundTrip | sandbox/runner.py:264-272 | whatever the handler printed, the success path's result comes back; unchanged exactly when no string holds a split surrogate pair |
| ResultWire.TailIsACut | sandbox/k8s_sandbox.py:377-382 | the last k lines are the log cut at a line end |
| ResultWire.TailCounts | sandbox/k8s_sandbox.py:377-382 | of more than k lines exactly k are fetched, of fewer all |
| ResultWire.LinesCounted | sandbox/k8s_sandbox.py:377-382 | lines are counted by newlines, and one more for text after the last |
| ResultWire.TruncationIsHarmless | sandbox/k8s_sandbox.py:377-401 | keeping only the last k lines changes nothing when one of them decodes |
| LogPaging.ReadAllPages | api/routers/executions.py:244-251 | pages at offsets 0, L, 2L, ... concatenate to the listing |
| LogPaging.OneListing | worker/worker.py:209-218 | rows numbered 0..n-1 have one listing by sequence |
| LogPaging.PagesAreTheUserLines | sandbox/k8s_sandbox.py:403-409 | the listing read back is, by position, exactly the output's lines that do not begin with SOPM_RESULT:, in order |
| Tables.DetachKeepsIntegrity | api/routers/functions.py:276-285 | detaching executions keeps every foreign key |
| Tables.ClearVersionsKeepsIntegrity | api/routers/functions.py:286-291 | clearing version references keeps every foreign key |
| Tables.ClearPointersKeepsIntegrity | api/routers/functions.py:293-296 | clearing the pointers keeps every foreign key |
| Tables.DeletesKeepIntegrity | api/routers/functions.py:298-299 | deleting schedules and audit rows keeps every foreign key |
| Tables.VersionDeleteKeepsIntegrity | api/routers/functions.py:300 | deleting versions, when not refused, keeps every foreign key |
| Tables.RowDeleteKeepsIntegrity | shared/db/models.py:285-354 | deleting a function row with its cascades keeps every foreign key |
| FunctionDeletion.DeletionPrunes | api/routers/functions.py:275-302 | no statement is refused, and together they remove exactly the function's definitions, keep and detach its executions, and leave every other row as it was |
| FunctionDeletion.StagesKeepIntegrity | api/routers/functions.py:275-302 | foreign keys hold after each statement |
| FunctionDeletion.DetachingIsEnough | api/routers/functions.py:286-291 | the second update of executions never finds anything, because executions name only versions of their own function |
| FunctionDeletion.SchedulesGoUnnoticed | api/routers/functions.py:298 | deleting the schedules sets no execution's schedule to NULL |
| FunctionDeletion.VersionsMayGo | api/routers/functions.py:300 | once the pointers are cleared no foreign key refuses, and no other row is touched |
| FunctionDeletion.NothingLeftToCascade | api/routers/functions.py:301 | the last statement cascades over nothing |
| FunctionDeletion.PointersMustGoFirst | api/routers/functions.py:293-300 | deleting the versions first is refused exactly when the function has an active or canary version |
| FunctionDeletion.PruningSparesOthers | api/routers/functions.py:275-302 | all execution rows stay; other functions keep their versions, schedules, audit rows and executions |
| FunctionDeletion.PrunedExecutions | api/routers/functions.py:275-291 | of the function's executions function, version and schedule become NULL, the triggering user is the one who deletes, the status stays; all others are as before |
| FunctionDeletion.PrunedDefinitions | api/routers/functions.py:293-301 | exactly the function, its versions, schedules and audit rows go; all other rows are as before |
| FunctionDeletion.PruningKeepsConsistent | api/routers/functions.py:275-302 | deletion keeps foreign keys and ownership |
| Versions.MaxNumber | api/routers/functions.py:391-395 | the largest version number, or 0 |
| Versions.NextNumberIsCount | api/routers/functions.py:391-396 | with numbers 1..n the largest is n |
| Versions.UploadKeepsState | api/routers/functions.py:384-428 | an upload keeps numbers exactly 1..n within the limit, makes the new version active and keeps canary and percent sound |
| Versions.ActivateKeepsState | api/routers/functions.py:498-517 | an activation keeps the pointers sound |
| Versions.CanaryKeepsState | api/routers/functions.py:535-585 | a canary update keeps: canary unset exactly at 0 percent, percent below 100, canary different from active |
| Versions.UploadAnswers | api/routers/functions.py:333-389 | the first check that fails decides the answer of an upload |
| Versions.UploadWrites | api/routers/functions.py:391-428 | an upload: the new row with the next number, active now; canary, percent and everything else stay |
| Versions.ActivationWrites | api/routers/functions.py:492-521 | an activation: answered for an own, enabled version; then that one is active, there is no canary, and the audit row names it and the one before |
| Versions.CanaryAnswers | api/routers/functions.py:529-557 | which answer a canary update gets, in all cases |
| Versions.CanaryWrites | api/routers/functions.py:538-585 | cleared at 0 or without a version, active itself at 100, else canary with exactly that percentage; the audit row for each |
| AuditTrail.TrailGrows | api/routers/functions.py:75-95 | an upload, or an audit row that names the pointers before and after, keeps the trail sound |
| AuditTrail.NewestComesLast | api/routers/functions.py:75-95 | the newest event is the last of every journal |
| AuditTrail.OneJournal | api/routers/functions.py:75-95 | the tables determine one journal |
| AuditTrail.TrailIsLocal | api/routers/functions.py:75-95 | other functions' rows do not touch a trail |
| Routing.SplitIsExact | shared/execution/version_routing.py:20-37 | exactly percent of the 100 draws go to the canary, the rest to the active version, and every draw finds a version once one exists |
| Routing.ExplicitIsHonoured | shared/execution/version_routing.py:20-37 | an explicit version is chosen exactly when it is the function's own |
| Routing.DrawDecides | shared/execution/version_routing.py:20-37 | the draws below the percentage go to the canary, the others to the active version |
| Routing.ActivationRoutes | api/routers/functions.py:510-516 | after an activation every draw leads to the version activated |
| Routing.CanaryRoutes | api/routers/functions.py:538-585 | after a canary update exactly percent of the hundred draws lead to the version asked for, all at 100, the others where they would without |
| Routing.UploadRoutes | api/routers/functions.py:426-428 | after an upload every draw that does not go to the canary leads to the new version |
| Catalog.CanaryIsExplained | api/routers/functions.py:538-583 | in all branches of a canary update the audit row names the version active before and the pointers after |
| Catalog.ActivateIsSound | api/routers/functions.py:498-517 | an activation keeps all invariants of all functions |
| Catalog.CanaryIsSound | api/routers/functions.py:535-585 | so does a canary update |
| Catalog.UploadIsSound | api/routers/functions.py:378-428 | so does an upload |
| Catalog.PruningIsSound | api/routers/functions.py:241-302 | so does a deletion |
| Catalog.NewFunctionIsSound | api/routers/functions.py:148-165 | so does a new function |
| Catalog.ScheduleDeleteKeepsConsistent | api/routers/schedules.py:154-166 | deleting a schedule keeps foreign keys and ownership |
| Catalog.StepIsSound | api/routers/executions.py:66-96 | every operation on functions, versions, schedules and executions keeps all invariants |
| Catalog.RunsAreSound | api/routers/functions.py:378-428 | in every reachable state: foreign keys, ownership, sound pointers, numbers 1..n, and replaying uploads and audit rows gives active, canary and percent, each audit row naming the pointers before and after its change |
| Catalog.ExecutionsStay | api/routers/functions.py:275-285 | no operation loses an execution row |
| Catalog.StatusStays | api/routers/functions.py:275-285 | in any run only an execution's own progress changes its status: no deletion, upload or routing change does |
| Catalog.RoutesStay | shared/execution/version_routing.py:20-37 | in any run a draw leads to the same version until the function is uploaded to, activated, canaried or deleted |
| Catalog.ActivatedVersionRuns | api/routers/executions.py:66-96 | until then every execution triggered without naming a version runs the one activated |
| Catalog.ExecutionWrites | api/routers/executions.py:66-96 | the execution row each trigger, firing and ephemeral request inserts, column by column |
| Catalog.ProgressWrites | worker/worker.py:108-220 | an execution's own progress changes its status and nothing else |
| Catalog.ScheduleDeleteWrites | api/routers/schedules.py:154-166 | deleting a schedule removes it alone and sets it to NULL in its executions |
| Catalog.FunctionAndScheduleWrites | api/routers/functions.py:148-190 | what creating a function or a schedule inserts |
| Archives.UploadKeepsVetted | api/routers/functions.py:363-419 | an upload the validator approves keeps every version with its approved archive |
| Archives.DeletionKeepsVettedIff | api/routers/functions.py:235-319 | a deletion keeps every remaining version with its archive exactly if it is refused, or there is nothing to remove, or the first removal listed raises without effect, or none raises and the commit takes effect; a deleted function leaves no archive behind |
| Archives.DeletionAnswers | api/routers/functions.py:235-317 | 404 for a function that is not the user's, 409 while one of its executions is pending, queued or running, 502 exactly when a removal raises |
| Archives.UpToIs | api/routers/functions.py:304-317 | an archive goes exactly if every removal before it was answered and its own was not refused |
| Archives.ArchivesAreVetted | api/routers/functions.py:268-419 | in every reachable state, interrupted deletions included: all table invariants, no stored archive the validator refuses, and every version has its archive exactly when none was lost |
| Archives.HarmlessRunsStayVetted | api/routers/functions.py:268-419 | in a run without half-done deletions every version always has its approved archive |
| Archives.RetryRepairs | api/routers/functions.py:304-317 | a deletion that failed half-way, called again with a working store, leaves no version without its archive |
| Archives.InterruptedDeletion | api/routers/functions.py:304-317 | two versions: listed in one order a failing removal loses an archive, in the other it loses none |
| Archives.UnheardDeletion | shared/storage/artifact_storage.py:89-95 | the same two versions: the first removal is done, only its answer is lost, and the archive is gone although the tables are as before |
| Archives.UncommittedDeletion | shared/db/session.py:63-71 | with the same two versions, when only the commit fails all archives are gone and the tables are as before |
| FunctionsRouter.Handlers.CreateVersion | api/routers/functions.py:333-436 | each refusal in the code's order with the limits as numbers, a bad form and a failing store included, else the specified new state if the commit takes effect, the new version active; the archive is stored exactly if the validator accepts it and the store takes it, answered or not |
| FunctionsRouter.Handlers.StoreVersion | api/routers/functions.py:391-428 | number, archive, row, then pointer: together the specified upload |
| FunctionsRouter.Session.MaxVersionNumber | api/routers/functions.py:392-395 | the query's maximum |
| FunctionsRouter.Handlers.ActivateVersion | api/routers/functions.py:492-521 | 404, or the version is active, there is no canary, the audit row names it and the one before, and every draw leads to it |
| FunctionsRouter.Handlers.UpdateCanary | api/routers/functions.py:529-588 | 404, 422, or pointers and percentage as asked, and exactly that many draws lead to the version; the audit row names the version active before |
| FunctionsRouter.Handlers.RecordActivation | api/routers/functions.py:75-95 | one audit row |
| FunctionsRouter.Handlers.RunStatements | api/routers/functions.py:275-302 | the statements in the code's order prune the function |
| FunctionsRouter.Handlers.DeleteFunction | api/routers/functions.py:235-319 | 404, 409 exactly with an active execution, else pruned, each execution detached and its status kept; a removal or commit that fails rolls the tables back and leaves what was removed removed; starting vetted it ends vetted exactly when that is harmless |
| FunctionsRouter.Handlers.RemoveArchives | api/routers/functions.py:304-317 | removes the archives in the listed order up to the first that raises, and that one if it took effect all the same |
| FunctionQuota.NamesHold | api/routers/functions.py:167-179 | in every reachable state no user has two functions of one name |
| FunctionQuota.StepKeepsLimitIff | api/routers/functions.py:148-227 | an operation keeps every user within the limit exactly if it does not take a function out of DEPRECATED at the limit |
| FunctionQuota.LimitHoldsIff | api/routers/functions.py:148-227 | in any run all users stay within the limit exactly as long as that does not happen |
| FunctionQuota.NoBound | api/routers/functions.py:148-227 | for every limit and number there is a run after which a user has that many functions that count |
| FunctionQuota.Functions.CreateFunction | api/routers/functions.py:148-190 | 429 exactly at the limit, 409 exactly for a name the user has, else the new active function and nothing else; names stay unique |
| FunctionQuota.Functions.UpdateFunction | api/routers/functions.py:208-227 | 404, or that function with the new status and nothing else, and when that exceeds the limit |
| FunctionQuota.DeletionIs | api/routers/functions.py:230-302 | a deletion: 404, 409, or the function gone and no other |
| CodeValidator.VerdictIsDeclarative | shared/security/code_validator.py:254-327 | a tree has no violation exactly when no node occurring in it at any depth is forbidden |
| CodeValidator.RootIsFirstPart | shared/security/code_validator.py:273-283 | the part of a module name that is looked up holds no dot, and the name is it or goes on with a dot |
| CodeValidator.RootDecides | shared/security/code_validator.py:271-288 | a name is denied exactly if it is a denied module or one followed by a dot and anything |
| CodeValidator.DeniedImportIsRefused | shared/security/code_validator.py:271-288 | an archive one of whose Python files imports, anywhere, a denied module or anything inside one is refused |
| CodeValidator.SubnodesAreAll | shared/security/code_validator.py:254-327 | the nodes visited are exactly those that occur in the tree |
| CodeValidator.FlagsSay | shared/security/code_validator.py:271-327 | which messages a node is flagged with, and for what |
| CodeValidator.ImportFlagsAre | shared/security/code_validator.py:271-278 | one flag for each denied name of an import, by its position |
| CodeValidator.ViolationsAreWeights | shared/security/code_validator.py:254-327 | the violations number the sum of the nodes' own weights |
| CodeValidator.WeightsOfCalls | shared/security/code_validator.py:290-319 | a call of eval weighs 2, of __import__ 3, of a denied method 2 |
| CodeValidator.PolicyDeniesThem | shared/security/code_validator.py:72-96 | the default deny-lists hold those names |
| CodeValidator.OwnFlagsIff | shared/security/code_validator.py:271-327 | a node is flagged when it is forbidden, a call only when its callee is |
| CodeValidator.SubnodesClosed | shared/security/code_validator.py:290-305 | a call's callee is visited whenever the call is |
| CodeValidator.AstValidator.FlagNode | shared/security/code_validator.py:271-327 | the visit method of each node kind flags exactly what is specified |
| CodeValidator.AstValidator.FlagImports | shared/security/code_validator.py:271-278 | one violation for each denied module, in order |
| CodeValidator.AstValidator.FlagGlobals | shared/security/code_validator.py:323-326 | one violation for each __builtins__ |
| CodeValidator.AstValidator.FlagCall | shared/security/code_validator.py:290-303 | the three rules about calls |
| CodeValidator.AstValidator.Visit | shared/security/code_validator.py:254-327 | every node below is visited once, in order, and adds its violations |
| CodeValidator.ValidateSource | shared/security/code_validator.py:237-251 | adds the violations of one file, or its syntax error |
| CodeValidator.VerdictStands | shared/security/code_validator.py:221-235 | stopping at a too large file or after any violations never changes the verdict |
| CodeValidator.CheckFiles | shared/security/code_validator.py:221-235 | the loop checks files in order, stops at the first too large file or after the file that brings the violations above ten |
| CodeValidator.CheckPython | shared/security/code_validator.py:221-235 | valid exactly when all Python files are clean, with the violations of the files checked |
| CodeValidator.ValidateArchive | shared/security/code_validator.py:188-235 | valid exactly when the archive meets every rule, with the limits as numbers, whatever the early exits; which error, and exactly the violations of the files checked |
| CodeValidator.AcceptsIff | shared/security/code_validator.py:201-219 | the declarative rules in the terms of the code's checks |
| CodeValidator.RefusalsAre | shared/security/code_validator.py:188-219 | which check refuses an archive unread, in order, and which path is named |
| CodeValidator.PythonFilesInOrder | shared/security/code_validator.py:215-219 | the files checked are the members ending in .py, by their positions |
| RateLimit.PromptIncrCounts | api/routers/ephemeral.py:91-94 | an INCR less than 60 seconds after its minute's end finds its minute's counter; other counters' INCRs leave it alone, late or not |
| RateLimit.StepKeepsCounters | api/routers/ephemeral.py:91-94 | however late INCRs are, a counter lives at least two minutes from its minute's start |
| RateLimit.CommandsWrite | api/routers/ephemeral.py:92-94 | INCR counts from 0 when no unexpired counter is there, EXPIRE gives it 120 seconds, and neither touches another counter |
| RateLimit.ArrivalNamesMinute | api/routers/ephemeral.py:91 | a request is counted for the minute it arrives in |
| RateLimit.StepKeepsTally | api/routers/ephemeral.py:91-102 | a counter none of whose own INCRs is late equals its requests counted, under every interleaving, crash and expiry |
| RateLimit.TallyHolds | api/routers/ephemeral.py:91-102 | the same in every reachable state, whatever happens to other counters |
| RateLimit.MinuteIsLimited | api/routers/ephemeral.py:91-102 | of the requests counted for a key's minute exactly the first limit pass, if none of that counter's INCRs is late |
| RateLimit.WindowIsLimited | api/routers/ephemeral.py:91-102 | at most twice the limit pass in any sixty seconds, if no INCR of the key's two minutes it meets is late |
| RateLimit.LateIncrPasses | api/routers/ephemeral.py:91-94 | a run with one INCR 60 seconds after its minute's end in which two requests pass a limit of one |
| RateLimit.SlackIsSafeIff | api/routers/ephemeral.py:93-94 | for every number of seconds: counters whose INCRs each come less than that after their minute's end keep every limit in all runs exactly when it is at most 60 |
| Ephemeral.ActiveIsBounded | api/routers/ephemeral.py:104-122 | with k requests between count and commit at most limit - 1 + k executions are active |
| Ephemeral.StepKeepsBound | api/routers/ephemeral.py:104-154 | active plus passed-but-uncommitted stays within that bound |
| Ephemeral.CommitMany | api/routers/ephemeral.py:104-154 | a run that reaches the bound |
| Ephemeral.BoundIsExact | api/routers/ephemeral.py:104-154 | a bound holds in all runs exactly when it is at least limit - 1 + k; the limit itself exactly when requests are serial |
| Ephemeral.Endpoint.EnforceRateLimits | api/routers/ephemeral.py:86-122 | the counters after the check; refused for the rate exactly when its count exceeds the limit, for concurrency exactly when it does not and as many executions as that limit are active |
| Ephemeral.AwaitedIsFirstFinished | api/routers/ephemeral.py:180-186 | a waiting caller is told the first finished status read before the deadline, or else the last one read |
| Ephemeral.Endpoint.ExecuteEphemeral | api/routers/ephemeral.py:128-188 | which refusal by gate or limit, the inserted row in both enqueue outcomes, the status answered with and without waiting, and every key within its concurrency limit |
| RunnerSteps.StepKeeps | sandbox/runner.py:43-98 | for well-behaved archives every directory made, every write, every removal and every kill keeps what the markers mean |
| RunnerSteps.MarkersTell | sandbox/runner.py:169-224 | for well-behaved archives, over any sequence of runs killed anywhere: a marker means a complete tree or complete dependencies, and a handler is loaded only with both |
| RunnerPaths.OnlyThisPips | sandbox/runner.py:69-91 | while and after pip works, everything below the dependency directory is what this pip wrote last: nothing of an interrupted installation or of the archive is left |
| RunnerPaths.NothingOutside | sandbox/runner.py:43-49 | no part of an extracted member's path leads out of the source directory |
| RunnerPaths.ExtractableIff | sandbox/runner.py:43-49 | a member is extracted exactly if its name holds no two dots in a row and does not begin with a slash |
| RunnerPaths.PartsOfJoin | sandbox/runner.py:43-49 | a path is put together at every slash of the name |
| RunnerPaths.PartsOfPiece | sandbox/runner.py:43-49 | a name without a slash is one part, or none if it is empty or a dot |
| RunnerPaths.PartIsPiece | sandbox/runner.py:43-49 | every part occurs in the name, is not empty, no dot, and holds no slash |
| RunnerPaths.OwnPaths | sandbox/runner.py:141-153 | the runner's own files, with and without a cache directory |
| RunnerSteps.MakeDirKeeps | sandbox/runner.py:43-49 | making a directory above a member keeps it, although that can be the marker itself |
| RunnerSteps.OpenKeeps | sandbox/runner.py:43-49 | a half-written member keeps it |
| RunnerSteps.CompleteKeeps | sandbox/runner.py:43-49 | a finished member keeps it |
| RunnerSteps.MarkExtractedKeeps | sandbox/runner.py:195 | the extraction marker is written over a complete tree |
| RunnerSteps.CheckKeeps | sandbox/runner.py:60-67 | the decision whether to install keeps it |
| RunnerSteps.RemoveKeeps | sandbox/runner.py:69-70 | removing old dependencies, leaf by leaf, leaves the tree complete |
| RunnerSteps.PipWritesKeeps | sandbox/runner.py:75-91 | what pip writes leaves the tree complete |
| RunnerSteps.ConflictBlocks | sandbox/runner.py:43-49 | nothing is ever written for a member whose path another member excludes |
| RunnerSteps.SomeWanted | sandbox/runner.py:43-49 | below every member outside the marker lies one that makes up the tree |
| RunnerSteps.DownloadKeeps | sandbox/runner.py:183-185 | putting the archive into the source directory keeps the invariant |
| RunnerSteps.WriteSpares | sandbox/runner.py:43-49 | writing a member leaves all earlier ones alone, but for the copies it replaces |
| RunnerSteps.CompleteAtMarker | sandbox/runner.py:43-49 | for well-behaved archives the tree is complete at the moment a member makes the marker exist |
| RunnerCacheCases.NothingOfItYet | sandbox/runner.py:153-195 | a kill when a member makes the marker exist, with another still missing or only there with other content, leaves an incomplete tree that passes for complete |
| RunnerCacheCases.HalfOfIt | sandbox/runner.py:153-195 | so does a kill while a later copy of a file is being written |
| RunnerCacheCases.ShippedMarkerMisleads | sandbox/runner.py:153-195 | so every archive with something of the tree left to write when a member makes the marker exist misleads |
| RunnerCacheCases.ShippedMarkerLoads | sandbox/runner.py:169-224 | without requirements the next run loads a handler from it |
| RunnerCacheCases.ShippedDepsMislead | sandbox/runner.py:59-71 | any archive with requirements and something inside .deps, without a cache directory, that gets as far as installing: a run after which a marker lies |
| RunnerCacheCases.AlwaysTruthfulIff | sandbox/runner.py:43-224 | for every archive, repeated paths and a member source.zip included: the markers tell the truth in all runs exactly if nothing of the tree is still to be written when a member makes the marker exist, and nothing is shipped inside .deps where it would be removed |
| RunnerMarkerCase.LoadsWithoutHelper | sandbox/runner.py:43-224 | .sopm-extracted/a.txt, handler.py, helper.py: killed after the handler, the next run loads it without its helper |
| RunnerMarkerCase.NestedMarkerMisleads | sandbox/runner.py:43-224 | that archive, as literal names, is not well-behaved and does mislead |
| RunnerMain.Sandbox.ExtractMember | sandbox/runner.py:43-49 | one member, over whatever is there, is a stretch of the protocol, after which its content or directory is at its path; it raises only when something stands in its way |
| RunnerMain.Sandbox.ExtractArchive | sandbox/runner.py:43-49 | so is the whole archive, up to the member that raises |
| RunnerMain.Sandbox.RunInstaller | sandbox/runner.py:75-95 | so is pip, which succeeds exactly when it exits with 0 and can read the requirements |
| RunnerMain.Sandbox.InstallRequirementsIfNeeded | sandbox/runner.py:59-98 | so is the installation; exactly when it is skipped, succeeds and raises; afterwards there are no requirements or the marker is there |
| RunnerMain.Sandbox.Prepare | sandbox/runner.py:169-224 | so is the whole run up to loading; which outcome, and for well-behaved archives tree and dependencies are complete whenever it loads |

## Left out

- FastAPI, Pydantic, SQLAlchemy, Redis, MinIO and Kubernetes clients: only their effect on state is modelled.
- JWT, password and API-key hashing, dashboards, CLI, WebSockets, metrics, logging, migrations, manifests, configuration.
- api/routers/invoke.py: the same producer as `trigger_execution`.
- `attempt_number`, retries and the dead-letter queue: declared, but no code drives them; nothing sweeps the processing set.
- Ordering of user log rows when a recovery row shares sequence 0: `LogPaging.OneListing` is about executions without one.
- `KubernetesSandbox._wait_for_job` and the local-mode execution paths: their outcome is an arbitrary sandbox result.
- The order in which Python hits its recursion limit or its limit on integer digits in `json.loads` and `ast.parse`.
- The AST beyond the node kinds the visitor tells apart; archives whose members cannot be read.
- RunnerMain.Sandbox.Prepare: without the inline source of ephemeral runs, which uses no marker for the source tree.
- Catalog.NewFunctionIsSound: without the limit of functions per user and the unique names; they are in `FunctionQuota`.
- Ephemeral.Endpoint.ExecuteEphemeral: without the columns that no limit and no answer looks at.
- User deletion and its cascades; descriptions and tags of functions.
- Real concurrency inside one transaction of the API: the count of active executions and the deletion are one step, and
  so are the count of functions and the insertion.
