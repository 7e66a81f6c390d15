# Verified model of CronControl's core

CronControl schedules processes and runs jobs. Several background loops (planner, executor, queue
processor, worker dispatcher, monitor, start-up recovery) and the HTTP handlers all rewrite the same
database rows, without locks between reading and writing. The Dafny modules here model those rows and
every step that rewrites them, and prove what the steps keep together over whole histories: any order of
events, crashes between two writes, restarts, and stale reads.

`dafny verify dfyconfig.toml` checks the whole project.

## How the model is laid out

Each component has a state (the rows it touches, what its goroutines have in hand but not written, and
what its handlers have read and not acted on), a type of events, a `Step` function that is total over all
events (one that cannot happen changes nothing), and `After`, the state after a history. A class beside it
holds the rows as fields; its methods follow the loops and branches of the source, are proved to take
exactly the steps of the model, and state in full what they leave in the rows. Theorems are about `After`, for every history.

A handler that reads a row and writes it later is two events. This matters for the cancel handlers, the
monitor and the handlers of worker results, which write whatever the row holds by then, and for the worker
dispatch, which writes its row after the worker may already have the task.

| files | component |
|---|---|
| `Domain`, `JobStates` | run and job states, small helpers |
| `Schedules`, `SlotMaterialisation`, `SlotProperties` | cron slots; the planner's and the recovery's loops over them |
| `RunLifecycle`, `RunAttempts`, `Executor` | life of direct-runtime runs with crashes and restarts; attempts and retries |
| `FixedDelayChain`, `ChainStops`, `ChainForks` | the fixed-delay chain: its one unfinished run, where it stops, how it forks |
| `OutputTail` | offsets and appended chunks of asynchronous executions |
| `Dependency`, `Cascade` | cycle check; runs triggered by finished runs |
| `QueueConcurrency` | check-then-act limit of a queue |
| `JobExecution`, `JobRows` | one job across the direct and the worker route |
| `WorkerLoad`, `WorkerDispatch` | load of a worker; choice of a worker |
| `KillProtocol` | cancel requests racing with finishes |
| `Placement`, `Provisioners` | containers on servers |
| `Enqueue` | idempotent and atomic enqueueing |
| `HangDetection` | the monitor |
| `WebhookDelivery` | delivery and automatic shut-off |

Instants and durations are integers, in nanoseconds where a constant of the source is used. A schedule is
a function from an instant to the least slot strictly after it; a schedule without any further slot is
excluded, since the library then returns the zero time. What the outside decides (results, faults, which
row a query without a tie-break returns) is a parameter.

## What turned out not to hold

Where the code does not do what its documentation or comments say, or what one would expect of it, the model
follows the code. Each entry names the lemma with the exact condition.

Fixed-delay chains and runs:

- A cancel that read a run as running and writes after the run has handed over revives it: one more unfinished
  run for each such late write, and every number is reached (`FixedDelayChain.StrayMadeIff`, `AtMostOneRun`,
  `ChainForks.LateKillsReached`).
- A chain stops in two ways (`ChainStops.StopsIff`). It waits for a restart after a start failure, an unknown
  method, a cancel or a hang written while nobody executes the run, an accepted start of a run written off
  meanwhile, or for want of a delay; only a crash or a late kill ends that wait (`StalledLeftIff`,
  `StalledUntilRestart`).
- Or it is stuck on a run that was asked to be killed, has no handle and is executed by nobody: a kill written
  when nobody is at work, a crash of a killed synchronous run, a kill over the last run of a chain without a
  delay. Recovery sees an unfinished run, so it stands still through every restart, unless a handler that read
  the run before writes it off (`StuckLeftIff`, `StuckForeverIff`, `RecoveryRestoresIff`).
- A cancel of a run ahead of its time, or a successor no later than its predecessor, breaks the order of the
  chain, and a restart forks it (`FixedDelayChain.OrderKeptIff`, `ChainForks.CancelAheadForksIff`,
  `BackwardDelayForksIff`).
- The documentation calls a hung run retryable and never reopened. The monitor and recovery retry none, but a
  finish that arrives late overwrites `hung`, and a late failure with attempts left puts the run back to be
  executed again (`RunAttempts.HungLeftIff`, `HungReopenedIff`).

Jobs and workers:

- A worker-route retry takes two attempts, one when the result arrives and one at the next dispatch: a job
  that only fails on workers is executed `max_attempts / 2 + 1` times, although `max_attempts` is documented
  to count executions, and it waits for every second entry of its backoff list
  (`JobExecution.FailureUsesTheBudget`, `RetryUsesEntry`).
- The attempt that a worker dispatch writes goes missing when a restart cuts the dispatch off after the poll, or
  when the handler of the result has read the row before the dispatch writes it. With that the job can be
  executed once more than `max_attempts`, but not more (`ExecutionsBounded`, `ExtraExecutionIff`,
  `ExtraExecutionReached`).
- A dispatch that writes after the worker's result strands even a finished job as waiting, and so does a
  missing worker; no stranded job is ever claimed again (`StrandsIff`, `StrandedForever`).
- Cancelling a job takes back neither a waiting task nor a retry (`CancelledExecutedIff`).
- The capacity check of a worker ignores the ten slots of its channel, and a late cancel of a reported run
  counts it again for ever (`WorkerLoad.WorkerLoadBound`, `LoadBrokenIff`; equality is reached in
  `WorkerLoadBoundReached`).
- Cancelling a running job clears its worker column, so the worker is counted as free while it still
  executes the job; with cancellations its real load has no bound (`WorkerDispatch.UncountedGrowsIff`,
  `ExecutingBounded`, `CancellationUncounts`).
- A kill nobody requested is commented as "treated as failure", yet is recorded as completed when the exit
  code is 0 or, for jobs, when nothing is reported (`KillProtocol.UnrequestedKill`). A finished row is final
  only once no handler is left that read it before (`FinishedOnceChangesIff`).
- A run taken back from a stale worker leaves its task in that worker's channel. The worker comes back and polls
  it, so a run is executed by up to one worker more for each time it was taken back, and a finished run starts
  again (`UnderWayBounded`, `UnderWayReached`, `FinishedChangesIff`).

Elsewhere:

- The final poll's output is appended twice (`OutputTail.LastChunk`), and a poll with nothing to report
  that leaves its cursor unset rewinds the offset (`ExactStep`, `ExactlyOnce`).
- The heartbeat of an earlier attempt is not cleared on retry, so a healthy second attempt can be marked
  hung (`HangDetection.FalseAlarmIff`, `SecondAttemptFalselyHung`).
- Destroying an already destroyed server without success brings it back into the count, and so does the idle
  check when it listed the server before (`Placement.ServerLimitBrokenIff`).
- Nothing in the repository calls `ValidateNoCycles`, so no dependency is refused, not even of a process on
  itself, and a cascade whose root triggers itself does not end (`Cascade.CascadeEndsIff`). The algorithm is
  right on the rows it is given (`Dependency.ValidateNoCycles`), but it looks them up in an empty workspace
  and would refuse self-dependencies only (`EmptyLookupSeesOnlySelf`).
- Nothing calls `SetWebhookEnabled` either, so a webhook that was shut off stays off. The statement would
  leave the shut-off mark, and delivery would not resume by it alone
  (`WebhookDelivery.ManualEnableResumesIff`).

## Model

| member | source | states |
|---|---|---|
| `Schedules.SlotsExact` | internal/planner/planner.go:106-110 | walking `Next` lists every slot of a window once, in increasing order, and nothing else |
| `SlotMaterialisation.RunTable.Create` | schema.sql:275 | an insert fails exactly on a violated (process, scheduled_at, origin) constraint and otherwise appends the row |
| `SlotMaterialisation.PlanProcess` | internal/planner/planner.go:106-148 | the planner's inner loop ends and leaves the table that inserting the lacking slots of [now, now + horizon] gives, up to the first database error |
| `SlotMaterialisation.RecoverProcess` | internal/recovery/recovery.go:74-106 | recovery touches only processes with the execute policy, a schedule, an active workspace and an earlier run, and counts what it creates |
| `SlotMaterialisation.RecoverFrom` | internal/recovery/recovery.go:107-151 | the recovery loop ends after inserting, in order, a run for each missed slot up to the cap or the first error |
| `SlotProperties.PlanPass` | internal/planner/planner.go:72-150 | a whole pass is the sequence of its processes' shares; a failing process does not disturb the others |
| `SlotProperties.PassMember` | internal/planner/planner.go:84-104 | a pass has a share for each listed process with a usable schedule, wherever it stands in the list, and no other |
| `SlotProperties.PassInOrder` | internal/planner/planner.go:84-150 | the shares come in the order of the processes |
| `SlotProperties.RecoveryPass` | internal/recovery/recovery.go:66-162 | the same for a start-up recovery |
| `SlotProperties.RecoveryMember` | internal/recovery/recovery.go:73-106 | a start-up has a share for each process with the execute policy, a usable schedule and an active workspace, and no other |
| `SlotProperties.StartUpExact` | internal/recovery/recovery.go:66-162 | a start-up over many processes adds to the table exactly each one's own missed slots, up to its cap or error |
| `SlotProperties.SlotUniqueness` | internal/db/runs.sql.go:1185-1190 | over any restarts, passes, faults and other runs, with a clock that never runs back, no process ever has two automatic runs for one instant, although each loop checks only its own origin |
| `SlotProperties.PlannerExact` | internal/planner/planner.go:114-146 | a pass appends exactly one cron run per lacking slot, in order, and only for the slots before the first error |
| `SlotProperties.LackingExact` | internal/planner/planner.go:107-127 | the lacking slots are exactly the slots from now to the horizon without a cron run |
| `SlotProperties.PlannerIdempotent` | internal/planner/planner.go:114-127 | a repeated pass creates nothing |
| `SlotProperties.NoGaps` | internal/planner/planner.go:79-148 | passes at most one horizon apart leave every slot from the first pass to the last horizon with exactly one automatic run, whatever happens in between |
| `SlotProperties.NoGapsOverPasses` | internal/planner/planner.go:72-150 | the same for a process that whole passes list without error at most one horizon apart, whatever their other processes, other passes, start-ups and inserts do |
| `SlotProperties.UniqueOverPasses` | internal/db/runs.sql.go:1185-1190 | over whole passes and start-ups no process ever has two automatic runs for one instant |
| `SlotProperties.MissedExact` | internal/recovery/recovery.go:87-110 | missed slots are exactly those strictly between the latest scheduled run and now |
| `SlotProperties.RecoveryTakesPrefix` | internal/recovery/recovery.go:107-151 | a recovery creates exactly the first of the missed slots, in order, as many as the cap and the first error allow |
| `SlotProperties.RecoveryTestNeverTrue` | internal/recovery/recovery.go:113-121 | the existence test in the recovery loop never finds a row |
| `Executor.DelaysMember` | internal/executor/orchestrator.go:404-416 | the delays of a list are exactly its valid parts |
| `Executor.DelaysInOrder` | internal/executor/orchestrator.go:404-416 | the delays of a list are those of its first parts followed by those of the others |
| `Executor.ParseBackoffList` | internal/executor/orchestrator.go:404-416 | the loop gives these delays |
| `Executor.CalculateBackoff` | internal/executor/orchestrator.go:393-402 | the delay after attempt n is the n-th entry, the last one for every later attempt, one minute for an empty list; never out of range |
| `Executor.Orchestrator.Dispatch` | internal/executor/orchestrator.go:232-269 | dispatch is the claim step followed by the attempt record, or a failure when the method is unknown |
| `Executor.Orchestrator.CheckOverlap` | internal/executor/orchestrator.go:187-206 | a claimed cron run goes on exactly when at most one run of its process is active, and is skipped or queued otherwise |
| `Executor.Orchestrator.AfterStart` | internal/executor/orchestrator.go:284-310 | a start error, or an accepted start whose handle cannot be saved, fails the run and ends its goroutine; a saved handle leaves the run to the poller |
| `Executor.Orchestrator.CancelRun` | internal/handler/service.go:799-816 | the cancel acts on the state it read, over whatever the row holds by now, and tells the caller what it did |
| `Executor.Orchestrator.TakeUp` | internal/executor/async_runs.go:73-140 | the poller takes up exactly a run with a handle that is running or asked to be killed, under its own attempt number |
| `Executor.Orchestrator.MarkHung` | internal/monitor/monitor.go:119-140 | the monitor's write marks the run it listed, whatever the row holds by now |
| `Executor.Orchestrator.Finalize` | internal/executor/async_runs.go:382-429 | finalisation clears the handle, writes a retry exactly for a failure with attempts left and the final state otherwise, and then appends the successor of a fixed-delay run, due one delay later |
| `Executor.Orchestrator.WriteOutcome` | internal/executor/async_runs.go:384-423 | success completes, a confirmed kill kills, a failure is retried after its backoff while attempts are left and fails otherwise |
| `Executor.Orchestrator.HandleTerminal` | internal/executor/orchestrator.go:346-373 | a successor is created exactly for a fixed-delay process with a delay after completed, failed, hung, killed or cancelled, due one delay later |
| `Executor.Orchestrator.DetectOrphans` | internal/recovery/recovery.go:39-63 | start-up marks exactly the running runs hung, one write each |
| `Executor.Orchestrator.LatestRun` | internal/db/runs.sql.go:373-378 | the row used is one with the greatest scheduled_at |
| `Executor.Orchestrator.ResumeChain` | internal/recovery/recovery.go:167-221 | start-up creates a run, due at once, exactly when there is none or one of greatest scheduled_at is completed, failed, killed, skipped, cancelled or hung |
| `RunAttempts.StepKeepsInv` | internal/executor/orchestrator.go:232-341 | every write of every component, also one of a stale reading, and every crash, keeps the attempt invariant of all runs |
| `RunAttempts.AttemptsExact` | internal/executor/orchestrator.go:241-269 | over every history attempt is the number of starts and at most max(1, max_attempts), the records are numbered 1, 2, ... without gaps, waiting runs have attempts left, and the backoff index is in range |
| `RunAttempts.RetryTiming` | internal/executor/async_runs.go:401-411 | the start number m + 1 comes no earlier than the first start plus the first m backoffs |
| `RunAttempts.HungLeftIff` | internal/executor/async_runs.go:384-423 | a step takes a run out of hung if and only if its goroutine writes an outcome or a start failure, or a cancel writes what it read earlier |
| `RunAttempts.HungReopenedIff` | internal/executor/async_runs.go:401-409 | a late failure of a hung run lets it be claimed and run again exactly when attempts are left |
| `FixedDelayChain.OrderKeptIff` | internal/executor/orchestrator.go:350-363 | a step leaves the schedule of the chain in order if and only if it neither cancels a run ahead of its time nor creates a successor behind its predecessor |
| `FixedDelayChain.StepKeepsGood` | internal/executor/orchestrator.go:346-366 | every other write and every crash keeps the token: only the last run is worked on, earlier ones are dead or stand still |
| `FixedDelayChain.StrayMadeIff` | internal/handler/service.go:807-813 | a step makes a run unfinished beside its successor if and only if a cancel that read it as running writes after it ended, and then just that one |
| `FixedDelayChain.AtMostOneRun` | internal/executor/async_runs.go:382-429 | over every orderly history, with crashes between any two writes, at most one run is unfinished, plus one for each such late write |
| `FixedDelayChain.DueIsOrderly` | internal/recovery/recovery.go:204-219 | a history is orderly of itself when the delay is not negative and cancels read only due runs |
| `ChainForks.LateKillDoubles` | internal/handler/service.go:793-813 | from every state in which a cancel has read the run being executed, two unfinished runs are reached |
| `ChainForks.LateKillsReached` | internal/handler/service.go:793-813 | for every number of late writes and every non-negative delay, an orderly history has that many and leaves one unfinished run more |
| `ChainForks.CancelAheadForksIff` | internal/handler/service.go:801-806 | after a cancel of a run not yet started, two restarts leave two unfinished runs if and only if the first recovers no later than the run was due |
| `ChainForks.BackwardDelayForksIff` | internal/executor/orchestrator.go:350-353 | after a successor is created, a restart leaves two unfinished runs if and only if the successor lies no later than its predecessor |
| `ChainStops.StopsIff` | internal/executor/orchestrator.go:226-306 | a step of a chain that is going leaves it waiting for a restart, or stuck for good, if and only if it is one of the steps listed for each |
| `ChainStops.StalledLeftIff` | internal/recovery/recovery.go:204-219 | a chain that waits for a restart goes on waiting except through a crash or a late kill of its last run, and is then stuck if and only if that run has no handle |
| `ChainStops.StalledUntilRestart` | internal/recovery/recovery.go:204-219 | without either it waits, however long |
| `ChainStops.StuckLeftIff` | internal/db/runs.sql.go:812-816 | a step sets a stuck chain free if and only if it is a cancel or a hang, read earlier, that writes the last run off; restarts do not |
| `ChainStops.StuckForeverIff` | internal/recovery/recovery.go:39-63 | a stuck chain stands still through every later history if and only if no such reading is open |
| `ChainStops.RecoveryRestoresIff` | internal/recovery/recovery.go:167-221 | recovery leaves the last run unfinished, and some history without inserts and crashes comes from there to the next run if and only if there is a delay and that run is not kill_requested without a handle |
| `Dependency.ValidateNoCycles` | internal/dependency/resolver.go:99-124 | the check ends on every finite graph, cyclic or not, and accepts exactly the updates after which the child's chain ends |
| `Dependency.AcceptedKeepsAcyclic` | internal/dependency/resolver.go:99-124 | on an acyclic graph an update, also one replacing an old parent, keeps the graph acyclic if and only if it is accepted |
| `Dependency.RejectedExactly` | internal/dependency/resolver.go:104-107 | rejected are exactly the parents whose chain leads to the child or into a cycle |
| `Dependency.EmptyLookupSeesOnlySelf` | internal/dependency/resolver.go:109-115 | with the empty workspace id the check would reject a self-dependency only |
| `Cascade.Resolver.Evaluate` | internal/dependency/resolver.go:32-69 | one evaluation appends exactly the runs the end of a run triggers, in row order |
| `Cascade.RunCascade` | internal/dependency/resolver.go:32-95 | unless the root triggers itself the cascade stops, with at most one run per process, and exactly the processes of the triggered closure get one |
| `Cascade.CascadeEndsIff` | internal/executor/orchestrator.go:369-372 | a cascade can come to its end if and only if its root does not trigger itself |
| `Cascade.AcyclicEnds` | internal/dependency/resolver.go:97-98 | with acyclic dependencies no root triggers itself |
| `Cascade.CreatedMember` | internal/dependency/resolver.go:44-66 | triggered are exactly the enabled dependents of the parent: "after" once the run ended completed, failed, killed, skipped or cancelled, "after_success" only when it completed |
| `Cascade.CreatedInOrder` | internal/dependency/resolver.go:44-66 | they are created in row order |
| `Cascade.ReachedLink` | internal/dependency/resolver.go:44-66 | one link of the triggered closure follows the same rule |
| `OutputTail.RunOutput.StorePoll` | internal/executor/async_runs.go:146-198 | a poll appends to each stream its chunk unless that write fails, and moves both offsets, to the cursor or past the chunk, only if no append failed |
| `OutputTail.RunOutput.Finalize` | internal/executor/async_runs.go:348-382 | finalisation of a result appends the terminal poll's chunks again and resets the offsets |
| `OutputTail.NeverLost` | internal/executor/async_runs.go:134-198 | with any pattern of failed writes and crashes, every remote byte below the stored offset is in a stored chunk |
| `OutputTail.ExactStep` | internal/executor/async_runs.go:146-153 | a fault-free poll keeps stored stdout, and likewise stderr, equal to the remote prefix, except exactly when it rewinds that stream's offset |
| `OutputTail.ExactlyOnce` | internal/executor/async_runs.go:134-198 | when nothing fails, what is stored of either stream is the remote prefix up to its offset if and only if no poll rewound it |
| `OutputTail.LastChunk` | internal/executor/async_runs.go:348-381 | after the terminal poll either stream is exact if and only if the last chunk is empty or exactly one of its two writes succeeded |
| `QueueConcurrency.Processor.CheckConcurrency` | internal/queue/processor.go:140-148 | a dispatch passes exactly when the running jobs are below the limit, and then is in flight |
| `QueueConcurrency.ConcurrencyBound` | internal/queue/processor.go:140-169 | with at most B dispatches between count and write, the running jobs never exceed concurrency - 1 + B in any interleaving, and nothing runs under a limit of 0 |
| `QueueConcurrency.InFlightBalance` | internal/queue/processor.go:140-169 | every admitted dispatch is in flight until it writes or is given up |
| `QueueConcurrency.SerialisedKeepsLimit` | internal/queue/processor.go:116-118 | dispatches one at a time keep exactly to the limit |
| `QueueConcurrency.ConcurrencyBoundReached` | internal/queue/processor.go:116-169 | the bound is tight for every limit and every B |
| `JobRows.JobRow.FinalizeResult` | internal/queue/async_jobs.go:281-318 | a direct job is killed exactly when reported killed and read as kill_requested, else completed on success, else retried under the attempt number of the execution while that is below the limit, else failed |
| `JobRows.JobRow.FailUnsaved` | internal/queue/processor.go:210-216 | an accepted execution whose handle cannot be saved fails the job, whatever the row holds |
| `JobRows.JobRow.WriteResult` | internal/worker/dispatcher.go:286-319 | the outcome of a worker result is decided on the state and the attempt number read before, and written over whatever the row holds by now |
| `JobRows.JobRow.ReportResult` | internal/worker/dispatcher.go:262-319 | undisturbed, a success completes the job, a failure under a requested kill kills it, and any other is retried under the next number exactly while the row's attempt is below the limit |
| `JobRows.JobRow.DispatchUndisturbed` | main.go:306-344 | undisturbed, a worker dispatch leaves the job waiting, with a task and the next attempt number exactly if a worker was found |
| `JobRows.JobRow.CancelJob` | internal/handler/service.go:1255-1270 | the cancel acts on the state it read, over whatever the row holds by now, and tells the caller what it did |
| `JobRows.JobRow.CancelUndisturbed` | internal/handler/service.go:1247-1270 | undisturbed, a waiting job is cancelled, a running one asked to stop, any other left alone, and the caller is told the state of the row |
| `JobExecution.StepKeepsInv` | internal/queue/processor.go:158-226 | every step of either route keeps at most one task, execution or result in hand, and the account of attempts spent, also when the worker is faster than the dispatch, its result is read before the dispatch writes, or a restart cuts the dispatch off |
| `JobExecution.InHandBalance` | main.go:306-344 | no task, execution, result in hand or open cancel comes or goes unaccounted for |
| `JobExecution.ExecutionsBounded` | main.go:306-344 | over any mix of routes, losses, cancels and restarts a job is executed one at a time and at most max(1, max_attempts) times, once more only if the attempt of some dispatch was cut off by a restart or overwritten by a result read before it |
| `JobExecution.ExtraExecutionIff` | main.go:326-344 | a claim leads to that extra execution if and only if the attempt is max_attempts and the attempts of all the job's worker dispatches went missing |
| `JobExecution.ExtraExecutionReached` | main.go:326-344 | that extra execution is reached for every positive max_attempts |
| `JobExecution.FailureUsesTheBudget` | internal/worker/dispatcher.go:299-319 | with dispatches written in time, a job failing on results alone was executed exactly max(1, max_attempts) times if all direct, max_attempts / 2 + 1 if all on workers, and in a mix took between limit and limit + 2 attempts |
| `JobExecution.RetryUsesEntry` | internal/worker/dispatcher.go:304-311 | a retry is delayed by an entry in range: one per direct and two per worker execution, less one for each missing dispatch attempt and one while the last dispatch has yet to write |
| `JobExecution.JobEnds` | internal/queue/async_jobs.go:297-318 | apart from cancels and looks at the row no job has more than 5 max(1, max_attempts) + 8 events that do anything, and two more for each restart |
| `JobExecution.EndsTerminalOrStranded` | internal/db/jobs.sql.go:69-72 | nothing but a cancel or a restart can change a job if and only if it is terminal with nothing in progress, or stranded, and no dispatch is still to write |
| `JobExecution.StrandsIff` | main.go:306-344 | a step strands a job if and only if it finds no worker, confirms a dispatch with nothing left in progress, loses the task or result, or writes a kill with nothing in progress |
| `JobExecution.NothingLostEndsTerminal` | internal/queue/processor.go:121-226 | a job that no step strands comes to rest only in a terminal state |
| `JobExecution.StrandedForever` | internal/db/jobs.sql.go:61-78 | a stranded job is never executed again; only cancels change its state |
| `JobExecution.CancelledExecutedIff` | internal/handler/service.go:1624-1652 | a cancelled job is executed later exactly when its task still waits, or its execution or its result in hand may still fail with attempts left |
| `WorkerLoad.LoadGrowsOnlyByChecks` | internal/worker/dispatcher.go:125-154 | a worker's load grows only in a step that saw it below its limit, or by one in a late kill |
| `WorkerLoad.RowAfter` | internal/handler/service.go:1617-1648 | a row changes only through a poll, a report, a cancel or a rewrite, and a poll alone puts a worker's name to it; reports and cancels keep a run's worker and clear a job's |
| `WorkerLoad.ChannelAfter` | internal/worker/dispatcher.go:139-154 | a channel takes tasks at its end up to ten, gives the first to a poll, and is empty after a restart |
| `WorkerLoad.UnderWayIff` | internal/worker/dispatcher.go:125-154 | a dispatch is under way exactly from its check below the limit to the channel, its end or a restart, and a cancel from its read to its write or a restart |
| `WorkerLoad.WorkerLoadBound` | internal/worker/dispatcher.go:125-154 | with at most D split dispatches under way, active plus channelled plus under way never exceed max_concurrency + 9 + D, plus one for each late kill, in any interleaving |
| `WorkerLoad.LoadBrokenIff` | internal/handler/service.go:807-813 | a step exceeds the bound if and only if, at the bound, a cancel that read a run of this worker as running writes when the run is no longer counted |
| `WorkerLoad.WorkerLoadBoundReached` | internal/worker/dispatcher.go:326-330 | the bound is reached, by active and channelled tasks alone, for every positive limit and every D |
| `WorkerDispatch.LabelsMatchIff` | internal/worker/dispatcher.go:411-449 | a worker fits exactly when it has every required name, or every required pair with its value, in a document of the same kind |
| `WorkerDispatch.Dispatcher.SelectWorker` | internal/worker/dispatcher.go:157-182 | none exactly when every listed worker is unfit or at its limit, otherwise the first of the least loaded ones |
| `WorkerDispatch.Dispatcher.Dispatch` | internal/worker/dispatcher.go:91-154 | a task goes to the wanted or selected worker if that one has capacity and a free slot; otherwise nothing changes, even if another had both |
| `WorkerDispatch.Dispatcher.Poll` | internal/worker/dispatcher.go:186-195 | the first task of the channel leaves it and is set running under the worker's name; an empty channel changes nothing |
| `WorkerDispatch.UncountedGrowsIff` | internal/worker/dispatcher.go:335-348 | a step takes an execution out of the count if and only if it cancels a counted job, rewrites a counted row, or another worker polls or reports the task; one execution per step |
| `WorkerDispatch.ExecutingBounded` | internal/worker/dispatcher.go:335-348 | what a worker really executes stays within the bound plus one for each late kill and each step that uncounts |
| `WorkerDispatch.CancellationUncounts` | internal/handler/service.go:1260-1266 | with cancellations of running jobs a worker with any positive limit can come to execute any number of tasks with none counted, even with dispatches one at a time |
| `KillProtocol.RowStore.WriteBack` | internal/queue/async_jobs.go:281-318 | the second half of each handler writes once, on the state it read: a cancel cancelled or kill_requested, the monitor hung, a dispatch waiting_for_worker, a finish what the next three rows say |
| `KillProtocol.SyncFinish` | internal/executor/orchestrator.go:316-341 | a synchronous finish records completed on exit code 0, on a 2xx response, or without code and error; killed for a run asked to be, if the method can; else retrying exactly while attempts are left, else failed |
| `KillProtocol.AsyncFinish` | internal/executor/async_runs.go:215-252 | the same for a remote execution, where a reported failure or kill needs exit code 0 to count as completed, and killed needs both the report and the request |
| `KillProtocol.WorkerFinish` | internal/worker/dispatcher.go:211-319 | the same for a worker's result, where any error rules out completed, and runs are never retried |
| `KillProtocol.RowStore.PickUp` | internal/handler/service.go:1600-1648 | a poll sets the row running, whatever it holds |
| `KillProtocol.RowStore.TakeBack` | internal/worker/dispatcher.go:505-519 | a run waiting for a stale worker, and nothing else, is pending again, and its task stays where it is |
| `KillProtocol.StepKeepsSeen` | internal/handler/service.go:799-816 | every step keeps: what a handler read was once in the row, and every write is justified by what its handler read |
| `KillProtocol.StepKeepsOne` | internal/queue/processor.go:158-226 | every step keeps at most one task, execution or finish under way and one for each reassignment so far, and only the latter on a claimable or finished row |
| `KillProtocol.UnderWayBounded` | internal/worker/dispatcher.go:505-519 | over all interleavings at most one task, execution or finish is under way, and one more for each time the run was taken from a stale worker; for jobs always at most one |
| `KillProtocol.UnderWayReached` | internal/worker/dispatcher.go:505-519 | for every number of reassignments a history has that many workers and one more execute the same run at once |
| `KillProtocol.UnderWayBalance` | internal/worker/dispatcher.go:186-195 | no task, execution or open handler comes or goes unaccounted for |
| `KillProtocol.KilledOnlyOnRequest` | internal/executor/async_runs.go:234-245 | over all interleavings, whatever is recorded as killed was kill_requested by a cancel before that, and running before that; on the synchronous and the worker path it never had a successful result |
| `KillProtocol.UnrequestedKill` | internal/executor/async_runs.go:235-245 | an unrequested kill is recorded as completed exactly for exit code 0, or for a job that reports neither code nor error |
| `KillProtocol.FinishedChangesIff` | internal/worker/dispatcher.go:186-297 | a row recorded as killed, completed, failed or skipped changes later if and only if a handler that read it before will still write, or a task or an execution is still out |
| `KillProtocol.FinishedOnceChangesIff` | internal/worker/dispatcher.go:231-297 | without reassignments it changes if and only if a cancel that saw it waiting or running, the monitor, or an overtaken dispatch is still to write |
| `Provisioners.Provisioner.IncrementContainer` | internal/infra/provisioner.go:264-281 | an increment succeeds exactly when some ready or active server has room, and takes a least loaded one |
| `Provisioners.Provisioner.EnsureCapacity` | internal/infra/provisioner.go:67-108 | what is returned and changed in each case: enough slots, an idle server reactivated, the limit reached, creation failed, created |
| `Provisioners.Provisioner.CheckIdleServers` | internal/infra/provisioner.go:215-238 | undisturbed, the idle check destroys exactly the servers unused past the grace period whose deletion succeeds within three attempts, leaves those whose deletion fails marked, and touches no other |
| `Provisioners.Provisioner.DestroyServer` | internal/infra/provisioner.go:164-198 | the server ends destroyed if and only if one of three deletions succeeds, and destroying otherwise, whatever it was |
| `Provisioners.Provisioner.DestroyWorkspaceServers` | internal/infra/provisioner.go:241-260 | all servers end destroyed except those already being destroyed |
| `Placement.ProvisioningLeftIff` | internal/infra/provisioner.go:153-161 | a server being provisioned changes exactly on its callback, which makes it ready, or when it is destroyed |
| `Placement.ContainersWithinLimits` | internal/infra/provisioner.go:264-292 | over every history each server runs between 0 and max_containers containers |
| `Placement.ServersWithinLimit` | internal/infra/provisioner.go:93-103 | over every history the servers not destroyed are at most MaxServers plus the number of revivals |
| `Placement.ServerLimitBrokenIff` | internal/infra/provisioner.go:164-238 | a step breaks the limit if and only if, at the limit, it fails to destroy a destroyed server, or the idle check marks one it listed before |
| `Placement.IncrementsTakeWhatIsAvailable` | internal/infra/provisioner.go:69-76 | n increments in a row all succeed, for some choice among equals, if and only if n free slots are available |
| `Placement.IncrementTakesOne` | internal/infra/provisioner.go:264-281 | each increment takes exactly one free slot |
| `Placement.IncrementsStayBalanced` | internal/infra/provisioner.go:271-275 | increments alone keep a pool in which no server is more than one ahead of one with room, whatever the tie-break |
| `Enqueue.JobTable.EnqueueJob` | internal/handler/service.go:1126-1155 | a single job is stored exactly when its key is free and the row can be inserted; a taken key is a conflict |
| `Enqueue.JobTable.BatchEnqueueJobs` | internal/handler/service.go:1177-1226 | a batch is stored as a whole, in order, exactly when it is non-empty, all its keys are free and distinct, all rows can be inserted and the commit succeeds; otherwise the table is unchanged |
| `Enqueue.JobTable.ReplayJob` | internal/db/jobs.sql.go:330-341 | a replay copies the job without its key |
| `Enqueue.ViewKeys` | internal/db/jobs.sql.go:45-47 | within a batch a key counts as taken if the table has it or an earlier job of the batch brought it |
| `Enqueue.KeysStayUnique` | schema.sql:455-456 | over every sequence of enqueues, batches and replays no two jobs of a workspace share a key, and no stored job is lost or reordered |
| `Enqueue.BatchIsAllSingles` | internal/handler/service.go:1194-1220 | a batch is acceptable if and only if its jobs, enqueued one by one, would all be stored, and then gives the same rows |
| `HangDetection.Monitor.Check` | internal/monitor/monitor.go:76-124 | a pass marks exactly the running rows started longer ago than their execution timeout, or, unless HTTP, silent since the last heartbeat or the start for longer than the heartbeat timeout |
| `HangDetection.HungInTime` | internal/monitor/monitor.go:95-101 | with checks at most I apart, a run still running past its timeout T is hung by start + T + I |
| `HangDetection.FirstAttemptExact` | internal/monitor/monitor.go:83-124 | on its first attempt a run is marked hung if and only if a check finds it past its timeout or silent for longer than the heartbeat timeout |
| `HangDetection.HungExact` | internal/monitor/monitor.go:83-124 | over any number of attempts, a run is hung if and only if a check of its present attempt came later than the last start plus the execution timeout, or than the last heartbeat of whatever attempt (the last start if there was none) plus the heartbeat timeout |
| `HangDetection.FalseAlarmIff` | internal/monitor/monitor.go:104-117 | a check marks a running run within both timeouts if and only if its last heartbeat is older than its last start and further back than the timeout |
| `HangDetection.SecondAttemptFalselyHung` | internal/db/runs.sql.go:1285-1294 | a history in which a second attempt younger than the heartbeat timeout is marked hung |
| `WebhookDelivery.Notifier.Deliver` | internal/notifier/webhook.go:84-124 | at most three tries, stopping at the first accepted one; success resets the counter, three failures raise it and from the twentieth on switch the subscription off |
| `WebhookDelivery.ActiveExactly` | internal/db/webhooks.sql.go:98-106 | the counter holds the failures since the last success, and the subscription is enabled and active exactly while no 20 consecutive deliveries have failed |
| `WebhookDelivery.MarkExactly` | internal/db/webhooks.sql.go:102-103 | the shut-off mark says whether the last failure to arrive was at least the twentieth in a row |
| `WebhookDelivery.EnabledExactly` | internal/db/webhooks.sql.go:201-204 | over any mix of deliveries and switching, enabled means last switched on and not shut off by a twentieth failure in a row since |
| `WebhookDelivery.ManualEnableResumesIff` | internal/db/webhooks.sql.go:113-116 | events are delivered exactly while that holds and the last failure to arrive was not a twentieth in a row |

## Left out

- The "no parallel runs" guard: it counts the runs other than the pending one and does not give single flight.
- Runs on the worker route in `RunLifecycle`, their dispatch and their return to pending; `WorkerLoad` and `KillProtocol` model worker runs, `KillProtocol` also the return.
- Orchestras, choices and the AI director.
- KillRun and the bulk kill of the orchestra monitor: unconditional writes outside the kill protocol.
- Two claims of the same run or job before the first one's write: no job or run is claimed again before the write that follows its claim, except in `QueueConcurrency`.
- A dispatch whose row write fails, after which the queue processor writes waiting_for_worker without an attempt.
- Finishing handlers read and write in one step in `WorkerLoad`; in `KillProtocol` and `JobExecution` they are two.
- Dependents of a run killed on the synchronous path: `handleTerminal` gets the row as claimed, so none are triggered; `Cascade` covers ends reported with their final state.
- Triggers of a dependency by manual, replayed or retried runs in the same cascade: a cascade starts from one finished run.
- Database errors inside `Evaluate`, `finalizeRunResult` and the placement queries, other than those named as parameters.
- Concurrent placement operations: `Placement` is about serialised ones.
- The idle check's age condition, and Increment's and Decrement's activity timestamps.
- Concurrent enqueues between check and insert: the unique index then rejects the second with an internal error instead of a conflict.
- Cron expressions, time zones, database timestamp precision, JSON decoding, integer overflow of counters and intervals.
- Job output offsets: the job poller appends only the response body.
- HTTP, SSH, SSM and Kubernetes methods, storage and logging backends, metrics, CLI, SDKs, frontend: outside calls.
- Authentication, tokens, encryption and masking.
- Retention deletes, pause and resume, and the transition tables, which no writer consults.
- Webhook event filters, signatures, and deliveries abandoned because a request cannot be built.
