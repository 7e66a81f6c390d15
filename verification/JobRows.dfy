/** The job handlers as they rewrite the row in place, each tied to its steps in JobExecution.  A handler
    that reads and later writes is made of one method for each, as others may run in between, and of one
    that says what it does when nobody does. */
module JobRows {
  import opened Domain
  import opened JobStates
  import opened JobExecution

  class JobRow {
    var state: JobState
    var attempt: nat
    var tasks: nat
    var executing: seq<Execution>
    var reports: seq<Report>
    var confirming: Option<Pushed>
    var readings: seq<JobState>
    var direct: nat
    var worker: nat
    var unconfirmed: nat

    function Now(): Job
      reads this
    {
      Job(state, attempt, tasks, executing, reports, confirming, readings, direct, worker, unconfirmed)
    }

    constructor ()
      ensures IsNew(Now()) && Now() == Job(JobState.Pending, 0, 0, [], [], None, [], 0, 0, 0)
    {
      state, attempt, tasks, executing, reports := JobState.Pending, 0, 0, [], [];
      confirming, readings, direct, worker, unconfirmed := None, [], 0, 0, 0;
    }

    /** `Processor.dispatch` on the direct route, once the concurrency check has passed. */
    method Dispatch(max: int, registered: bool)
      requires IsClaimable(Now()) && confirming.None?
      modifies this
      ensures Now() == Step(old(Now()), max, if registered then DispatchDirect else UnknownMethod)
      ensures state == (if registered then JobState.Running else JobState.Failed)
      ensures attempt == old(attempt) + if registered then 1 else 0
      ensures executing == old(executing) + if registered then [Direct(attempt, None)] else []
    {
      if !registered {
        state := JobState.Failed;
        return;
      }
      attempt := attempt + 1;
      state := JobState.Running;
      executing := executing + [Direct(attempt, None)];
      direct := direct + 1;
    }

    /** A finisher looks at the state of the row. */
    method ReadRow(max: int, k: nat)
      requires k < |executing| && (executing[k].ByWorker? ==> executing[k].seen.None?)
      modifies this`executing
      ensures Now() == Step(old(Now()), max, Event.ReadRow(k))
      ensures executing == old(executing)[k := old(executing)[k].(seen := Some(state))]
    {
      executing := executing[k := executing[k].(seen := Some(state))];
    }

    /** `finalizeJobResult`, for the k-th execution in progress; a killed one has looked at the row. */
    method FinalizeResult(max: int, k: nat, success: bool, killed: bool)
      requires k < |executing| && executing[k].Direct?
      modifies this
      ensures Now() == Step(old(Now()), max, Result(k, success, killed))
      ensures state == if killed && old(executing)[k].seen == Some(JobState.KillRequested) then JobState.Killed
                       else if success then JobState.Completed
                       else if old(executing)[k].attempt < max then JobState.Retrying
                       else JobState.Failed
      ensures attempt == if state == JobState.Retrying then old(executing)[k].attempt else old(attempt)
      ensures Now() == old(Now()).(state := state, attempt := attempt, executing := Without(old(executing), k))
    {
      var started, seen := executing[k].attempt, executing[k].seen;
      executing := Without(executing, k);
      if killed {
        if seen == Some(JobState.KillRequested) {
          state := JobState.Killed;
          return;
        }
      }
      if success {
        state := JobState.Completed;
        return;
      }
      if started < max {
        state, attempt := JobState.Retrying, started;
        return;
      }
      state := JobState.Failed;
    }

    /** The handle of an accepted asynchronous execution cannot be saved: failed, whatever the row holds. */
    method FailUnsaved(max: int, k: nat)
      requires k < |executing|
      modifies this
      ensures Now() == Step(old(Now()), max, HandleLost(k))
      ensures state == JobState.Failed && executing == Without(old(executing), k) && attempt == old(attempt)
    {
      executing := Without(executing, k);
      state := JobState.Failed;
    }

    /** The worker-dispatch closure up to `Dispatch`; `found` says whether a worker took the task. */
    method DispatchToWorker(max: int, found: bool)
      requires IsClaimable(Now()) && confirming.None?
      modifies this
      ensures Now() == Step(old(Now()), max, if found then PushTask else NoWorker)
      ensures state == (if found then old(state) else JobState.WaitingForWorker) && tasks == old(tasks) + if found then 1 else 0
      ensures confirming == if found then Some(Pushed(attempt, false)) else None
    {
      if !found {
        state := JobState.WaitingForWorker;
        return;
      }
      tasks := tasks + 1;
      confirming := Some(Pushed(attempt, false));
    }

    /** The rest of the closure: waiting, with the attempt number it claimed raised by one. */
    method ConfirmDispatch(max: int)
      requires confirming.Some?
      modifies this
      ensures Now() == Step(old(Now()), max, Confirm)
      ensures state == JobState.WaitingForWorker && attempt == old(confirming).value.attempt + 1 && confirming.None?
    {
      state, attempt := JobState.WaitingForWorker, confirming.value.attempt + 1;
      confirming := None;
    }

    /** The closure undisturbed: the job waits, with a task for it exactly if a worker was found. */
    method DispatchUndisturbed(max: int, found: bool)
      requires IsClaimable(Now()) && confirming.None?
      modifies this
      ensures Now() == old(Now()).(state := JobState.WaitingForWorker,
                                   attempt := old(attempt) + if found then 1 else 0,
                                   tasks := old(tasks) + if found then 1 else 0)
    {
      DispatchToWorker(max, found);
      if found {
        ConfirmDispatch(max);
      }
    }

    /** `WorkerPoll`: the row is set running whatever it holds. */
    method Poll(max: int)
      requires tasks > 0
      modifies this
      ensures Now() == Step(old(Now()), max, PollTask)
      ensures state == JobState.Running && attempt == old(attempt) && tasks == old(tasks) - 1
      ensures executing == old(executing) + [ByWorker(None)]
    {
      tasks := tasks - 1;
      if confirming.Some? {
        confirming := Some(confirming.value.(polled := true));
      }
      executing := executing + [ByWorker(None)];
      worker := worker + 1;
      state := JobState.Running;
    }

    /** The job branch of `ProcessResult` up to the second look at the row, which takes the attempt number. */
    method ReadResult(max: int, k: nat, success: bool)
      requires k < |executing| && executing[k].ByWorker? && executing[k].seen.Some?
      modifies this`executing, this`reports
      ensures Now() == Step(old(Now()), max, Event.ReadResult(k, success))
      ensures executing == Without(old(executing), k) && |reports| == |old(reports)| + 1
      ensures var report := reports[|old(reports)|];
              report.seen == old(executing)[k].seen.value && report.attempt == attempt && report.success == success
    {
      var early := confirming.Some? && confirming.value.polled;
      reports := reports + [Report(executing[k].seen.value, attempt, success, early)];
      executing := Without(executing, k);
    }

    /** The rest of it: the branches decide on what was read, and write over what the row holds by now. */
    method WriteResult(max: int, m: nat)
      requires m < |reports|
      modifies this
      ensures Now() == Step(old(Now()), max, Event.WriteResult(m))
      ensures var report := old(reports)[m];
              state == if report.success then JobState.Completed
                       else if report.seen == JobState.KillRequested then JobState.Killed
                       else if report.attempt < max then JobState.Retrying
                       else JobState.Failed
      ensures attempt == if state == JobState.Retrying then old(reports)[m].attempt + 1 else old(attempt)
    {
      var report := reports[m];
      reports := Without(reports, m);
      if report.early && confirming.None? {
        unconfirmed := unconfirmed + 1;
      }
      if report.seen == JobState.KillRequested && !report.success {
        state := JobState.Killed;
        return;
      }
      if report.success {
        state := JobState.Completed;
        return;
      }
      if report.attempt < max {
        state, attempt := JobState.Retrying, report.attempt + 1;
        return;
      }
      state := JobState.Failed;
    }

    /** A worker result handled undisturbed: a success completes the job, a failure under a requested kill
        kills it, and any other is retried under the next attempt number exactly while the row's is below
        the limit. */
    method ReportResult(max: int, k: nat, success: bool)
      requires k < |executing| && executing[k] == ByWorker(None)
      modifies this
      ensures state == (if success then JobState.Completed
                        else if old(state) == JobState.KillRequested then JobState.Killed
                        else if old(attempt) < max then JobState.Retrying
                        else JobState.Failed)
      ensures attempt == old(attempt) + (if state == JobState.Retrying then 1 else 0)
      ensures Now() == old(Now()).(state := state, attempt := attempt, executing := Without(old(executing), k))
    {
      ghost var before, unreported := executing, reports;
      ReadRow(max, k);
      ReadResult(max, k, success);
      assert executing == Without(before, k);
      WriteResult(max, |reports| - 1);
      assert reports == unreported;
    }

    /** The first half of `CancelJob`. */
    method GetJobToCancel(max: int)
      modifies this`readings
      ensures Now() == Step(old(Now()), max, ReadCancel)
      ensures readings == old(readings) + [state]
    {
      readings := readings + [state];
    }

    /** The second half: it switches on the state it read, and writes over whatever the row holds by now.
        The answer is what the caller is told. */
    method CancelJob(max: int, k: nat) returns (status: JobState)
      requires k < |readings|
      modifies this
      ensures Now() == Step(old(Now()), max, WriteCancel(k))
      ensures status == match old(readings)[k]
                        case Pending => JobState.Cancelled
                        case WaitingForWorker => JobState.Cancelled
                        case Retrying => JobState.Cancelled
                        case Running => JobState.KillRequested
                        case other => other
      ensures state == if status == old(readings)[k] then old(state) else status
      ensures Now() == old(Now()).(state := state, readings := Without(old(readings), k))
    {
      status := readings[k];
      readings := Without(readings, k);
      match status {
        case Pending | WaitingForWorker | Retrying =>
          state := JobState.Cancelled;
          status := state;
        case Running =>
          state := JobState.KillRequested;
          status := state;
        case _ =>
      }
    }

    /** `CancelJob` undisturbed: a waiting job is cancelled, a running one asked to stop, and any other is
        left alone; the caller is told the state the row then holds. */
    method CancelUndisturbed(max: int) returns (status: JobState)
      modifies this
      ensures Now() == old(Now()).(state := status)
      ensures status == match old(state)
                        case Pending => JobState.Cancelled
                        case WaitingForWorker => JobState.Cancelled
                        case Retrying => JobState.Cancelled
                        case Running => JobState.KillRequested
                        case other => other
    {
      ghost var before := readings;
      GetJobToCancel(max);
      status := CancelJob(max, |readings| - 1);
      assert readings == before;
    }
  }
}
