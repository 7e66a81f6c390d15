/** The executions of one queue job across the direct and the worker route (internal/queue/processor.go,
    internal/queue/async_jobs.go, the worker-dispatch closure of main.go, internal/worker/dispatcher.go).
    A job is not claimed again before the write that follows a claim.  On the worker route that write
    comes after the task was handed over, and the worker may be faster. */
module JobExecution {
  import opened JobStates
  import Domain

  /** An execution in progress, with the state its finisher has read of the row, if it has.  The direct
      route keeps the attempt number it started with; the worker route reads the row when the result
      arrives, its state first and then its attempt. */
  datatype Execution = Direct(attempt: nat, seen: Domain.Option<JobState>) | ByWorker(seen: Domain.Option<JobState>)

  /** A worker result whose handler has read the row and has not written yet.  `early` marks one that was
      read before the dispatch wrote its attempt. */
  datatype Report = Report(seen: JobState, attempt: nat, success: bool, early: bool)

  /** A dispatch to a worker whose task is handed over and whose own write is still to come: the attempt
      number it claimed, and whether the worker has polled the task since. */
  datatype Pushed = Pushed(attempt: nat, polled: bool)

  /** A job row; the tasks waiting for it in worker channels; the executions in progress; the worker
      results about to be written; the states that cancel handlers have read and not yet acted on; and how
      many executions each route has started.  `unconfirmed` counts those worker executions for which the
      attempt written by the dispatch is missing or was overwritten. */
  datatype Job = Job(state: JobState, attempt: nat, tasks: nat, executing: seq<Execution>, reports: seq<Report>,
                     confirming: Domain.Option<Pushed>, readings: seq<JobState>, direct: nat, worker: nat, unconfirmed: nat)

  datatype Event =
    | DispatchDirect
    | UnknownMethod                // direct dispatch of a job whose method is not registered
    | NoWorker                     // worker dispatch that finds no worker, or fails
    | PushTask                     // worker dispatch: the task is handed over
    | Confirm                      // worker dispatch: its row write
    | PollTask                     // a worker picks the task up
    | TaskLost                     // the poll fails after taking the task
    | ReadRow(k: nat)              // the finisher of the k-th execution reads the state of the row
    | Result(k: nat, success: bool, killed: bool)  // direct route: the outcome is written
    | ReadResult(k: nat, success: bool)            // worker route: the attempt is read, and
    | WriteResult(m: nat)                          // the outcome is written, whatever the row holds by now
    | ResultLost(k: nat)           // the process dies with a synchronous execution, or a worker never reports
    | ReportLost(m: nat)
    | HandleLost(k: nat)           // an accepted asynchronous execution whose handle cannot be saved
    | Restart                      // channels, dispatches and handlers live in memory only
    | ReadCancel                   // CancelJob, or the expiry of pending jobs, reads the row
    | WriteCancel(k: nat)          // and writes, whatever the row holds by now

  /** As `CreateJob` inserts it. */
  predicate IsNew(j: Job) {
    && j.state == Pending && j.attempt == 0 && j.tasks == 0 && j.executing == [] && j.reports == []
    && j.confirming.None? && j.readings == []
    && j.direct == 0 && j.worker == 0 && j.unconfirmed == 0
  }

  predicate IsClaimable(j: Job) {
    j.state == Pending || j.state == Retrying
  }

  function Without<T>(s: seq<T>, k: nat): seq<T>
    requires k < |s|
  {
    s[..k] + s[k + 1..]
  }

  /** `finalizeJobResult` for an execution that started as number `attempt`; `killRequested` as read. */
  function FinalizeJobResult(j: Job, max: int, attempt: nat, killRequested: bool, success: bool, killed: bool): Job {
    if killed && killRequested then j.(state := Killed)
    else if success then j.(state := Completed)
    else if attempt < max then j.(state := Retrying, attempt := attempt)
    else j.(state := Failed)
  }

  /** The job branch of `ProcessResult`, which decides on what it read of the row. */
  function ProcessResult(j: Job, max: int, r: Report): Job {
    if r.seen == KillRequested && !r.success then j.(state := Killed)
    else if r.success then j.(state := Completed)
    else if r.attempt < max then j.(state := Retrying, attempt := r.attempt + 1)
    else j.(state := Failed)
  }

  function Polled(j: Job): bool {
    j.confirming.Some? && j.confirming.value.polled
  }

  /** What a cancel writes for the state it read. */
  function CancelWrite(seen: JobState): Domain.Option<JobState> {
    if seen == Pending || seen == WaitingForWorker || seen == Retrying then Domain.Some(Cancelled)
    else if seen == Running then Domain.Some(KillRequested)
    else Domain.None
  }

  /** One step; an event that cannot happen changes nothing. */
  function Step(j: Job, max: int, e: Event): Job {
    match e
    case DispatchDirect =>
      if !IsClaimable(j) || j.confirming.Some? then j
      else j.(state := Running, attempt := j.attempt + 1, executing := j.executing + [Direct(j.attempt + 1, Domain.None)], direct := j.direct + 1)
    case UnknownMethod =>
      if !IsClaimable(j) || j.confirming.Some? then j else j.(state := Failed)
    case NoWorker =>
      if !IsClaimable(j) || j.confirming.Some? then j else j.(state := WaitingForWorker)
    case PushTask =>
      if !IsClaimable(j) || j.confirming.Some? then j
      else j.(tasks := j.tasks + 1, confirming := Domain.Some(Pushed(j.attempt, false)))
    case Confirm =>
      if j.confirming.None? then j
      else j.(state := WaitingForWorker, attempt := j.confirming.value.attempt + 1, confirming := Domain.None)
    case PollTask =>
      if j.tasks == 0 then j
      else
        var confirming := if j.confirming.Some? then Domain.Some(j.confirming.value.(polled := true)) else Domain.None;
        j.(state := Running, tasks := j.tasks - 1, executing := j.executing + [ByWorker(Domain.None)], confirming := confirming, worker := j.worker + 1)
    case TaskLost =>
      if j.tasks == 0 then j else j.(tasks := j.tasks - 1)
    case ReadRow(k) =>
      if k >= |j.executing| || (j.executing[k].ByWorker? && j.executing[k].seen.Some?) then j
      else j.(executing := j.executing[k := j.executing[k].(seen := Domain.Some(j.state))])
    case Result(k, success, killed) =>
      if k >= |j.executing| || !j.executing[k].Direct? then j
      else
        var x := j.executing[k];
        FinalizeJobResult(j.(executing := Without(j.executing, k)), max, x.attempt, x.seen == Domain.Some(KillRequested), success, killed)
    case ReadResult(k, success) =>
      if k >= |j.executing| || !j.executing[k].ByWorker? || j.executing[k].seen.None? then j
      else j.(executing := Without(j.executing, k),
              reports := j.reports + [Report(j.executing[k].seen.value, j.attempt, success, Polled(j))])
    case WriteResult(m) =>
      if m >= |j.reports| then j
      else
        var r := j.reports[m];
        var overtaken := r.early && j.confirming.None?;
        ProcessResult(j.(reports := Without(j.reports, m), unconfirmed := j.unconfirmed + if overtaken then 1 else 0), max, r)
    case ResultLost(k) =>
      if k >= |j.executing| then j else j.(executing := Without(j.executing, k))
    case ReportLost(m) =>
      if m >= |j.reports| then j else j.(reports := Without(j.reports, m))
    case HandleLost(k) =>
      if k >= |j.executing| then j else j.(state := Failed, executing := Without(j.executing, k))
    case Restart =>
      j.(tasks := 0, reports := [], confirming := Domain.None, readings := [],
         unconfirmed := j.unconfirmed + if Polled(j) then 1 else 0)
    case ReadCancel => j.(readings := j.readings + [j.state])
    case WriteCancel(k) =>
      if k >= |j.readings| then j
      else
        var rest := j.(readings := Without(j.readings, k));
        match CancelWrite(j.readings[k])
        case Some(to) => rest.(state := to)
        case None => rest
  }

  function After(j: Job, max: int, events: seq<Event>): Job
    decreases |events|
  {
    if events == [] then j else After(Step(j, max, events[0]), max, events[1..])
  }

  // ---------------------------------------------------------------- the invariant

  function Executions(j: Job): nat {
    j.direct + j.worker
  }

  /** What the executions so far take from the attempt counter: a direct one takes one, a worker one two
      (once when dispatched, once more when retried), or one if its dispatch never wrote. */
  function Spent(j: Job): int {
    j.direct + 2 * j.worker - j.unconfirmed
  }

  predicate Idle(j: Job) {
    j.tasks == 0 && j.executing == [] && j.reports == []
  }

  /** The budget left when the job was last claimable. */
  predicate HasBudget(executions: int, spent: int, unconfirmed: int, max: int) {
    executions == 0 || (1 <= spent <= max && (unconfirmed == 0 ==> executions < max))
  }

  predicate Inv(j: Job, max: int) {
    && j.tasks + |j.executing| + |j.reports| <= 1
    && Executions(j) <= Domain.Max(1, max) + (if j.unconfirmed > 0 then 1 else 0)
    && j.unconfirmed + (if Polled(j) then 1 else 0) <= j.worker
    && (j.state == Pending ==> Executions(j) == 0) && (j.state == Retrying ==> Executions(j) >= 1)
    && (j.state == WaitingForWorker ==> j.confirming.None?)
    && (j.state == Completed || j.state == Failed || j.state == Killed || j.state == Retrying ==> j.executing == [] && j.reports == [])
    && (match j.confirming case None => InvConfirmed(j, max) case Some(c) => InvConfirming(j, max, c))
  }

  /** No dispatch is waiting to write. */
  predicate InvConfirmed(j: Job, max: int) {
    && (IsClaimable(j) ==> Idle(j) && j.attempt == Spent(j) && HasBudget(Executions(j), Spent(j), j.unconfirmed, max))
    && (j.state == Running || j.state == Completed || j.state == Failed || j.state == Killed ==> j.tasks == 0)
    && (j.tasks == 1 ==> j.attempt == Spent(j) + 1 && HasBudget(Executions(j), Spent(j), j.unconfirmed, max))
    && (j.executing != [] ==> InvExecuting(j, max, j.executing[0]))
    && (j.reports != [] ==> InvReported(j, max, j.reports[0]))
  }

  /** A dispatch has handed its task over and has not written yet. */
  predicate InvConfirming(j: Job, max: int, c: Pushed) {
    if !c.polled then
      && j.executing == [] && j.reports == [] && c.attempt == j.attempt == Spent(j)
      && HasBudget(Executions(j), Spent(j), j.unconfirmed, max)
      && (IsClaimable(j) || j.state == Cancelled || j.state == KillRequested)
    else
      && j.tasks == 0 && c.attempt == Spent(j) - 2 && j.state != Pending
      && HasBudget(Executions(j) - 1, Spent(j) - 2, j.unconfirmed, max)
      && (j.executing != [] ==> j.executing[0].ByWorker? && j.attempt == c.attempt)
      && (j.reports != [] ==> j.reports[0].early && j.reports[0].attempt == c.attempt)
      && (j.state == Retrying ==> j.attempt == c.attempt + 1 <= max)
  }

  /** Before this worker execution, the budget allowed it; its dispatch has written, or was cut off. */
  predicate WorkerHadBudget(j: Job, max: int) {
    || HasBudget(Executions(j) - 1, Spent(j) - 2, j.unconfirmed, max)
    || (j.unconfirmed >= 1 && HasBudget(Executions(j) - 1, Spent(j) - 1, j.unconfirmed - 1, max))
  }

  predicate InvExecuting(j: Job, max: int, x: Execution) {
    match x
    case Direct(attempt, _) =>
      j.direct >= 1 && attempt == j.attempt == Spent(j) && HasBudget(Executions(j) - 1, Spent(j) - 1, j.unconfirmed, max)
    case ByWorker(_) =>
      j.worker >= 1 && j.attempt == Spent(j) - 1 && WorkerHadBudget(j, max)
  }

  /** A result that was read early carries an attempt number that the dispatch has raised since. */
  predicate InvReported(j: Job, max: int, r: Report) {
    if r.early then
      j.worker > j.unconfirmed && r.attempt == Spent(j) - 2 && HasBudget(Executions(j) - 1, Spent(j) - 2, j.unconfirmed, max)
    else
      j.worker >= 1 && r.attempt == j.attempt == Spent(j) - 1 && WorkerHadBudget(j, max)
  }

  lemma {:induction false} ClaimKeepsInv(j: Job, max: int, e: Event)
    requires Inv(j, max) && (e.DispatchDirect? || e.UnknownMethod? || e.NoWorker? || e.PushTask?)
    ensures Inv(Step(j, max, e), max)
  {
  }

  lemma {:induction false} ConfirmKeepsInv(j: Job, max: int)
    requires Inv(j, max)
    ensures Inv(Step(j, max, Confirm), max)
  {
  }

  lemma {:induction false} PollKeepsInv(j: Job, max: int)
    requires Inv(j, max)
    ensures Inv(Step(j, max, PollTask), max)
  {
  }

  lemma {:induction false} RestartKeepsInv(j: Job, max: int)
    requires Inv(j, max)
    ensures Inv(Step(j, max, Restart), max)
  {
  }

  lemma {:induction false} DirectResultKeepsInv(j: Job, max: int, k: nat, success: bool, killed: bool)
    requires Inv(j, max)
    ensures Inv(Step(j, max, Result(k, success, killed)), max)
  {
    if k < |j.executing| {
      assert Without(j.executing, k) == [] && k == 0;
    }
  }

  lemma {:induction false} ReadResultKeepsInv(j: Job, max: int, k: nat, success: bool)
    requires Inv(j, max)
    ensures Inv(Step(j, max, ReadResult(k, success)), max)
  {
    if k < |j.executing| {
      assert Without(j.executing, k) == [] && k == 0;
    }
  }

  lemma {:induction false} WriteResultKeepsInv(j: Job, max: int, m: nat)
    requires Inv(j, max)
    ensures Inv(Step(j, max, WriteResult(m)), max)
  {
    if m < |j.reports| {
      if j.reports[m].early {
        EarlyWriteKeepsInv(j, max, m);
      } else {
        WriteKeepsInv(j, max, m);
      }
    }
  }

  lemma {:induction false} EarlyWriteKeepsInv(j: Job, max: int, m: nat)
    requires Inv(j, max) && m < |j.reports| && j.reports[m].early
    ensures Inv(Step(j, max, WriteResult(m)), max)
  {
    assert Without(j.reports, m) == [] && m == 0;
  }

  lemma {:induction false} WriteKeepsInv(j: Job, max: int, m: nat)
    requires Inv(j, max) && m < |j.reports| && !j.reports[m].early
    ensures Inv(Step(j, max, WriteResult(m)), max)
  {
    assert Without(j.reports, m) == [] && m == 0;
  }

  lemma {:induction false} ReadRowKeepsInv(j: Job, max: int, k: nat)
    requires Inv(j, max)
    ensures Inv(Step(j, max, ReadRow(k)), max)
  {
  }

  lemma {:induction false} LossKeepsInv(j: Job, max: int, e: Event)
    requires Inv(j, max) && (e.ResultLost? || e.HandleLost? || e.ReportLost? || e.TaskLost?)
    ensures Inv(Step(j, max, e), max)
  {
    if e.ReportLost? {
      if e.m < |j.reports| {
        assert Without(j.reports, e.m) == [];
      }
    } else if e.ResultLost? || e.HandleLost? {
      if e.k < |j.executing| {
        assert Without(j.executing, e.k) == [];
      }
    }
  }

  /** The invariant holds of a job whatever was read of it, and whatever a cancel writes. */
  lemma {:induction false} CancelKeepsInv(j: Job, max: int, readings: seq<JobState>, to: JobState)
    requires Inv(j, max) && (to == j.state || to == Cancelled || to == KillRequested)
    ensures Inv(j.(readings := readings, state := to), max)
  {
  }

  lemma {:induction false} StepKeepsInv(j: Job, max: int, e: Event)
    requires Inv(j, max)
    ensures Inv(Step(j, max, e), max)
  {
    match e
    case Confirm => ConfirmKeepsInv(j, max);
    case PollTask => PollKeepsInv(j, max);
    case Restart => RestartKeepsInv(j, max);
    case ReadRow(k) => ReadRowKeepsInv(j, max, k);
    case Result(k, success, killed) => DirectResultKeepsInv(j, max, k, success, killed);
    case ReadResult(k, success) => ReadResultKeepsInv(j, max, k, success);
    case WriteResult(m) => WriteResultKeepsInv(j, max, m);
    case ReadCancel => CancelKeepsInv(j, max, j.readings + [j.state], j.state);
    case WriteCancel(k) =>
      if k < |j.readings| {
        CancelKeepsInv(j, max, Without(j.readings, k), if CancelWrite(j.readings[k]).Some? then CancelWrite(j.readings[k]).value else j.state);
      }
    case DispatchDirect => ClaimKeepsInv(j, max, e);
    case UnknownMethod => ClaimKeepsInv(j, max, e);
    case NoWorker => ClaimKeepsInv(j, max, e);
    case PushTask => ClaimKeepsInv(j, max, e);
    case TaskLost => LossKeepsInv(j, max, e);
    case ResultLost(_) => LossKeepsInv(j, max, e);
    case ReportLost(_) => LossKeepsInv(j, max, e);
    case HandleLost(_) => LossKeepsInv(j, max, e);
  }

  lemma {:induction false} AfterKeepsInv(j: Job, max: int, events: seq<Event>)
    requires Inv(j, max)
    ensures Inv(After(j, max, events), max)
    decreases |events|
  {
    if events != [] {
      StepKeepsInv(j, max, events[0]);
      AfterKeepsInv(Step(j, max, events[0]), max, events[1..]);
    }
  }

  // ---------------------------------------------------------------- what is in hand

  /** What an event adds to the tasks, the executions, the results in hand and the open cancels, and what it
      takes away. */
  datatype Change = Change(tasks: int, executing: int, reports: int, readings: int)

  function ChangeOf(j: Job, e: Event): Change {
    var claims := (j.state == Pending || j.state == Retrying) && j.confirming.None?;
    match e
    case DispatchDirect => Change(0, if claims then 1 else 0, 0, 0)
    case PushTask => Change(if claims then 1 else 0, 0, 0, 0)
    case PollTask => if j.tasks > 0 then Change(-1, 1, 0, 0) else Change(0, 0, 0, 0)
    case TaskLost => Change(if j.tasks > 0 then -1 else 0, 0, 0, 0)
    case Result(k, _, _) => Change(0, if k < |j.executing| && j.executing[k].Direct? then -1 else 0, 0, 0)
    case ReadResult(k, _) =>
      if k < |j.executing| && j.executing[k].ByWorker? && j.executing[k].seen.Some? then Change(0, -1, 1, 0) else Change(0, 0, 0, 0)
    case WriteResult(m) => Change(0, 0, if m < |j.reports| then -1 else 0, 0)
    case ResultLost(k) => Change(0, if k < |j.executing| then -1 else 0, 0, 0)
    case ReportLost(m) => Change(0, 0, if m < |j.reports| then -1 else 0, 0)
    case HandleLost(k) => Change(0, if k < |j.executing| then -1 else 0, 0, 0)
    case Restart => Change(0 - j.tasks, 0, 0 - |j.reports|, 0 - |j.readings|)
    case ReadCancel => Change(0, 0, 0, 1)
    case WriteCancel(k) => Change(0, 0, 0, if k < |j.readings| then -1 else 0)
    case _ => Change(0, 0, 0, 0)
  }

  lemma StepChanges(j: Job, max: int, e: Event)
    ensures var j', c := Step(j, max, e), ChangeOf(j, e);
            && j'.tasks == j.tasks + c.tasks && |j'.executing| == |j.executing| + c.executing
            && |j'.reports| == |j.reports| + c.reports && |j'.readings| == |j.readings| + c.readings
  {
  }

  function Changes(j: Job, max: int, events: seq<Event>): Change
    decreases |events|
  {
    if events == [] then Change(0, 0, 0, 0)
    else
      var first, rest := ChangeOf(j, events[0]), Changes(Step(j, max, events[0]), max, events[1..]);
      Change(first.tasks + rest.tasks, first.executing + rest.executing, first.reports + rest.reports, first.readings + rest.readings)
  }

  /** Nothing in hand comes or goes unaccounted for: a task stays until it is polled, lost, or wiped out by a
      restart; an execution until its result is written or read, or it is lost; a result and a cancel until
      they are written, or lost with the process. */
  lemma {:induction false} InHandBalance(j: Job, max: int, events: seq<Event>)
    ensures var j', sum := After(j, max, events), Changes(j, max, events);
            && j'.tasks == j.tasks + sum.tasks && |j'.executing| == |j.executing| + sum.executing
            && |j'.reports| == |j.reports| + sum.reports && |j'.readings| == |j.readings| + sum.readings
    decreases |events|
  {
    if events != [] {
      StepChanges(j, max, events[0]);
      InHandBalance(Step(j, max, events[0]), max, events[1..]);
    }
  }

  // ---------------------------------------------------------------- number of executions

  /** However the routes are mixed, and whatever is cancelled, lost or restarted on the way, a job is
      executed by one at a time and at most max(1, max_attempts) times, or once more if the attempt written
      by some dispatch went missing: cut off by a restart, or overwritten by a result that was read before. */
  lemma {:induction false} ExecutionsBounded(start: Job, max: int, events: seq<Event>)
    requires IsNew(start)
    ensures var j := After(start, max, events);
            && |j.executing| <= 1
            && Executions(j) <= Domain.Max(1, max) + (if j.unconfirmed > 0 then 1 else 0)
  {
    AfterKeepsInv(start, max, events);
  }

  /** A claim leads to that extra execution if and only if the job has used exactly its attempts and none of
      its worker executions was charged for its dispatch. */
  lemma {:induction false} ExtraExecutionIff(start: Job, max: int, events: seq<Event>)
    requires IsNew(start) && max >= 1
    requires var j := After(start, max, events); IsClaimable(j) && j.confirming.None?
    ensures var j := After(start, max, events);
            Executions(Step(j, max, DispatchDirect)) > max <==> j.attempt == max && j.worker == j.unconfirmed
  {
    AfterKeepsInv(start, max, events);
  }

  /** `n` times over, a task is pushed, polled and failed, and the handler of the result reads the row just
      before the dispatch writes it. */
  ghost predicate Unconfirmed(start: Job, max: int, n: nat) {
    exists events :: IsUnconfirmed(After(start, max, events), n)
  }

  predicate IsUnconfirmed(j: Job, n: nat) {
    && (j.state == Retrying || (n == 0 && j.state == Pending)) && Idle(j) && j.confirming.None?
    && j.attempt == n && j.worker == n && j.direct == 0 && j.unconfirmed == n
  }

  lemma {:induction false} AfterExtended(j: Job, max: int, events: seq<Event>, e: Event)
    ensures After(j, max, events + [e]) == Step(After(j, max, events), max, e)
    decreases |events|
  {
    if events == [] {
      var one := events + [e];
      assert one[0] == e && one[1..] == [];
    } else {
      assert (events + [e])[1..] == events[1..] + [e];
      AfterExtended(Step(j, max, events[0]), max, events[1..], e);
    }
  }

  /** From the push to the report. */
  lemma {:induction false} PushedToReported(j: Job, max: int, n: nat)
    requires IsUnconfirmed(j, n)
    ensures var j1 := Step(Step(j, max, PushTask), max, PollTask);
            var j2 := Step(Step(j1, max, ReadRow(0)), max, ReadResult(0, false));
            j2 == j.(state := Running, worker := n + 1, confirming := Domain.Some(Pushed(n, true)), reports := [Report(Running, n, false, true)])
  {
    var j1 := Step(Step(j, max, PushTask), max, PollTask);
    assert j1.executing == [ByWorker(Domain.None)];
    var j2 := Step(j1, max, ReadRow(0));
    assert j2.executing == [ByWorker(Domain.Some(Running))];
    assert Without(j2.executing, 0) == [];
  }

  lemma {:induction false} ReportedToRetrying(j: Job, max: int, n: nat)
    requires n < max && j.reports == [Report(Running, n, false, true)] && j.tasks == 0 && j.executing == []
    requires j.confirming == Domain.Some(Pushed(n, true)) && j.worker == n + 1 && j.unconfirmed == n && j.direct == 0
    ensures IsUnconfirmed(Step(Step(j, max, Confirm), max, WriteResult(0)), n + 1)
  {
    assert Without(j.reports, 0) == [];
  }

  lemma {:induction false} OneMoreUnconfirmed(start: Job, max: int, events: seq<Event>, n: nat)
    requires n < max && IsUnconfirmed(After(start, max, events), n)
    ensures Unconfirmed(start, max, n + 1)
  {
    var e1 := events + [PushTask];
    var e2 := e1 + [PollTask];
    var e3 := e2 + [ReadRow(0)];
    var e4 := e3 + [ReadResult(0, false)];
    var e5 := e4 + [Confirm];
    var e6 := e5 + [WriteResult(0)];
    AfterExtended(start, max, events, PushTask);
    AfterExtended(start, max, e1, PollTask);
    AfterExtended(start, max, e2, ReadRow(0));
    AfterExtended(start, max, e3, ReadResult(0, false));
    AfterExtended(start, max, e4, Confirm);
    AfterExtended(start, max, e5, WriteResult(0));
    PushedToReported(After(start, max, events), max, n);
    ReportedToRetrying(After(start, max, e4), max, n);
    assert IsUnconfirmed(After(start, max, e6), n + 1);
  }

  lemma {:induction false} UnconfirmedReached(start: Job, max: int, n: nat)
    requires IsNew(start) && n <= max
    ensures Unconfirmed(start, max, n)
    decreases n
  {
    if n == 0 {
      var none: seq<Event> := [];
      assert After(start, max, none) == start;
    } else {
      UnconfirmedReached(start, max, n - 1);
      var events :| IsUnconfirmed(After(start, max, events), n - 1);
      OneMoreUnconfirmed(start, max, events, n - 1);
    }
  }

  /** The extra execution is reached for every positive max_attempts. */
  lemma {:induction false} ExtraExecutionReached(start: Job, max: int)
    requires IsNew(start) && max >= 1
    ensures exists events :: Executions(After(start, max, events)) == max + 1
  {
    UnconfirmedReached(start, max, max);
    var events :| IsUnconfirmed(After(start, max, events), max);
    AfterExtended(start, max, events, DispatchDirect);
    assert Executions(After(start, max, events + [DispatchDirect])) == max + 1;
  }

  // ---------------------------------------------------------------- what a failure has cost

  /** Every failure in the history is decided on the result of an execution. */
  predicate OnlyResultsFail(events: seq<Event>) {
    forall i :: 0 <= i < |events| ==> !events[i].UnknownMethod? && !events[i].HandleLost?
  }

  /** No worker polls a task before the dispatch that pushed it has written. */
  predicate Prompt(j: Job, max: int, events: seq<Event>)
    decreases |events|
  {
    events == [] ||
    ((events[0].PollTask? ==> j.confirming.None?) && Prompt(Step(j, max, events[0]), max, events[1..]))
  }

  /** A failed job has used its budget, and had not before its last execution. */
  predicate Exhausted(j: Job, max: int) {
    && j.unconfirmed == 0 && !Polled(j) && (j.reports != [] ==> !j.reports[0].early)
    && (j.state == Failed ==>
         && Executions(j) >= 1 && j.attempt >= max
         && ( || (j.direct >= 1 && j.attempt == Spent(j) && (Executions(j) == 1 || Spent(j) - 1 <= max))
              || (j.worker >= 1 && j.attempt == Spent(j) - 1 && (Executions(j) == 1 || Spent(j) - 2 <= max))))
  }

  lemma {:induction false} ResultKeepsExhausted(j: Job, max: int, e: Event)
    requires Inv(j, max) && Exhausted(j, max) && (e.Result? || e.ReadResult?)
    ensures Exhausted(Step(j, max, e), max)
  {
    if e.k < |j.executing| {
      assert Without(j.executing, e.k) == [] && e.k == 0;
    }
  }

  lemma {:induction false} ReportKeepsExhausted(j: Job, max: int, e: Event)
    requires Inv(j, max) && Exhausted(j, max) && (e.WriteResult? || e.ReportLost?)
    ensures Exhausted(Step(j, max, e), max)
  {
    if e.m < |j.reports| {
      assert Without(j.reports, e.m) == [] && e.m == 0;
    }
  }

  lemma {:induction false} StepKeepsExhausted(j: Job, max: int, e: Event)
    requires Inv(j, max) && Exhausted(j, max) && !e.UnknownMethod? && !e.HandleLost?
    requires e.PollTask? ==> j.confirming.None?
    ensures Exhausted(Step(j, max, e), max)
  {
    if e.Result? || e.ReadResult? {
      ResultKeepsExhausted(j, max, e);
    } else if e.WriteResult? || e.ReportLost? {
      ReportKeepsExhausted(j, max, e);
    } else if e.DispatchDirect? || e.NoWorker? || e.PushTask? || e.Confirm? || e.PollTask? {
      DispatchKeepsExhausted(j, max, e);
    } else {
      OtherKeepsExhausted(j, max, e);
    }
  }

  lemma {:induction false} OtherKeepsExhausted(j: Job, max: int, e: Event)
    requires Exhausted(j, max) && (IsAside(e) || e.ResultLost? || e.TaskLost? || e.Restart?)
    ensures Exhausted(Step(j, max, e), max)
  {
  }

  lemma {:induction false} DispatchKeepsExhausted(j: Job, max: int, e: Event)
    requires Inv(j, max) && Exhausted(j, max) && (e.DispatchDirect? || e.NoWorker? || e.PushTask? || e.Confirm? || e.PollTask?)
    requires e.PollTask? ==> j.confirming.None?
    ensures Exhausted(Step(j, max, e), max)
  {
  }

  lemma {:induction false} AfterKeepsExhausted(j: Job, max: int, events: seq<Event>)
    requires Inv(j, max) && Exhausted(j, max) && OnlyResultsFail(events) && Prompt(j, max, events)
    ensures Exhausted(After(j, max, events), max)
    decreases |events|
  {
    if events != [] {
      StepKeepsInv(j, max, events[0]);
      StepKeepsExhausted(j, max, events[0]);
      AfterKeepsExhausted(Step(j, max, events[0]), max, events[1..]);
    }
  }

  /** With every dispatch written in time, a job that fails for want of a successful execution was
      executed exactly max(1, max_attempts) times when all its executions were direct, but only
      max_attempts / 2 + 1 times when all were on workers: a retry there costs two attempts.  Mixed, the
      attempts taken are within two of the limit. */
  lemma {:induction false} FailureUsesTheBudget(start: Job, max: int, events: seq<Event>)
    requires IsNew(start) && OnlyResultsFail(events) && Prompt(start, max, events)
    requires After(start, max, events).state == Failed
    ensures var j := After(start, max, events); var limit := Domain.Max(1, max);
            && (j.worker == 0 ==> j.direct == limit)
            && (j.direct == 0 ==> j.worker == limit / 2 + 1)
            && limit <= Spent(j) <= limit + 2
  {
    AfterKeepsInv(start, max, events);
    AfterKeepsExhausted(start, max, events);
    ExecutionsBounded(start, max, events);
  }

  /** Both routes index the backoff list with the attempt number they write, which is never out of range:
      it is what the executions so far have spent, one less while the dispatch of the last one has yet to
      write.  So it is entry n after the n-th direct execution, and entry 2n after the n-th on a worker, less
      one for each whose dispatch went uncounted. */
  lemma {:induction false} RetryUsesEntry(start: Job, max: int, events: seq<Event>)
    requires IsNew(start)
    requires After(start, max, events).state == Retrying
    ensures var j := After(start, max, events);
            && 1 <= j.attempt <= max
            && j.attempt == j.direct + 2 * j.worker - j.unconfirmed - (if Polled(j) then 1 else 0)
  {
    AfterKeepsInv(start, max, events);
  }

  // ---------------------------------------------------------------- the job comes to an end

  /** Cancels, and a finisher's look at the row. */
  predicate IsAside(e: Event) {
    e.ReadCancel? || e.WriteCancel? || e.ReadRow?
  }

  /** The steps a job may still take, apart from cancels, looks and restarts. */
  function Measure(j: Job, max: int): int {
    5 * (Domain.Max(1, max) + 1 - Executions(j))
    + (if j.confirming.Some? then 1 else 0)
    + (if j.executing != [] then 5
       else if j.reports != [] then 4
       else if j.tasks > 0 then 1
       else if IsClaimable(j) && j.confirming.None? then 3
       else 0)
  }

  lemma {:induction false} ExecutionStepDecreases(j: Job, max: int, e: Event)
    requires Inv(j, max) && (e.Result? || e.ReadResult? || e.ResultLost? || e.HandleLost?) && Step(j, max, e) != j
    ensures Measure(Step(j, max, e), max) < Measure(j, max)
  {
    assert Without(j.executing, e.k) == [];
  }

  lemma {:induction false} ReportStepDecreases(j: Job, max: int, e: Event)
    requires Inv(j, max) && (e.WriteResult? || e.ReportLost?) && Step(j, max, e) != j
    ensures Measure(Step(j, max, e), max) < Measure(j, max)
  {
    assert Without(j.reports, e.m) == [];
  }

  lemma {:induction false} StepDecreases(j: Job, max: int, e: Event)
    requires Inv(j, max) && !IsAside(e) && !e.Restart? && Step(j, max, e) != j
    ensures Measure(Step(j, max, e), max) < Measure(j, max)
  {
    if e.Result? || e.ReadResult? || e.ResultLost? || e.HandleLost? {
      ExecutionStepDecreases(j, max, e);
    } else if e.WriteResult? || e.ReportLost? {
      ReportStepDecreases(j, max, e);
    }
  }

  lemma {:induction false} OtherStepAddsLittle(j: Job, max: int, e: Event)
    requires Inv(j, max) && (IsAside(e) || e.Restart?)
    ensures Measure(Step(j, max, e), max) <= Measure(j, max) + (if e.Restart? then 2 else 0)
  {
  }

  /** Events that do something to the job, other than these. */
  function WorkDone(j: Job, max: int, events: seq<Event>): nat
    decreases |events|
  {
    if events == [] then 0
    else (if !IsAside(events[0]) && !events[0].Restart? && Step(j, max, events[0]) != j then 1 else 0)
         + WorkDone(Step(j, max, events[0]), max, events[1..])
  }

  function Restarts(events: seq<Event>): nat {
    if events == [] then 0 else (if events[0].Restart? then 1 else 0) + Restarts(events[1..])
  }

  lemma {:induction false} WorkBounded(j: Job, max: int, events: seq<Event>)
    requires Inv(j, max)
    ensures WorkDone(j, max, events) <= Measure(j, max) + 2 * Restarts(events)
    decreases |events|
  {
    if events != [] {
      var e := events[0];
      StepKeepsInv(j, max, e);
      if IsAside(e) || e.Restart? {
        OtherStepAddsLittle(j, max, e);
      } else if Step(j, max, e) != j {
        StepDecreases(j, max, e);
      }
      WorkBounded(Step(j, max, e), max, events[1..]);
    }
  }

  /** No history of a job goes on for ever, unless it is restarted for ever. */
  lemma {:induction false} JobEnds(start: Job, max: int, events: seq<Event>)
    requires IsNew(start)
    ensures WorkDone(start, max, events) <= 5 * Domain.Max(1, max) + 8 + 2 * Restarts(events)
  {
    WorkBounded(start, max, events);
  }

  /** Nobody is working on the job and nobody will: ClaimPendingJobs selects only pending and retrying
      jobs, and a task exists only in the memory of the control plane. */
  predicate Stranded(j: Job) {
    Idle(j) && (j.state == WaitingForWorker || j.state == Running || j.state == KillRequested)
  }

  /** Only a cancel, a look at the row, or a restart can still change anything. */
  ghost predicate AtRest(j: Job, max: int) {
    forall e: Event :: IsAside(e) || e.Restart? || Step(j, max, e) == j
  }

  /** Where histories end: in a terminal state, or stranded. */
  lemma {:induction false} EndsTerminalOrStranded(start: Job, max: int, events: seq<Event>)
    requires IsNew(start)
    ensures var j := After(start, max, events);
            AtRest(j, max) <==> j.confirming.None? && (Stranded(j) || (IsTerminal(j.state) && Idle(j)))
  {
    var j := After(start, max, events);
    AfterKeepsInv(start, max, events);
    RestIff(j, max);
  }

  lemma {:induction false} RestIff(j: Job, max: int)
    requires Inv(j, max)
    ensures AtRest(j, max) <==> j.confirming.None? && (Stranded(j) || (IsTerminal(j.state) && Idle(j)))
  {
    if AtRest(j, max) {
      RestsOnly(j, max);
    }
  }

  lemma {:induction false} RestsOnly(j: Job, max: int)
    requires Inv(j, max) && AtRest(j, max)
    ensures j.confirming.None? && (Stranded(j) || (IsTerminal(j.state) && Idle(j)))
  {
    assert Step(j, max, DispatchDirect) == j && Step(j, max, PollTask) == j && Step(j, max, ResultLost(0)) == j;
    assert Step(j, max, Confirm) == j && Step(j, max, ReportLost(0)) == j;
  }

  /** The steps that strand a job: a dispatch that finds no worker; a dispatch that writes when the task
      is no longer waiting and nobody executes it; a task or a result lost; a restart that wipes out the
      task; a kill written when nothing is in progress. */
  predicate Strands(j: Job, e: Event) {
    match e
    case NoWorker => IsClaimable(j) && j.confirming.None?
    case Confirm => j.confirming.Some? && Idle(j)
    case TaskLost => j.tasks == 1 && (j.state == WaitingForWorker || j.state == KillRequested)
    case Restart =>
      || (j.tasks == 1 && (j.state == WaitingForWorker || j.state == KillRequested))
      || (j.reports != [] && j.state != Cancelled)
    case ResultLost(k) => k < |j.executing| && j.state != Cancelled
    case ReportLost(m) => m < |j.reports| && j.state != Cancelled
    case WriteCancel(k) => k < |j.readings| && CancelWrite(j.readings[k]) == Domain.Some(KillRequested) && Idle(j)
    case _ => false
  }

  /** A step strands a job that was not stranded if and only if it is one of these. */
  lemma {:induction false} StrandsIff(start: Job, max: int, events: seq<Event>, e: Event)
    requires IsNew(start) && !Stranded(After(start, max, events))
    ensures var j := After(start, max, events);
            Stranded(Step(j, max, e)) <==> Strands(j, e)
  {
    AfterKeepsInv(start, max, events);
    StepStrandsIff(After(start, max, events), max, e);
  }

  lemma {:induction false} StepStrandsIff(j: Job, max: int, e: Event)
    requires Inv(j, max) && !Stranded(j)
    ensures Stranded(Step(j, max, e)) <==> Strands(j, e)
  {
    if e.Result? || e.ReadResult? || e.ResultLost? || e.HandleLost? {
      ExecutionStrandsIff(j, max, e);
    } else if e.WriteResult? || e.ReportLost? {
      ReportStrandsIff(j, max, e);
    }
  }

  lemma {:induction false} ExecutionStrandsIff(j: Job, max: int, e: Event)
    requires Inv(j, max) && !Stranded(j) && (e.Result? || e.ReadResult? || e.ResultLost? || e.HandleLost?)
    ensures Stranded(Step(j, max, e)) <==> Strands(j, e)
  {
    if e.k < |j.executing| {
      assert Without(j.executing, e.k) == [];
    }
  }

  lemma {:induction false} ReportStrandsIff(j: Job, max: int, e: Event)
    requires Inv(j, max) && !Stranded(j) && (e.WriteResult? || e.ReportLost?)
    ensures Stranded(Step(j, max, e)) <==> Strands(j, e)
  {
    if e.m < |j.reports| {
      assert Without(j.reports, e.m) == [];
    }
  }

  ghost predicate NeverStrands(j: Job, max: int, events: seq<Event>)
    decreases |events|
  {
    events == [] || (!Strands(j, events[0]) && NeverStrands(Step(j, max, events[0]), max, events[1..]))
  }

  lemma {:induction false} AfterNotStranded(j: Job, max: int, events: seq<Event>)
    requires Inv(j, max) && !Stranded(j) && NeverStrands(j, max, events)
    ensures !Stranded(After(j, max, events))
    decreases |events|
  {
    if events != [] {
      StepKeepsInv(j, max, events[0]);
      StepStrandsIff(j, max, events[0]);
      AfterNotStranded(Step(j, max, events[0]), max, events[1..]);
    }
  }

  /** A job that no step strands comes to rest only in a terminal state. */
  lemma {:induction false} NothingLostEndsTerminal(start: Job, max: int, events: seq<Event>)
    requires IsNew(start) && NeverStrands(start, max, events) && AtRest(After(start, max, events), max)
    ensures IsTerminal(After(start, max, events).state)
  {
    AfterNotStranded(start, max, events);
    EndsTerminalOrStranded(start, max, events);
  }

  /** Nothing in progress, nothing to claim, and no dispatch to write. */
  predicate Dormant(j: Job) {
    Idle(j) && !IsClaimable(j) && j.confirming.None?
  }

  /** A stranded job without an open dispatch is never executed again; only cancels change its state. */
  lemma {:induction false} StrandedForever(j: Job, max: int, events: seq<Event>)
    requires Dormant(j)
    ensures var j' := After(j, max, events);
            && Dormant(j') && Executions(j') == Executions(j) && j'.attempt == j.attempt
            && (j'.state == j.state || j'.state == Cancelled || j'.state == KillRequested)
    decreases |events|
  {
    if events != [] {
      StrandedForever(Step(j, max, events[0]), max, events[1..]);
    }
  }

  // ---------------------------------------------------------------- cancellation

  ghost predicate ExecutedLater(j: Job, max: int) {
    exists events :: Executions(After(j, max, events)) > Executions(j)
  }

  /** Will the execution end for good, whatever its result? */
  predicate IsLast(j: Job, max: int, x: Execution) {
    j.attempt >= max || (x.ByWorker? && x.seen == Domain.Some(KillRequested))
  }

  predicate ReportIsLast(max: int, r: Report) {
    r.success || r.seen == KillRequested || r.attempt >= max
  }

  /** Nothing to claim or to poll, and what is in progress is the last execution allowed. */
  predicate Over(j: Job, max: int) {
    && !IsClaimable(j) && j.tasks == 0
    && (j.executing == [] || IsLast(j, max, j.executing[0]))
    && (j.reports == [] || ReportIsLast(max, j.reports[0]))
  }

  lemma {:induction false} OverStays(j: Job, max: int, events: seq<Event>)
    requires Inv(j, max) && Over(j, max)
    ensures Executions(After(j, max, events)) == Executions(j)
    decreases |events|
  {
    if events != [] {
      StepKeepsInv(j, max, events[0]);
      StepKeepsOver(j, max, events[0]);
      OverStays(Step(j, max, events[0]), max, events[1..]);
    }
  }

  lemma {:induction false} StepKeepsOver(j: Job, max: int, e: Event)
    requires Inv(j, max) && Over(j, max)
    ensures Over(Step(j, max, e), max) && Executions(Step(j, max, e)) == Executions(j)
  {
    if e.Result? || e.ReadResult? || e.ResultLost? || e.HandleLost? {
      ExecutionKeepsOver(j, max, e);
    } else if e.WriteResult? || e.ReportLost? {
      ReportKeepsOver(j, max, e);
    }
  }

  lemma {:induction false} ExecutionKeepsOver(j: Job, max: int, e: Event)
    requires Inv(j, max) && Over(j, max) && (e.Result? || e.ReadResult? || e.ResultLost? || e.HandleLost?)
    ensures Over(Step(j, max, e), max) && Executions(Step(j, max, e)) == Executions(j)
  {
    if e.k < |j.executing| {
      assert Without(j.executing, e.k) == [];
    }
  }

  lemma {:induction false} ReportKeepsOver(j: Job, max: int, e: Event)
    requires Inv(j, max) && Over(j, max) && (e.WriteResult? || e.ReportLost?)
    ensures Over(Step(j, max, e), max) && Executions(Step(j, max, e)) == Executions(j)
  {
    if e.m < |j.reports| {
      assert Without(j.reports, e.m) == [];
    }
  }

  lemma {:induction false} PollExecutes(j: Job, max: int)
    requires j.tasks > 0
    ensures ExecutedLater(j, max)
  {
    var none: seq<Event> := [];
    AfterExtended(j, max, none, PollTask);
    assert Executions(After(j, max, none + [PollTask])) > Executions(j);
  }

  /** A restart drops an open dispatch, and the job is claimed once more. */
  lemma {:induction false} RetryingExecutesAgain(j: Job, max: int, events: seq<Event>)
    requires After(j, max, events).state == Retrying && Executions(After(j, max, events)) == Executions(j)
    ensures ExecutedLater(j, max)
  {
    var e1 := events + [Restart];
    AfterExtended(j, max, events, Restart);
    AfterExtended(j, max, e1, DispatchDirect);
    assert Executions(After(j, max, e1 + [DispatchDirect])) > Executions(j);
  }

  lemma {:induction false} ReportExecutesAgain(j: Job, max: int, events: seq<Event>)
    requires var j' := After(j, max, events);
             Executions(j') == Executions(j) && |j'.reports| == 1 && !ReportIsLast(max, j'.reports[0])
    ensures ExecutedLater(j, max)
  {
    AfterExtended(j, max, events, WriteResult(0));
    RetryingExecutesAgain(j, max, events + [WriteResult(0)]);
  }

  lemma {:induction false} WorkerExecutesAgain(j: Job, max: int)
    requires Inv(j, max) && j.state == Cancelled && j.executing != [] && j.executing[0].ByWorker? && !IsLast(j, max, j.executing[0])
    ensures ExecutedLater(j, max)
  {
    var none: seq<Event> := [];
    var e1 := none + [ReadRow(0)];
    var e2 := e1 + [ReadResult(0, false)];
    AfterExtended(j, max, none, ReadRow(0));
    AfterExtended(j, max, e1, ReadResult(0, false));
    var j1 := After(j, max, e1);
    assert j1.executing[0].seen.Some? && j1.executing[0].seen != Domain.Some(KillRequested);
    assert After(j, max, e2).reports == [Report(j1.executing[0].seen.value, j.attempt, false, Polled(j))];
    ReportExecutesAgain(j, max, e2);
  }

  lemma {:induction false} DirectExecutesAgain(j: Job, max: int)
    requires Inv(j, max) && j.executing != [] && j.executing[0].Direct? && j.attempt < max
    ensures ExecutedLater(j, max)
  {
    var none: seq<Event> := [];
    AfterExtended(j, max, none, Result(0, false, false));
    RetryingExecutesAgain(j, max, none + [Result(0, false, false)]);
  }

  /** What is under way for a cancelled job can still lead to an execution. */
  predicate MayExecute(j: Job, max: int) {
    || j.tasks == 1
    || (j.executing != [] && !IsLast(j, max, j.executing[0]))
    || (j.reports != [] && !ReportIsLast(max, j.reports[0]))
  }

  lemma {:induction false} MayExecuteDoes(j: Job, max: int)
    requires Inv(j, max) && j.state == Cancelled && MayExecute(j, max)
    ensures ExecutedLater(j, max)
  {
    if j.tasks == 1 {
      PollExecutes(j, max);
    } else if j.executing != [] {
      if j.executing[0].Direct? {
        DirectExecutesAgain(j, max);
      } else {
        WorkerExecutesAgain(j, max);
      }
    } else {
      var none: seq<Event> := [];
      ReportExecutesAgain(j, max, none);
    }
  }

  /** Cancelling a job takes nothing back: a cancelled job is executed after all exactly when its task is
      still waiting to be polled, or what is in progress may still fail with attempts left. */
  lemma {:induction false} CancelledExecutedIff(start: Job, max: int, events: seq<Event>)
    requires IsNew(start) && After(start, max, events).state == Cancelled
    ensures var j := After(start, max, events);
            ExecutedLater(j, max) <==>
              || j.tasks == 1
              || (j.executing != [] && !IsLast(j, max, j.executing[0]))
              || (j.reports != [] && !ReportIsLast(max, j.reports[0]))
  {
    var j := After(start, max, events);
    AfterKeepsInv(start, max, events);
    if MayExecute(j, max) {
      MayExecuteDoes(j, max);
    } else {
      forall es: seq<Event> ensures Executions(After(j, max, es)) == Executions(j) {
        OverStays(j, max, es);
      }
    }
  }
}
