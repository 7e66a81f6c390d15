/** When a run or a job is recorded as killed, and whether it stays so (CancelRun, CancelJob, the
    synchronous finish of a run, the asynchronous finalizers, the worker results, the monitor, the worker
    dispatch).  Every handler reads the row, decides on what it read, and writes without looking again; any
    number of them may be between the two. */
module KillProtocol {
  import opened Domain

  datatype Subject = ARun | AJob

  datatype Remote = RemoteCompleted | RemoteFailed | RemoteKilled

  datatype Path = Sync(supportsKill: bool) | Async(remote: Remote) | OnWorker

  /** What an execution reports. */
  datatype Result = Result(exitCode: Option<int>, responseCode: Option<int>, error: bool)

  datatype Outcome = Outcome(result: Result, attemptsLeft: bool)

  /** `Result.IsSuccess`: an exit code decides before anything else is looked at. */
  predicate IsSuccess(r: Result) {
    match r.exitCode
    case Some(code) => code == 0
    case None =>
      match r.responseCode
      case Some(code) => 200 <= code < 300
      case None => !r.error
  }

  /** The stricter test of `ProcessResult`: some code is needed, and no error may be set. */
  predicate WorkerSuccess(r: Result) {
    && !r.error
    && match r.exitCode
       case Some(code) => code == 0
       case None => r.responseCode.Some? && 200 <= r.responseCode.value < 300
  }

  /** The result that the asynchronous finalizers judge. */
  function AsyncResult(subject: Subject, remote: Remote, r: Result): Result {
    var r := r.(responseCode := None);
    if remote == RemoteFailed && r.exitCode == None then r.(error := true)
    else if remote == RemoteKilled && subject == ARun then r.(error := true)
    else r
  }

  /** A handler and the state it read. */
  datatype Handler =
    | Cancelling(seen: RunState)
    | Finishing(seen: RunState, path: Path, outcome: Outcome)
    | Marking(seen: RunState)                   // the monitor, about to write hung
    | Confirming(seen: RunState)                // a worker dispatch whose task is handed over
    | Elsewhere(seen: RunState, to: RunState)   // a write at once: claims, starts, failed starts, restarts

  /** A write to the row, and who made it. */
  datatype Entry = Entry(wrote: RunState, writer: Handler)

  /** The writes so far, the handlers that have read and not yet written, the tasks in worker channels,
      and the executions no handler has taken up yet. */
  datatype Row = Row(log: seq<Entry>, open: seq<Handler>, tasks: nat, executing: nat)

  datatype Event =
    | Start                     // claimed, and set running on the direct route
    | Refuse(to: RunState)      // claimed, and failed or skipped at once
    | HandOver                  // claimed, and the task pushed to a worker
    | PickUp                    // the worker polls the task: running, whatever the row holds
    | Reassign                  // the worker of a waiting run went stale: pending again, while the task stays in its channel
    | StartFails
    | ReadToFinish(path: Path, outcome: Outcome)
    | ReadToCancel
    | ReadToMark
    | Write(k: nat)
    | Crash(k: nat)             // the k-th handler dies; a dispatch does so only together with the channels
    | Lose(task: bool)          // a task or an execution is never heard of again
    | Restart                   // handlers and channels are gone, a running run is written off

  /** The state of the row: the last one written, `pending` at first. */
  function Current(log: seq<Entry>): RunState {
    if log == [] then Pending else log[|log| - 1].wrote
  }

  /** The ordinary end of an execution (finalizeRunResult, finalizeJobResult). */
  function Settle(success: bool, attemptsLeft: bool): RunState {
    if success then Completed else if attemptsLeft then Retrying else Failed
  }

  function FinishWrite(subject: Subject, seen: RunState, path: Path, o: Outcome): RunState {
    match path
    case Sync(supportsKill) =>
      if subject == ARun && seen == KillRequested && supportsKill && !IsSuccess(o.result) then Killed
      else Settle(IsSuccess(o.result), o.attemptsLeft)
    case Async(remote) =>
      if remote == RemoteKilled && seen == KillRequested then Killed
      else Settle(IsSuccess(AsyncResult(subject, remote, o.result)), o.attemptsLeft)
    case OnWorker =>
      if seen == KillRequested && !WorkerSuccess(o.result) then Killed
      else Settle(WorkerSuccess(o.result), o.attemptsLeft && subject == AJob)  // worker runs are not retried
  }

  function Decision(subject: Subject, h: Handler): Option<RunState> {
    match h
    case Cancelling(seen) => CancelWrite(seen)
    case Finishing(seen, path, outcome) => Some(FinishWrite(subject, seen, path, outcome))
    case Marking(seen) => Some(Hung)
    case Confirming(seen) => Some(WaitingForWorker)
    case Elsewhere(seen, to) => Some(to)
  }

  function Without(s: seq<Handler>, k: nat): seq<Handler>
    requires k < |s|
  {
    s[..k] + s[k + 1..]
  }

  function Record(subject: Subject, log: seq<Entry>, h: Handler): seq<Entry> {
    match Decision(subject, h)
    case None => log
    case Some(to) => log + [Entry(to, h)]
  }

  function Wrote(log: seq<Entry>, to: RunState): seq<Entry> {
    log + [Entry(to, Elsewhere(Current(log), to))]
  }

  /** Claimed are pending and retrying rows, and not again before the claim's own write. */
  predicate IsClaimable(r: Row) {
    && (Current(r.log) == Pending || Current(r.log) == Queued || Current(r.log) == Retrying)
    && forall k :: 0 <= k < |r.open| ==> !r.open[k].Confirming?
  }

  predicate Enabled(subject: Subject, r: Row, e: Event) {
    match e
    case Start => IsClaimable(r)
    case Refuse(to) => IsClaimable(r) && (to == Failed || to == Skipped)
    case HandOver => IsClaimable(r)
    case PickUp => r.tasks > 0
    case Reassign => subject == ARun && Current(r.log) == WaitingForWorker
    case StartFails => r.executing > 0
    case ReadToFinish(path, outcome) => r.executing > 0
    case ReadToCancel => true
    case ReadToMark => Current(r.log) == Running
    case Write(k) => k < |r.open|
    case Crash(k) => k < |r.open| && !r.open[k].Confirming?
    case Lose(task) => if task then r.tasks > 0 else r.executing > 0
    case Restart => true
  }

  function Step(subject: Subject, r: Row, e: Event): Row {
    if !Enabled(subject, r, e) then r
    else match e
      case Start => r.(log := Wrote(r.log, Running), executing := r.executing + 1)
      case Refuse(to) => r.(log := Wrote(r.log, to))
      case HandOver => r.(open := r.open + [Confirming(Current(r.log))], tasks := r.tasks + 1)
      case PickUp => r.(log := Wrote(r.log, Running), tasks := r.tasks - 1, executing := r.executing + 1)
      case Reassign => r.(log := Wrote(r.log, Pending))
      case StartFails => r.(log := Wrote(r.log, Failed), executing := r.executing - 1)
      case ReadToFinish(path, outcome) => r.(open := r.open + [Finishing(Current(r.log), path, outcome)], executing := r.executing - 1)
      case ReadToCancel => r.(open := r.open + [Cancelling(Current(r.log))])
      case ReadToMark => r.(open := r.open + [Marking(Current(r.log))])
      case Write(k) => r.(log := Record(subject, r.log, r.open[k]), open := Without(r.open, k))
      case Crash(k) => r.(open := Without(r.open, k))
      case Lose(task) => if task then r.(tasks := r.tasks - 1) else r.(executing := r.executing - 1)
      case Restart =>
        r.(log := if subject == ARun && Current(r.log) == Running then Wrote(r.log, Hung) else r.log, open := [], tasks := 0)
  }

  function After(subject: Subject, r: Row, events: seq<Event>): Row
    decreases |events|
  {
    if events == [] then r else After(subject, Step(subject, r, events[0]), events[1..])
  }

  /** The handlers as they touch the row. */
  class RowStore {
    const subject: Subject
    var log: seq<Entry>
    var open: seq<Handler>
    var tasks: nat
    var executing: nat

    function Now(): Row
      reads this
    {
      Row(log, open, tasks, executing)
    }

    constructor (subject: Subject)
      ensures this.subject == subject && Now() == Row([], [], 0, 0)
    {
      this.subject := subject;
      log, open, tasks, executing := [], [], 0, 0;
    }

    method GetToCancel()
      modifies this`open
      ensures Now() == Step(subject, old(Now()), ReadToCancel)
      ensures open == old(open) + [Cancelling(Current(log))]
    {
      open := open + [Cancelling(Current(log))];
    }

    predicate IsDispatched()
      reads this
    {
      exists k :: 0 <= k < |open| && open[k].Confirming?
    }

    /** Claimed on the direct route: running, with an execution to finish. */
    method Start()
      requires Current(log) in {Pending, Queued, Retrying} && !IsDispatched()
      modifies this`log, this`executing
      ensures Now() == Step(subject, old(Now()), Event.Start)
      ensures Current(log) == Running && executing == old(executing) + 1
      ensures log == old(log) + [Entry(Running, Elsewhere(Current(old(log)), Running))]
    {
      Update(Running, Elsewhere(Current(log), Running));
      executing := executing + 1;
    }

    /** Claimed, and failed for an unknown method or skipped for an overlap. */
    method Refuse(to: RunState)
      requires Current(log) in {Pending, Queued, Retrying} && !IsDispatched() && to in {Failed, Skipped}
      modifies this`log
      ensures Now() == Step(subject, old(Now()), Event.Refuse(to))
      ensures log == old(log) + [Entry(to, Elsewhere(Current(old(log)), to))]
    {
      Update(to, Elsewhere(Current(log), to));
    }

    /** Claimed, and handed to a worker; the dispatch will write waiting_for_worker. */
    method HandOver()
      requires Current(log) in {Pending, Queued, Retrying} && !IsDispatched()
      modifies this`open, this`tasks
      ensures Now() == Step(subject, old(Now()), Event.HandOver)
      ensures tasks == old(tasks) + 1 && open == old(open) + [Confirming(Current(log))]
    {
      open := open + [Confirming(Current(log))];
      tasks := tasks + 1;
    }

    /** The worker polls: running, whatever the row holds. */
    method PickUp()
      requires tasks > 0
      modifies this`log, this`tasks, this`executing
      ensures Now() == Step(subject, old(Now()), Event.PickUp)
      ensures tasks == old(tasks) - 1 && executing == old(executing) + 1
      ensures log == old(log) + [Entry(Running, Elsewhere(Current(old(log)), Running))]
    {
      Update(Running, Elsewhere(Current(log), Running));
      tasks, executing := tasks - 1, executing + 1;
    }

    /** The method refuses to start: failed, whatever the row holds. */
    method FailStart()
      requires executing > 0
      modifies this`log, this`executing
      ensures Now() == Step(subject, old(Now()), Event.StartFails)
      ensures executing == old(executing) - 1
      ensures log == old(log) + [Entry(Failed, Elsewhere(Current(old(log)), Failed))]
    {
      Update(Failed, Elsewhere(Current(log), Failed));
      executing := executing - 1;
    }

    /** `reassignWorkerRuns`: a run that waits for a stale worker is pending again; its task stays where it is. */
    method TakeBack()
      modifies this`log
      ensures Now() == Step(subject, old(Now()), Event.Reassign)
      ensures log == old(log) + if subject == ARun && Current(old(log)) == WaitingForWorker
                                then [Entry(Pending, Elsewhere(WaitingForWorker, Pending))] else []
    {
      if subject == ARun && Current(log) == WaitingForWorker {
        Update(Pending, Elsewhere(Current(log), Pending));
      }
    }

    /** The monitor lists the running rows. */
    method GetToMark()
      modifies this`open
      ensures Now() == Step(subject, old(Now()), Event.ReadToMark)
      ensures open == old(open) + if Current(log) == Running then [Marking(Running)] else []
    {
      if Current(log) == Running {
        open := open + [Marking(Running)];
      }
    }

    /** A restart: channels and handlers are gone, and start-up recovery writes a running run off. */
    method StartUp()
      modifies this`log, this`open, this`tasks
      ensures Now() == Step(subject, old(Now()), Event.Restart)
      ensures tasks == 0 && open == [] && executing == old(executing)
      ensures log == old(log) + if subject == ARun && Current(old(log)) == Running then [Entry(Hung, Elsewhere(Running, Hung))] else []
    {
      open, tasks := [], 0;
      if subject == ARun && Current(log) == Running {
        Update(Hung, Elsewhere(Running, Hung));
      }
    }

    method GetToFinish(path: Path, outcome: Outcome)
      requires executing > 0
      modifies this`open, this`executing
      ensures Now() == Step(subject, old(Now()), ReadToFinish(path, outcome))
      ensures open == old(open) + [Finishing(Current(log), path, outcome)] && executing == old(executing) - 1
    {
      open := open + [Finishing(Current(log), path, outcome)];
      executing := executing - 1;
    }

    /** The second half of the k-th handler, branch by branch as the source has it. */
    method WriteBack(k: nat)
      requires k < |open| && !open[k].Elsewhere?
      modifies this
      ensures Now() == Step(subject, old(Now()), Write(k))
      ensures var h := old(open)[k];
              match h
              case Cancelling(seen) =>
                log == old(log) + if seen in {Pending, Queued, WaitingForWorker, Paused, Retrying} then [Entry(Cancelled, h)]
                                  else if seen == Running then [Entry(KillRequested, h)]
                                  else []
              case Finishing(seen, path, outcome) => log == old(log) + [Entry(FinishWrite(subject, seen, path, outcome), h)]
              case Marking(_) => log == old(log) + [Entry(Hung, h)]
              case Confirming(_) => log == old(log) + [Entry(WaitingForWorker, h)]
      ensures open == old(open)[..k] + old(open)[k + 1..] && tasks == old(tasks) && executing == old(executing)
    {
      var h := open[k];
      open := open[..k] + open[k + 1..];
      match h
      case Cancelling(seen) =>
        match seen {
          case Pending | Queued | WaitingForWorker | Paused | Retrying => Update(Cancelled, h);
          case Running => Update(KillRequested, h);
          case _ =>
        }
      case Finishing(seen, Sync(supportsKill), outcome) =>
        var success := IsSuccess(outcome.result);
        if subject == ARun && seen == KillRequested {
          if supportsKill && !success {
            Update(Killed, h);
            return;
          }
        }
        Finalize(success, outcome.attemptsLeft, h);
      case Finishing(seen, Async(remote), outcome) =>
        var result := Result(outcome.result.exitCode, None, outcome.result.error);
        match remote {
          case RemoteKilled =>
            if seen == KillRequested {
              Update(Killed, h);
              return;
            }
            if subject == ARun && !result.error {
              result := result.(error := true);
            }
          case RemoteFailed =>
            if !result.error && result.exitCode == None {
              result := result.(error := true);
            }
          case RemoteCompleted =>
        }
        Finalize(IsSuccess(result), outcome.attemptsLeft, h);
      case Finishing(seen, OnWorker, outcome) =>
        var success := WorkerSuccess(outcome.result);
        if seen == KillRequested && !success {
          Update(Killed, h);
        } else {
          Finalize(success, outcome.attemptsLeft && subject == AJob, h);
        }
      case Marking(_) => Update(Hung, h);
      case Confirming(_) => Update(WaitingForWorker, h);
    }

    method Finalize(success: bool, attemptsLeft: bool, h: Handler)
      modifies this`log
      ensures log == old(log) + [Entry(Settle(success, attemptsLeft), h)]
    {
      if success {
        Update(Completed, h);
        return;
      }
      if attemptsLeft {
        Update(Retrying, h);
        return;
      }
      Update(Failed, h);
    }

    method Update(to: RunState, h: Handler)
      modifies this`log
      ensures log == old(log) + [Entry(to, h)]
    {
      log := log + [Entry(to, h)];
    }
  }

  // ---------------------------------------------------------------- what a finish records

  /** A synchronous execution is completed on exit code 0, or without an exit code on a 2xx response, or
      without either when there is no error.  Otherwise a run asked to be killed is killed, if its method
      can do that, and anything else is retried exactly while attempts are left. */
  lemma SyncFinish(subject: Subject, seen: RunState, supportsKill: bool, o: Outcome)
    ensures var wrote := FinishWrite(subject, seen, Sync(supportsKill), o); var r := o.result;
            && (wrote == Completed <==>
                 || r.exitCode == Some(0)
                 || (r.exitCode == None && r.responseCode.Some? && 200 <= r.responseCode.value < 300)
                 || (r.exitCode == None && r.responseCode == None && !r.error))
            && (wrote == Killed <==> wrote != Completed && subject == ARun && seen == KillRequested && supportsKill)
            && (wrote == Retrying <==> wrote != Completed && wrote != Killed && o.attemptsLeft)
            && (wrote == Failed <==> wrote != Completed && wrote != Killed && !o.attemptsLeft)
  {
  }

  /** A remote execution reported as killed is killed if that was asked for.  Otherwise it is completed on
      exit code 0, or on no code and no error, unless the remote side reports a failure, or, for a run, a
      kill; and anything else is retried exactly while attempts are left. */
  lemma AsyncFinish(subject: Subject, seen: RunState, remote: Remote, o: Outcome)
    ensures var wrote := FinishWrite(subject, seen, Async(remote), o); var r := o.result;
            && (wrote == Killed <==> remote == RemoteKilled && seen == KillRequested)
            && (wrote == Completed <==>
                 && wrote != Killed
                 && ( || r.exitCode == Some(0)
                      || (r.exitCode == None && !r.error && (remote == RemoteCompleted || (remote == RemoteKilled && subject == AJob)))))
            && (wrote == Retrying <==> wrote != Completed && wrote != Killed && o.attemptsLeft)
            && (wrote == Failed <==> wrote != Completed && wrote != Killed && !o.attemptsLeft)
  {
  }

  /** A worker's execution is completed on exit code 0, or on a 2xx response without an exit code, and only
      if it reports no error.  Otherwise it is killed if that was asked for, a job is retried while attempts
      are left, and a run fails whatever is left. */
  lemma WorkerFinish(subject: Subject, seen: RunState, o: Outcome)
    ensures var wrote := FinishWrite(subject, seen, OnWorker, o); var r := o.result;
            && (wrote == Completed <==>
                 && !r.error
                 && (r.exitCode == Some(0) || (r.exitCode == None && r.responseCode.Some? && 200 <= r.responseCode.value < 300)))
            && (wrote == Killed <==> wrote != Completed && seen == KillRequested)
            && (wrote == Retrying <==> wrote != Completed && wrote != Killed && subject == AJob && o.attemptsLeft)
            && (wrote == Failed <==> wrote != Completed && wrote != Killed && !(subject == AJob && o.attemptsLeft))
  {
  }

  // ---------------------------------------------------------------- the invariant

  predicate WroteBefore(log: seq<Entry>, before: nat, s: RunState)
    requires before <= |log|
  {
    exists i :: 0 <= i < before && log[i].wrote == s
  }

  /** What a handler read was in the row once. */
  predicate Seen(log: seq<Entry>, before: nat, s: RunState)
    requires before <= |log|
  {
    s == Pending || WroteBefore(log, before, s)
  }

  predicate Justified(subject: Subject, log: seq<Entry>, i: nat)
    requires i < |log|
  {
    && Seen(log, i, log[i].writer.seen)
    && Decision(subject, log[i].writer) == Some(log[i].wrote)
    && (log[i].writer.Elsewhere? ==> log[i].wrote != Killed && log[i].wrote != KillRequested)
  }

  predicate AllJustified(subject: Subject, log: seq<Entry>) {
    forall i :: 0 <= i < |log| ==> Justified(subject, log, i)
  }

  predicate AllSeen(log: seq<Entry>, open: seq<Handler>) {
    forall k :: 0 <= k < |open| ==> !open[k].Elsewhere? && Seen(log, |log|, open[k].seen)
  }

  lemma CurrentSeen(log: seq<Entry>)
    ensures Seen(log, |log|, Current(log))
  {
    if log != [] {
      assert log[|log| - 1].wrote == Current(log);
    }
  }

  lemma SeenStays(log: seq<Entry>, before: nat, s: RunState, more: Entry)
    requires before <= |log| && Seen(log, before, s)
    ensures Seen(log + [more], before, s)
  {
    if s != Pending {
      var i :| 0 <= i < before && log[i].wrote == s;
      assert (log + [more])[i].wrote == s;
    }
  }

  lemma SeenLater(log: seq<Entry>, before: nat, s: RunState)
    requires before <= |log| && Seen(log, before, s)
    ensures Seen(log, |log|, s)
  {
    if s != Pending {
      var i :| 0 <= i < before && log[i].wrote == s;
      assert log[i].wrote == s;
    }
  }

  lemma {:induction false} RecordKeepsSeen(subject: Subject, log: seq<Entry>, open: seq<Handler>, h: Handler)
    requires AllJustified(subject, log) && AllSeen(log, open) && Seen(log, |log|, h.seen)
    requires h.Elsewhere? ==> h.to != Killed && h.to != KillRequested
    ensures AllJustified(subject, Record(subject, log, h)) && AllSeen(Record(subject, log, h), open)
  {
    if Decision(subject, h).Some? {
      var more := Entry(Decision(subject, h).value, h);
      var log' := log + [more];
      forall k | 0 <= k < |open| ensures !open[k].Elsewhere? && Seen(log', |log'|, open[k].seen) {
        SeenStays(log, |log|, open[k].seen, more);
        SeenLater(log', |log|, open[k].seen);
      }
      forall i | 0 <= i < |log'| ensures Justified(subject, log', i) {
        if i < |log| {
          assert Justified(subject, log, i);
          SeenStays(log, i, log[i].writer.seen, more);
        } else {
          SeenStays(log, |log|, h.seen, more);
        }
      }
    }
  }

  lemma {:induction false} StepKeepsSeen(subject: Subject, r: Row, e: Event)
    requires AllJustified(subject, r.log) && AllSeen(r.log, r.open)
    ensures AllJustified(subject, Step(subject, r, e).log) && AllSeen(Step(subject, r, e).log, Step(subject, r, e).open)
  {
    if Enabled(subject, r, e) {
      CurrentSeen(r.log);
      match e
      case Write(k) =>
        assert AllSeen(r.log, Without(r.open, k));
        RecordKeepsSeen(subject, r.log, Without(r.open, k), r.open[k]);
      case Start => RecordKeepsSeen(subject, r.log, r.open, Elsewhere(Current(r.log), Running));
      case PickUp => RecordKeepsSeen(subject, r.log, r.open, Elsewhere(Current(r.log), Running));
      case Refuse(to) => RecordKeepsSeen(subject, r.log, r.open, Elsewhere(Current(r.log), to));
      case Reassign => RecordKeepsSeen(subject, r.log, r.open, Elsewhere(Current(r.log), Pending));
      case StartFails => RecordKeepsSeen(subject, r.log, r.open, Elsewhere(Current(r.log), Failed));
      case Restart => RecordKeepsSeen(subject, r.log, [], Elsewhere(Current(r.log), Hung));
      case _ =>
    }
  }

  function Finishers(open: seq<Handler>): nat {
    if open == [] then 0 else Finishers(open[..|open| - 1]) + (if open[|open| - 1].Finishing? then 1 else 0)
  }

  lemma {:induction false} FinishersWithout(open: seq<Handler>, k: nat)
    requires k < |open|
    ensures Finishers(Without(open, k)) == Finishers(open) - (if open[k].Finishing? then 1 else 0)
    decreases |open|
  {
    var front := open[..|open| - 1];
    if k < |front| {
      FinishersWithout(front, k);
      assert Without(open, k)[..|open| - 2] == Without(front, k);
    } else {
      assert Without(open, k) == front;
    }
  }

  lemma FinishersAppend(open: seq<Handler>, h: Handler)
    ensures Finishers(open + [h]) == Finishers(open) + (if h.Finishing? then 1 else 0)
  {
    assert (open + [h])[..|open|] == open;
  }

  /** What is under way for the row: tasks, executions and finishes. */
  function UnderWay(r: Row): nat {
    r.tasks + r.executing + Finishers(r.open)
  }

  predicate IsFinished(s: RunState) {
    s == Completed || s == Failed || s == Killed || s == Skipped
  }

  /** One thing under way, and one left behind by each of the `n` reassignments so far. */
  predicate OneAtATime(r: Row, n: nat) {
    && UnderWay(r) <= 1 + n
    && (IsClaimable(r) || IsFinished(Current(r.log)) ==> UnderWay(r) <= n)
    && (Current(r.log) == Pending || Current(r.log) == Queued || Current(r.log) == Retrying ==> r.executing + Finishers(r.open) <= n)
  }

  function Reassigned(subject: Subject, r: Row, e: Event): nat {
    if e.Reassign? && Enabled(subject, r, e) then 1 else 0
  }

  function Reassignments(subject: Subject, r: Row, events: seq<Event>): nat
    decreases |events|
  {
    if events == [] then 0
    else Reassigned(subject, r, events[0]) + Reassignments(subject, Step(subject, r, events[0]), events[1..])
  }

  /** Closing a handler that is no dispatch brings no claim nearer. */
  lemma {:induction false} CloseKeepsOne(r: Row, n: nat, k: nat)
    requires OneAtATime(r, n) && k < |r.open| && !r.open[k].Confirming?
    ensures OneAtATime(r.(open := Without(r.open, k)), n)
    ensures r.open[k].Finishing? ==> UnderWay(r.(open := Without(r.open, k))) <= n
  {
    FinishersWithout(r.open, k);
    var r' := r.(open := Without(r.open, k));
    if IsClaimable(r') {
      forall m | 0 <= m < |r.open| ensures !r.open[m].Confirming? {
        assert m != k ==> r.open[m] == r'.open[if m < k then m else m - 1];
      }
    }
  }

  /** A write that neither finishes nor reopens the row, or one when nothing more is under way. */
  lemma {:induction false} WriteOverKeepsOne(r: Row, n: nat, entry: Entry)
    requires UnderWay(r) <= 1 + n
    requires UnderWay(r) <= n || entry.wrote == Cancelled || entry.wrote == KillRequested || entry.wrote == Hung || entry.wrote == WaitingForWorker
    ensures OneAtATime(r.(log := r.log + [entry]), n)
  {
  }

  lemma {:induction false} WriteKeepsOne(subject: Subject, r: Row, n: nat, k: nat)
    requires OneAtATime(r, n) && k < |r.open| && !r.open[k].Elsewhere?
    ensures OneAtATime(Step(subject, r, Write(k)), n)
  {
    var closed := r.(open := Without(r.open, k));
    FinishersWithout(r.open, k);
    if !r.open[k].Confirming? {
      CloseKeepsOne(r, n, k);
    }
    var to := Decision(subject, r.open[k]);
    if to.Some? {
      WriteOverKeepsOne(closed, n, Entry(to.value, r.open[k]));
    }
  }

  lemma {:induction false} OpenKeepsOne(r: Row, n: nat, h: Handler)
    requires OneAtATime(r, n) && (h.Cancelling? || h.Marking?)
    ensures OneAtATime(r.(open := r.open + [h]), n)
  {
    FinishersAppend(r.open, h);
    var r' := r.(open := r.open + [h]);
    assert IsClaimable(r') ==> IsClaimable(r) by {
      assert forall m :: 0 <= m < |r.open| ==> r'.open[m] == r.open[m];
    }
  }

  lemma {:induction false} HandOverKeepsOne(subject: Subject, r: Row, n: nat)
    requires OneAtATime(r, n) && IsClaimable(r)
    ensures OneAtATime(Step(subject, r, HandOver), n)
  {
    FinishersAppend(r.open, Confirming(Current(r.log)));
    assert Step(subject, r, HandOver).open[|r.open|].Confirming?;
  }

  lemma {:induction false} ReadToFinishKeepsOne(subject: Subject, r: Row, n: nat, path: Path, outcome: Outcome)
    requires OneAtATime(r, n) && r.executing > 0
    ensures OneAtATime(Step(subject, r, ReadToFinish(path, outcome)), n)
  {
    FinishersAppend(r.open, Finishing(Current(r.log), path, outcome));
  }

  lemma {:induction false} StepKeepsOne(subject: Subject, r: Row, n: nat, e: Event)
    requires OneAtATime(r, n) && AllSeen(r.log, r.open)
    ensures OneAtATime(Step(subject, r, e), n + Reassigned(subject, r, e))
  {
    if Enabled(subject, r, e) {
      if e.Write? {
        WriteKeepsOne(subject, r, n, e.k);
      } else if e.Crash? {
        CloseKeepsOne(r, n, e.k);
      } else if e.HandOver? {
        HandOverKeepsOne(subject, r, n);
      } else if e.ReadToFinish? {
        ReadToFinishKeepsOne(subject, r, n, e.path, e.outcome);
      } else if e.ReadToCancel? {
        OpenKeepsOne(r, n, Cancelling(Current(r.log)));
      } else if e.ReadToMark? {
        OpenKeepsOne(r, n, Marking(Current(r.log)));
      } else if e.Start? || e.Refuse? {
        ClaimKeepsOne(subject, r, n, e);
      } else {
        OtherKeepsOne(subject, r, n, e);
      }
    }
  }

  lemma {:induction false} ClaimKeepsOne(subject: Subject, r: Row, n: nat, e: Event)
    requires OneAtATime(r, n) && (e.Start? || e.Refuse?)
    ensures OneAtATime(Step(subject, r, e), n)
  {
  }

  lemma {:induction false} OtherKeepsOne(subject: Subject, r: Row, n: nat, e: Event)
    requires OneAtATime(r, n) && Enabled(subject, r, e)
    requires e.PickUp? || e.Reassign? || e.StartFails? || e.Lose? || e.Restart?
    ensures OneAtATime(Step(subject, r, e), n + Reassigned(subject, r, e))
  {
  }

  predicate IsNew(r: Row) {
    r.log == [] && r.open == [] && r.tasks == 0 && r.executing == 0
  }

  ghost predicate Inv(subject: Subject, r: Row, n: nat) {
    AllJustified(subject, r.log) && AllSeen(r.log, r.open) && OneAtATime(r, n)
  }

  lemma {:induction false} AfterKeepsInv(subject: Subject, r: Row, n: nat, events: seq<Event>)
    requires Inv(subject, r, n)
    ensures Inv(subject, After(subject, r, events), n + Reassignments(subject, r, events))
    decreases |events|
  {
    if events != [] {
      StepKeepsSeen(subject, r, events[0]);
      StepKeepsOne(subject, r, n, events[0]);
      AfterKeepsInv(subject, Step(subject, r, events[0]), n + Reassigned(subject, r, events[0]), events[1..]);
    }
  }

  // ---------------------------------------------------------------- one execution at a time

  /** Over every history, a row has no more under way than one task, execution or finish and one for each
      time its run was taken from a stale worker; when it is claimable or finished, only the latter.  Jobs
      are never taken from their worker. */
  lemma {:induction false} UnderWayBounded(subject: Subject, start: Row, events: seq<Event>)
    requires IsNew(start)
    ensures var r := After(subject, start, events); var n := Reassignments(subject, start, events);
            && UnderWay(r) <= 1 + n
            && (IsClaimable(r) || IsFinished(Current(r.log)) ==> UnderWay(r) <= n)
            && (subject == AJob ==> n == 0)
  {
    AfterKeepsInv(subject, start, 0, events);
    if subject == AJob {
      JobsStay(start, events);
    }
  }

  /** What an event adds to the tasks, the executions and the open handlers, and what it takes away. */
  datatype Change = Change(tasks: int, executing: int, handlers: int)

  function ChangeOf(r: Row, e: Event): Change {
    match e
    case Start => Change(0, if IsClaimable(r) then 1 else 0, 0)
    case HandOver => if IsClaimable(r) then Change(1, 0, 1) else Change(0, 0, 0)
    case PickUp => if r.tasks > 0 then Change(-1, 1, 0) else Change(0, 0, 0)
    case StartFails => Change(0, if r.executing > 0 then -1 else 0, 0)
    case ReadToFinish(_, _) => if r.executing > 0 then Change(0, -1, 1) else Change(0, 0, 0)
    case ReadToCancel => Change(0, 0, 1)
    case ReadToMark => Change(0, 0, if Current(r.log) == Running then 1 else 0)
    case Write(k) => Change(0, 0, if k < |r.open| then -1 else 0)
    case Crash(k) => Change(0, 0, if k < |r.open| && !r.open[k].Confirming? then -1 else 0)
    case Lose(task) =>
      if task then Change(if r.tasks > 0 then -1 else 0, 0, 0)
      else Change(0, if r.executing > 0 then -1 else 0, 0)
    case Restart => Change(0 - r.tasks, 0, 0 - |r.open|)
    case Refuse(_) => Change(0, 0, 0)
    case Reassign => Change(0, 0, 0)
  }

  function Changes(subject: Subject, r: Row, events: seq<Event>): Change
    decreases |events|
  {
    if events == [] then Change(0, 0, 0)
    else
      var first, rest := ChangeOf(r, events[0]), Changes(subject, Step(subject, r, events[0]), events[1..]);
      Change(first.tasks + rest.tasks, first.executing + rest.executing, first.handlers + rest.handlers)
  }

  lemma StepChanges(subject: Subject, r: Row, e: Event)
    ensures var r', c := Step(subject, r, e), ChangeOf(r, e);
            r'.tasks == r.tasks + c.tasks && r'.executing == r.executing + c.executing && |r'.open| == |r.open| + c.handlers
  {
  }

  /** Nothing under way comes or goes unaccounted for: a task stays until it is polled, lost or wiped out by a
      restart, an execution until a handler takes it up or it is lost, and a handler until it writes or dies. */
  lemma {:induction false} UnderWayBalance(subject: Subject, r: Row, events: seq<Event>)
    ensures var r' := After(subject, r, events); var sum := Changes(subject, r, events);
            r'.tasks == r.tasks + sum.tasks && r'.executing == r.executing + sum.executing && |r'.open| == |r.open| + sum.handlers
    decreases |events|
  {
    if events != [] {
      StepChanges(subject, r, events[0]);
      UnderWayBalance(subject, Step(subject, r, events[0]), events[1..]);
    }
  }

  lemma {:induction false} JobsStay(r: Row, events: seq<Event>)
    ensures Reassignments(AJob, r, events) == 0
    decreases |events|
  {
    if events != [] {
      JobsStay(Step(AJob, r, events[0]), events[1..]);
    }
  }

  lemma {:induction false} Extended(subject: Subject, r: Row, events: seq<Event>, e: Event)
    ensures After(subject, r, events + [e]) == Step(subject, After(subject, r, events), e)
    ensures Reassignments(subject, r, events + [e]) == Reassignments(subject, r, events) + Reassigned(subject, After(subject, r, events), e)
    decreases |events|
  {
    var more := events + [e];
    if events == [] {
      assert more[0] == e && more[1..] == [];
    } else {
      assert more[1..] == events[1..] + [e];
      Extended(subject, Step(subject, r, events[0]), events[1..], e);
    }
  }

  /** A run handed to one worker after the other, each of which goes stale before it polls. */
  lemma {:induction false} LeftBehind(start: Row, n: nat) returns (events: seq<Event>)
    requires IsNew(start)
    ensures var r := After(ARun, start, events);
            && Current(r.log) == Pending && r.open == [] && r.tasks == n && r.executing == 0
            && Reassignments(ARun, start, events) == n
    decreases n
  {
    events := [];
    if n > 0 {
      var e0 := LeftBehind(start, n - 1);
      var e1 := e0 + [HandOver];
      var e2 := e1 + [Write(0)];
      events := e2 + [Reassign];
      Extended(ARun, start, e0, HandOver);
      Extended(ARun, start, e1, Write(0));
      Extended(ARun, start, e2, Reassign);
    }
  }

  lemma {:induction false} PickedUp(start: Row, events: seq<Event>, m: nat) returns (more: seq<Event>)
    requires After(ARun, start, events).tasks >= m
    ensures After(ARun, start, more).executing == After(ARun, start, events).executing + m
    ensures Reassignments(ARun, start, more) == Reassignments(ARun, start, events)
    decreases m
  {
    more := events;
    if m > 0 {
      Extended(ARun, start, events, PickUp);
      more := PickedUp(start, events + [PickUp], m - 1);
    }
  }

  /** The bound is reached for every number of reassignments, with all of it executions: the stale workers
      come back and poll what was left in their channels. */
  lemma {:induction false} UnderWayReached(start: Row, n: nat)
    requires IsNew(start)
    ensures exists events :: Reassignments(ARun, start, events) == n && After(ARun, start, events).executing == n + 1
  {
    var e0 := LeftBehind(start, n);
    Extended(ARun, start, e0, HandOver);
    var events := PickedUp(start, e0 + [HandOver], n + 1);
    assert Reassignments(ARun, start, events) == n && After(ARun, start, events).executing == n + 1;
  }

  // ---------------------------------------------------------------- killed only on request

  /** Over every interleaving of cancel requests, finishes, crashes and restarts: whatever was recorded as
      killed had been kill_requested by a cancel before that, and running before that; and it was recorded
      for an execution that did not succeed, or that the asynchronous method reported as killed. */
  lemma {:induction false} KilledOnlyOnRequest(subject: Subject, start: Row, events: seq<Event>, i: nat)
    requires IsNew(start)
    requires var log := After(subject, start, events).log; i < |log| && log[i].wrote == Killed
    ensures var log := After(subject, start, events).log;
            exists j, k :: 0 <= k < j < i && log[j].wrote == KillRequested && log[j].writer.Cancelling? && log[k].wrote == Running
    ensures var h := After(subject, start, events).log[i].writer;
            && h.Finishing?
            && match h.path
               case Sync(supportsKill) => subject == ARun && supportsKill && !IsSuccess(h.outcome.result)
               case Async(remote) => remote == RemoteKilled
               case OnWorker => !WorkerSuccess(h.outcome.result)
  {
    AfterKeepsInv(subject, start, 0, events);
    var log := After(subject, start, events).log;
    assert Justified(subject, log, i);
    var j :| 0 <= j < i && log[j].wrote == KillRequested;
    assert Justified(subject, log, j);
    var k :| 0 <= k < j && log[k].wrote == Running;
  }

  /** A kill nobody requested is meant to be treated as a failure.  It is recorded as completed all the
      same exactly when the exit code is 0 or, for a job, when neither a code nor an error is reported. */
  lemma {:induction false} UnrequestedKill(subject: Subject, start: Row, events: seq<Event>, i: nat)
    requires IsNew(start)
    requires var log := After(subject, start, events).log;
             i < |log| && log[i].writer.Finishing? && log[i].writer.path == Async(RemoteKilled) && log[i].writer.seen != KillRequested
    ensures var entry := After(subject, start, events).log[i]; var result := entry.writer.outcome.result;
            && (entry.wrote == Completed <==>
                 result.exitCode == Some(0) || (subject == AJob && result.exitCode == None && !result.error))
            && (entry.wrote == Completed || entry.wrote == Retrying || entry.wrote == Failed)
  {
    AfterKeepsInv(subject, start, 0, events);
    assert Justified(subject, After(subject, start, events).log, i);
  }

  // ---------------------------------------------------------------- a finished row

  /** Finished, with nothing under way, and no handler about to write. */
  predicate IsQuiet(subject: Subject, r: Row) {
    && IsFinished(Current(r.log)) && r.tasks == 0 && r.executing == 0
    && forall k :: 0 <= k < |r.open| ==> Decision(subject, r.open[k]).None?
  }

  lemma {:induction false} QuietClose(subject: Subject, r: Row, k: nat)
    requires IsQuiet(subject, r) && k < |r.open|
    ensures IsQuiet(subject, r.(open := Without(r.open, k)))
  {
    var open' := Without(r.open, k);
    forall m | 0 <= m < |open'| ensures Decision(subject, open'[m]).None? {
      assert open'[m] == r.open[if m < k then m else m + 1];
    }
  }

  lemma {:induction false} QuietStep(subject: Subject, r: Row, e: Event)
    requires IsQuiet(subject, r)
    ensures IsQuiet(subject, Step(subject, r, e)) && Step(subject, r, e).log == r.log
  {
    if Enabled(subject, r, e) {
      if e.Write? || e.Crash? {
        QuietClose(subject, r, e.k);
      }
    }
  }

  lemma {:induction false} QuietForever(subject: Subject, r: Row, events: seq<Event>)
    requires IsQuiet(subject, r)
    ensures After(subject, r, events).log == r.log
    decreases |events|
  {
    if events != [] {
      QuietStep(subject, r, events[0]);
      QuietForever(subject, Step(subject, r, events[0]), events[1..]);
    }
  }

  ghost predicate ChangesLater(subject: Subject, r: Row) {
    exists events :: After(subject, r, events).log != r.log
  }

  lemma {:induction false} WriteChanges(subject: Subject, r: Row, e: Event)
    requires |Step(subject, r, e).log| > |r.log|
    ensures ChangesLater(subject, r)
  {
    var none: seq<Event> := [];
    Extended(subject, r, none, e);
    assert After(subject, r, none + [e]).log != r.log;
  }

  /** A row recorded as killed, completed, failed or skipped changes later if and only if some handler read
      it before that and will still write (a cancel that saw it waiting or running, the monitor, a worker
      dispatch that was overtaken by its worker, or the finish of another execution), or a task or an
      execution is still out. */
  lemma {:induction false} FinishedChangesIff(subject: Subject, start: Row, events: seq<Event>)
    requires IsNew(start) && IsFinished(Current(After(subject, start, events).log))
    ensures var r := After(subject, start, events);
            ChangesLater(subject, r) <==>
              || r.tasks > 0 || r.executing > 0
              || exists k :: 0 <= k < |r.open| && (!r.open[k].Cancelling? || CancelWrite(r.open[k].seen).Some?)
  {
    var r := After(subject, start, events);
    AfterKeepsInv(subject, start, 0, events);
    if r.tasks > 0 {
      WriteChanges(subject, r, PickUp);
    } else if r.executing > 0 {
      WriteChanges(subject, r, StartFails);
    } else if k :| 0 <= k < |r.open| && (!r.open[k].Cancelling? || CancelWrite(r.open[k].seen).Some?) {
      WriteChanges(subject, r, Write(k));
    } else {
      forall es: seq<Event> ensures After(subject, r, es).log == r.log {
        QuietForever(subject, r, es);
      }
    }
  }

  /** Of a row that was never reassigned, a finish leaves no task, execution or other finish behind: it
      changes later if and only if a cancel that saw it waiting or running, the monitor, or an overtaken
      dispatch is still to write. */
  lemma {:induction false} FinishedOnceChangesIff(subject: Subject, start: Row, events: seq<Event>)
    requires IsNew(start) && IsFinished(Current(After(subject, start, events).log))
    requires Reassignments(subject, start, events) == 0
    ensures var r := After(subject, start, events);
            ChangesLater(subject, r) <==>
              exists k :: 0 <= k < |r.open| && (r.open[k].Marking? || r.open[k].Confirming? || CancelWrite(r.open[k].seen).Some?)
  {
    var r := After(subject, start, events);
    AfterKeepsInv(subject, start, 0, events);
    FinishedChangesIff(subject, start, events);
    forall k | 0 <= k < |r.open| ensures !r.open[k].Finishing? && !r.open[k].Elsewhere? {
      NoFinisher(r.open, k);
    }
  }

  lemma {:induction false} NoFinisher(open: seq<Handler>, k: nat)
    requires Finishers(open) == 0 && k < |open|
    ensures !open[k].Finishing?
    decreases |open|
  {
    if k < |open| - 1 {
      NoFinisher(open[..|open| - 1], k);
    }
  }
}
