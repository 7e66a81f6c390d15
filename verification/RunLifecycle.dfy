/** The life of the direct-runtime runs of one process: claimed, started, finished, retried, written
    off as hung, killed, cancelled, and taken over by the successor of a fixed-delay chain; across
    crashes and restarts (internal/executor, internal/recovery, internal/monitor).  Every write to
    the database is a step of its own, so a crash can fall between any two of them. */
module RunLifecycle {
  import opened Domain

  /** A run row.  `starts` and `records` are its history: the instants it was set running and the
      numbers of its attempt records. */
  datatype Run = Run(at: int, state: RunState, attempt: int, nextAt: Option<int>, handle: bool,
                     starts: seq<int>, records: seq<int>)

  /** What the goroutine working on a run has yet to write.
      `Started`: the run is set running, its attempt record is not written yet.
      `Executing`: the outcome is not written yet (also: a poll that found the execution over).
      `Owes`: the final state is written, the successor and the dependents are not created yet. */
  datatype Phase = Started(attempt: int) | Executing(attempt: int) | Owes(final: RunState)

  datatype Process = Process(fixedDelay: bool, delay: Option<int>, maxAttempts: int, backoffs: seq<int>)

  /** A handler that has read a row and has not written it back: CancelRun with the state it saw, or
      the monitor with a running run it will mark. */
  datatype Reading = ToCancel(run: nat, seen: RunState) | ToMark(run: nat)

  /** `serving` is false from a crash to the end of the start-up recovery. */
  datatype State = State(runs: seq<Run>, threads: map<nat, Phase>, readings: seq<Reading>, serving: bool, clock: int)

  datatype Outcome = Success | Failure | KillConfirmed

  datatype Event =
    | Insert(at: int)          // a run from cron, a user, a dependency or a replay
    | Claim(i: nat)            // claim through the write of `running`
    | ClaimUnknown(i: nat)     // claimed, but the execution method does not exist
    | Overlap(i: nat, skip: bool)  // a cron run claimed while others are active: skipped or queued, as the policy has it
    | Record(i: nat)           // attempt record written
    | StartError(i: nat)       // the method refuses to start, or its handle cannot be saved
    | SaveHandle(i: nat)       // asynchronous execution accepted
    | Poll(i: nat)             // the poller finds the asynchronous execution over
    | ClearHandle(i: nat)      // first write of the finalisation
    | Finish(i: nat, outcome: Outcome)
    | Succeed(i: nat)          // successor created
    | ReadToCancel(i: nat)     // CancelRun reads the row
    | ReadToMark(i: nat)       // the monitor lists the run as running
    | WriteBack(k: nat)        // the k-th open reading is written, whatever the row holds by now
    | Crash
    | MarkOrphan(i: nat)       // start-up: running runs have lost their goroutine
    | Recover(last: nat)       // start-up: resume the chain; `last` is the row the query returns

  const DefaultBackoff := 60_000_000_000  // one minute

  /** Delay before the attempt after `attempt`: the list is indexed from the first retry and its
      last entry repeats. */
  function Backoff(attempt: int, backoffs: seq<int>): int
    requires attempt >= 1 || backoffs == []
  {
    if backoffs == [] then DefaultBackoff
    else backoffs[Min(attempt - 1, |backoffs| - 1)]
  }

  function NewRun(at: int): Run {
    Run(at, Pending, 0, None, false, [], [])
  }

  /** `UpdateRunState`: the row's `next_attempt_at` is always overwritten. */
  function SetState(s: State, i: nat, st: RunState): State
    requires i < |s.runs|
  {
    s.(runs := s.runs[i := s.runs[i].(state := st, nextAt := None)])
  }

  predicate Claimable(r: Run, now: int) {
    || (IsWaiting(r.state) && r.at <= now)
    || (r.state == Retrying && r.nextAt.Some? && r.nextAt.value <= now)
  }

  /** `ORDER BY scheduled_at DESC LIMIT 1`. */
  ghost predicate IsLatest(runs: seq<Run>, i: nat) {
    i < |runs| && forall j :: 0 <= j < |runs| ==> runs[j].at <= runs[i].at
  }

  predicate NoneRunning(runs: seq<Run>) {
    forall i :: 0 <= i < |runs| ==> runs[i].state != Running
  }

  /** `CountActiveByProcess`. */
  function ActiveCount(runs: seq<Run>): nat {
    if runs == [] then 0
    else ActiveCount(runs[..|runs| - 1])
         + (var st := runs[|runs| - 1].state; if st == Running || st == Retrying || st == WaitingForWorker then 1 else 0)
  }

  lemma {:induction false} ActiveCounts(runs: seq<Run>)
    ensures ActiveCount(runs) == |set j: nat | j < |runs| && runs[j].state in {Running, Retrying, WaitingForWorker}|
  {
    var active := set j: nat | j < |runs| && runs[j].state in {Running, Retrying, WaitingForWorker};
    if runs != [] {
      ActiveCounts(runs[..|runs| - 1]);
      ActiveUpToLast(runs);
    } else {
      assert active == {};
    }
  }

  lemma ActiveUpToLast(runs: seq<Run>)
    requires runs != []
    ensures var n, front := |runs| - 1, runs[..|runs| - 1];
            (set j: nat | j < |runs| && runs[j].state in {Running, Retrying, WaitingForWorker})
            == (set j: nat | j < n && front[j].state in {Running, Retrying, WaitingForWorker})
               + if runs[n].state in {Running, Retrying, WaitingForWorker} then {n} else {}
  {
  }

  function ClaimStep(s: State, i: nat, now: int): State
    requires i < |s.runs|
  {
    var r := s.runs[i];
    var attempt := r.attempt + 1;
    s.(runs := s.runs[i := r.(state := Running, attempt := attempt, nextAt := None, starts := r.starts + [now])],
       threads := s.threads[i := Started(attempt)])
  }

  /** What a reading leads to: cancelled, kill_requested or hung. */
  function Decision(r: Reading): Option<RunState> {
    match r
    case ToCancel(_, seen) => CancelWrite(seen)
    case ToMark(_) => Some(Hung)
  }

  function Without(readings: seq<Reading>, k: nat): seq<Reading>
    requires k < |readings|
  {
    readings[..k] + readings[k + 1..]
  }

  function WriteBackStep(s: State, k: nat): State
    requires k < |s.readings| && s.readings[k].run < |s.runs|
  {
    var rest := s.(readings := Without(s.readings, k));
    match Decision(s.readings[k])
    case None => rest
    case Some(to) => SetState(rest, s.readings[k].run, to)
  }

  function Drop(s: State, i: nat): State {
    s.(threads := s.threads - {i})
  }

  /** The final write of `finalizeRunResult` and `finalizeRunKilled`. */
  function FinishStep(p: Process, s: State, i: nat, attempt: int, outcome: Outcome, now: int): State
    requires i < |s.runs| && attempt >= 1
  {
    var cleared := s.(runs := s.runs[i := s.runs[i].(handle := false)]);
    if outcome == Success then
      SetState(cleared, i, Completed).(threads := s.threads[i := Owes(Completed)])
    else if outcome == KillConfirmed then
      SetState(cleared, i, Killed).(threads := s.threads[i := Owes(Killed)])
    else if attempt < p.maxAttempts then
      var r := cleared.runs[i].(state := Retrying, attempt := attempt, nextAt := Some(now + Backoff(attempt, p.backoffs)));
      Drop(cleared.(runs := s.runs[i := r]), i)
    else
      SetState(cleared, i, Failed).(threads := s.threads[i := Owes(Failed)])
  }

  function SucceedStep(p: Process, s: State, i: nat, final: RunState, now: int): State {
    if p.fixedDelay && ContinuesFixedDelayChain(final) && p.delay.Some?
    then Drop(s.(runs := s.runs + [NewRun(now + p.delay.value)]), i)
    else Drop(s, i)
  }

  /** `recoverFixedDelayProcesses` for this process. */
  ghost function RecoverStep(p: Process, s: State, last: nat, now: int): State
    requires s.runs == [] || last < |s.runs|
  {
    if p.fixedDelay && (s.runs == [] || IsDead(s.runs[last].state))
    then s.(runs := s.runs + [NewRun(now)], serving := true)
    else s.(serving := true)
  }

  predicate IsExecuting(s: State, i: nat) {
    i < |s.runs| && i in s.threads && s.threads[i].Executing?
  }

  ghost predicate Enabled(s: State, e: Event, now: int) {
    match e
    case Insert(at) => s.serving
    case Claim(i) => s.serving && i < |s.runs| && Claimable(s.runs[i], now)
    case ClaimUnknown(i) => s.serving && i < |s.runs| && Claimable(s.runs[i], now)
    case Overlap(i, skip) => s.serving && i < |s.runs| && Claimable(s.runs[i], now) && ActiveCount(s.runs) > 1
    case Record(i) => i < |s.runs| && i in s.threads && s.threads[i].Started?
    case StartError(i) => IsExecuting(s, i)
    case SaveHandle(i) => IsExecuting(s, i)
    case Poll(i) => s.serving && i < |s.runs| && i !in s.threads && s.runs[i].handle && (s.runs[i].state == Running || s.runs[i].state == KillRequested)
    case ClearHandle(i) => IsExecuting(s, i)
    case Finish(i, outcome) => IsExecuting(s, i) && s.threads[i].attempt >= 1
    case Succeed(i) => i < |s.runs| && i in s.threads && s.threads[i].Owes?
    case ReadToCancel(i) => s.serving && i < |s.runs|
    case ReadToMark(i) => s.serving && i < |s.runs| && s.runs[i].state == Running
    case WriteBack(k) => k < |s.readings| && s.readings[k].run < |s.runs|
    case Crash => true
    case MarkOrphan(i) => !s.serving && i < |s.runs| && s.runs[i].state == Running
    case Recover(last) => !s.serving && NoneRunning(s.runs) && (s.runs == [] || IsLatest(s.runs, last))
  }

  ghost function Apply(p: Process, s: State, e: Event, now: int): State
    requires Enabled(s, e, now)
  {
    match e
    case Insert(at) => s.(runs := s.runs + [NewRun(at)])
    case Claim(i) => ClaimStep(s, i, now)
    case ClaimUnknown(i) => SetState(s, i, Failed)
    case Overlap(i, skip) => if p.fixedDelay then s else SetState(s, i, if skip then Skipped else Queued)
    case Record(i) =>
      var a := s.threads[i].attempt;
      s.(runs := s.runs[i := s.runs[i].(records := s.runs[i].records + [a])], threads := s.threads[i := Executing(a)])
    case StartError(i) => Drop(SetState(s, i, Failed), i)
    case SaveHandle(i) => Drop(s.(runs := s.runs[i := s.runs[i].(handle := true)]), i)
    case Poll(i) => s.(threads := s.threads[i := Executing(s.runs[i].attempt)])
    case ClearHandle(i) => s.(runs := s.runs[i := s.runs[i].(handle := false)])
    case Finish(i, outcome) => FinishStep(p, s, i, s.threads[i].attempt, outcome, now)
    case Succeed(i) => SucceedStep(p, s, i, s.threads[i].final, now)
    case ReadToCancel(i) => s.(readings := s.readings + [ToCancel(i, s.runs[i].state)])
    case ReadToMark(i) => s.(readings := s.readings + [ToMark(i)])
    case WriteBack(k) => WriteBackStep(s, k)
    case Crash => s.(threads := map[], readings := [], serving := false)
    case MarkOrphan(i) => SetState(s, i, Hung)
    case Recover(last) => RecoverStep(p, s, last, now)
  }

  /** An event at `now`; one that is not possible, or not later than the last, changes nothing. */
  ghost function Step(p: Process, s: State, e: Event, now: int): State {
    if now > s.clock && Enabled(s, e, now) then Apply(p, s, e, now).(clock := now) else s
  }

  ghost function After(p: Process, s: State, events: seq<(Event, int)>): State
    decreases |events|
  {
    if events == [] then s else After(p, Step(p, s, events[0].0, events[0].1), events[1..])
  }

  /** A crash touches no row; whatever was in hand or read is gone until the next start-up. */
  lemma CrashForgets(p: Process, s: State, now: int)
    requires now > s.clock
    ensures Step(p, s, Crash, now) == State(s.runs, map[], [], false, now)
  {
  }

  /** From a crash to the end of the start-up nothing is inserted, claimed, polled or read; and a run somebody
      works on is not taken up by the poller. */
  lemma Refused(p: Process, s: State, e: Event, now: int)
    ensures !s.serving && (e.Insert? || e.Claim? || e.ClaimUnknown? || e.Overlap? || e.Poll? || e.ReadToCancel? || e.ReadToMark?) ==>
              Step(p, s, e, now) == s
    ensures e.Poll? && e.i in s.threads ==> Step(p, s, e, now) == s
  {
  }

  /** Before the first start: no run yet, recovery to come. */
  function Initial(clock: int): State {
    State([], map[], [], false, clock)
  }
}
