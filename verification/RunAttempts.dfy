/** Attempts, attempt records and retry timing of direct-runtime runs, over every history. */
module RunAttempts {
  import opened Domain
  import opened RunLifecycle

  /** 1, 2, ..., n. */
  function UpTo(n: int): (s: seq<int>)
    ensures |s| == Max(0, n) && forall k :: 0 <= k < n ==> s[k] == k + 1
    decreases Max(0, n)
  {
    if n <= 0 then [] else UpTo(n - 1) + [n]
  }

  /** States a run can be in while it is executed. */
  predicate IsBusy(st: RunState) {
    st == Running || st == KillRequested || st == Hung || st == Cancelled
  }

  function PhaseOf(s: State, i: nat): Option<Phase> {
    if i in s.threads then Some(s.threads[i]) else None
  }

  /** Consecutive starts are in order and at least the backoff of the attempt between them apart. */
  ghost predicate Spaced(starts: seq<int>, backoffs: seq<int>) {
    forall k :: 0 < k < |starts| ==> starts[k - 1] < starts[k] && starts[k - 1] + Backoff(k, backoffs) <= starts[k]
  }

  ghost predicate HistoryOk(p: Process, r: Run, clock: int) {
    && r.attempt == |r.starts| <= Max(1, p.maxAttempts)
    && (forall k :: 0 <= k < |r.starts| ==> r.starts[k] <= clock)
    && Spaced(r.starts, p.backoffs)
  }

  /** The attempt records are numbered 1, 2, ... up to the current attempt; the last one may be
      missing only on a run whose goroutine has not written it yet, or died before it could. */
  ghost predicate RecordsOk(r: Run, ph: Option<Phase>) {
    || r.records == UpTo(r.attempt)
    || (r.attempt >= 1 && r.records == UpTo(r.attempt - 1) && IsBusy(r.state) && !r.handle && (ph.None? || ph.value.Started?))
  }

  ghost predicate PhaseOk(r: Run, ph: Option<Phase>) {
    match ph
    case None => true
    case Some(Started(a)) => a == r.attempt >= 1 && IsBusy(r.state) && !r.handle && r.records == UpTo(a - 1)
    case Some(Executing(a)) => a == r.attempt >= 1 && IsBusy(r.state) && r.records == UpTo(a)
    case Some(Owes(f)) =>
      && (f == Completed || f == Failed || f == Killed) && !r.handle
      && (r.state == f || r.state == Hung || r.state == KillRequested || r.state == Cancelled)
  }

  ghost predicate StateOk(p: Process, r: Run, ph: Option<Phase>, clock: int) {
    match r.state
    case Pending => r.attempt == 0 && ph.None? && !r.handle
    case Queued => && r.attempt < Max(1, p.maxAttempts) && ph.None? && !r.handle
                   && (r.attempt >= 1 ==> r.starts != [] && r.starts[|r.starts| - 1] + Backoff(r.attempt, p.backoffs) <= clock)
    case Retrying => && 1 <= r.attempt < p.maxAttempts && ph.None? && !r.handle && r.nextAt.Some?
                     && r.starts != [] && r.starts[|r.starts| - 1] + Backoff(r.attempt, p.backoffs) <= r.nextAt.value
    case Running => r.attempt >= 1
    case KillRequested => r.attempt >= 1
    case Completed => true
    case Failed => true
    case Hung => true
    case Killed => true
    case Skipped => ph.None?
    case Cancelled => true
    case _ => false
  }

  ghost predicate RunOk(p: Process, r: Run, ph: Option<Phase>, clock: int) {
    && HistoryOk(p, r, clock) && RecordsOk(r, ph) && PhaseOk(r, ph) && StateOk(p, r, ph, clock)
    && (r.handle ==> r.attempt >= 1)
  }

  /** A reading that writes kill_requested or hung was taken of a started run. */
  ghost predicate ReadingsOk(runs: seq<Run>, readings: seq<Reading>) {
    forall k :: 0 <= k < |readings| ==>
      && readings[k].run < |runs|
      && ((readings[k].ToMark? || readings[k].seen == Running) ==> runs[readings[k].run].attempt >= 1)
  }

  ghost predicate Inv(p: Process, s: State) {
    && (forall i :: i in s.threads ==> i < |s.runs|)
    && (forall i :: 0 <= i < |s.runs| ==> RunOk(p, s.runs[i], PhaseOf(s, i), s.clock))
    && ReadingsOk(s.runs, s.readings)
  }

  /** A step that touches one run keeps the invariant if that run is still in order. */
  lemma OneRunChanged(p: Process, s: State, s': State, i: nat)
    requires Inv(p, s) && i < |s.runs| == |s'.runs| && s.clock <= s'.clock && s'.readings == s.readings
    requires forall j :: 0 <= j < |s.runs| && j != i ==> s'.runs[j] == s.runs[j] && PhaseOf(s', j) == PhaseOf(s, j)
    requires forall j :: j in s'.threads ==> j < |s.runs|
    requires RunOk(p, s'.runs[i], PhaseOf(s', i), s'.clock) && s.runs[i].attempt <= s'.runs[i].attempt
    ensures Inv(p, s')
  {
    forall j | 0 <= j < |s'.runs| ensures RunOk(p, s'.runs[j], PhaseOf(s', j), s'.clock) {
      if j != i {
        assert RunOk(p, s.runs[j], PhaseOf(s, j), s.clock);
      }
    }
    assert forall j :: 0 <= j < |s.runs| ==> s.runs[j].attempt <= s'.runs[j].attempt;
  }

  lemma ClaimOk(p: Process, s: State, i: nat, now: int)
    requires Inv(p, s) && now > s.clock && i < |s.runs| && Claimable(s.runs[i], now)
    ensures Inv(p, ClaimStep(s, i, now).(clock := now))
  {
    assert RunOk(p, s.runs[i], PhaseOf(s, i), s.clock);
    NewStartOk(p, s.runs[i], PhaseOf(s, i), s.clock, now);
    OneRunChanged(p, s, ClaimStep(s, i, now).(clock := now), i);
  }

  lemma NewStartOk(p: Process, r: Run, ph: Option<Phase>, clock: int, now: int)
    requires RunOk(p, r, ph, clock) && now > clock && Claimable(r, now)
    ensures RunOk(p, r.(state := Running, attempt := r.attempt + 1, nextAt := None, starts := r.starts + [now]), Some(Started(r.attempt + 1)), now)
  {
    var starts := r.starts + [now];
    forall k | 0 < k < |starts| ensures starts[k - 1] < starts[k] && starts[k - 1] + Backoff(k, p.backoffs) <= starts[k] {
      if k < |r.starts| {
        assert starts[k - 1] == r.starts[k - 1] && starts[k] == r.starts[k];
      } else {
        assert k == r.attempt && starts[k - 1] == r.starts[|r.starts| - 1];
      }
    }
  }

  /** A claimed run is skipped, or queued with its attempts and its backoff behind it. */
  lemma OverlapOk(p: Process, s: State, i: nat, skip: bool, now: int)
    requires Inv(p, s) && now > s.clock && i < |s.runs| && Claimable(s.runs[i], now)
    ensures Inv(p, SetState(s, i, if skip then Skipped else Queued).(clock := now))
  {
    assert RunOk(p, s.runs[i], PhaseOf(s, i), s.clock);
    OneRunChanged(p, s, SetState(s, i, if skip then Skipped else Queued).(clock := now), i);
  }

  lemma FinishOk(p: Process, s: State, i: nat, outcome: Outcome, now: int)
    requires Inv(p, s) && now > s.clock && IsExecuting(s, i) && s.threads[i].attempt >= 1
    ensures Inv(p, FinishStep(p, s, i, s.threads[i].attempt, outcome, now).(clock := now))
  {
    assert RunOk(p, s.runs[i], PhaseOf(s, i), s.clock);
    OneRunChanged(p, s, FinishStep(p, s, i, s.threads[i].attempt, outcome, now).(clock := now), i);
  }

  /** Writes that change nothing but the state of a run. */
  lemma SetStateOk(p: Process, s: State, i: nat, st: RunState, now: int)
    requires Inv(p, s) && now >= s.clock && i < |s.runs|
    requires || st == Cancelled
             || ((st == Hung || st == KillRequested) && s.runs[i].attempt >= 1)
             || (st == Failed && (IsWaiting(s.runs[i].state) || s.runs[i].state == Retrying))
    ensures Inv(p, SetState(s, i, st).(clock := now))
  {
    assert RunOk(p, s.runs[i], PhaseOf(s, i), s.clock);
    OneRunChanged(p, s, SetState(s, i, st).(clock := now), i);
  }

  /** A handler writes back what it decided, over whatever the row holds by now. */
  lemma WriteBackOk(p: Process, s: State, k: nat, now: int)
    requires Inv(p, s) && now > s.clock && k < |s.readings|
    ensures Inv(p, WriteBackStep(s, k).(clock := now))
  {
    var rest := s.(readings := Without(s.readings, k));
    OthersKeepInv(p, s, rest);
    if Decision(s.readings[k]).Some? {
      SetStateOk(p, rest, s.readings[k].run, Decision(s.readings[k]).value, now);
    } else {
      OthersKeepInv(p, rest, rest.(clock := now));
    }
  }

  lemma RecordOk(p: Process, s: State, i: nat, now: int)
    requires Inv(p, s) && now > s.clock && Enabled(s, Record(i), now)
    ensures Inv(p, Step(p, s, Record(i), now))
  {
    assert RunOk(p, s.runs[i], PhaseOf(s, i), s.clock);
    OneRunChanged(p, s, Step(p, s, Record(i), now), i);
  }

  lemma StartErrorOk(p: Process, s: State, i: nat, now: int)
    requires Inv(p, s) && now > s.clock && Enabled(s, StartError(i), now)
    ensures Inv(p, Step(p, s, StartError(i), now))
  {
    assert RunOk(p, s.runs[i], PhaseOf(s, i), s.clock);
    OneRunChanged(p, s, Step(p, s, StartError(i), now), i);
  }

  lemma SaveHandleOk(p: Process, s: State, i: nat, now: int)
    requires Inv(p, s) && now > s.clock && Enabled(s, SaveHandle(i), now)
    ensures Inv(p, Step(p, s, SaveHandle(i), now))
  {
    assert RunOk(p, s.runs[i], PhaseOf(s, i), s.clock);
    OneRunChanged(p, s, Step(p, s, SaveHandle(i), now), i);
  }

  lemma PollOk(p: Process, s: State, i: nat, now: int)
    requires Inv(p, s) && now > s.clock && Enabled(s, Poll(i), now)
    ensures Inv(p, Step(p, s, Poll(i), now))
  {
    assert RunOk(p, s.runs[i], PhaseOf(s, i), s.clock);
    OneRunChanged(p, s, Step(p, s, Poll(i), now), i);
  }

  lemma ClearHandleOk(p: Process, s: State, i: nat, now: int)
    requires Inv(p, s) && now > s.clock && Enabled(s, ClearHandle(i), now)
    ensures Inv(p, Step(p, s, ClearHandle(i), now))
  {
    assert RunOk(p, s.runs[i], PhaseOf(s, i), s.clock);
    OneRunChanged(p, s, Step(p, s, ClearHandle(i), now), i);
  }

  /** The steps of a goroutine that executes a run. */
  predicate IsExecution(e: Event) {
    e.Record? || e.StartError? || e.SaveHandle? || e.Poll? || e.ClearHandle? || e.Finish?
  }

  lemma ExecutionKeepsInv(p: Process, s: State, e: Event, now: int)
    requires Inv(p, s) && now > s.clock && Enabled(s, e, now) && IsExecution(e)
    ensures Inv(p, Step(p, s, e, now))
  {
    if e.Record? {
      RecordOk(p, s, e.i, now);
    } else if e.StartError? {
      StartErrorOk(p, s, e.i, now);
    } else if e.SaveHandle? {
      SaveHandleOk(p, s, e.i, now);
    } else if e.Poll? {
      PollOk(p, s, e.i, now);
    } else if e.ClearHandle? {
      ClearHandleOk(p, s, e.i, now);
    } else {
      FinishOk(p, s, e.i, e.outcome, now);
    }
  }

  /** The steps of the executor's and the recovery's loops that hit one run. */
  predicate IsClaimOrMark(e: Event) {
    e.Claim? || e.ClaimUnknown? || e.Overlap? || e.MarkOrphan?
  }

  lemma ClaimKeepsInv(p: Process, s: State, e: Event, now: int)
    requires Inv(p, s) && now > s.clock && Enabled(s, e, now) && IsClaimOrMark(e)
    ensures Inv(p, Step(p, s, e, now))
  {
    if e.Claim? {
      ClaimOk(p, s, e.i, now);
    } else if e.ClaimUnknown? {
      SetStateOk(p, s, e.i, Failed, now);
    } else if e.Overlap? {
      OverlapOk(p, s, e.i, e.skip, now);
      OthersKeepInv(p, s, s.(clock := now));
    } else {
      RunningIsStarted(p, s, e.i);
      SetStateOk(p, s, e.i, Hung, now);
    }
  }

  lemma StepKeepsInv(p: Process, s: State, e: Event, now: int)
    requires Inv(p, s)
    ensures Inv(p, Step(p, s, e, now))
  {
    if now > s.clock && Enabled(s, e, now) {
      var s' := Step(p, s, e, now);
      if IsExecution(e) {
        ExecutionKeepsInv(p, s, e, now);
      } else if IsClaimOrMark(e) {
        ClaimKeepsInv(p, s, e, now);
      } else if e.Insert? {
        RunAdded(p, s, s', e.at);
      } else if e.Succeed? {
        SucceedKeepsInv(p, s, s', e.i, now);
      } else if e.Recover? {
        RecoverKeepsInv(p, s, s', e.last, now);
      } else if e.Crash? {
        OthersKeepInv(p, s, s');
      } else if e.WriteBack? {
        WriteBackOk(p, s, e.k, now);
      } else {
        ReadOk(p, s, e.i, now);
      }
    }
  }

  lemma ReadOk(p: Process, s: State, i: nat, now: int)
    requires Inv(p, s) && now > s.clock && i < |s.runs|
    ensures Inv(p, s.(readings := s.readings + [ToCancel(i, s.runs[i].state)], clock := now))
    ensures s.runs[i].state == Running ==> Inv(p, s.(readings := s.readings + [ToMark(i)], clock := now))
  {
    RunningIsStarted(p, s, i);
    var s1, s2 := s.(readings := s.readings + [ToCancel(i, s.runs[i].state)], clock := now), s.(readings := s.readings + [ToMark(i)], clock := now);
    OthersKeepInv(p, s, s1);
    if s.runs[i].state == Running {
      OthersKeepInv(p, s, s2);
    }
  }

  lemma RunningIsStarted(p: Process, s: State, i: nat)
    requires Inv(p, s) && i < |s.runs|
    ensures s.runs[i].state == Running ==> s.runs[i].attempt >= 1
  {
    assert RunOk(p, s.runs[i], PhaseOf(s, i), s.clock);
  }

  lemma RecoverKeepsInv(p: Process, s: State, s': State, last: nat, now: int)
    requires Inv(p, s) && now > s.clock && (s.runs == [] || last < |s.runs|)
    requires s' == RecoverStep(p, s, last, now).(clock := now)
    ensures Inv(p, s')
  {
    if |s'.runs| == |s.runs| {
      OthersKeepInv(p, s, s');
    } else {
      RunAdded(p, s, s', now);
    }
  }

  lemma RunAdded(p: Process, s: State, s': State, at: int)
    requires Inv(p, s) && s.clock <= s'.clock && s'.runs == s.runs + [NewRun(at)]
    requires s'.threads.Keys <= s.threads.Keys && forall i :: i in s'.threads ==> s'.threads[i] == s.threads[i]
    requires s'.readings == s.readings
    ensures Inv(p, s')
  {
    forall j | 0 <= j < |s'.runs| ensures RunOk(p, s'.runs[j], PhaseOf(s', j), s'.clock) {
      if j < |s.runs| {
        assert RunOk(p, s.runs[j], PhaseOf(s, j), s.clock);
      }
    }
  }

  lemma OthersKeepInv(p: Process, s: State, s': State)
    requires Inv(p, s) && s.clock <= s'.clock && s'.runs == s.runs
    requires s'.threads.Keys <= s.threads.Keys && forall i :: i in s'.threads ==> s'.threads[i] == s.threads[i]
    requires ReadingsOk(s'.runs, s'.readings)
    ensures Inv(p, s')
  {
    forall j | 0 <= j < |s'.runs| ensures RunOk(p, s'.runs[j], PhaseOf(s', j), s'.clock) {
      assert RunOk(p, s.runs[j], PhaseOf(s, j), s.clock);
    }
  }

  lemma SucceedKeepsInv(p: Process, s: State, s': State, i: nat, now: int)
    requires Inv(p, s) && now > s.clock && i < |s.runs| && i in s.threads && s.threads[i].Owes?
    requires s' == SucceedStep(p, s, i, s.threads[i].final, now).(clock := now)
    ensures Inv(p, s')
  {
    if |s'.runs| == |s.runs| {
      OthersKeepInv(p, s, s');
    } else {
      RunAdded(p, s, s', now + p.delay.value);
    }
  }

  lemma {:induction false} AfterKeepsInv(p: Process, s: State, events: seq<(Event, int)>)
    requires Inv(p, s)
    ensures Inv(p, After(p, s, events))
    decreases |events|
  {
    if events != [] {
      StepKeepsInv(p, s, events[0].0, events[0].1);
      AfterKeepsInv(p, Step(p, s, events[0].0, events[0].1), events[1..]);
    }
  }

  function BackoffSum(m: nat, backoffs: seq<int>): int {
    if m == 0 then 0 else BackoffSum(m - 1, backoffs) + Backoff(m, backoffs)
  }

  lemma {:induction false} SpacedSum(starts: seq<int>, backoffs: seq<int>, m: nat)
    requires Spaced(starts, backoffs) && m < |starts|
    ensures starts[0] + BackoffSum(m, backoffs) <= starts[m]
  {
    if m > 0 {
      SpacedSum(starts, backoffs, m - 1);
    }
  }

  /** Attempts: after any history, `attempt` counts the starts of the run and never exceeds
      max(1, max_attempts); a run waiting for a start or a retry has all its attempt records,
      numbered without gaps, and attempts left; an execution about to be finalised has
      `attempt >= 1`, so the backoff index is in range. */
  lemma AttemptsExact(p: Process, clock: int, events: seq<(Event, int)>, i: nat)
    requires i < |After(p, Initial(clock), events).runs|
    ensures var s := After(p, Initial(clock), events);
            var r := s.runs[i];
            && r.attempt == |r.starts| <= Max(1, p.maxAttempts)
            && (r.records == UpTo(r.attempt) || (r.attempt >= 1 && r.records == UpTo(r.attempt - 1)))
            && (IsWaiting(r.state) || r.state == Retrying ==> r.attempt < Max(1, p.maxAttempts))
            && (!IsBusy(r.state) ==> r.records == UpTo(r.attempt))
            && (IsExecuting(s, i) ==> s.threads[i].attempt == r.attempt >= 1)
  {
    AfterKeepsInv(p, Initial(clock), events);
    var s := After(p, Initial(clock), events);
    assert RunOk(p, s.runs[i], PhaseOf(s, i), s.clock);
  }

  /** Retry timing: the start number m + 1 of a run comes no earlier than its first start plus the
      first m backoffs. */
  lemma RetryTiming(p: Process, clock: int, events: seq<(Event, int)>, i: nat, m: nat)
    requires i < |After(p, Initial(clock), events).runs|
    requires m < |After(p, Initial(clock), events).runs[i].starts|
    ensures var starts := After(p, Initial(clock), events).runs[i].starts;
            starts[0] + BackoffSum(m, p.backoffs) <= starts[m]
  {
    AfterKeepsInv(p, Initial(clock), events);
    var s := After(p, Initial(clock), events);
    assert RunOk(p, s.runs[i], PhaseOf(s, i), s.clock);
    SpacedSum(s.runs[i].starts, p.backoffs, m);
  }

  // ---------------------------------------------------------------- leaving hung

  /** The steps that take run `i` out of `hung`: its goroutine, still at work, writes an outcome or a start
      failure, or a cancel writes what it read before the run was marked. */
  predicate LeavesHung(s: State, e: Event, i: nat) {
    match e
    case Finish(j, _) => j == i
    case StartError(j) => j == i
    case WriteBack(k) => k < |s.readings| && s.readings[k].run == i && s.readings[k].ToCancel? && Decision(s.readings[k]).Some?
    case _ => false
  }

  lemma {:induction false} HungKept(p: Process, s: State, i: nat, e: Event, now: int)
    requires i < |s.runs| && s.runs[i].state == Hung && now > s.clock && Enabled(s, e, now) && !LeavesHung(s, e, i)
    ensures Step(p, s, e, now).runs[i].state == Hung
  {
  }

  lemma {:induction false} HungLost(p: Process, s: State, i: nat, e: Event, now: int)
    requires i < |s.runs| && s.runs[i].state == Hung && now > s.clock && Enabled(s, e, now) && LeavesHung(s, e, i)
    ensures Step(p, s, e, now).runs[i].state != Hung
  {
  }

  /** `hung` is no end: a step takes a run out of it if and only if it is one of these. */
  lemma {:induction false} HungLeftIff(p: Process, s: State, i: nat, e: Event, now: int)
    requires i < |s.runs| && s.runs[i].state == Hung
    ensures Step(p, s, e, now).runs[i].state != Hung <==> now > s.clock && Enabled(s, e, now) && LeavesHung(s, e, i)
  {
    if now > s.clock && Enabled(s, e, now) {
      if LeavesHung(s, e, i) {
        HungLost(p, s, i, e, now);
      } else {
        HungKept(p, s, i, e, now);
      }
    }
  }

  /** A late failure even brings a hung run back to be executed again, exactly when attempts are left. */
  lemma HungReopenedIff(p: Process, s: State, i: nat, now: int, again: int)
    requires Inv(p, s) && IsExecuting(s, i) && s.runs[i].state == Hung && s.serving
    requires s.clock < now < again && now + Backoff(s.threads[i].attempt, p.backoffs) <= again
    ensures Step(p, Step(p, s, Finish(i, Failure), now), Claim(i), again).runs[i].state == Running <==>
              s.runs[i].attempt < p.maxAttempts
  {
    assert RunOk(p, s.runs[i], PhaseOf(s, i), s.clock);
    var s' := Step(p, s, Finish(i, Failure), now);
    assert s'.runs[i].state == Retrying <==> s.runs[i].attempt < p.maxAttempts;
  }
}
