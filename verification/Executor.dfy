/** The statements behind the steps of `RunLifecycle`: dispatch, finalisation and start-up recovery,
    writing the run rows one at a time. */
module Executor {
  import opened Domain
  import opened RunLifecycle

  /** The delays among the comma-separated parts of `retry_backoff`; parts that are no duration are
      skipped. */
  function Delays(parts: seq<Option<int>>): seq<int> {
    if parts == [] then []
    else Delays(parts[..|parts| - 1]) + (if parts[|parts| - 1].Some? then [parts[|parts| - 1].value] else [])
  }

  /** Each delay is one of the valid parts. */
  lemma {:induction false} DelaysMember(parts: seq<Option<int>>, d: int)
    ensures d in Delays(parts) <==> Some(d) in parts
  {
    if parts != [] {
      DelaysMember(parts[..|parts| - 1], d);
      assert parts == parts[..|parts| - 1] + [parts[|parts| - 1]];
    }
  }

  /** They come in the order of the parts, one for each valid one. */
  lemma {:induction false} DelaysInOrder(parts: seq<Option<int>>, more: seq<Option<int>>)
    ensures Delays(parts + more) == Delays(parts) + Delays(more)
    decreases |more|
  {
    if more == [] {
      assert parts + more == parts;
    } else {
      assert (parts + more)[..|parts + more| - 1] == parts + more[..|more| - 1];
      DelaysInOrder(parts, more[..|more| - 1]);
    }
  }

  lemma DelayOfOne(part: Option<int>)
    ensures Delays([part]) == if part.Some? then [part.value] else []
  {
    assert Delays([part][..0]) == [];
  }

  method ParseBackoffList(parts: seq<Option<int>>) returns (result: seq<int>)
    ensures result == Delays(parts)
  {
    result := [];
    for k := 0 to |parts|
      invariant result == Delays(parts[..k])
    {
      assert parts[..k + 1][..k] == parts[..k];
      if parts[k].Some? {
        result := result + [parts[k].value];
      }
    }
    assert parts[..|parts|] == parts;
  }

  method CalculateBackoff(from: int, attempt: int, backoffs: seq<int>) returns (at: int)
    requires attempt >= 1 || backoffs == []
    ensures at == from + Backoff(attempt, backoffs)
    ensures backoffs == [] ==> at == from + 60_000_000_000
    ensures 1 <= attempt <= |backoffs| ==> at == from + backoffs[attempt - 1]
    ensures 0 < |backoffs| < attempt ==> at == from + backoffs[|backoffs| - 1]
  {
    if |backoffs| == 0 {
      return from + DefaultBackoff;
    }
    var idx := attempt - 1;
    if idx >= |backoffs| {
      idx := |backoffs| - 1;
    }
    at := from + backoffs[idx];
  }

  /** The orphan marks of a start-up, one write after another from instant `t` on. */
  function OrphanMarks(i: nat, n: nat, t: int): seq<(Event, int)>
    requires i <= n
    decreases n - i
  {
    if i == n then [] else [(MarkOrphan(i), t + i)] + OrphanMarks(i + 1, n, t)
  }

  ghost function Orphaned(s: State, i: nat, now: int): State
    requires i < |s.runs|
  {
    if s.runs[i].state == Running then SetState(s, i, Hung).(clock := now) else s
  }

  lemma OrphanTurn(p: Process, s: State, i: nat, now: int, rest: seq<(Event, int)>)
    requires !s.serving && i < |s.runs| && s.clock < now
    ensures After(p, s, [(MarkOrphan(i), now)] + rest) == After(p, Orphaned(s, i, now), rest)
  {
    assert ([(MarkOrphan(i), now)] + rest)[1..] == rest;
    assert Step(p, s, MarkOrphan(i), now) == Orphaned(s, i, now);
  }

  /** The first `i` runs are written off where they were running, the others as before. */
  ghost predicate WrittenOff(before: seq<Run>, runs: seq<Run>, i: nat) {
    && |runs| == |before| && i <= |runs|
    && (forall j :: 0 <= j < i ==> runs[j] == if before[j].state == Running then before[j].(state := Hung, nextAt := None) else before[j])
    && (forall j :: i <= j < |runs| ==> runs[j] == before[j])
  }

  lemma WrittenOffNext(before: seq<Run>, s: State, i: nat, now: int)
    requires WrittenOff(before, s.runs, i) && i < |s.runs|
    ensures WrittenOff(before, Orphaned(s, i, now).runs, i + 1)
  {
  }

  /** All runs from the i-th on written off where they are running. */
  ghost function OrphanedFrom(s: State, i: nat, t: int): State
    requires i <= |s.runs|
    decreases |s.runs| - i
  {
    if i == |s.runs| then s else OrphanedFrom(Orphaned(s, i, t + i), i + 1, t)
  }

  lemma {:induction false} MarksWriteOff(p: Process, s: State, i: nat, t: int)
    requires !s.serving && s.clock < t + i && i <= |s.runs|
    ensures After(p, s, OrphanMarks(i, |s.runs|, t)) == OrphanedFrom(s, i, t)
    decreases |s.runs| - i
  {
    if i < |s.runs| {
      OrphanTurn(p, s, i, t + i, OrphanMarks(i + 1, |s.runs|, t));
      MarksWriteOff(p, Orphaned(s, i, t + i), i + 1, t);
    }
  }

  /** How a method answers `Start`: an error, an execution to poll for, or a result at once. */
  datatype StartAnswer = Refused | Accepted(saved: bool) | Finished

  class Orchestrator {
    const process: Process
    var runs: seq<Run>
    var threads: map<nat, Phase>
    var readings: seq<Reading>
    var serving: bool
    var clock: int

    ghost function Now(): State
      reads this
    {
      State(runs, threads, readings, serving, clock)
    }

    constructor (process: Process, clock: int)
      ensures this.process == process && Now() == Initial(clock)
    {
      this.process := process;
      this.clock := clock;
      runs, threads, readings, serving := [], map[], [], false;
    }

    method UpdateState(i: nat, st: RunState)
      requires i < |runs|
      modifies this`runs
      ensures Now() == SetState(old(Now()), i, st)
      ensures runs == old(runs)[i := old(runs)[i].(state := st, nextAt := None)]
    {
      runs := runs[i := runs[i].(state := st, nextAt := None)];
    }

    /** The overlap check of a cron process without parallel runs: a claimed run is skipped or queued when
        more than one run is active. */
    method CheckOverlap(i: nat, skip: bool, now: int) returns (proceeds: bool)
      requires serving && i < |runs| && Claimable(runs[i], now) && clock < now && !process.fixedDelay
      modifies this
      ensures proceeds <==> |set j: nat | j < |old(runs)| && old(runs)[j].state in {Running, Retrying, WaitingForWorker}| <= 1
      ensures runs == if proceeds then old(runs) else old(runs)[i := old(runs)[i].(state := if skip then Skipped else Queued, nextAt := None)]
      ensures threads == old(threads) && readings == old(readings)
      ensures Now() == Step(process, old(Now()), Overlap(i, skip), now)
    {
      ActiveCounts(runs);
      var active := 0;
      for j := 0 to |runs|
        invariant active == ActiveCount(runs[..j])
      {
        assert runs[..j + 1][..j] == runs[..j];
        if runs[j].state == Running || runs[j].state == Retrying || runs[j].state == WaitingForWorker {
          active := active + 1;
        }
      }
      assert runs[..|runs|] == runs;
      proceeds := active <= 1;
      if !proceeds {
        UpdateState(i, if skip then Skipped else Queued);
        clock := now;
      }
    }

    /** Dispatch of a claimed run: set it running and write the attempt record, or fail it when its
        execution method is unknown. */
    method Dispatch(i: nat, methodKnown: bool, started: int, recorded: int)
      requires Enabled(Now(), Claim(i), started) && clock < started < recorded
      modifies this
      ensures Now() == if methodKnown
                       then Step(process, Step(process, old(Now()), Claim(i), started), Record(i), recorded)
                       else Step(process, old(Now()), ClaimUnknown(i), started)
      ensures var r := old(runs)[i];
              runs == old(runs)[i := if !methodKnown then r.(state := Failed, nextAt := None)
                                     else r.(state := Running, attempt := r.attempt + 1, nextAt := None,
                                             starts := r.starts + [started], records := r.records + [r.attempt + 1])]
      ensures threads == if methodKnown then old(threads)[i := Executing(old(runs)[i].attempt + 1)] else old(threads)
    {
      clock := started;
      if !methodKnown {
        UpdateState(i, Failed);
        return;
      }
      var attempt := runs[i].attempt + 1;
      UpdateState(i, Running);
      runs := runs[i := runs[i].(attempt := attempt, starts := runs[i].starts + [started])];
      threads := threads[i := Started(attempt)];
      clock := recorded;
      runs := runs[i := runs[i].(records := runs[i].records + [attempt])];
      threads := threads[i := Executing(attempt)];
    }

    /** What dispatch does with the method's answer; an accepted start counts only once its handle is saved,
        and a result at once is left to the finalisation. */
    method AfterStart(i: nat, answer: StartAnswer, now: int)
      requires IsExecuting(Now(), i) && clock < now
      modifies this
      ensures Now() == match answer
                       case Refused => Step(process, old(Now()), StartError(i), now)
                       case Accepted(true) => Step(process, old(Now()), SaveHandle(i), now)
                       case Accepted(false) => Step(process, old(Now()), StartError(i), now)
                       case Finished => old(Now())
      ensures runs == match answer
                      case Refused => old(runs)[i := old(runs)[i].(state := Failed, nextAt := None)]
                      case Accepted(true) => old(runs)[i := old(runs)[i].(handle := true)]
                      case Accepted(false) => old(runs)[i := old(runs)[i].(state := Failed, nextAt := None)]
                      case Finished => old(runs)
      ensures answer.Finished? <==> i in threads
    {
      match answer
      case Refused =>
        UpdateState(i, Failed);
        threads := threads - {i};
        clock := now;
      case Accepted(saved) =>
        if saved {
          runs := runs[i := runs[i].(handle := true)];
        } else {
          UpdateState(i, Failed);
        }
        threads := threads - {i};
        clock := now;
      case Finished =>
    }

    /** The first half of `CancelRun`: the row as it is now. */
    method GetRunToCancel(i: nat, now: int)
      requires serving && i < |runs| && clock < now
      modifies this
      ensures Now() == Step(process, old(Now()), ReadToCancel(i), now)
      ensures runs == old(runs) && readings == old(readings) + [ToCancel(i, runs[i].state)]
    {
      readings := readings + [ToCancel(i, runs[i].state)];
      clock := now;
    }

    /** The second half: it switches on the state it read, and writes over whatever the row holds by now.
        The answer is what the caller is told. */
    method CancelRun(k: nat, now: int) returns (status: RunState)
      requires k < |readings| && readings[k].ToCancel? && readings[k].run < |runs| && clock < now
      modifies this
      ensures Now() == Step(process, old(Now()), WriteBack(k), now)
      ensures var seen := old(readings)[k].seen;
              status == if seen in {Pending, Queued, WaitingForWorker, Paused, Retrying} then Cancelled
                        else if seen == Running then KillRequested
                        else seen
      ensures var i := old(readings)[k].run;
              runs == if status == old(readings)[k].seen then old(runs) else old(runs)[i := old(runs)[i].(state := status, nextAt := None)]
      ensures readings == old(readings)[..k] + old(readings)[k + 1..] && threads == old(threads)
    {
      var i, seen := readings[k].run, readings[k].seen;
      readings := readings[..k] + readings[k + 1..];
      clock := now;
      match seen {
        case Pending | Queued | WaitingForWorker | Paused | Retrying =>
          UpdateState(i, Cancelled);
          status := Cancelled;
        case Running =>
          UpdateState(i, KillRequested);
          status := KillRequested;
        case _ =>
          status := seen;
      }
    }

    /** A run from cron, a user, a dependency or a replay. */
    method InsertRun(at: int, now: int)
      requires serving && clock < now
      modifies this
      ensures Now() == Step(process, old(Now()), Insert(at), now)
      ensures runs == old(runs) + [Run(at, Pending, 0, None, false, [], [])] && threads == old(threads)
    {
      runs := runs + [NewRun(at)];
      clock := now;
    }

    /** The poller finds an asynchronous execution over and takes it up for finalisation. */
    method TakeUp(i: nat, now: int)
      requires serving && i < |runs| && i !in threads && runs[i].handle && runs[i].state in {Running, KillRequested} && clock < now
      modifies this
      ensures Now() == Step(process, old(Now()), Poll(i), now)
      ensures runs == old(runs) && threads == old(threads)[i := Executing(runs[i].attempt)]
    {
      threads := threads[i := Executing(runs[i].attempt)];
      clock := now;
    }

    /** The monitor lists a running run it will mark, */
    method ListToMark(i: nat, now: int)
      requires serving && i < |runs| && runs[i].state == Running && clock < now
      modifies this
      ensures Now() == Step(process, old(Now()), ReadToMark(i), now)
      ensures runs == old(runs) && readings == old(readings) + [ToMark(i)]
    {
      readings := readings + [ToMark(i)];
      clock := now;
    }

    /** and marks it, whatever the row holds by now. */
    method MarkHung(k: nat, now: int)
      requires k < |readings| && readings[k].ToMark? && readings[k].run < |runs| && clock < now
      modifies this
      ensures Now() == Step(process, old(Now()), WriteBack(k), now)
      ensures var i := old(readings)[k].run; runs == old(runs)[i := old(runs)[i].(state := Hung, nextAt := None)]
      ensures readings == old(readings)[..k] + old(readings)[k + 1..] && threads == old(threads)
    {
      var i := readings[k].run;
      readings := readings[..k] + readings[k + 1..];
      clock := now;
      UpdateState(i, Hung);
    }

    /** `finalizeRunResult` and `finalizeRunKilled`: clear the handle, decide between the final
        states and a retry, and after a final state create the successor. */
    method Finalize(i: nat, outcome: Outcome, cleared: int, finished: int, succeeded: int)
      requires IsExecuting(Now(), i) && threads[i].attempt >= 1
      requires clock < cleared < finished < succeeded
      modifies this
      ensures var s := Step(process, Step(process, old(Now()), ClearHandle(i), cleared), Finish(i, outcome), finished);
              Now() == Step(process, s, Succeed(i), succeeded)
      ensures var r := old(runs)[i].(handle := false); var attempt := old(threads)[i].attempt;
              if outcome == Failure && attempt < process.maxAttempts then
                && |runs| == |old(runs)| && runs[i].nextAt.Some?
                && runs == old(runs)[i := r.(state := Retrying, attempt := attempt, nextAt := runs[i].nextAt)]
              else
                var final := match outcome case Success => Completed case KillConfirmed => Killed case Failure => Failed;
                runs == old(runs)[i := r.(state := final, nextAt := None)]
                        + if process.fixedDelay && process.delay.Some? then [NewRun(succeeded + process.delay.value)] else []
      ensures threads == old(threads) - {i}
    {
      runs := runs[i := runs[i].(handle := false)];
      clock := cleared;
      assert Now() == Step(process, old(Now()), ClearHandle(i), cleared);
      var final := WriteOutcome(i, outcome, finished);
      if final.Some? {
        HandleTerminal(i, final.value, succeeded);
      }
    }

    /** The state write: a final state, or None for a retry. */
    method WriteOutcome(i: nat, outcome: Outcome, finished: int) returns (final: Option<RunState>)
      requires IsExecuting(Now(), i) && threads[i].attempt >= 1 && !runs[i].handle && clock < finished
      modifies this
      ensures Now() == Step(process, old(Now()), Finish(i, outcome), finished) && clock == finished
      ensures |runs| == |old(runs)|
      ensures if final.Some? then i in threads && threads[i] == Owes(final.value) else i !in threads
      ensures threads - {i} == old(threads) - {i}
      ensures var attempt := old(threads)[i].attempt;
              match outcome
              case Success => final == Some(Completed)
              case KillConfirmed => final == Some(Killed)
              case Failure => final == if attempt < process.maxAttempts then None else Some(Failed)
      ensures var attempt := old(threads)[i].attempt;
              runs == old(runs)[i := match final
                                     case Some(to) => old(runs)[i].(state := to, nextAt := None)
                                     case None => old(runs)[i].(state := Retrying, attempt := attempt, nextAt := runs[i].nextAt)]
      ensures var attempt := old(threads)[i].attempt;
              final.None? ==> runs[i].nextAt == Some(finished + Backoff(attempt, process.backoffs))
    {
      var attempt := threads[i].attempt;
      clock := finished;
      final := Some(if outcome == Success then Completed else if outcome == KillConfirmed then Killed else Failed);
      if outcome == Failure && attempt < process.maxAttempts {
        var next := CalculateBackoff(finished, attempt, process.backoffs);
        runs := runs[i := runs[i].(state := Retrying, attempt := attempt, nextAt := Some(next))];
        threads := threads - {i};
        return None;
      }
      UpdateState(i, final.value);
      threads := threads[i := Owes(final.value)];
    }

    /** `handleTerminal`: the successor of a fixed-delay run. */
    method HandleTerminal(i: nat, final: RunState, now: int)
      requires i < |runs| && i in threads && threads[i] == Owes(final) && clock < now
      modifies this
      ensures Now() == Step(process, old(Now()), Succeed(i), now)
      ensures runs == old(runs) + if process.fixedDelay && final in {Completed, Failed, Hung, Killed, Cancelled} && process.delay.Some?
                                  then [Run(now + process.delay.value, Pending, 0, None, false, [], [])] else []
      ensures threads == old(threads) - {i}
    {
      if process.fixedDelay && ContinuesFixedDelayChain(final) {
        if process.delay.Some? {
          runs := runs + [NewRun(now + process.delay.value)];
        }
      }
      threads := threads - {i};
      clock := now;
    }

    method WriteOff(i: nat, now: int)
      requires i < |runs|
      modifies this`runs, this`clock
      ensures Now() == Orphaned(old(Now()), i, now)
    {
      if runs[i].state == Running {
        UpdateState(i, Hung);
        clock := now;
      }
    }

    /** `detectOrphans`: every run left running by the crash is written off as hung. */
    method DetectOrphans(t: int)
      requires !serving && clock < t
      modifies this
      ensures Now() == After(process, old(Now()), OrphanMarks(0, |old(runs)|, t))
      ensures NoneRunning(runs)
      ensures |runs| == |old(runs)|
      ensures forall j :: 0 <= j < |runs| ==>
                runs[j] == if old(runs)[j].state == Running then old(runs)[j].(state := Hung, nextAt := None) else old(runs)[j]
    {
      MarksWriteOff(process, Now(), 0, t);
      ghost var end := OrphanedFrom(Now(), 0, t);
      for i := 0 to |runs|
        invariant WrittenOff(old(runs), runs, i) && OrphanedFrom(Now(), i, t) == end
      {
        WrittenOffNext(old(runs), Now(), i, t + i);
        WriteOff(i, t + i);
      }
    }

    /** `GetLastRunByProcess`. */
    method LatestRun() returns (last: nat)
      requires runs != []
      ensures IsLatest(runs, last)
      ensures last < |runs| && forall j :: 0 <= j < |runs| ==> runs[j].at <= runs[last].at
    {
      last := 0;
      for j := 1 to |runs|
        invariant last < |runs| && forall k :: 0 <= k < j ==> runs[k].at <= runs[last].at
      {
        if runs[j].at > runs[last].at {
          last := j;
        }
      }
    }

    /** `recoverFixedDelayProcesses`, for this process: the end of the start-up. */
    method ResumeChain(now: int) returns (ghost last: nat)
      requires !serving && NoneRunning(runs) && clock < now
      modifies this
      ensures Enabled(old(Now()), Recover(last), now)
      ensures Now() == Step(process, old(Now()), Recover(last), now)
      ensures old(runs) != [] ==> last < |old(runs)| && forall j :: 0 <= j < |old(runs)| ==> old(runs)[j].at <= old(runs)[last].at
      ensures runs == old(runs) + if process.fixedDelay
                                     && (old(runs) == [] || old(runs)[last].state in {Completed, Failed, Killed, Skipped, Cancelled, Hung})
                                  then [Run(now, Pending, 0, None, false, [], [])] else []
      ensures serving
    {
      last := 0;
      if process.fixedDelay {
        if runs == [] {
          runs := runs + [NewRun(now)];
        } else {
          var latest := LatestRun();
          last := latest;
          if IsDead(runs[latest].state) {
            runs := runs + [NewRun(now)];
          }
        }
      } else if runs != [] {
        last := LatestRun();
      }
      serving := true;
      clock := now;
    }
  }
}
