/** Hang detection (internal/monitor/monitor.go; UpdateRunProgress and UpdateRunState of
    internal/db/runs.sql.go).  Instants and durations are integers. */
module HangDetection {
  import opened Domain

  /** A run with what its process configures; a timeout counts only when positive. */
  datatype Run = Run(state: RunState, startedAt: Option<int>, lastHeartbeat: Option<int>,
                     executionTimeout: Option<int>, heartbeatTimeout: Option<int>, http: bool)

  datatype Event =
    | Start                    // set running: started_at moves, last_heartbeat_at stays
    | Heartbeat
    | Check
    | Leave(to: RunState)      // finished, retried, cancelled

  predicate TimedOut(r: Run, now: int) {
    r.startedAt.Some? && r.executionTimeout.Some? && r.executionTimeout.value > 0
    && now - r.startedAt.value > r.executionTimeout.value
  }

  function Configured(r: Run): bool {
    r.heartbeatTimeout.Some? && r.heartbeatTimeout.value > 0 && !r.http
  }

  /** The instant the monitor counts the silence from. */
  function LastSign(r: Run): int
    requires r.startedAt.Some?
  {
    match r.lastHeartbeat
    case Some(at) => at
    case None => r.startedAt.value
  }

  predicate Silent(r: Run, now: int) {
    r.startedAt.Some? && Configured(r) && now - LastSign(r) > r.heartbeatTimeout.value
  }

  /** `check`, for one row. */
  function CheckStep(r: Run, now: int): Run {
    if r.state == Running && (TimedOut(r, now) || Silent(r, now)) then r.(state := Hung) else r
  }

  function CheckAll(rows: seq<Run>, now: int): (checked: seq<Run>)
    ensures |checked| == |rows|
    ensures forall i :: 0 <= i < |rows| ==> checked[i] == CheckStep(rows[i], now)
  {
    if rows == [] then [] else CheckAll(rows[..|rows| - 1], now) + [CheckStep(rows[|rows| - 1], now)]
  }

  class Monitor {
    var rows: seq<Run>

    constructor (rows: seq<Run>)
      ensures this.rows == rows
    {
      this.rows := rows;
    }

    /** One pass over the running runs. */
    method Check(now: int)
      modifies this
      ensures rows == CheckAll(old(rows), now)
      ensures |rows| == |old(rows)|
      ensures forall i :: 0 <= i < |rows| ==>
                var r := old(rows)[i];
                rows[i] == if r.state == Running && r.startedAt.Some?
                              && ( || (r.executionTimeout.Some? && 0 < r.executionTimeout.value < now - r.startedAt.value)
                                   || (r.heartbeatTimeout.Some? && !r.http && r.heartbeatTimeout.value > 0
                                       && now - (if r.lastHeartbeat.Some? then r.lastHeartbeat.value else r.startedAt.value) > r.heartbeatTimeout.value))
                           then r.(state := Hung) else r
    {
      for i := 0 to |rows|
        invariant |rows| == |old(rows)| && rows[i..] == old(rows)[i..]
        invariant rows[..i] == CheckAll(old(rows), now)[..i]
      {
        var run := rows[i];
        if run.state == Running && run.startedAt.Some? {
          var hung := false;
          if run.executionTimeout.Some? {
            var timeout := run.executionTimeout.value;
            if timeout > 0 && now - run.startedAt.value > timeout {
              hung := true;
            }
          }
          if !hung && run.heartbeatTimeout.Some? && !run.http {
            var timeout := run.heartbeatTimeout.value;
            if timeout > 0 {
              var last := match run.lastHeartbeat case Some(at) => at case None => run.startedAt.value;
              if now - last > timeout {
                hung := true;
              }
            }
          }
          if hung {
            rows := rows[i := run.(state := Hung)];
          }
        }
      }
    }
  }

  // ---------------------------------------------------------------- histories of one run

  function Step(r: Run, e: Event, now: int): Run {
    match e
    case Start => r.(state := Running, startedAt := Some(now))
    case Heartbeat => r.(lastHeartbeat := Some(now))
    case Check => CheckStep(r, now)
    case Leave(to) => r.(state := to)
  }

  function After(r: Run, events: seq<(Event, int)>): Run
    decreases |events|
  {
    if events == [] then r else After(Step(r, events[0].0, events[0].1), events[1..])
  }

  /** The clock does not run backwards. */
  predicate InOrder(events: seq<(Event, int)>, from: int)
    decreases |events|
  {
    events == [] || (from <= events[0].1 && InOrder(events[1..], events[0].1))
  }

  // ---------------------------------------------------------------- timely

  /** The run is left alone, and no two checks are more than `interval` apart, up to one after `until`. */
  predicate CheckedPast(events: seq<(Event, int)>, last: int, interval: int, until: int)
    decreases |events|
  {
    && events != []
    && !events[0].0.Leave? && !events[0].0.Start?
    && if events[0].0 == Check
       then events[0].1 <= last + interval && (events[0].1 > until || CheckedPast(events[1..], events[0].1, interval, until))
       else CheckedPast(events[1..], last, interval, until)
  }

  /** A run past its execution timeout is marked hung no later than start + timeout + interval. */
  lemma {:induction false} HungInTime(r: Run, events: seq<(Event, int)>, last: int, interval: int)
    returns (k: nat)
    requires (r.state == Running || r.state == Hung) && r.startedAt.Some? && r.executionTimeout.Some? && r.executionTimeout.value > 0
    requires last <= r.startedAt.value + r.executionTimeout.value
    requires CheckedPast(events, last, interval, r.startedAt.value + r.executionTimeout.value)
    ensures k < |events| && events[k].0 == Check && events[k].1 <= r.startedAt.value + r.executionTimeout.value + interval
    ensures After(r, events[..k + 1]).state == Hung
    decreases |events|
  {
    var deadline := r.startedAt.value + r.executionTimeout.value;
    var r' := Step(r, events[0].0, events[0].1);
    if events[0].0 == Check && events[0].1 > deadline {
      k := 0;
      assert events[..1][1..] == [];
      assert After(r, events[..1]) == r';
    } else {
      var later := HungInTime(r', events[1..], if events[0].0 == Check then events[0].1 else last, interval);
      k := later + 1;
      assert events[..k + 1][1..] == events[1..][..later + 1];
    }
  }

  // ---------------------------------------------------------------- sound

  /** No sign of life since the later of the start and the last heartbeat. */
  predicate ReallySilent(r: Run, now: int) {
    r.startedAt.Some? && Configured(r)
    && now - (match r.lastHeartbeat case Some(at) => Max(at, r.startedAt.value) case None => r.startedAt.value) > r.heartbeatTimeout.value
  }

  /** Some check of the history finds the run overdue. */
  predicate FoundOverdue(r: Run, events: seq<(Event, int)>)
    decreases |events|
  {
    && events != []
    && ( || (events[0].0 == Check && r.state == Running && (TimedOut(r, events[0].1) || ReallySilent(r, events[0].1)))
         || FoundOverdue(Step(r, events[0].0, events[0].1), events[1..]))
  }

  /** Only one attempt, and nobody but the monitor writes `hung`. */
  predicate OneAttempt(events: seq<(Event, int)>) {
    forall i :: 0 <= i < |events| ==> !events[i].0.Start? && !events[i].0.Leave?
  }

  /** On its first attempt a run is marked hung exactly when a check finds it past its execution timeout,
      or silent for longer than its heartbeat timeout. */
  lemma {:induction false} FirstAttemptExact(r: Run, events: seq<(Event, int)>, from: int)
    requires r.state == Running && r.startedAt.Some? && r.startedAt.value <= from
    requires r.lastHeartbeat.Some? ==> r.startedAt.value <= r.lastHeartbeat.value
    requires InOrder(events, from) && OneAttempt(events)
    ensures After(r, events).state == Hung <==> FoundOverdue(r, events)
    ensures After(r, events).state == Hung || After(r, events).state == Running
    decreases |events|
  {
    if events != [] {
      var r' := Step(r, events[0].0, events[0].1);
      if r'.state == Hung {
        HungStays(r', events[1..]);
      } else {
        FirstAttemptExact(r', events[1..], events[0].1);
      }
    }
  }

  lemma {:induction false} HungStays(r: Run, events: seq<(Event, int)>)
    requires r.state == Hung && OneAttempt(events)
    ensures After(r, events).state == Hung
    decreases |events|
  {
    if events != [] {
      HungStays(Step(r, events[0].0, events[0].1), events[1..]);
    }
  }

  // ---------------------------------------------------------------- any number of attempts

  function LastStart(events: seq<(Event, int)>): Option<int> {
    if events == [] then None
    else var (e, now) := events[|events| - 1]; if e.Start? then Some(now) else LastStart(events[..|events| - 1])
  }

  function LastBeat(events: seq<(Event, int)>): Option<int> {
    if events == [] then None
    else var (e, now) := events[|events| - 1]; if e.Heartbeat? then Some(now) else LastBeat(events[..|events| - 1])
  }

  /** The last attempt has not come to an end. */
  predicate InAttempt(events: seq<(Event, int)>) {
    events != []
    && var e := events[|events| - 1].0;
       e.Start? || (!e.Leave? && InAttempt(events[..|events| - 1]))
  }

  predicate Before(earlier: Option<int>, timeout: int, now: int) {
    earlier.Some? && earlier.value + timeout < now
  }

  /** Past the execution timeout counted from the last start; or past the heartbeat timeout counted from
      the last heartbeat of whatever attempt, and from the last start only if there has never been one. */
  predicate Overdue(r: Run, events: seq<(Event, int)>, now: int) {
    || (r.executionTimeout.Some? && r.executionTimeout.value > 0 && Before(LastStart(events), r.executionTimeout.value, now))
    || (r.heartbeatTimeout.Some? && r.heartbeatTimeout.value > 0 && !r.http && Before(if LastBeat(events).Some? then LastBeat(events) else LastStart(events), r.heartbeatTimeout.value, now))
  }

  /** The k-th event is a check that finds the run overdue, and no attempt ends or begins after it. */
  predicate MarksAt(r: Run, events: seq<(Event, int)>, k: nat) {
    && k < |events| && events[k].0 == Check && InAttempt(events[..k]) && Overdue(r, events[..k], events[k].1)
    && forall m :: k < m < |events| ==> !events[m].0.Start? && !events[m].0.Leave?
  }

  predicate IsNew(r: Run) {
    r.state == Pending && r.startedAt.None? && r.lastHeartbeat.None?
  }

  /** Ends and restarts of attempts, which neither mark a run hung nor set it running. */
  predicate OthersLeave(events: seq<(Event, int)>) {
    forall i :: 0 <= i < |events| && events[i].0.Leave? ==> events[i].0.to != Hung && events[i].0.to != Running
  }

  /** The row, read off the history. */
  ghost predicate Reads(r: Run, events: seq<(Event, int)>) {
    var now := After(r, events);
    && now == r.(state := now.state, startedAt := LastStart(events), lastHeartbeat := LastBeat(events))
    && (now.state == Running || now.state == Hung <==> InAttempt(events))
    && (now.state == Hung <==> exists k: nat :: MarksAt(r, events, k))
    && (InAttempt(events) ==> LastStart(events).Some?)
  }

  lemma {:induction false} HungExactFor(r: Run, events: seq<(Event, int)>)
    requires IsNew(r) && OthersLeave(events)
    ensures Reads(r, events)
    decreases |events|
  {
    if events != [] {
      var front, k := events[..|events| - 1], |events| - 1;
      var (e, now) := events[k];
      HungExactFor(r, front);
      assert events == front + [(e, now)];
      AfterExtended(r, front, e, now);
      MarksAtExtended(r, front, e, now);
      assert e.Check? ==> (MarksAt(r, events, k) <==> InAttempt(front) && Overdue(r, front, now));
    }
  }

  lemma {:induction false} MarksAtExtended(r: Run, front: seq<(Event, int)>, e: Event, now: int)
    ensures forall k: nat :: k < |front| ==> (MarksAt(r, front + [(e, now)], k) <==> MarksAt(r, front, k) && !e.Start? && !e.Leave?)
  {
    var events := front + [(e, now)];
    forall k: nat | k < |front| ensures MarksAt(r, events, k) <==> MarksAt(r, front, k) && !e.Start? && !e.Leave? {
      assert events[..k] == front[..k];
      assert events[|front|] == (e, now);
      assert forall m :: k < m < |front| ==> events[m] == front[m];
    }
  }

  /** Over any number of attempts, and whatever else is written in between: a run is hung exactly when some
      check found it overdue during its present attempt. */
  lemma {:induction false} HungExact(r: Run, events: seq<(Event, int)>)
    requires IsNew(r) && OthersLeave(events)
    ensures After(r, events).state == Hung <==> exists k: nat :: MarksAt(r, events, k)
  {
    HungExactFor(r, events);
  }

  /** On a later attempt the monitor still counts from the last heartbeat of the attempt before.  So a check
      marks a running run within both timeouts exactly when its attempt has sent no heartbeat yet, and that
      old one is further back than the timeout allows. */
  lemma {:induction false} FalseAlarmIff(r: Run, events: seq<(Event, int)>, now: int)
    requires IsNew(r) && OthersLeave(events) && After(r, events).state == Running
    requires var j := After(r, events); !TimedOut(j, now) && !ReallySilent(j, now)
    ensures After(r, events + [(Check, now)]).state == Hung <==>
              && Configured(r) && Before(LastBeat(events), r.heartbeatTimeout.value, now)
              && LastStart(events).Some? && LastBeat(events).value < LastStart(events).value
  {
    HungExactFor(r, events);
    AfterExtended(r, events, Check, now);
  }

  /** It happens to every process with heartbeats whose retry starts later than the heartbeat timeout
      allows: the first check takes the second attempt down, however young it is. */
  lemma {:induction false} SecondAttemptFalselyHung(r: Run, start: int, beat: int, again: int, check: int)
    requires Configured(r) && start <= beat < again <= check
    requires beat + r.heartbeatTimeout.value < check <= again + r.heartbeatTimeout.value
    ensures var before: seq<(Event, int)> := [(Start, start), (Heartbeat, beat), (Leave(Retrying), beat), (Start, again)];
            && !ReallySilent(After(r, before), check)
            && After(r, before + [(Check, check)]).state == Hung
  {
    var before: seq<(Event, int)> := [(Start, start), (Heartbeat, beat), (Leave(Retrying), beat), (Start, again)];
    var started := r.(state := Running, startedAt := Some(again), lastHeartbeat := Some(beat));
    AfterFour(r, before);
    AfterExtended(r, before, Check, check);
    assert After(r, before) == started;
  }

  lemma {:induction false} AfterFour(r: Run, events: seq<(Event, int)>)
    requires |events| == 4
    ensures After(r, events) ==
            Step(Step(Step(Step(r, events[0].0, events[0].1), events[1].0, events[1].1), events[2].0, events[2].1), events[3].0, events[3].1)
  {
    assert events[1..][1..][1..][1..] == [];
    var r1 := Step(r, events[0].0, events[0].1);
    var r2 := Step(r1, events[1].0, events[1].1);
    var r3 := Step(r2, events[2].0, events[2].1);
    assert After(r1, events[1..]) == After(r2, events[1..][1..]) == After(r3, events[1..][1..][1..]);
  }

  lemma {:induction false} AfterExtended(r: Run, events: seq<(Event, int)>, e: Event, now: int)
    ensures After(r, events + [(e, now)]) == Step(After(r, events), e, now)
    decreases |events|
  {
    if events == [] {
      var one := events + [(e, now)];
      assert one[0] == (e, now) && one[1..] == [];
    } else {
      assert (events + [(e, now)])[1..] == events[1..] + [(e, now)];
      AfterExtended(Step(r, events[0].0, events[0].1), events[1..], e, now);
    }
  }
}
