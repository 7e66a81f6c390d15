/** Where a fixed-delay chain loses its token: it stops and waits for a restart, or it is stuck on a run
    that was asked to be killed and that nobody executes. */
module ChainStops {
  import opened Domain
  import opened RunLifecycle
  import opened FixedDelayChain

  /** Nobody is at work and the last run is over: the chain waits for a restart. */
  ghost predicate Stalled(s: State) {
    s.serving && s.threads == map[] && (s.runs == [] || IsDead(s.runs[|s.runs| - 1].state))
  }

  /** Nobody is at work, nobody will be, and yet the last run counts as unfinished. */
  ghost predicate Stuck(s: State) {
    s.threads == map[] && s.runs != [] && IsInert(s.runs[|s.runs| - 1])
  }

  // ---------------------------------------------------------------- coming to a stop

  /** The steps that end a run without handing on: a start failure, an unknown method, an accepted start
      of a run written off meanwhile, a cancel or a hang written while nobody executes the run, and a
      final state of a process without a delay. */
  ghost predicate Stalls(p: Process, s: State, e: Event) {
    match e
    case StartError(_) => true
    case ClaimUnknown(_) => true
    case SaveHandle(i) => i < |s.runs| && IsDead(s.runs[i].state)
    case WriteBack(k) =>
      && k < |s.readings| && s.readings[k].run == |s.runs| - 1 && s.threads == map[]
      && Decision(s.readings[k]).Some? && Decision(s.readings[k]) != Some(KillRequested)
    case Succeed(i) => i < |s.runs| && p.delay.None? && IsDead(s.runs[i].state)
    case _ => false
  }

  /** The steps that leave a run asked to be killed with nobody to do it: a kill written while nobody
      executes the run and no handle is left to poll; a crash that takes the execution of a killed run
      without a handle; and a final state, overwritten by a kill, of a process without a delay. */
  ghost predicate Sticks(p: Process, s: State, e: Event) {
    match e
    case WriteBack(k) =>
      && k < |s.readings| && s.readings[k].run == |s.runs| - 1 && s.threads == map[]
      && Decision(s.readings[k]) == Some(KillRequested) && s.runs != [] && !s.runs[|s.runs| - 1].handle
    case Crash => s.runs != [] && IsInert(s.runs[|s.runs| - 1])
    case Succeed(i) => i < |s.runs| && p.delay.None? && IsInert(s.runs[i])
    case _ => false
  }

  lemma OwnStepStopsIff(p: Process, s: State, e: Event, now: int)
    requires Shape(s) && p.fixedDelay && s.serving && now > s.clock && Enabled(s, e, now) && IsOwnStep(e)
    ensures Stalled(Step(p, s, e, now)) <==> Stalls(p, s, e)
    ensures !Stuck(Step(p, s, e, now))
  {
    OwnStepIsLast(s, e, now);
    assert s.threads.Keys <= {e.i};
    assert s.threads - {e.i} == map[];
    StepOfLastStopsIff(p, s, e, now);
  }

  lemma StepOfLastStopsIff(p: Process, s: State, e: Event, now: int)
    requires p.fixedDelay && s.serving && now > s.clock && Enabled(s, e, now) && IsOwnStep(e) && e.i == |s.runs| - 1
    requires s.threads - {e.i} == map[] && (e.i !in s.threads ==> s.threads == map[])
    requires Claimable(s.runs[e.i], now) ==> e.i !in s.threads
    ensures Stalled(Step(p, s, e, now)) <==> Stalls(p, s, e)
    ensures !Stuck(Step(p, s, e, now))
  {
  }

  lemma SucceedStopsIff(p: Process, s: State, i: nat, now: int)
    requires Shape(s) && p.fixedDelay && now > s.clock && Enabled(s, Succeed(i), now)
    ensures Stalled(Step(p, s, Succeed(i), now)) <==> Stalls(p, s, Succeed(i))
    ensures Stuck(Step(p, s, Succeed(i), now)) <==> Sticks(p, s, Succeed(i))
  {
    assert i == |s.runs| - 1 && s.threads.Keys <= {i} && s.serving;
    assert s.threads - {i} == map[];
  }

  lemma WriteBackStopsIff(p: Process, s: State, k: nat, now: int)
    requires s.serving && !Stalled(s) && !Stuck(s) && now > s.clock && Enabled(s, WriteBack(k), now)
    ensures Stalled(Step(p, s, WriteBack(k), now)) <==> Stalls(p, s, WriteBack(k))
    ensures Stuck(Step(p, s, WriteBack(k), now)) <==> Sticks(p, s, WriteBack(k))
  {
  }

  lemma QuietStepStopsIff(p: Process, s: State, e: Event, now: int)
    requires s.serving && !Stalled(s) && !Stuck(s) && now > s.clock && Enabled(s, e, now)
    requires e.ReadToCancel? || e.ReadToMark? || e.Crash?
    ensures Stalled(Step(p, s, e, now)) <==> Stalls(p, s, e)
    ensures Stuck(Step(p, s, e, now)) <==> Sticks(p, s, e)
  {
  }

  /** A chain that is going comes to a stop at a step if and only if the step is one of these: it then
      waits for a restart, or is stuck. */
  lemma StopsIff(p: Process, s: State, e: Event, now: int)
    requires Good(p, s) && p.fixedDelay && s.serving && !Stalled(s) && !Stuck(s) && now > s.clock && Enabled(s, e, now) && !e.Insert?
    ensures Stalled(Step(p, s, e, now)) <==> Stalls(p, s, e)
    ensures Stuck(Step(p, s, e, now)) <==> Sticks(p, s, e)
  {
    GoodShape(p, s);
    if IsOwnStep(e) {
      OwnStepStopsIff(p, s, e, now);
    } else if e.Succeed? {
      SucceedStopsIff(p, s, e.i, now);
    } else if e.WriteBack? {
      WriteBackStopsIff(p, s, e.k, now);
    } else {
      QuietStepStopsIff(p, s, e, now);
    }
  }

  // ---------------------------------------------------------------- leaving a stop

  /** A kill_requested written over the end of the last run. */
  predicate IsRevival(s: State, e: Event) {
    && e.WriteBack? && e.k < |s.readings| && s.readings[e.k].run == |s.runs| - 1
    && Decision(s.readings[e.k]) == Some(KillRequested)
  }

  lemma NoOwnStepWhenIdle(s: State, e: Event, now: int)
    requires Shape(s) && s.threads == map[] && (s.runs == [] || IsDead(s.runs[|s.runs| - 1].state) || IsInert(s.runs[|s.runs| - 1])) && Enabled(s, e, now)
    ensures !IsOwnStep(e) && !e.Succeed?
  {
    if IsOwnStep(e) {
      OwnStepIsLast(s, e, now);
    }
  }

  /** A stalled chain stays so until a crash, which leads to recovery, or a revival.  A revival sets it
      going again, for the poller, if the run still has its handle, and leaves it stuck if not. */
  lemma StalledLeftIff(p: Process, s: State, e: Event, now: int)
    requires Good(p, s) && Stalled(s) && now > s.clock && Enabled(s, e, now) && !e.Insert?
    ensures Stalled(Step(p, s, e, now)) <==> !e.Crash? && !IsRevival(s, e)
    ensures Stuck(Step(p, s, e, now)) <==> IsRevival(s, e) && !s.runs[|s.runs| - 1].handle
  {
    GoodShape(p, s);
    NoOwnStepWhenIdle(s, e, now);
    QuietStepOfStalled(p, s, e, now);
  }

  lemma QuietStepOfStalled(p: Process, s: State, e: Event, now: int)
    requires Stalled(s) && now > s.clock && Enabled(s, e, now)
    requires e.WriteBack? || e.ReadToCancel? || e.ReadToMark? || e.Crash? || (e.Recover? && !s.serving)
    ensures Stalled(Step(p, s, e, now)) <==> !e.Crash? && !IsRevival(s, e)
    ensures Stuck(Step(p, s, e, now)) <==> IsRevival(s, e) && !s.runs[|s.runs| - 1].handle
  {
    if e.WriteBack? {
      WriteBackOfStalled(p, s, e.k, now);
    }
  }

  lemma WriteBackOfStalled(p: Process, s: State, k: nat, now: int)
    requires Stalled(s) && now > s.clock && Enabled(s, WriteBack(k), now)
    ensures Stalled(Step(p, s, WriteBack(k), now)) <==> !IsRevival(s, WriteBack(k))
    ensures Stuck(Step(p, s, WriteBack(k), now)) <==> IsRevival(s, WriteBack(k)) && !s.runs[|s.runs| - 1].handle
  {
  }

  ghost predicate NothingResumes(p: Process, s: State, events: seq<(Event, int)>)
    decreases |events|
  {
    events == [] ||
    (!events[0].0.Crash? && !IsRevival(s, events[0].0) && NothingResumes(p, Step(p, s, events[0].0, events[0].1), events[1..]))
  }

  /** So without a restart a stalled chain stays so, however long. */
  lemma {:induction false} StalledUntilRestart(p: Process, s: State, events: seq<(Event, int)>)
    requires Good(p, s) && Stalled(s) && Orderly(p, s, events) && NothingResumes(p, s, events)
    ensures Stalled(After(p, s, events))
    decreases |events|
  {
    if events != [] {
      var (e, now) := events[0];
      StepKeepsGood(p, s, e, now);
      if now > s.clock && Enabled(s, e, now) {
        StalledLeftIff(p, s, e, now);
      }
      StalledUntilRestart(p, Step(p, s, e, now), events[1..]);
    }
  }

  /** An open reading of the last run that will write it off: cancelled, or hung. */
  predicate Rescues(s: State, k: nat) {
    k < |s.readings| && s.readings[k].run == |s.runs| - 1 && Decision(s.readings[k]).Some? && Decision(s.readings[k]) != Some(KillRequested)
  }

  ghost predicate NoRescue(s: State) {
    forall k: nat :: !Rescues(s, k)
  }

  lemma WriteBackOfStuck(p: Process, s: State, k: nat, now: int)
    requires Stuck(s) && now > s.clock && Enabled(s, WriteBack(k), now)
    ensures |Step(p, s, WriteBack(k), now).runs| == |s.runs|
    ensures Stuck(Step(p, s, WriteBack(k), now)) <==> !Rescues(s, k)
  {
  }

  lemma QuietStepOfStuck(p: Process, s: State, e: Event, now: int)
    requires Shape(s) && Stuck(s) && now > s.clock && Enabled(s, e, now)
    requires !e.Insert? && !IsOwnStep(e) && !e.Succeed?
    ensures |Step(p, s, e, now).runs| == |s.runs|
    ensures Stuck(Step(p, s, e, now)) <==> !(e.WriteBack? && Rescues(s, e.k))
  {
    if e.Recover? {
      RecoverOfStuck(p, s, e.last, now);
    } else if e.WriteBack? {
      WriteBackOfStuck(p, s, e.k, now);
    }
  }

  lemma RecoverOfStuck(p: Process, s: State, last: nat, now: int)
    requires Shape(s) && Stuck(s) && now > s.clock && Enabled(s, Recover(last), now)
    ensures Step(p, s, Recover(last), now) == s.(serving := true, clock := now)
  {
    LatestIsLast(s, last);
  }

  /** A stuck chain is set free at a step if and only if the step writes the last run off. */
  lemma StuckLeftIff(p: Process, s: State, e: Event, now: int)
    requires Good(p, s) && Stuck(s) && now > s.clock && Enabled(s, e, now) && !e.Insert?
    ensures |Step(p, s, e, now).runs| == |s.runs|
    ensures Stuck(Step(p, s, e, now)) <==> !(e.WriteBack? && Rescues(s, e.k))
  {
    GoodShape(p, s);
    NoOwnStepWhenIdle(s, e, now);
    QuietStepOfStuck(p, s, e, now);
  }

  lemma NoRescueStays(p: Process, s: State, e: Event, now: int)
    requires Shape(s) && Stuck(s) && NoRescue(s) && now > s.clock && Enabled(s, e, now)
    requires !e.Insert? && !IsOwnStep(e) && !e.Succeed?
    ensures NoRescue(Step(p, s, e, now)) && !CancelsAhead(s, e, now) && !SucceedsBehind(p, s, e, now)
  {
    var s' := Step(p, s, e, now);
    QuietStepOfStuck(p, s, e, now);
    if e.WriteBack? {
      assert !Rescues(s, e.k);
    }
    forall k: nat ensures !Rescues(s', k) {
      if k < |s'.readings| {
        assert !Rescues(s, k) && !Rescues(s, k + 1);
      }
    }
  }

  /** Without such a reading a stuck chain stands still through every event and every restart. */
  lemma {:induction false} StuckForever(p: Process, s: State, events: seq<(Event, int)>)
    requires Good(p, s) && Stuck(s) && NoRescue(s) && NoInsert(events)
    ensures Stuck(After(p, s, events)) && |After(p, s, events).runs| == |s.runs|
    decreases |events|
  {
    if events != [] {
      var (e, now) := events[0];
      if now > s.clock && Enabled(s, e, now) {
        GoodShape(p, s);
        NoOwnStepWhenIdle(s, e, now);
        StuckLeftIff(p, s, e, now);
        NoRescueStays(p, s, e, now);
        StepKeepsGood(p, s, e, now);
      }
      StuckForever(p, Step(p, s, e, now), events[1..]);
    }
  }

  ghost predicate AlwaysStuck(p: Process, s: State) {
    forall events :: NoInsert(events) ==> Stuck(After(p, s, events))
  }

  /** A stuck chain is stuck for ever if and only if nobody has read its last run in time to write it off. */
  lemma StuckForeverIff(p: Process, s: State)
    requires Good(p, s) && Stuck(s)
    ensures AlwaysStuck(p, s) <==> NoRescue(s)
  {
    if NoRescue(s) {
      forall events | NoInsert(events) ensures Stuck(After(p, s, events)) {
        StuckForever(p, s, events);
      }
    } else {
      var k: nat :| Rescues(s, k);
      var events := [(WriteBack(k), s.clock + 1)] + [];
      GoodShape(p, s);
      StuckLeftIff(p, s, WriteBack(k), s.clock + 1);
      AfterCons(p, s, WriteBack(k), s.clock + 1, []);
      assert NoInsert(events) && !Stuck(After(p, s, events));
    }
  }

  // ---------------------------------------------------------------- recovery

  ghost predicate NoCrash(events: seq<(Event, int)>) {
    forall k :: 0 <= k < |events| ==> !events[k].0.Crash?
  }

  /** Some history without another insert or crash comes to the successor. */
  ghost predicate ReachesSuccessor(p: Process, s: State) {
    exists events :: NoInsert(events) && NoCrash(events) && |After(p, s, events).runs| > |s.runs|
  }

  lemma {:induction false} NoDelayNoSuccessor(p: Process, s: State, events: seq<(Event, int)>)
    requires p.delay.None? && s.serving && NoInsert(events) && NoCrash(events)
    ensures |After(p, s, events).runs| == |s.runs|
    decreases |events|
  {
    if events != [] {
      NoDelayNoSuccessor(p, Step(p, s, events[0].0, events[0].1), events[1..]);
    }
  }

  lemma FinishAndSucceed(p: Process, s: State, n: nat, t: int)
    requires p.fixedDelay && p.delay.Some? && n < |s.runs| && IsExecuting(s, n) && s.threads[n].attempt >= 1 && s.clock < t
    ensures |Step(p, Step(p, s, Finish(n, Success), t), Succeed(n), t + 1).runs| == |s.runs| + 1
  {
  }

  lemma ClaimSucceeds(p: Process, s: State, n: nat, t: int)
    requires p.fixedDelay && p.delay.Some? && s.serving && n < |s.runs| && s.clock < t && Claimable(s.runs[n], t) && s.runs[n].attempt >= 0
    ensures ReachesSuccessor(p, s)
  {
    var events := [(Claim(n), t)] + Three(Record(n), t + 1, Finish(n, Success), t + 2, Succeed(n), t + 3);
    var s1 := Step(p, s, Claim(n), t);
    AfterCons(p, s, Claim(n), t, Three(Record(n), t + 1, Finish(n, Success), t + 2, Succeed(n), t + 3));
    AfterThree(p, s1, Record(n), t + 1, Finish(n, Success), t + 2, Succeed(n), t + 3);
    FinishAndSucceed(p, Step(p, s1, Record(n), t + 1), n, t + 2);
    assert NoInsert(events) && NoCrash(events) && |After(p, s, events).runs| == |s.runs| + 1;
  }

  lemma PollSucceeds(p: Process, s: State, n: nat)
    requires p.fixedDelay && p.delay.Some? && s.serving && s.threads == map[]
    requires n < |s.runs| && s.runs[n].handle && s.runs[n].state == KillRequested && s.runs[n].attempt >= 1
    ensures ReachesSuccessor(p, s)
  {
    var t := s.clock + 1;
    var events := Three(Poll(n), t, Finish(n, Success), t + 1, Succeed(n), t + 2);
    AfterThree(p, s, Poll(n), t, Finish(n, Success), t + 1, Succeed(n), t + 2);
    FinishAndSucceed(p, Step(p, s, Poll(n), t), n, t + 1);
    assert NoInsert(events) && NoCrash(events) && |After(p, s, events).runs| == |s.runs| + 1;
  }

  lemma RecoverStrays(p: Process, s: State, last: nat, now: int)
    requires Shape(s) && now > s.clock && Enabled(s, Recover(last), now)
    ensures |Unfinished(Step(p, s, Recover(last), now))| <= 1 + |Strays(s)|
  {
    StrayMadeIff(p, s, Recover(last), now);
    UnfinishedBesidesStrays(Step(p, s, Recover(last), now));
  }

  lemma RecoverState(p: Process, s: State, last: nat, now: int)
    requires Shape(s) && p.fixedDelay && now > s.clock && Enabled(s, Recover(last), now)
    ensures var s' := Step(p, s, Recover(last), now);
            && s'.serving && s'.threads == map[] && s'.readings == [] && s'.runs != []
            && !IsDead(s'.runs[|s'.runs| - 1].state) && s'.runs[|s'.runs| - 1].state != Running
  {
    OrderAfterRecover(p, s, last, now);
  }

  lemma RecoveredSucceedsIff(p: Process, s: State)
    requires Good(p, s) && p.fixedDelay && s.serving && s.threads == map[] && s.readings == [] && s.runs != []
    requires var r := s.runs[|s.runs| - 1]; !IsDead(r.state) && r.state != Running
    ensures ReachesSuccessor(p, s) <==> p.delay.Some? && !IsInert(s.runs[|s.runs| - 1])
  {
    var n: nat := |s.runs| - 1;
    GoodShape(p, s);
    if IsInert(s.runs[n]) {
      assert NoRescue(s);
      if events :| NoInsert(events) && NoCrash(events) && |After(p, s, events).runs| > |s.runs| {
        StuckForever(p, s, events);
      }
    } else if p.delay.None? {
      if events :| NoInsert(events) && NoCrash(events) && |After(p, s, events).runs| > |s.runs| {
        NoDelayNoSuccessor(p, s, events);
      }
    } else {
      RunnableSucceeds(p, s, n);
    }
  }

  lemma RunnableSucceeds(p: Process, s: State, n: nat)
    requires Shape(s) && p.fixedDelay && p.delay.Some? && s.serving && s.threads == map[] && |s.runs| == n + 1
    requires !IsDead(s.runs[n].state) && s.runs[n].state != Running && !IsInert(s.runs[n])
    ensures ReachesSuccessor(p, s)
  {
    if s.runs[n].state == KillRequested {
      PollSucceeds(p, s, n);
    } else if s.runs[n].state == Retrying {
      ClaimSucceeds(p, s, n, Max(s.clock + 1, s.runs[n].nextAt.value));
    } else {
      ClaimSucceeds(p, s, n, Max(s.clock + 1, s.runs[n].at));
    }
  }

  /** Start-up recovery of a fixed-delay process leaves its last run unfinished, and only strays beside it.
      The chain comes from there to the next run if and only if there is a delay and that run is not one
      that was asked to be killed and has no execution any more. */
  lemma {:induction false} RecoveryRestoresIff(p: Process, clock: int, events: seq<(Event, int)>, last: nat, now: int)
    requires Orderly(p, Initial(clock), events) && p.fixedDelay
    requires var s := After(p, Initial(clock), events);
             now > s.clock && Enabled(s, Recover(last), now)
    ensures var s' := Step(p, After(p, Initial(clock), events), Recover(last), now);
            && s'.runs != [] && !IsDead(s'.runs[|s'.runs| - 1].state)
            && |Unfinished(s')| <= 1 + LateKills(p, Initial(clock), events)
            && (ReachesSuccessor(p, s') <==> p.delay.Some? && !IsInert(s'.runs[|s'.runs| - 1]))
  {
    InitialGood(p, clock);
    AfterKeepsGood(p, Initial(clock), events);
    RecoverSucceedsIff(p, After(p, Initial(clock), events), last, now);
  }

  lemma {:induction false} RecoverSucceedsIff(p: Process, s: State, last: nat, now: int)
    requires Good(p, s) && p.fixedDelay && now > s.clock && Enabled(s, Recover(last), now)
    ensures var s' := Step(p, s, Recover(last), now);
            && s'.runs != [] && !IsDead(s'.runs[|s'.runs| - 1].state)
            && |Unfinished(s')| <= 1 + |Strays(s)|
            && (ReachesSuccessor(p, s') <==> p.delay.Some? && !IsInert(s'.runs[|s'.runs| - 1]))
  {
    GoodShape(p, s);
    StepKeepsGood(p, s, Recover(last), now);
    RecoverStrays(p, s, last, now);
    RecoverState(p, s, last, now);
    RecoveredSucceedsIff(p, Step(p, s, Recover(last), now));
  }
}
