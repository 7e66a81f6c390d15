/** The fixed-delay chain as a token: its one unfinished run is handed on by finalisation and by
    start-up recovery.  What keeps the token single, what doubles it, and where it is lost. */
module FixedDelayChain {
  import opened Domain
  import opened RunLifecycle
  import RunAttempts

  // ---------------------------------------------------------------- the invariant

  /** Asked to be killed, and nothing is left that could confirm it: no handle to poll. */
  predicate IsInert(r: Run) {
    r.state == KillRequested && !r.handle
  }

  /** The final state is written, the successor is not created yet. */
  predicate IsOwing(s: State, i: nat) {
    i in s.threads && s.threads[i].Owes?
  }

  /** The last run is scheduled after all others, and only a run not yet started lies ahead. */
  ghost predicate Ordered(s: State) {
    && (forall i :: 0 <= i < |s.runs| - 1 ==> s.runs[i].at < s.runs[|s.runs| - 1].at && s.runs[i].at <= s.clock)
    && (s.runs != [] && s.runs[|s.runs| - 1].state != Pending ==> s.runs[|s.runs| - 1].at <= s.clock)
  }

  /** Only the latest run is worked on; earlier ones are dead, or inert through a cancel that came late. */
  ghost predicate Settled(s: State) {
    var last := |s.runs| - 1;
    && (forall i :: 0 <= i < last ==> IsDead(s.runs[i].state) || IsInert(s.runs[i]))
    && (forall i :: i in s.threads ==> i == last)
    && (!s.serving ==> s.threads == map[] && s.readings == [])
    && (forall k :: 0 <= k < |s.readings| && 0 <= s.readings[k].run < last && Decision(s.readings[k]) == Some(KillRequested) ==>
          !s.runs[s.readings[k].run].handle)
  }

  ghost predicate Good(p: Process, s: State) {
    RunAttempts.Inv(p, s) && Ordered(s) && Settled(s)
  }

  /** What the attempt invariant says about the latest run. */
  ghost predicate LastOk(s: State) {
    s.runs != [] ==>
      var n := |s.runs| - 1;
      && (s.runs[n].state == Pending ==> s.runs[n].attempt == 0 && n !in s.threads && !s.runs[n].handle)
      && (s.runs[n].state == Retrying ==> n !in s.threads && s.runs[n].nextAt.Some?)
      && (s.runs[n].state == Queued || s.runs[n].state == Skipped ==> n !in s.threads)
      && (s.runs[n].state != WaitingForWorker && s.runs[n].state != Paused && s.runs[n].state != WaitingForChoice)
      && s.runs[n].attempt >= 0 && (s.runs[n].handle ==> s.runs[n].attempt >= 1)
      && (n in s.threads && s.threads[n].Owes? ==>
            && ContinuesFixedDelayChain(s.threads[n].final)
            && (IsDead(s.runs[n].state) || IsInert(s.runs[n])) && !s.runs[n].handle)
      && (n in s.threads && !s.threads[n].Owes? ==> s.threads[n].attempt >= 1)
  }

  ghost predicate ReadingsOk(s: State) {
    forall k :: 0 <= k < |s.readings| ==>
      && s.readings[k].run < |s.runs|
      && (Decision(s.readings[k]).Some? && Decision(s.readings[k]) != Some(Cancelled) ==> s.runs[s.readings[k].run].attempt >= 1)
  }

  /** All that the chain needs to know of a state. */
  ghost predicate Shape(s: State) {
    Ordered(s) && Settled(s) && LastOk(s) && ReadingsOk(s)
  }

  lemma GoodShape(p: Process, s: State)
    requires Good(p, s)
    ensures Shape(s)
  {
    if s.runs != [] {
      var n := |s.runs| - 1;
      assert RunAttempts.RunOk(p, s.runs[n], RunAttempts.PhaseOf(s, n), s.clock);
    }
  }

  // ---------------------------------------------------------------- steps that break the order

  /** A cancel hits a run that is not due yet. */
  predicate CancelsAhead(s: State, e: Event, now: int) {
    && now > s.clock && e.WriteBack? && e.k < |s.readings| && s.readings[e.k].run < |s.runs|
    && Decision(s.readings[e.k]) == Some(Cancelled) && s.runs[s.readings[e.k].run].at > now
  }

  /** The successor comes to lie no later than its predecessor. */
  predicate SucceedsBehind(p: Process, s: State, e: Event, now: int) {
    && now > s.clock && e.Succeed? && e.i < |s.runs| && e.i in s.threads && s.threads[e.i].Owes?
    && p.fixedDelay && ContinuesFixedDelayChain(s.threads[e.i].final) && p.delay.Some?
    && now + p.delay.value <= s.runs[e.i].at
  }

  lemma OrderedAfterRunChange(s: State, s': State, i: nat)
    requires Ordered(s) && i < |s.runs| == |s'.runs| && s.clock <= s'.clock
    requires s'.runs == s.runs[i := s'.runs[i]] && s'.runs[i].at == s.runs[i].at
    ensures Ordered(s') <==> !(i == |s.runs| - 1 && s'.runs[i].state != Pending && s'.runs[i].at > s'.clock)
  {
  }

  lemma OrderedAfterAppend(s: State, s': State, at: int)
    requires Ordered(s) && s'.runs == s.runs + [NewRun(at)] && s.clock <= s'.clock
    requires s.runs != [] ==> s.runs[|s.runs| - 1].state != Pending
    ensures Ordered(s') <==> s.runs == [] || s.runs[|s.runs| - 1].at < at
  {
    if s.runs != [] && Ordered(s') {
      assert s'.runs[|s.runs| - 1].at < s'.runs[|s.runs|].at;
    }
  }

  /** The query for the latest run returns the last one. */
  lemma LatestIsLast(s: State, last: nat)
    requires Ordered(s) && s.runs != [] && IsLatest(s.runs, last)
    ensures last == |s.runs| - 1
  {
  }

  lemma OrderAfterWriteBack(p: Process, s: State, k: nat, now: int)
    requires Shape(s) && now > s.clock && Enabled(s, WriteBack(k), now)
    ensures Ordered(Step(p, s, WriteBack(k), now)) <==> !CancelsAhead(s, WriteBack(k), now)
  {
    OrderedAfterRunChange(s, Step(p, s, WriteBack(k), now), s.readings[k].run);
  }

  lemma OrderAfterSucceed(p: Process, s: State, i: nat, now: int)
    requires Shape(s) && now > s.clock && Enabled(s, Succeed(i), now)
    ensures Ordered(Step(p, s, Succeed(i), now)) <==> !SucceedsBehind(p, s, Succeed(i), now)
  {
    var s' := Step(p, s, Succeed(i), now);
    assert i == |s.runs| - 1 && s.runs[i].state != Pending;
    if |s'.runs| > |s.runs| {
      OrderedAfterAppend(s, s', now + p.delay.value);
    }
  }

  lemma OrderAfterRecover(p: Process, s: State, last: nat, now: int)
    requires Shape(s) && now > s.clock && Enabled(s, Recover(last), now)
    ensures s.runs != [] ==> last == |s.runs| - 1
    ensures Ordered(Step(p, s, Recover(last), now))
  {
    var s' := Step(p, s, Recover(last), now);
    if s.runs != [] {
      LatestIsLast(s, last);
    }
    if |s'.runs| > |s.runs| {
      OrderedAfterAppend(s, s', now);
    }
  }

  /** The goroutine's own steps and claims change one run, and never its schedule. */
  predicate IsOwnStep(e: Event) {
    e.Claim? || e.ClaimUnknown? || e.Overlap? || e.Record? || e.StartError? || e.SaveHandle? || e.Poll? || e.ClearHandle? || e.Finish? || e.MarkOrphan?
  }

  lemma OwnStepIsLast(s: State, e: Event, now: int)
    requires Shape(s) && Enabled(s, e, now) && IsOwnStep(e)
    ensures s.runs != [] && e.i == |s.runs| - 1
    ensures s.runs[e.i].state == Pending ==> e.i !in s.threads && !s.runs[e.i].handle
    ensures s.runs[e.i].state != Pending ==> s.runs[e.i].at <= s.clock
    ensures !IsOwing(s, e.i)
  {
  }

  /** What such a step may do to the last run. */
  ghost predicate ChangesLast(s: State, s': State, now: int) {
    var n := |s.runs| - 1;
    && n >= 0 && |s'.runs| == |s.runs| && s'.runs == s.runs[n := s'.runs[n]]
    && s'.runs[n].at == s.runs[n].at && (s'.runs == s.runs || (s'.runs[n].at <= now && s'.runs[n].state != Pending))
    && s'.serving == s.serving && s'.readings == s.readings && s'.clock == now
    && (s'.threads == s.threads || (s.serving && s'.threads.Keys <= s.threads.Keys + {n}))
    && (IsOwing(s', n) ==> IsDead(s'.runs[n].state))
  }

  lemma OwnStepChangesLast(p: Process, s: State, e: Event, now: int)
    requires Shape(s) && now > s.clock && Enabled(s, e, now) && IsOwnStep(e)
    ensures ChangesLast(s, Step(p, s, e, now), now)
  {
    OwnStepIsLast(s, e, now);
    OwnStepOfLast(p, s, e, now);
  }

  lemma OwnStepOfLast(p: Process, s: State, e: Event, now: int)
    requires now > s.clock && Enabled(s, e, now) && IsOwnStep(e)
    requires s.runs != [] && e.i == |s.runs| - 1
    requires s.runs[e.i].state == Pending ==> e.i !in s.threads && !s.runs[e.i].handle
    requires s.runs[e.i].state != Pending ==> s.runs[e.i].at <= s.clock
    requires (!s.serving ==> s.threads == map[]) && !IsOwing(s, e.i)
    ensures ChangesLast(s, Step(p, s, e, now), now)
  {
  }

  /** A step of the chain leaves the schedule in order if and only if it neither cancels a run ahead of
      its time nor creates a successor behind its predecessor. */
  lemma OrderKeptIff(p: Process, s: State, e: Event, now: int)
    requires Shape(s) && now > s.clock && Enabled(s, e, now) && !e.Insert?
    ensures Ordered(Step(p, s, e, now)) <==> !CancelsAhead(s, e, now) && !SucceedsBehind(p, s, e, now)
  {
    if IsOwnStep(e) {
      OwnStepChangesLast(p, s, e, now);
      OrderedAfterRunChange(s, Step(p, s, e, now), |s.runs| - 1);
    } else if e.WriteBack? {
      OrderAfterWriteBack(p, s, e.k, now);
    } else if e.Succeed? {
      OrderAfterSucceed(p, s, e.i, now);
    } else if e.Recover? {
      OrderAfterRecover(p, s, e.last, now);
    } else {
      OrderAfterQuietStep(p, s, e, now);
    }
  }

  lemma OrderAfterQuietStep(p: Process, s: State, e: Event, now: int)
    requires Ordered(s) && now > s.clock && Enabled(s, e, now) && (e.ReadToCancel? || e.ReadToMark? || e.Crash?)
    ensures Ordered(Step(p, s, e, now))
  {
  }

  // ---------------------------------------------------------------- steps that keep it settled

  lemma SettledAfterRunChange(s: State, s': State, i: nat)
    requires Settled(s) && i < |s.runs| == |s'.runs| && s'.serving == s.serving && s'.readings == s.readings
    requires s'.runs == s.runs[i := s'.runs[i]]
    requires i < |s.runs| - 1 ==> IsDead(s'.runs[i].state) || IsInert(s'.runs[i])
    requires i < |s.runs| - 1 && s'.runs[i].handle ==> s.runs[i].handle
    requires s'.threads == s.threads || (s.serving && s'.threads.Keys <= {|s.runs| - 1})
    ensures Settled(s')
  {
  }

  lemma SettledAfterWriteBack(p: Process, s: State, k: nat, now: int)
    requires Shape(s) && now > s.clock && Enabled(s, WriteBack(k), now)
    ensures Settled(Step(p, s, WriteBack(k), now))
  {
    var rest := s.(readings := Without(s.readings, k));
    assert Settled(rest);
    if Decision(s.readings[k]).Some? {
      SettledAfterRunChange(rest, SetState(rest, s.readings[k].run, Decision(s.readings[k]).value), s.readings[k].run);
    }
  }

  lemma SettledAfterAppend(s: State, s': State, at: int)
    requires Settled(s) && s'.runs == s.runs + [NewRun(at)] && s'.threads == map[] && s'.readings == s.readings && s'.serving
    requires s.runs != [] ==> IsDead(s.runs[|s.runs| - 1].state) || IsInert(s.runs[|s.runs| - 1])
    requires s.runs != [] ==> !s.runs[|s.runs| - 1].handle || s.readings == []
    requires forall k :: 0 <= k < |s.readings| ==> s.readings[k].run < |s.runs|
    ensures Settled(s')
  {
  }

  lemma SettledAfterSucceed(p: Process, s: State, i: nat, now: int)
    requires Shape(s) && now > s.clock && Enabled(s, Succeed(i), now)
    ensures Settled(Step(p, s, Succeed(i), now))
  {
    var s' := Step(p, s, Succeed(i), now);
    assert s'.threads == map[] && s.serving;
    if |s'.runs| > |s.runs| {
      SettledAfterAppend(s, s', now + p.delay.value);
    }
  }

  lemma SettledAfterRecover(p: Process, s: State, last: nat, now: int)
    requires Shape(s) && now > s.clock && Enabled(s, Recover(last), now)
    ensures Settled(Step(p, s, Recover(last), now))
  {
    var s' := Step(p, s, Recover(last), now);
    OrderAfterRecover(p, s, last, now);
    if |s'.runs| > |s.runs| {
      SettledAfterAppend(s, s', now);
    }
  }

  lemma SettledAfterRead(p: Process, s: State, e: Event, now: int)
    requires Shape(s) && now > s.clock && Enabled(s, e, now) && (e.ReadToCancel? || e.ReadToMark?)
    ensures Settled(Step(p, s, e, now))
  {
    var last := |s.runs| - 1;
    assert e.i < last ==> s.runs[e.i].state != Running;
  }

  lemma StepKeepsSettled(p: Process, s: State, e: Event, now: int)
    requires Shape(s) && now > s.clock && Enabled(s, e, now) && !e.Insert?
    ensures Settled(Step(p, s, e, now))
  {
    if IsOwnStep(e) {
      OwnStepChangesLast(p, s, e, now);
      SettledAfterRunChange(s, Step(p, s, e, now), |s.runs| - 1);
    } else if e.WriteBack? {
      SettledAfterWriteBack(p, s, e.k, now);
    } else if e.Succeed? {
      SettledAfterSucceed(p, s, e.i, now);
    } else if e.Recover? {
      SettledAfterRecover(p, s, e.last, now);
    } else if e.ReadToCancel? || e.ReadToMark? {
      SettledAfterRead(p, s, e, now);
    }
  }

  lemma StepKeepsGood(p: Process, s: State, e: Event, now: int)
    requires Good(p, s) && !e.Insert? && !CancelsAhead(s, e, now) && !SucceedsBehind(p, s, e, now)
    ensures Good(p, Step(p, s, e, now))
  {
    RunAttempts.StepKeepsInv(p, s, e, now);
    if now > s.clock && Enabled(s, e, now) {
      GoodShape(p, s);
      OrderKeptIff(p, s, e, now);
      StepKeepsSettled(p, s, e, now);
    }
  }

  // ---------------------------------------------------------------- at most one unfinished run

  function Unfinished(s: State): set<nat> {
    set i: nat | i < |s.runs| && !IsDead(s.runs[i].state)
  }

  /** Unfinished although its place is taken: a successor exists, or is owed. */
  predicate IsStray(s: State, i: nat) {
    i < |s.runs| && !IsDead(s.runs[i].state) && (i < |s.runs| - 1 || IsOwing(s, i))
  }

  function Strays(s: State): set<nat> {
    set i: nat | i < |s.runs| && IsStray(s, i)
  }

  /** A cancel that read the run as running writes kill_requested when the run has already ended and its
      place is taken. */
  predicate IsLateKill(s: State, e: Event) {
    && e.WriteBack? && e.k < |s.readings| && s.readings[e.k].run < |s.runs|
    && Decision(s.readings[e.k]) == Some(KillRequested)
    && IsDead(s.runs[s.readings[e.k].run].state)
    && (s.readings[e.k].run < |s.runs| - 1 || IsOwing(s, s.readings[e.k].run))
  }

  lemma StraysAfterWriteBack(p: Process, s: State, k: nat, now: int, i: nat)
    requires Shape(s) && now > s.clock && Enabled(s, WriteBack(k), now) && IsStray(Step(p, s, WriteBack(k), now), i)
    ensures IsStray(s, i) || (i == s.readings[k].run && IsLateKill(s, WriteBack(k)))
  {
  }

  lemma StraysAfterOther(p: Process, s: State, e: Event, now: int, i: nat)
    requires Shape(s) && now > s.clock && Enabled(s, e, now) && !e.Insert? && !e.WriteBack?
    requires IsStray(Step(p, s, e, now), i)
    ensures IsStray(s, i)
  {
    if IsOwnStep(e) {
      OwnStepIsLast(s, e, now);
      OwnStepChangesLast(p, s, e, now);
    } else if e.Recover? {
      OrderAfterRecover(p, s, e.last, now);
    }
  }

  /** A step of the chain makes a stray if and only if it is a late kill, and then just the one. */
  lemma StrayMadeIff(p: Process, s: State, e: Event, now: int)
    requires Shape(s) && now > s.clock && Enabled(s, e, now) && !e.Insert?
    ensures Strays(Step(p, s, e, now)) <= Strays(s) <==> !IsLateKill(s, e)
    ensures |Strays(Step(p, s, e, now))| <= |Strays(s)| + (if IsLateKill(s, e) then 1 else 0)
  {
    var s' := Step(p, s, e, now);
    var made: set<nat> := if e.WriteBack? && IsLateKill(s, e) then {s.readings[e.k].run} else {};
    forall i | i in Strays(s') ensures i in Strays(s) + made {
      if e.WriteBack? {
        StraysAfterWriteBack(p, s, e.k, now, i);
      } else {
        StraysAfterOther(p, s, e, now, i);
      }
    }
    SubsetSize(Strays(s'), Strays(s) + made);
    if IsLateKill(s, e) {
      var i := s.readings[e.k].run;
      assert IsStray(s', i) && !IsStray(s, i);
      assert i in Strays(s') && i !in Strays(s);
    }
  }

  lemma {:induction false} SubsetSize(a: set<nat>, b: set<nat>)
    requires a <= b
    ensures |a| <= |b|
    decreases b
  {
    if a != {} {
      var x :| x in a;
      SubsetSize(a - {x}, b - {x});
    }
  }

  lemma UnfinishedBesidesStrays(s: State)
    ensures |Unfinished(s)| <= |Strays(s)| + 1
  {
    var last: set<nat> := if s.runs == [] then {} else {|s.runs| - 1};
    SubsetSize(Unfinished(s), Strays(s) + last);
  }

  /** Only runs of the chain; no cancel ahead of time and no successor behind its predecessor. */
  ghost predicate Orderly(p: Process, s: State, events: seq<(Event, int)>)
    decreases |events|
  {
    events == [] ||
    (var (e, now) := events[0];
     !e.Insert? && !CancelsAhead(s, e, now) && !SucceedsBehind(p, s, e, now) && Orderly(p, Step(p, s, e, now), events[1..]))
  }

  ghost function LateKills(p: Process, s: State, events: seq<(Event, int)>): nat
    decreases |events|
  {
    if events == [] then 0
    else
      var (e, now) := events[0];
      (if now > s.clock && IsLateKill(s, e) then 1 else 0) + LateKills(p, Step(p, s, e, now), events[1..])
  }

  lemma StraysAfterStep(p: Process, s: State, e: Event, now: int)
    requires Good(p, s) && !e.Insert?
    ensures |Strays(Step(p, s, e, now))| <= |Strays(s)| + (if now > s.clock && IsLateKill(s, e) then 1 else 0)
  {
    if now > s.clock && Enabled(s, e, now) {
      GoodShape(p, s);
      StrayMadeIff(p, s, e, now);
    }
  }

  lemma {:induction false} AfterKeepsGood(p: Process, s: State, events: seq<(Event, int)>)
    requires Good(p, s) && Orderly(p, s, events)
    ensures Good(p, After(p, s, events))
    ensures |Strays(After(p, s, events))| <= |Strays(s)| + LateKills(p, s, events)
    decreases |events|
  {
    if events != [] {
      var (e, now) := events[0];
      StepKeepsGood(p, s, e, now);
      StraysAfterStep(p, s, e, now);
      AfterKeepsGood(p, Step(p, s, e, now), events[1..]);
    }
  }

  lemma InitialGood(p: Process, clock: int)
    ensures Good(p, Initial(clock)) && Strays(Initial(clock)) == {}
  {
  }

  /** Over every orderly history of the chain, with crashes between any two writes, at most one run is
      unfinished, and one more for each late kill. */
  lemma {:induction false} AtMostOneRun(p: Process, clock: int, events: seq<(Event, int)>)
    requires Orderly(p, Initial(clock), events)
    ensures |Unfinished(After(p, Initial(clock), events))| <= 1 + LateKills(p, Initial(clock), events)
  {
    InitialGood(p, clock);
    AfterKeepsGood(p, Initial(clock), events);
    UnfinishedBesidesStrays(After(p, Initial(clock), events));
  }

  /** A history is orderly of itself when the delay is not negative and no cancel reads a run before it
      is due. */
  ghost predicate CancelsDueOnly(p: Process, s: State, events: seq<(Event, int)>)
    decreases |events|
  {
    events == [] ||
    (var (e, now) := events[0];
     && !e.Insert?
     && (e.ReadToCancel? && e.i < |s.runs| && s.runs[e.i].state == Pending ==> s.runs[e.i].at <= now)
     && CancelsDueOnly(p, Step(p, s, e, now), events[1..]))
  }

  /** Every open reading that will cancel was taken of a run that was due. */
  ghost predicate ReadingsDue(s: State) {
    forall k :: 0 <= k < |s.readings| && s.readings[k].run < |s.runs| && Decision(s.readings[k]) == Some(Cancelled) ==>
      s.runs[s.readings[k].run].at <= s.clock
  }

  lemma StepKeepsDue(p: Process, s: State, e: Event, now: int)
    requires Shape(s) && ReadingsDue(s) && !e.Insert?
    requires e.ReadToCancel? && e.i < |s.runs| && s.runs[e.i].state == Pending ==> s.runs[e.i].at <= now
    ensures ReadingsDue(Step(p, s, e, now))
  {
    if now > s.clock && Enabled(s, e, now) {
      if IsOwnStep(e) {
        OwnStepIsLast(s, e, now);
        OwnStepChangesLast(p, s, e, now);
      } else {
        OtherStepKeepsDue(p, s, e, now);
      }
    }
  }

  lemma OtherStepKeepsDue(p: Process, s: State, e: Event, now: int)
    requires ReadingsDue(s) && ReadingsOk(s) && now > s.clock && Enabled(s, e, now) && !IsOwnStep(e) && !e.Insert?
    requires e.ReadToCancel? && s.runs[e.i].state == Pending ==> s.runs[e.i].at <= now
    requires forall i :: 0 <= i < |s.runs| && s.runs[i].state != Pending ==> s.runs[i].at <= now
    ensures ReadingsDue(Step(p, s, e, now))
  {
  }

  lemma DueStepIsOrderly(p: Process, s: State, e: Event, now: int)
    requires Shape(s) && ReadingsDue(s) && (p.delay.Some? ==> p.delay.value >= 0)
    ensures !CancelsAhead(s, e, now) && !SucceedsBehind(p, s, e, now)
  {
  }

  lemma {:induction false} DueIsOrderly(p: Process, s: State, events: seq<(Event, int)>)
    requires Good(p, s) && ReadingsDue(s) && (p.delay.Some? ==> p.delay.value >= 0)
    requires CancelsDueOnly(p, s, events)
    ensures Orderly(p, s, events)
    decreases |events|
  {
    if events != [] {
      var (e, now) := events[0];
      GoodShape(p, s);
      DueStepIsOrderly(p, s, e, now);
      StepKeepsDue(p, s, e, now);
      StepKeepsGood(p, s, e, now);
      DueIsOrderly(p, Step(p, s, e, now), events[1..]);
    }
  }

  // ---------------------------------------------------------------- histories, step by step

  ghost predicate NoInsert(events: seq<(Event, int)>) {
    forall k :: 0 <= k < |events| ==> !events[k].0.Insert?
  }

  lemma AfterCons(p: Process, s: State, e: Event, now: int, rest: seq<(Event, int)>)
    ensures After(p, s, [(e, now)] + rest) == After(p, Step(p, s, e, now), rest)
  {
    assert ([(e, now)] + rest)[1..] == rest;
  }

  function Three(e: Event, t0: int, f: Event, t1: int, g: Event, t2: int): seq<(Event, int)> {
    [(e, t0)] + ([(f, t1)] + ([(g, t2)] + []))
  }

  lemma AfterThree(p: Process, s: State, e: Event, t0: int, f: Event, t1: int, g: Event, t2: int)
    ensures After(p, s, Three(e, t0, f, t1, g, t2)) == Step(p, Step(p, Step(p, s, e, t0), f, t1), g, t2)
  {
    var s1 := Step(p, s, e, t0);
    var s2 := Step(p, s1, f, t1);
    AfterCons(p, s, e, t0, [(f, t1)] + ([(g, t2)] + []));
    AfterCons(p, s1, f, t1, [(g, t2)] + []);
    AfterCons(p, s2, g, t2, []);
  }
}
