/** How a fixed-delay chain comes to have two unfinished runs: by a broken order and a restart, or by a
    cancel that writes late. */
module ChainForks {
  import opened Domain
  import opened RunLifecycle
  import opened FixedDelayChain

  function Restart(last: nat, crash: int, recover: int, rest: seq<(Event, int)>): seq<(Event, int)> {
    [(Crash, crash)] + ([(Recover(last), recover)] + rest)
  }

  /** A restart after which the run `n` counts as the latest, and it is dead: one more run. */
  lemma RestartAdds(p: Process, s: State, n: nat, crash: int, recover: int, rest: seq<(Event, int)>) returns (s': State)
    requires p.fixedDelay && NoneRunning(s.runs) && n < |s.runs| && IsDead(s.runs[n].state) && s.clock < crash < recover
    ensures After(p, s, Restart(n, crash, recover, rest)) == After(p, s', rest)
    ensures s' == Restarted(s, n, crash, recover)
  {
    var crashed := State(s.runs, map[], [], false, crash);
    AfterCons(p, s, Crash, crash, [(Recover(n), recover)] + rest);
    AfterCons(p, crashed, Recover(n), recover, rest);
    s' := Restarted(s, n, crash, recover);
    assert Step(p, crashed, Recover(n), recover) == s';
  }

  ghost function Restarted(s: State, n: nat, crash: int, recover: int): State {
    if IsLatest(s.runs, n) then State(s.runs + [NewRun(recover)], map[], [], true, recover)
    else State(s.runs, map[], [], false, crash)
  }

  /** The run `n` is the last, the others are dead and were due earlier. */
  ghost predicate OnlyLast(s: State, n: nat) {
    |s.runs| == n + 1 && forall i :: 0 <= i < n ==> IsDead(s.runs[i].state) && s.runs[i].at < s.runs[n].at
  }

  lemma NoStraysOnlyLast(p: Process, s: State, n: nat)
    requires Good(p, s) && Strays(s) == {} && |s.runs| == n + 1
    ensures OnlyLast(s, n)
    ensures IsOwing(s, n) ==> IsDead(s.runs[n].state) && s.threads - {n} == map[] && ContinuesFixedDelayChain(s.threads[n].final)
  {
    GoodShape(p, s);
    NoStraysShape(s, n);
  }

  lemma NoStraysShape(s: State, n: nat)
    requires Shape(s) && Strays(s) == {} && |s.runs| == n + 1
    ensures OnlyLast(s, n)
    ensures IsOwing(s, n) ==> IsDead(s.runs[n].state) && s.threads - {n} == map[] && ContinuesFixedDelayChain(s.threads[n].final)
  {
    forall i: nat | i < n ensures IsDead(s.runs[i].state) {
      assert i !in Strays(s);
    }
    assert n !in Strays(s);
    assert s.threads.Keys <= {n};
  }

  /** With the last run dead and another appended, a restart adds one more if and only if the appended
      run lies no later. */
  lemma {:induction false} RestartForksIff(p: Process, s: State, n: nat, at: int, crash: int, recover: int)
    requires p.fixedDelay && |s.runs| == n + 2 && s.runs[n + 1] == NewRun(at) && s.clock < crash < recover
    requires forall i :: 0 <= i <= n ==> IsDead(s.runs[i].state) && s.runs[i].at <= s.runs[n].at
    ensures |Unfinished(After(p, s, Restart(n, crash, recover, [])))| == if at <= s.runs[n].at then 2 else 1
  {
    var s' := RestartAdds(p, s, n, crash, recover, []);
    assert s.runs[n + 1].at == at;
    assert IsLatest(s.runs, n) <==> at <= s.runs[n].at;
    TwoUnfinished(s.runs, n, recover, crash);
  }

  lemma {:induction false} TwoUnfinished(runs: seq<Run>, n: nat, recover: int, crash: int)
    requires |runs| == n + 2 && runs[n + 1].state == Pending && forall i :: 0 <= i <= n ==> IsDead(runs[i].state)
    ensures |Unfinished(State(runs + [NewRun(recover)], map[], [], true, recover))| == 2
    ensures |Unfinished(State(runs, map[], [], false, crash))| == 1
  {
    assert Unfinished(State(runs + [NewRun(recover)], map[], [], true, recover)) == {n + 1, n + 2};
    assert Unfinished(State(runs, map[], [], false, crash)) == {n + 1};
  }

  /** After a cancel of a run not yet started, two restarts leave two unfinished runs if and only if the
      first one recovers no later than the cancelled run was due. */
  lemma {:induction false} CancelAheadForksIff(p: Process, s: State, k: nat, n: nat, t0: int, t1: int, t2: int, t3: int, t4: int)
    requires Good(p, s) && p.fixedDelay && Strays(s) == {} && s.clock < t0 < t1 < t2 < t3 < t4
    requires |s.runs| == n + 1 && s.runs[n].state == Pending
    requires k < |s.readings| && s.readings[k].run == n && Decision(s.readings[k]) == Some(Cancelled)
    ensures |Unfinished(After(p, s, [(WriteBack(k), t0)] + Restart(n, t1, t2, Restart(n, t3, t4, []))))|
            == if t2 <= s.runs[n].at then 2 else 1
  {
    NoStraysOnlyLast(p, s, n);
    var s' := CancelFirst(p, s, k, n, t0, Restart(n, t1, t2, Restart(n, t3, t4, [])));
    RestartAfterCancel(p, s', n, t1, t2, t3, t4);
  }

  lemma {:induction false} CancelFirst(p: Process, s: State, k: nat, n: nat, t0: int, rest: seq<(Event, int)>) returns (s': State)
    requires OnlyLast(s, n) && s.clock < t0
    requires k < |s.readings| && s.readings[k].run == n && Decision(s.readings[k]) == Some(Cancelled)
    ensures After(p, s, [(WriteBack(k), t0)] + rest) == After(p, s', rest)
    ensures OnlyLast(s', n) && s'.runs[n].state == Cancelled && s'.runs[n].at == s.runs[n].at && s'.clock == t0
  {
    AfterCons(p, s, WriteBack(k), t0, rest);
    s' := Step(p, s, WriteBack(k), t0);
  }

  lemma {:induction false} RestartAfterCancel(p: Process, s: State, n: nat, t1: int, t2: int, t3: int, t4: int)
    requires p.fixedDelay && OnlyLast(s, n) && s.runs[n].state == Cancelled && s.clock < t1 < t2 < t3 < t4
    ensures |Unfinished(After(p, s, Restart(n, t1, t2, Restart(n, t3, t4, []))))| == if t2 <= s.runs[n].at then 2 else 1
  {
    assert IsLatest(s.runs, n);
    var s' := RestartAdds(p, s, n, t1, t2, Restart(n, t3, t4, []));
    RestartForksIff(p, s', n, t2, t3, t4);
  }

  /** When a successor is created, a restart leaves two unfinished runs if and only if the successor lies
      no later than its predecessor. */
  lemma {:induction false} BackwardDelayForksIff(p: Process, s: State, n: nat, t0: int, t1: int, t2: int)
    requires Good(p, s) && p.fixedDelay && p.delay.Some? && Strays(s) == {} && s.clock < t0 < t1 < t2
    requires |s.runs| == n + 1 && IsOwing(s, n)
    ensures |Unfinished(After(p, s, [(Succeed(n), t0)] + Restart(n, t1, t2, [])))|
            == if t0 + p.delay.value <= s.runs[n].at then 2 else 1
  {
    NoStraysOnlyLast(p, s, n);
    SuccessorForksIff(p, s, n, t0, t1, t2);
  }

  lemma {:induction false} SuccessorForksIff(p: Process, s: State, n: nat, t0: int, t1: int, t2: int)
    requires p.fixedDelay && p.delay.Some? && OnlyLast(s, n) && s.clock < t0 < t1 < t2
    requires IsOwing(s, n) && IsDead(s.runs[n].state) && ContinuesFixedDelayChain(s.threads[n].final)
    ensures |Unfinished(After(p, s, [(Succeed(n), t0)] + Restart(n, t1, t2, [])))|
            == if t0 + p.delay.value <= s.runs[n].at then 2 else 1
  {
    var s' := SuccessorFirst(p, s, n, t0, Restart(n, t1, t2, []));
    RestartForksIff(p, s', n, t0 + p.delay.value, t1, t2);
  }

  lemma {:induction false} SuccessorFirst(p: Process, s: State, n: nat, t0: int, rest: seq<(Event, int)>) returns (s': State)
    requires p.fixedDelay && p.delay.Some? && OnlyLast(s, n) && s.clock < t0
    requires IsOwing(s, n) && IsDead(s.runs[n].state) && ContinuesFixedDelayChain(s.threads[n].final)
    ensures After(p, s, [(Succeed(n), t0)] + rest) == After(p, s', rest)
    ensures s'.runs == s.runs + [NewRun(t0 + p.delay.value)] && s'.clock == t0
  {
    AfterCons(p, s, Succeed(n), t0, rest);
    s' := Step(p, s, Succeed(n), t0);
  }

  // ---------------------------------------------------------------- late kills

  /** Whenever a cancel has read the run being executed as running: let the run complete and hand over
      before the cancel writes, and two runs are unfinished. */
  lemma {:induction false} LateKillDoubles(p: Process, s: State, k: nat, n: nat, t0: int, t1: int, t2: int)
    requires Good(p, s) && p.fixedDelay && p.delay.Some? && Strays(s) == {} && s.clock < t0 < t1 < t2
    requires |s.runs| == n + 1 && IsExecuting(s, n) && k < |s.readings| && s.readings[k] == ToCancel(n, Running)
    ensures Unfinished(After(p, s, Three(Finish(n, Success), t0, Succeed(n), t1, WriteBack(k), t2))) == {n, n + 1}
  {
    NoStraysOnlyLast(p, s, n);
    GoodShape(p, s);
    LateKillSteps(p, s, k, n, t0, t1, t2);
  }

  lemma {:induction false} LateKillSteps(p: Process, s: State, k: nat, n: nat, t0: int, t1: int, t2: int)
    requires p.fixedDelay && p.delay.Some? && OnlyLast(s, n) && s.clock < t0 < t1 < t2
    requires IsExecuting(s, n) && s.threads[n].attempt >= 1 && k < |s.readings| && s.readings[k] == ToCancel(n, Running)
    ensures Unfinished(After(p, s, Three(Finish(n, Success), t0, Succeed(n), t1, WriteBack(k), t2))) == {n, n + 1}
  {
    AfterThree(p, s, Finish(n, Success), t0, Succeed(n), t1, WriteBack(k), t2);
    var s1 := Finishes(p, s, n, t0);
    var s2 := HandsOver(p, s1, n, t1);
    LateKillWrites(p, s2, k, n, t2);
  }

  lemma Finishes(p: Process, s: State, n: nat, t: int) returns (s': State)
    requires OnlyLast(s, n) && s.clock < t && IsExecuting(s, n) && s.threads[n].attempt >= 1
    ensures s' == Step(p, s, Finish(n, Success), t)
    ensures OnlyLast(s', n) && IsDead(s'.runs[n].state) && n in s'.threads && s'.threads[n] == Owes(Completed)
    ensures s'.readings == s.readings && s'.clock == t
  {
    s' := Step(p, s, Finish(n, Success), t);
  }

  lemma HandsOver(p: Process, s: State, n: nat, t: int) returns (s': State)
    requires p.fixedDelay && p.delay.Some? && OnlyLast(s, n) && s.clock < t && n in s.threads && s.threads[n] == Owes(Completed)
    ensures s' == Step(p, s, Succeed(n), t)
    ensures s'.runs == s.runs + [NewRun(t + p.delay.value)] && s'.readings == s.readings && s'.clock == t
  {
    s' := Step(p, s, Succeed(n), t);
  }

  lemma LateKillWrites(p: Process, s: State, k: nat, n: nat, t: int)
    requires |s.runs| == n + 2 && s.clock < t && s.runs[n + 1].state == Pending && k < |s.readings| && s.readings[k] == ToCancel(n, Running)
    requires forall i :: 0 <= i < n ==> IsDead(s.runs[i].state)
    ensures Unfinished(Step(p, s, WriteBack(k), t)) == {n, n + 1}
  {
  }

  /** At rest between two runs: the last one waits for its first start, and no handler has read anything. */
  ghost predicate Ready(s: State, n: nat) {
    s.serving && s.threads == map[] && s.readings == [] && |s.runs| == n + 1 && s.runs[n].state == Pending && s.runs[n].attempt == 0
  }

  /** An orderly stretch of history with so many late kills, and where it leads. */
  ghost predicate Leads(p: Process, s: State, events: seq<(Event, int)>, s': State, kills: nat) {
    After(p, s, events) == s' && Orderly(p, s, events) && LateKills(p, s, events) == kills
  }

  lemma {:induction false} LeadsOn(p: Process, s: State, events: seq<(Event, int)>, s1: State, kills: nat, more: seq<(Event, int)>, s2: State, others: nat)
    requires Leads(p, s, events, s1, kills) && Leads(p, s1, more, s2, others)
    ensures Leads(p, s, events + more, s2, kills + others)
    decreases |events|
  {
    if events == [] {
      assert events + more == more;
    } else {
      var (e, now) := events[0];
      assert (events + more)[1..] == events[1..] + more;
      LeadsOn(p, Step(p, s, e, now), events[1..], s1, LateKills(p, Step(p, s, e, now), events[1..]), more, s2, others);
    }
  }

  /** One step that is neither an insert nor out of order. */
  lemma LeadsStep(p: Process, s: State, e: Event, now: int) returns (s': State)
    requires !e.Insert? && !CancelsAhead(s, e, now) && !SucceedsBehind(p, s, e, now)
    ensures s' == Step(p, s, e, now) && Leads(p, s, [(e, now)], s', if now > s.clock && IsLateKill(s, e) then 1 else 0)
  {
    s' := Step(p, s, e, now);
    assert [(e, now)][1..] == [];
  }

  /** The run starts. */
  lemma LinkStarts(p: Process, s: State, n: nat, t: int) returns (events: seq<(Event, int)>, s': State)
    requires Ready(s, n) && s.clock < t && s.runs[n].at <= t
    ensures Leads(p, s, events, s', 0)
    ensures |s'.runs| == n + 1 && s'.runs == s.runs[n := s'.runs[n]] && s'.runs[n].state == Running && s'.runs[n].at == s.runs[n].at
    ensures s'.threads == map[n := Executing(1)] && s'.readings == [] && s'.serving && s'.clock == t + 1
  {
    var s1 := LeadsStep(p, s, Claim(n), t);
    s' := LeadsStep(p, s1, Record(n), t + 1);
    events := [(Claim(n), t)] + [(Record(n), t + 1)];
    LeadsOn(p, s, [(Claim(n), t)], s1, 0, [(Record(n), t + 1)], s', 0);
  }

  /** A cancel reads it, and it completes. */
  lemma LinkEnds(p: Process, s: State, n: nat, t: int) returns (events: seq<(Event, int)>, s': State)
    requires |s.runs| == n + 1 && s.runs[n].state == Running && s.clock < t
    requires s.threads == map[n := Executing(1)] && s.readings == [] && s.serving
    ensures Leads(p, s, events, s', 0)
    ensures |s'.runs| == n + 1 && s'.runs == s.runs[n := s'.runs[n]] && s'.runs[n].state == Completed && s'.runs[n].at == s.runs[n].at
    ensures s'.threads == map[n := Owes(Completed)] && s'.readings == [ToCancel(n, Running)] && s'.serving && s'.clock == t + 1
  {
    var s1 := LeadsStep(p, s, ReadToCancel(n), t);
    s' := LeadsStep(p, s1, Finish(n, Success), t + 1);
    events := [(ReadToCancel(n), t)] + [(Finish(n, Success), t + 1)];
    LeadsOn(p, s, [(ReadToCancel(n), t)], s1, 0, [(Finish(n, Success), t + 1)], s', 0);
  }

  /** It hands over. */
  lemma LinkSucceeds(p: Process, s: State, n: nat, t: int) returns (events: seq<(Event, int)>, s': State)
    requires p.fixedDelay && p.delay.Some? && p.delay.value >= 0 && |s.runs| == n + 1 && s.runs[n].at <= s.clock < t
    requires s.threads == map[n := Owes(Completed)] && s.serving
    ensures Leads(p, s, events, s', 0)
    ensures s'.runs == s.runs + [NewRun(t + p.delay.value)]
    ensures s'.threads == map[] && s'.readings == s.readings && s'.serving && s'.clock == t
  {
    assert map[n := Owes(Completed)] - {n} == map[];
    s' := LeadsStep(p, s, Succeed(n), t);
    events := [(Succeed(n), t)];
  }

  /** Only then the cancel writes: one more run is unfinished. */
  lemma LinkKilled(p: Process, s: State, n: nat, t: int) returns (events: seq<(Event, int)>, s': State)
    requires |s.runs| == n + 2 && s.runs[n].state == Completed && s.clock < t && s.runs[n + 1].state == Pending && s.runs[n + 1].attempt == 0
    requires s.threads == map[] && s.readings == [ToCancel(n, Running)] && s.serving
    ensures Leads(p, s, events, s', 1)
    ensures Ready(s', n + 1) && s'.runs == s.runs[n := s'.runs[n]] && s'.runs[n].state == KillRequested
  {
    s' := LeadsStep(p, s, WriteBack(0), t);
    events := [(WriteBack(0), t)];
  }

  lemma UnfinishedAfterLink(s: State, s': State, n: nat)
    requires |s.runs| == n + 1 && |s'.runs| == n + 2 && !IsDead(s.runs[n].state) && !IsDead(s'.runs[n].state) && !IsDead(s'.runs[n + 1].state)
    requires forall i :: 0 <= i < n ==> s'.runs[i] == s.runs[i]
    ensures |Unfinished(s')| == |Unfinished(s)| + 1
  {
    assert Unfinished(s') == Unfinished(s) + {n + 1};
  }

  /** One link of the chain with a late kill. */
  lemma {:induction false} LinkDoubles(p: Process, s: State, n: nat) returns (events: seq<(Event, int)>, s': State)
    requires p.fixedDelay && p.delay.Some? && p.delay.value >= 0 && Ready(s, n)
    ensures Leads(p, s, events, s', 1) && Ready(s', n + 1) && |Unfinished(s')| == |Unfinished(s)| + 1
  {
    var t := Max(s.clock + 1, s.runs[n].at);
    var e1, s1 := LinkStarts(p, s, n, t);
    var e2, s2 := LinkEnds(p, s1, n, t + 2);
    var e3, s3 := LinkSucceeds(p, s2, n, t + 4);
    var e4, s4 := LinkKilled(p, s3, n, t + 5);
    LeadsOn(p, s2, e3, s3, 0, e4, s4, 1);
    LeadsOn(p, s1, e2, s2, 0, e3 + e4, s4, 1);
    LeadsOn(p, s, e1, s1, 0, e2 + (e3 + e4), s4, 1);
    UnfinishedAfterLink(s, s4, n);
    events, s' := e1 + (e2 + (e3 + e4)), s4;
  }

  lemma {:induction false} LinksReached(p: Process, s: State, n: nat, count: nat) returns (events: seq<(Event, int)>, s': State)
    requires p.fixedDelay && p.delay.Some? && p.delay.value >= 0 && Ready(s, n)
    ensures Leads(p, s, events, s', count) && |Unfinished(s')| == |Unfinished(s)| + count
    decreases count
  {
    if count == 0 {
      events, s' := [], s;
    } else {
      var link, s1 := LinkDoubles(p, s, n);
      var rest, s2 := LinksReached(p, s1, n + 1, count - 1);
      LeadsOn(p, s, link, s1, 1, rest, s2, count - 1);
      events, s' := link + rest, s2;
    }
  }

  /** The bound on unfinished runs is tight: for every number of late kills, an orderly history of a chain
      with any non-negative delay has that many and leaves one unfinished run more. */
  lemma {:induction false} LateKillsReached(p: Process, clock: int, count: nat) returns (events: seq<(Event, int)>)
    requires p.fixedDelay && p.delay.Some? && p.delay.value >= 0
    ensures Orderly(p, Initial(clock), events) && LateKills(p, Initial(clock), events) == count
    ensures |Unfinished(After(p, Initial(clock), events))| == count + 1
  {
    var s := LeadsStep(p, Initial(clock), Recover(0), clock + 1);
    assert Ready(s, 0) && Unfinished(s) == {0};
    var rest, s' := LinksReached(p, s, 0, count);
    LeadsOn(p, Initial(clock), [(Recover(0), clock + 1)], s, 0, rest, s', count);
    events := [(Recover(0), clock + 1)] + rest;
  }
}
