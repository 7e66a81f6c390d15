/** Choosing a worker for a task, and what the count behind the choice does not see
    (internal/worker/dispatcher.go). */
module WorkerDispatch {
  import opened Domain
  import opened WorkerLoad

  /** Label documents, as JSON decoding tells them apart. */
  datatype Labels =
    | Absent                                  // no document at all
    | Null
    | Names(names: set<string>)
    | Pairs(pairs: map<string, string>)       // values by their canonical text
    | Unusable                                // anything else

  datatype Worker = Worker(labels: Labels, maxConcurrency: int, available: bool)

  /** `matchesWorkerLabels`: a list is required name by name, an object pair by pair, and the worker's
      own document must be of the same kind (`null` decodes as an empty one of either). */
  predicate MatchesLabels(worker: Labels, required: Labels) {
    match required
    case Absent => true
    case Null => true
    case Names(names) => (worker.Names? && names <= worker.names) || (worker.Null? && names == {})
    case Pairs(pairs) =>
      || (worker.Pairs? && forall key :: key in pairs ==> key in worker.pairs && worker.pairs[key] == pairs[key])
      || (worker.Null? && pairs == map[])
    case Unusable => false
  }

  /** Required names must all be among the worker's, required pairs all be the worker's with the same value;
      nothing is required by no document or `null`, and a document of another kind never fits, unless the
      worker's is `null` and the required one empty. */
  lemma LabelsMatchIff(worker: Labels, required: Labels)
    ensures required.Absent? || required.Null? ==> MatchesLabels(worker, required)
    ensures required.Unusable? ==> !MatchesLabels(worker, required)
    ensures required.Names? ==>
              (MatchesLabels(worker, required) <==>
                if worker.Null? then required.names == {}
                else worker.Names? && forall name :: name in required.names ==> name in worker.names)
    ensures required.Pairs? ==>
              (MatchesLabels(worker, required) <==>
                if worker.Null? then required.pairs == map[]
                else worker.Pairs? && forall key :: key in required.pairs ==> key in worker.pairs && worker.pairs[key] == required.pairs[key])
  {
  }

  function Limits(table: map<nat, Worker>): map<nat, int> {
    map w | w in table :: table[w].maxConcurrency
  }

  /** Compatible, and counted below its limit. */
  predicate Eligible(p: Pool, table: map<nat, Worker>, required: Labels, w: nat) {
    w in table && MatchesLabels(table[w].labels, required) && HasCapacity(p, Limits(table), w)
  }

  /** The first of the least loaded eligible workers of the list. */
  ghost predicate IsLeastLoaded(p: Pool, table: map<nat, Worker>, required: Labels, online: seq<nat>, k: nat) {
    && k < |online| && Eligible(p, table, required, online[k])
    && (forall i :: 0 <= i < |online| && Eligible(p, table, required, online[i]) ==>
         && |Active(p, online[k])| <= |Active(p, online[i])|
         && (i < k ==> |Active(p, online[k])| < |Active(p, online[i])|))
  }

  class Dispatcher {
    const table: map<nat, Worker>
    var rows: map<Task, TaskRow>
    var channels: map<nat, seq<Task>>
    var executing: set<Assignment>

    function Now(): Pool
      reads this
    {
      Pool(rows, channels, map[], map[], executing)
    }

    constructor (table: map<nat, Worker>)
      ensures this.table == table && IsNew(Now())
    {
      this.table := table;
      rows, channels, executing := map[], map[], {};
    }

    /** `selectWorker`. */
    method SelectWorker(online: seq<nat>, required: Labels) returns (selected: Option<nat>)
      requires forall i :: 0 <= i < |online| ==> online[i] in table
      ensures selected.None? <==>
                forall i :: 0 <= i < |online| ==>
                  !MatchesLabels(table[online[i]].labels, required) || |Active(Now(), online[i])| >= table[online[i]].maxConcurrency
      ensures selected.Some? ==>
                exists k :: 0 <= k < |online| && selected == Some(online[k])
                  && MatchesLabels(table[online[k]].labels, required) && |Active(Now(), online[k])| < table[online[k]].maxConcurrency
                  && forall i :: 0 <= i < |online| && MatchesLabels(table[online[i]].labels, required)
                                 && |Active(Now(), online[i])| < table[online[i]].maxConcurrency ==>
                       if i < k then |Active(Now(), online[k])| < |Active(Now(), online[i])| else |Active(Now(), online[k])| <= |Active(Now(), online[i])|
      ensures selected.Some? ==> exists k: nat :: IsLeastLoaded(Now(), table, required, online, k) && selected == Some(online[k])
    {
      selected := None;
      var bestLoad := 0;
      ghost var best := 0;
      for i := 0 to |online|
        invariant selected.None? ==> forall j :: 0 <= j < i ==> !Eligible(Now(), table, required, online[j])
        invariant selected.Some? ==> best < i && selected == Some(online[best]) && bestLoad == |Active(Now(), online[best])|
        invariant selected.Some? ==> IsLeastLoaded(Now(), table, required, online[..i], best)
      {
        var w := online[i];
        assert online[..i + 1][..i] == online[..i];
        if MatchesLabels(table[w].labels, required) {
          var load := |Active(Now(), w)|;
          if load < table[w].maxConcurrency && (selected.None? || load < bestLoad) {
            selected, bestLoad := Some(w), load;
            best := i;
          }
        }
      }
      assert online[..|online|] == online;
    }

    /** `Dispatch`: the worker asked for, or else the one selected, gets the task if it is below its limit
        and its channel has a free slot. */
    method Dispatch(task: Task, wanted: Option<nat>, online: seq<nat>, required: Labels) returns (taken: Option<nat>)
      requires forall i :: 0 <= i < |online| ==> online[i] in table
      modifies this`channels
      ensures taken.Some? ==>
                && Now() == Step(old(Now()), Limits(table), WorkerLoad.Dispatch(task, taken.value))
                && Channel(Now(), taken.value) == Channel(old(Now()), taken.value) + [task]
                && |Channel(old(Now()), taken.value)| < 10
                && |Active(old(Now()), taken.value)| < table[taken.value].maxConcurrency
                && (wanted.Some? ==> taken == wanted && table[taken.value].available)
                && (wanted.None? ==> exists k: nat :: IsLeastLoaded(old(Now()), table, required, online, k) && taken == Some(online[k]))
      ensures taken.None? ==>
                && Now() == old(Now())
                && (wanted.Some? ==> wanted.value !in table || !table[wanted.value].available
                                     || |Active(Now(), wanted.value)| >= table[wanted.value].maxConcurrency || |Channel(Now(), wanted.value)| >= 10)
                && (wanted.None? ==> forall k: nat :: IsLeastLoaded(Now(), table, required, online, k) ==> |Channel(Now(), online[k])| >= 10)
    {
      var selected: nat;
      match wanted {
        case Some(w) =>
          if w !in table || !table[w].available {
            return None;
          }
          selected := w;
        case None =>
          var choice := SelectWorker(online, required);
          if choice.None? {
            assert forall k: nat :: !IsLeastLoaded(Now(), table, required, online, k);
            return None;
          }
          selected := choice.value;
      }
      if |Active(Now(), selected)| >= table[selected].maxConcurrency {
        return None;
      }
      var waiting := Channel(Now(), selected);
      if |waiting| >= ChannelSlots {
        return None;
      }
      channels := channels[selected := waiting + [task]];
      taken := Some(selected);
    }

    /** `PollTask` and the row write of `WorkerPoll`. */
    method Poll(w: nat) returns (task: Option<Task>)
      modifies this
      ensures task == if Channel(old(Now()), w) == [] then None else Some(Channel(old(Now()), w)[0])
      ensures Now() == Step(old(Now()), Limits(table), WorkerLoad.Poll(w))
      ensures task.Some? ==>
                && Channel(Now(), w) == Channel(old(Now()), w)[1..]
                && rows == old(rows)[task.value := TaskRow(Running, Some(w))]
                && executing == old(executing) + {Assignment(task.value, w)}
      ensures task.None? ==> Now() == old(Now())
    {
      var waiting := Channel(Now(), w);
      if waiting == [] {
        return None;
      }
      channels := channels[w := waiting[1..]];
      rows := rows[waiting[0] := TaskRow(Running, Some(w))];
      executing := executing + {Assignment(waiting[0], w)};
      task := Some(waiting[0]);
    }
  }

  // ---------------------------------------------------------------- what the count does not see

  predicate IsCounted(p: Pool, a: Assignment) {
    a.task in p.rows && IsActive(p.rows[a.task], a.worker)
  }

  /** What workers execute without being counted for it. */
  function Uncounted(p: Pool): set<Assignment> {
    set a | a in p.executing && !IsCounted(p, a)
  }

  /** Some worker executes the task and is counted for it; there can be no second one. */
  predicate HasCounted(p: Pool, t: Task) {
    t in p.rows && p.rows[t].worker.Some? && Assignment(t, p.rows[t].worker.value) in p.executing && IsActive(p.rows[t], p.rows[t].worker.value)
  }

  /** The steps that take a task in execution out of the count: a cancel of a job, or of a waiting state
      that was overtaken; any other rewrite of its row; and a poll or a report of the task by a worker
      other than the one it is counted for. */
  predicate Uncounts(p: Pool, limits: map<nat, int>, e: Event) {
    && Enabled(p, limits, e)
    && match e
       case WriteCancel(h) =>
         var c := p.cancels[h];
         HasCounted(p, c.task) && CancelWrite(c.seen).Some? && !(c.task.RunTask? && c.seen == Running)
       case Rewrite(t, row) => HasCounted(p, t)
       case Poll(w) => HasCounted(p, Channel(p, w)[0]) && p.rows[Channel(p, w)[0]].worker != Some(w)
       case Report(t, w, to) => HasCounted(p, t) && p.rows[t].worker != Some(w)
       case _ => false
  }

  /** The task whose count a step touches. */
  function Touched(p: Pool, limits: map<nat, int>, e: Event): Option<Task> {
    if !Enabled(p, limits, e) then None
    else match e
      case WriteCancel(h) => Some(p.cancels[h].task)
      case Rewrite(t, row) => Some(t)
      case Poll(w) => Some(Channel(p, w)[0])
      case Report(t, w, to) => Some(t)
      case _ => None
  }

  lemma {:induction false} NewlyUncounted(p: Pool, limits: map<nat, int>, e: Event, a: Assignment)
    requires a in Uncounted(Step(p, limits, e)) && a !in Uncounted(p)
    ensures Uncounts(p, limits, e) && Some(a.task) == Touched(p, limits, e) && Some(a.worker) == p.rows[a.task].worker
  {
  }

  lemma {:induction false} UncountedAppears(p: Pool, limits: map<nat, int>, e: Event)
    requires Uncounts(p, limits, e)
    ensures var t := Touched(p, limits, e).value; var a := Assignment(t, p.rows[t].worker.value);
            a in Uncounted(Step(p, limits, e)) && a !in Uncounted(p)
  {
  }

  /** A step takes something out of the count if and only if it is one of these, and then one execution. */
  lemma {:induction false} UncountedGrowsIff(p: Pool, limits: map<nat, int>, e: Event)
    ensures Uncounted(Step(p, limits, e)) <= Uncounted(p) <==> !Uncounts(p, limits, e)
    ensures |Uncounted(Step(p, limits, e))| <= |Uncounted(p)| + (if Uncounts(p, limits, e) then 1 else 0)
  {
    var after := Uncounted(Step(p, limits, e));
    if Uncounts(p, limits, e) {
      UncountedAppears(p, limits, e);
      var t := Touched(p, limits, e).value;
      var a := Assignment(t, p.rows[t].worker.value);
      forall b | b in after ensures b in Uncounted(p) + {a} {
        if b !in Uncounted(p) {
          NewlyUncounted(p, limits, e, b);
        }
      }
      SubsetSize(after, Uncounted(p) + {a});
    } else {
      forall b | b in after ensures b in Uncounted(p) {
        if b !in Uncounted(p) {
          NewlyUncounted(p, limits, e, b);
        }
      }
      SubsetSize(after, Uncounted(p));
    }
  }

  lemma {:induction false} SubsetSize(a: set<Assignment>, b: set<Assignment>)
    requires a <= b
    ensures |a| <= |b|
  {
    if a != {} {
      var x :| x in a;
      SubsetSize(a - {x}, b - {x});
    }
  }

  function Uncountings(p: Pool, limits: map<nat, int>, events: seq<Event>): nat
    decreases |events|
  {
    if events == [] then 0
    else (if Uncounts(p, limits, events[0]) then 1 else 0) + Uncountings(Step(p, limits, events[0]), limits, events[1..])
  }

  lemma {:induction false} UncountedBounded(p: Pool, limits: map<nat, int>, events: seq<Event>)
    ensures |Uncounted(After(p, limits, events))| <= |Uncounted(p)| + Uncountings(p, limits, events)
    decreases |events|
  {
    if events != [] {
      UncountedGrowsIff(p, limits, events[0]);
      UncountedBounded(Step(p, limits, events[0]), limits, events[1..]);
    }
  }

  lemma {:induction false} CountedWithinActive(executing: set<Assignment>, active: set<Task>, w: nat)
    requires forall a :: a in executing ==> a.worker == w && a.task in active
    ensures |executing| <= |active|
  {
    if executing != {} {
      var a :| a in executing;
      CountedWithinActive(executing - {a}, active - {a.task}, w);
    }
  }

  /** What a worker really executes stays within the bound, and one more for each late kill and for each
      step that took an execution out of the count. */
  lemma {:induction false} ExecutingBounded(start: Pool, limits: map<nat, int>, events: seq<Event>, w: nat, bound: nat)
    requires IsNew(start) && InFlightAtMost(start, limits, events, w, bound)
    ensures |ExecutingOn(After(start, limits, events), w)|
            <= Bound(limits, w, bound) + LateKills(start, limits, events, w) + Uncountings(start, limits, events)
  {
    var p := After(start, limits, events);
    assert Uncounted(start) == {};
    WorkerLoadBound(start, limits, events, w, bound);
    UncountedBounded(start, limits, events);
    var counted := ExecutingOn(p, w) - Uncounted(p);
    CountedWithinActive(counted, Active(p, w), w);
    SubsetSize(ExecutingOn(p, w) - counted, Uncounted(p));
    assert ExecutingOn(p, w) == counted + (ExecutingOn(p, w) - counted);
  }

  // ---------------------------------------------------------------- no bound with cancellations

  /** `n` jobs were each dispatched to `w`, polled, and asked to be killed. */
  ghost predicate Cancelled(p: Pool, w: nat, n: nat) {
    && (forall t :: t in p.rows <==> t.JobTask? && t.id < n)
    && (forall t :: t in p.rows ==> p.rows[t] == TaskRow(KillRequested, None))
    && Channel(p, w) == [] && p.inFlight == map[] && p.cancels == map[]
    && (forall a :: a in p.executing <==> a.worker == w && a.task.JobTask? && a.task.id < n)
  }

  /** From one such position to the next: dispatch, poll, and a cancel that reads and writes. */
  lemma {:induction false} DispatchPolled(p: Pool, limits: map<nat, int>, w: nat, n: nat)
    requires w in limits && limits[w] >= 1 && Cancelled(p, w, n)
    ensures var p1 := Step(p, limits, Event.Dispatch(JobTask(n), w));
            var p2 := Step(p1, limits, Poll(w));
            && InFlightTo(p, w) == InFlightTo(p1, w) == InFlightTo(p2, w) == {}
            && Channel(p2, w) == [] && p2.inFlight == map[] && p2.cancels == map[]
            && p2.rows == p.rows[JobTask(n) := TaskRow(Running, Some(w))]
            && p2.executing == p.executing + {Assignment(JobTask(n), w)}
  {
    assert Active(p, w) == {};
  }

  lemma {:induction false} PolledCancelled(p: Pool, before: Pool, limits: map<nat, int>, w: nat, n: nat)
    requires Cancelled(before, w, n) && Channel(p, w) == [] && p.inFlight == map[] && p.cancels == map[]
    requires p.rows == before.rows[JobTask(n) := TaskRow(Running, Some(w))]
    requires p.executing == before.executing + {Assignment(JobTask(n), w)}
    ensures var p1 := Step(p, limits, ReadCancel(0, JobTask(n)));
            var p2 := Step(p1, limits, WriteCancel(0));
            InFlightTo(p1, w) == InFlightTo(p2, w) == {} && Cancelled(p2, w, n + 1)
  {
    var p1 := Step(p, limits, ReadCancel(0, JobTask(n)));
    assert p1.cancels == map[0 := Cancel(JobTask(n), Running)];
    assert p1.cancels - {0} == map[];
  }

  lemma {:induction false} OneMoreCancelled(start: Pool, limits: map<nat, int>, w: nat, n: nat, events: seq<Event>)
    returns (more: seq<Event>)
    requires w in limits && limits[w] >= 1
    requires InFlightAtMost(start, limits, events, w, 0) && Cancelled(After(start, limits, events), w, n)
    ensures InFlightAtMost(start, limits, more, w, 0) && Cancelled(After(start, limits, more), w, n + 1)
  {
    var p := After(start, limits, events);
    DispatchPolled(p, limits, w, n);
    var p2 := Step(Step(p, limits, Event.Dispatch(JobTask(n), w)), limits, Poll(w));
    PolledCancelled(p2, p, limits, w, n);
    var e1 := events + [Event.Dispatch(JobTask(n), w)];
    var e2 := e1 + [Poll(w)];
    var e3 := e2 + [ReadCancel(0, JobTask(n))];
    AfterExtended(start, limits, events, Event.Dispatch(JobTask(n), w), w, 0);
    AfterExtended(start, limits, e1, Poll(w), w, 0);
    AfterExtended(start, limits, e2, ReadCancel(0, JobTask(n)), w, 0);
    AfterExtended(start, limits, e3, WriteCancel(0), w, 0);
    more := e3 + [WriteCancel(0)];
  }

  lemma {:induction false} CancelledAgain(start: Pool, limits: map<nat, int>, w: nat, n: nat) returns (events: seq<Event>)
    requires IsNew(start) && w in limits && limits[w] >= 1
    ensures InFlightAtMost(start, limits, events, w, 0) && Cancelled(After(start, limits, events), w, n)
    decreases n
  {
    if n == 0 {
      assert InFlightTo(start, w) == {};
      events := [];
    } else {
      events := CancelledAgain(start, limits, w, n - 1);
      events := OneMoreCancelled(start, limits, w, n - 1, events);
    }
  }

  ghost function Tasks(w: nat, n: nat): (s: set<Assignment>)
    ensures |s| == n && forall a :: a in s <==> a.worker == w && a.task.JobTask? && a.task.id < n
  {
    if n == 0 then {} else Tasks(w, n - 1) + {Assignment(JobTask(n - 1), w)}
  }

  /** Cancelling a running job takes its name off the worker while the worker still executes it, so with
      cancellations there is no bound at all, even with dispatches one at a time. */
  lemma {:induction false} CancellationUncounts(start: Pool, limits: map<nat, int>, w: nat, n: nat) returns (events: seq<Event>)
    requires IsNew(start) && w in limits && limits[w] >= 1
    ensures InFlightAtMost(start, limits, events, w, 0)
    ensures var p := After(start, limits, events);
            |ExecutingOn(p, w)| == n && Active(p, w) == {}
  {
    events := CancelledAgain(start, limits, w, n);
    var p := After(start, limits, events);
    assert ExecutingOn(p, w) == Tasks(w, n);
    assert Active(p, w) == {};
  }
}
