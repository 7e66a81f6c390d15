/** Load of the workers (internal/worker/dispatcher.go, WorkerPoll): a dispatch counts the active tasks of
    the worker, and then puts the task into the worker's ten-slot channel, where nobody counts it. */
module WorkerLoad {
  import opened Domain

  const ChannelSlots := 10

  datatype Task = RunTask(id: nat) | JobTask(id: nat)

  /** A run or job row, as far as the count looks at it. */
  datatype TaskRow = TaskRow(state: RunState, worker: Option<nat>)

  datatype Assignment = Assignment(task: Task, worker: nat)

  /** A cancel handler that has read a row and not yet acted on it. */
  datatype Cancel = Cancel(task: Task, seen: RunState)

  /** `inFlight`: dispatches that passed the capacity check and have not reached the channel.
      `executing`: what the worker processes really have in hand. */
  datatype Pool = Pool(rows: map<Task, TaskRow>, channels: map<nat, seq<Task>>, inFlight: map<nat, Assignment>,
                       cancels: map<nat, Cancel>, executing: set<Assignment>)

  datatype Event =
    | Check(dispatch: nat, task: Task, worker: nat)  // the worker is below its limit
    | Push(dispatch: nat)                            // the task enters the channel, unless it is full
    | Abandon(dispatch: nat)
    | Dispatch(task: Task, worker: nat)              // both halves at once
    | Poll(worker: nat)
    | Report(task: Task, worker: nat, to: RunState)  // the worker returns the result
    | ReadCancel(handler: nat, task: Task)
    | WriteCancel(handler: nat)                      // whatever the row holds by now
    | Rewrite(task: Task, row: TaskRow)              // any other write: enqueue, retry, hung, waiting
    | Restart                                        // channels, dispatches and handlers live in memory only

  predicate IsActive(r: TaskRow, w: nat) {
    r.worker == Some(w) && (r.state == Running || r.state == KillRequested)
  }

  function Active(p: Pool, w: nat): set<Task> {
    set t | t in p.rows && IsActive(p.rows[t], w)
  }

  function Channel(p: Pool, w: nat): seq<Task> {
    if w in p.channels then p.channels[w] else []
  }

  function InFlightTo(p: Pool, w: nat): set<nat> {
    set d | d in p.inFlight && p.inFlight[d].worker == w
  }

  function ExecutingOn(p: Pool, w: nat): set<Assignment> {
    set a | a in p.executing && a.worker == w
  }

  function PushTask(p: Pool, t: Task, w: nat): Pool {
    if |Channel(p, w)| < ChannelSlots then p.(channels := p.channels[w := Channel(p, w) + [t]]) else p
  }

  /** A state write to a row.  `UpdateRunState` keeps a run's worker; `UpdateJobState` clears a job's. */
  function Written(p: Pool, t: Task, to: RunState): TaskRow
    requires t in p.rows
  {
    TaskRow(to, if t.RunTask? then p.rows[t].worker else None)
  }

  /** What a cancel writes.  A waiting job is cancelled by a statement of its own that keeps the worker,
      but such a row is not counted anyway. */
  function CancelRow(p: Pool, c: Cancel): Option<TaskRow>
    requires c.task in p.rows
  {
    match CancelWrite(c.seen)
    case Some(to) => Some(Written(p, c.task, to))
    case None => None
  }

  /** `countActiveByWorker` below `max_concurrency`. */
  predicate HasCapacity(p: Pool, limits: map<nat, int>, w: nat) {
    w in limits && |Active(p, w)| < limits[w]
  }

  predicate Enabled(p: Pool, limits: map<nat, int>, e: Event) {
    match e
    case Check(d, t, w) => HasCapacity(p, limits, w) && d !in p.inFlight
    case Push(d) => d in p.inFlight
    case Abandon(d) => d in p.inFlight
    case Dispatch(t, w) => HasCapacity(p, limits, w)
    case Poll(w) => Channel(p, w) != []
    case Report(t, w, to) => Assignment(t, w) in p.executing && t in p.rows && to != Running && to != KillRequested
    case ReadCancel(h, t) => t in p.rows && h !in p.cancels
    case WriteCancel(h) => h in p.cancels && p.cancels[h].task in p.rows
    case Rewrite(t, row) => row.state != Running && row.state != KillRequested
    case Restart => true
  }

  function Step(p: Pool, limits: map<nat, int>, e: Event): Pool {
    if !Enabled(p, limits, e) then p
    else match e
      case Check(d, t, w) => p.(inFlight := p.inFlight[d := Assignment(t, w)])
      case Push(d) => PushTask(p, p.inFlight[d].task, p.inFlight[d].worker).(inFlight := p.inFlight - {d})
      case Abandon(d) => p.(inFlight := p.inFlight - {d})
      case Dispatch(t, w) => PushTask(p, t, w)
      case Poll(w) =>
        var t := Channel(p, w)[0];
        p.(rows := p.rows[t := TaskRow(Running, Some(w))], channels := p.channels[w := Channel(p, w)[1..]],
           executing := p.executing + {Assignment(t, w)})
      case Report(t, w, to) =>
        p.(rows := p.rows[t := Written(p, t, to)], executing := p.executing - {Assignment(t, w)})
      case ReadCancel(h, t) => p.(cancels := p.cancels[h := Cancel(t, p.rows[t].state)])
      case WriteCancel(h) =>
        var rest := p.(cancels := p.cancels - {h});
        var row := CancelRow(p, p.cancels[h]);
        if row.Some? then rest.(rows := p.rows[p.cancels[h].task := row.value]) else rest
      case Rewrite(t, row) => p.(rows := p.rows[t := row])
      case Restart => p.(channels := map[], inFlight := map[], cancels := map[])
  }

  function After(p: Pool, limits: map<nat, int>, events: seq<Event>): Pool
    decreases |events|
  {
    if events == [] then p else After(Step(p, limits, events[0]), limits, events[1..])
  }

  /** Never more than `bound` split dispatches to worker `w` under way. */
  predicate InFlightAtMost(p: Pool, limits: map<nat, int>, events: seq<Event>, w: nat, bound: nat)
    decreases |events|
  {
    && |InFlightTo(p, w)| <= bound
    && (events == [] || InFlightAtMost(Step(p, limits, events[0]), limits, events[1..], w, bound))
  }

  predicate IsNew(p: Pool) {
    p.rows == map[] && p.channels == map[] && p.inFlight == map[] && p.cancels == map[] && p.executing == {}
  }

  // ---------------------------------------------------------------- what steps leave behind

  /** A worker comes to execute a task by polling it, and ceases to by reporting it, and in no other way. */
  lemma ExecutingIff(p: Pool, limits: map<nat, int>, e: Event, a: Assignment)
    ensures a in Step(p, limits, e).executing <==>
              || (e.Poll? && e.worker == a.worker && Channel(p, e.worker) != [] && Channel(p, e.worker)[0] == a.task)
              || (a in p.executing && !(e.Report? && Assignment(e.task, e.worker) == a && a.task in p.rows && e.to !in {Running, KillRequested}))
  {
  }

  /** A row changes only through a poll of its task, a report, a cancel of what a handler read of it, or some
      other write.  A poll makes it running under the worker; a report and a cancel keep a run's worker and
      clear a job's. */
  lemma RowAfter(p: Pool, limits: map<nat, int>, e: Event, t: Task)
    requires t in p.rows
    ensures t in Step(p, limits, e).rows
    ensures var row, after := p.rows[t], Step(p, limits, e).rows[t];
            var kept := if t.RunTask? then row.worker else None;
            match e
            case Poll(w) => after == if Channel(p, w) != [] && Channel(p, w)[0] == t then TaskRow(Running, Some(w)) else row
            case Report(u, w, to) =>
              after == if u == t && Assignment(t, w) in p.executing && to !in {Running, KillRequested} then TaskRow(to, kept) else row
            case WriteCancel(h) =>
              if h in p.cancels && p.cancels[h].task == t && p.cancels[h].seen in {Pending, Queued, WaitingForWorker, Paused, Retrying}
              then after == TaskRow(Cancelled, kept)
              else if h in p.cancels && p.cancels[h].task == t && p.cancels[h].seen == Running then after == TaskRow(KillRequested, kept)
              else after == row
            case Rewrite(u, written) => after == if u == t && written.state !in {Running, KillRequested} then written else row
            case _ => after == row
  {
  }

  /** A dispatch that passed its check stays under way until it reaches the channel, is given up, or a restart
      wipes it out; a cancel that read a row, until it writes or a restart. */
  lemma UnderWayIff(p: Pool, limits: map<nat, int>, e: Event, k: nat)
    ensures k in Step(p, limits, e).inFlight <==>
              || (e.Check? && e.dispatch == k && k !in p.inFlight && e.worker in limits && |Active(p, e.worker)| < limits[e.worker])
              || (k in p.inFlight && !e.Restart? && e != Push(k) && e != Abandon(k))
    ensures k in Step(p, limits, e).cancels <==>
              || (e.ReadCancel? && e.handler == k && e.task in p.rows)
              || (k in p.cancels && !e.Restart? && !(e == WriteCancel(k) && p.cancels[k].task in p.rows))
    ensures k in p.cancels && k in Step(p, limits, e).cancels ==> Step(p, limits, e).cancels[k] == p.cancels[k]
  {
  }

  /** A channel takes tasks at its end, up to ten, gives the first to a poll, and is emptied by a restart. */
  lemma ChannelAfter(p: Pool, limits: map<nat, int>, e: Event, w: nat)
    ensures var before, after := Channel(p, w), Channel(Step(p, limits, e), w);
            match e
            case Push(d) => after == before + if d in p.inFlight && p.inFlight[d].worker == w && |before| < 10 then [p.inFlight[d].task] else []
            case Dispatch(t, v) => after == before + if v == w && w in limits && |Active(p, w)| < limits[w] && |before| < 10 then [t] else []
            case Poll(v) => after == if v == w && before != [] then before[1..] else before
            case Restart => after == []
            case _ => after == before
  {
  }

  // ---------------------------------------------------------------- the bound

  function Load(p: Pool, w: nat): nat {
    |Active(p, w)| + |Channel(p, w)| + |InFlightTo(p, w)|
  }

  /** A cancel that read a run as running writes kill_requested when the run is no longer counted: the row
      still names its worker, and is counted again. */
  predicate IsLateKill(p: Pool, e: Event, w: nat) {
    && e.WriteCancel? && e.handler in p.cancels
    && var c := p.cancels[e.handler];
       && c.task in p.rows && c.task.RunTask? && c.seen == Running
       && p.rows[c.task].worker == Some(w) && !IsActive(p.rows[c.task], w)
  }

  lemma ActiveAfterWrite(p: Pool, w: nat, t: Task, row: TaskRow)
    ensures var after := |Active(p.(rows := p.rows[t := row]), w)|;
            if !IsActive(row, w) then after <= |Active(p, w)|
            else if t in p.rows && IsActive(p.rows[t], w) then after == |Active(p, w)|
            else after == |Active(p, w)| + 1
  {
    var before, after := Active(p, w), Active(p.(rows := p.rows[t := row]), w);
    if IsActive(row, w) {
      assert after == before + {t};
    } else {
      assert after == before - {t};
    }
  }

  lemma InFlightAfterWrite(p: Pool, w: nat, d: nat, a: Assignment)
    requires d !in p.inFlight
    ensures |InFlightTo(p.(inFlight := p.inFlight[d := a]), w)| == |InFlightTo(p, w)| + (if a.worker == w then 1 else 0)
  {
    var before, after := InFlightTo(p, w), InFlightTo(p.(inFlight := p.inFlight[d := a]), w);
    assert after == if a.worker == w then before + {d} else before;
  }

  lemma InFlightAfterRemoval(p: Pool, w: nat, d: nat)
    requires d in p.inFlight
    ensures |InFlightTo(p.(inFlight := p.inFlight - {d}), w)| == |InFlightTo(p, w)| - (if p.inFlight[d].worker == w then 1 else 0)
  {
    var before, after := InFlightTo(p, w), InFlightTo(p.(inFlight := p.inFlight - {d}), w);
    assert after == before - {d};
  }

  predicate ChannelsFit(p: Pool) {
    forall w :: w in p.channels ==> |p.channels[w]| <= ChannelSlots
  }

  lemma CancelLoad(p: Pool, limits: map<nat, int>, h: nat, w: nat)
    requires Enabled(p, limits, WriteCancel(h))
    ensures var after := Load(Step(p, limits, WriteCancel(h)), w);
            if IsLateKill(p, WriteCancel(h), w) then after == Load(p, w) + 1 else after <= Load(p, w)
  {
    var c := p.cancels[h];
    if CancelRow(p, c).Some? {
      ActiveAfterWrite(p, w, c.task, CancelRow(p, c).value);
    }
  }

  /** The load grows in two places only: where the worker was seen below its limit, and by a late kill. */
  lemma LoadGrowsOnlyByChecks(p: Pool, limits: map<nat, int>, e: Event, w: nat)
    requires ChannelsFit(p)
    ensures ChannelsFit(Step(p, limits, e))
    ensures IsLateKill(p, e, w) ==> Load(Step(p, limits, e), w) == Load(p, w) + 1
    ensures Load(Step(p, limits, e), w) > Load(p, w) ==>
              || IsLateKill(p, e, w)
              || (HasCapacity(p, limits, w) && Active(Step(p, limits, e), w) == Active(p, w))
  {
    if Enabled(p, limits, e) {
      match e
      case Check(d, t, v) => InFlightAfterWrite(p, w, d, Assignment(t, v));
      case Push(d) => InFlightAfterRemoval(p, w, d);
      case Abandon(d) => InFlightAfterRemoval(p, w, d);
      case Dispatch(t, v) =>
      case Poll(v) => ActiveAfterWrite(p, w, Channel(p, v)[0], TaskRow(Running, Some(v)));
      case Report(t, v, to) => ActiveAfterWrite(p, w, t, Written(p, t, to));
      case ReadCancel(h, t) =>
      case WriteCancel(h) => CancelLoad(p, limits, h, w);
      case Rewrite(t, row) => ActiveAfterWrite(p, w, t, row);
      case Restart =>
        assert InFlightTo(Step(p, limits, e), w) == {};
    }
  }

  /** The limit as the worker experiences it. */
  function Bound(limits: map<nat, int>, w: nat, inFlight: nat): nat {
    if w in limits && limits[w] > 0 then limits[w] + (ChannelSlots - 1) + inFlight else 0
  }

  /** A step takes the load over the bound if and only if, at the bound, it is a late kill. */
  lemma LoadBrokenIff(p: Pool, limits: map<nat, int>, e: Event, w: nat, bound: nat)
    requires ChannelsFit(p) && Load(p, w) <= Bound(limits, w, bound) && |InFlightTo(Step(p, limits, e), w)| <= bound
    ensures Load(Step(p, limits, e), w) > Bound(limits, w, bound) <==> Load(p, w) == Bound(limits, w, bound) && IsLateKill(p, e, w)
  {
    LoadGrowsOnlyByChecks(p, limits, e, w);
  }

  function LateKills(p: Pool, limits: map<nat, int>, events: seq<Event>, w: nat): nat
    decreases |events|
  {
    if events == [] then 0
    else (if IsLateKill(p, events[0], w) then 1 else 0) + LateKills(Step(p, limits, events[0]), limits, events[1..], w)
  }

  lemma {:induction false} AfterKeepsLoad(p: Pool, limits: map<nat, int>, events: seq<Event>, w: nat, bound: nat, late: nat)
    requires ChannelsFit(p) && Load(p, w) <= Bound(limits, w, bound) + late
    requires InFlightAtMost(p, limits, events, w, bound)
    ensures Load(After(p, limits, events), w) <= Bound(limits, w, bound) + late + LateKills(p, limits, events, w)
    decreases |events|
  {
    if events != [] {
      var p' := Step(p, limits, events[0]);
      LoadGrowsOnlyByChecks(p, limits, events[0], w);
      assert |InFlightTo(p', w)| <= bound;
      AfterKeepsLoad(p', limits, events[1..], w, bound, late + (if IsLateKill(p, events[0], w) then 1 else 0));
    }
  }

  /** With at most `bound` split dispatches to a worker under way, the tasks active on it, waiting in its
      channel and under way never exceed max_concurrency + 9 + bound, and one more for each late kill, in
      any interleaving: the check ignores what the ten slots hold. */
  lemma {:induction false} WorkerLoadBound(start: Pool, limits: map<nat, int>, events: seq<Event>, w: nat, bound: nat)
    requires IsNew(start) && InFlightAtMost(start, limits, events, w, bound)
    ensures Load(After(start, limits, events), w) <= Bound(limits, w, bound) + LateKills(start, limits, events, w)
  {
    assert Active(start, w) == {} && InFlightTo(start, w) == {};
    AfterKeepsLoad(start, limits, events, w, bound, 0);
  }

  // ---------------------------------------------------------------- the bound is reached

  /** Jobs are numbered in the order of their dispatch: those below `a` are active on `w`, the next `c`
      wait in the channel, and the next `d` are under way. */
  ghost predicate Laid(p: Pool, w: nat, a: nat, c: nat, d: nat) {
    && (forall t :: t in p.rows <==> t.JobTask? && t.id < a)
    && (forall t :: t in p.rows ==> p.rows[t] == TaskRow(Running, Some(w)))
    && |Channel(p, w)| == c
    && (forall i :: 0 <= i < c ==> Channel(p, w)[i] == JobTask(a + i))
    && (forall k: nat :: k in p.inFlight <==> a + c <= k < a + c + d)
    && (forall k: nat :: k in p.inFlight ==> p.inFlight[k] == Assignment(JobTask(k), w))
  }

  ghost function Range(from: nat, n: nat): (s: set<nat>)
    ensures |s| == n && forall t: nat :: t in s <==> from <= t < from + n
    decreases n
  {
    if n == 0 then {} else {from} + Range(from + 1, n - 1)
  }

  ghost function Jobs(n: nat): (s: set<Task>)
    ensures |s| == n && forall t :: t in s <==> t.JobTask? && t.id < n
  {
    if n == 0 then {} else Jobs(n - 1) + {JobTask(n - 1)}
  }

  lemma LaidLoad(p: Pool, w: nat, a: nat, c: nat, d: nat)
    requires Laid(p, w, a, c, d)
    ensures |Active(p, w)| == a && |InFlightTo(p, w)| == d && Load(p, w) == a + c + d
  {
    assert Active(p, w) == Jobs(a);
    assert InFlightTo(p, w) == Range(a + c, d);
  }

  lemma {:induction false} AfterExtended(p: Pool, limits: map<nat, int>, es: seq<Event>, e: Event, w: nat, bound: nat)
    ensures After(p, limits, es + [e]) == Step(After(p, limits, es), limits, e)
    ensures InFlightAtMost(p, limits, es, w, bound) && |InFlightTo(After(p, limits, es + [e]), w)| <= bound
            ==> InFlightAtMost(p, limits, es + [e], w, bound)
    decreases |es|
  {
    if es == [] {
      var es' := es + [e];
      assert es'[0] == e && es'[1..] == [];
    } else {
      assert (es + [e])[1..] == es[1..] + [e];
      AfterExtended(Step(p, limits, es[0]), limits, es[1..], e, w, bound);
    }
  }

  lemma {:induction false} LaidDispatch(p: Pool, limits: map<nat, int>, w: nat, a: nat, c: nat)
    requires w in limits && a < limits[w] && c < ChannelSlots && Laid(p, w, a, c, 0)
    ensures Laid(Step(p, limits, Dispatch(JobTask(a + c), w)), w, a, c + 1, 0)
  {
    LaidLoad(p, w, a, c, 0);
  }

  lemma {:induction false} LaidPoll(p: Pool, limits: map<nat, int>, w: nat, a: nat, c: nat, d: nat)
    requires c > 0 && Laid(p, w, a, c, d)
    ensures Laid(Step(p, limits, Poll(w)), w, a + 1, c - 1, d)
  {
  }

  lemma {:induction false} LaidCheck(p: Pool, limits: map<nat, int>, w: nat, a: nat, c: nat, d: nat)
    requires w in limits && a < limits[w] && Laid(p, w, a, c, d)
    ensures Laid(Step(p, limits, Check(a + c + d, JobTask(a + c + d), w)), w, a, c, d + 1)
  {
    LaidLoad(p, w, a, c, d);
  }

  lemma {:induction false} LaidPush(p: Pool, limits: map<nat, int>, w: nat, a: nat, c: nat, d: nat)
    requires c < ChannelSlots && d > 0 && Laid(p, w, a, c, d)
    ensures Laid(Step(p, limits, Push(a + c)), w, a, c + 1, d - 1)
  {
  }

  /** The history, with at most `bound` dispatches under way, arrives at this position. */
  ghost predicate Arrives(start: Pool, limits: map<nat, int>, w: nat, bound: nat, events: seq<Event>, a: nat, c: nat, d: nat) {
    InFlightAtMost(start, limits, events, w, bound) && Laid(After(start, limits, events), w, a, c, d)
  }

  lemma {:induction false} ArriveNext(start: Pool, limits: map<nat, int>, w: nat, bound: nat, events: seq<Event>, e: Event, a: nat, c: nat, d: nat)
    requires InFlightAtMost(start, limits, events, w, bound)
    requires Laid(Step(After(start, limits, events), limits, e), w, a, c, d) && d <= bound
    ensures Arrives(start, limits, w, bound, events + [e], a, c, d)
  {
    LaidLoad(Step(After(start, limits, events), limits, e), w, a, c, d);
    AfterExtended(start, limits, events, e, w, bound);
  }

  lemma {:induction false} ArrivePoll(start: Pool, limits: map<nat, int>, w: nat, bound: nat, events: seq<Event>, a: nat, c: nat, d: nat)
    requires Arrives(start, limits, w, bound, events, a, c, d) && c > 0 && d <= bound
    ensures Arrives(start, limits, w, bound, events + [Poll(w)], a + 1, c - 1, d)
  {
    LaidPoll(After(start, limits, events), limits, w, a, c, d);
    ArriveNext(start, limits, w, bound, events, Poll(w), a + 1, c - 1, d);
  }

  lemma {:induction false} ArrivePush(start: Pool, limits: map<nat, int>, w: nat, bound: nat, events: seq<Event>, a: nat, c: nat, d: nat)
    requires Arrives(start, limits, w, bound, events, a, c, d) && c < ChannelSlots && 0 < d <= bound
    ensures Arrives(start, limits, w, bound, events + [Push(a + c)], a, c + 1, d - 1)
  {
    LaidPush(After(start, limits, events), limits, w, a, c, d);
    ArriveNext(start, limits, w, bound, events, Push(a + c), a, c + 1, d - 1);
  }

  /** A poll makes room for one push. */
  lemma {:induction false} ArrivePollPush(start: Pool, limits: map<nat, int>, w: nat, bound: nat, events: seq<Event>, a: nat, d: nat)
    requires Arrives(start, limits, w, bound, events, a, ChannelSlots, d) && 0 < d <= bound
    ensures Arrives(start, limits, w, bound, events + [Poll(w)] + [Push(a + ChannelSlots)], a + 1, ChannelSlots, d - 1)
  {
    ArrivePoll(start, limits, w, bound, events, a, ChannelSlots, d);
    ArrivePush(start, limits, w, bound, events + [Poll(w)], a + 1, ChannelSlots - 1, d);
  }

  lemma {:induction false} ArriveDispatch(start: Pool, limits: map<nat, int>, w: nat, bound: nat, events: seq<Event>, a: nat, c: nat)
    requires Arrives(start, limits, w, bound, events, a, c, 0) && w in limits && a < limits[w] && c < ChannelSlots
    ensures Arrives(start, limits, w, bound, events + [Dispatch(JobTask(a + c), w)], a, c + 1, 0)
  {
    LaidDispatch(After(start, limits, events), limits, w, a, c);
    ArriveNext(start, limits, w, bound, events, Dispatch(JobTask(a + c), w), a, c + 1, 0);
  }

  lemma {:induction false} ArriveCheck(start: Pool, limits: map<nat, int>, w: nat, bound: nat, events: seq<Event>, a: nat, c: nat, d: nat)
    requires Arrives(start, limits, w, bound, events, a, c, d) && w in limits && a < limits[w] && d < bound
    ensures Arrives(start, limits, w, bound, events + [Check(a + c + d, JobTask(a + c + d), w)], a, c, d + 1)
  {
    LaidCheck(After(start, limits, events), limits, w, a, c, d);
    ArriveNext(start, limits, w, bound, events, Check(a + c + d, JobTask(a + c + d), w), a, c, d + 1);
  }

  /** `a` tasks polled and `c` in the channel. */
  lemma {:induction false} ReachFilled(start: Pool, limits: map<nat, int>, w: nat, bound: nat, a: nat, c: nat)
    returns (events: seq<Event>)
    requires IsNew(start) && w in limits && a < limits[w] && c <= ChannelSlots
    ensures Arrives(start, limits, w, bound, events, a, c, 0)
    decreases a, c
  {
    if c > 0 {
      var before := ReachFilled(start, limits, w, bound, a, c - 1);
      ArriveDispatch(start, limits, w, bound, before, a, c - 1);
      events := before + [Dispatch(JobTask(a + c - 1), w)];
    } else if a > 0 {
      var before := ReachFilled(start, limits, w, bound, a - 1, 1);
      ArrivePoll(start, limits, w, bound, before, a - 1, 1, 0);
      events := before + [Poll(w)];
    } else {
      LaidLoad(start, w, 0, 0, 0);
      events := [];
    }
  }

  /** One below its limit, with a full channel and `d` dispatches past the check. */
  lemma {:induction false} ReachFull(start: Pool, limits: map<nat, int>, w: nat, bound: nat, a: nat, d: nat)
    returns (events: seq<Event>)
    requires IsNew(start) && w in limits && a < limits[w] && d <= bound
    ensures Arrives(start, limits, w, bound, events, a, ChannelSlots, d)
    decreases d
  {
    if d == 0 {
      events := ReachFilled(start, limits, w, bound, a, ChannelSlots);
    } else {
      var before := ReachFull(start, limits, w, bound, a, d - 1);
      ArriveCheck(start, limits, w, bound, before, a, ChannelSlots, d - 1);
      events := before + [Check(a + ChannelSlots + d - 1, JobTask(a + ChannelSlots + d - 1), w)];
    }
  }

  /** The worker polls and the dispatches push, in turn. */
  lemma {:induction false} ReachDrained(start: Pool, limits: map<nat, int>, w: nat, bound: nat, before: seq<Event>, a: nat, d: nat)
    returns (events: seq<Event>)
    requires d <= bound && Arrives(start, limits, w, bound, before, a, ChannelSlots, d)
    ensures Arrives(start, limits, w, bound, events, a + d, ChannelSlots, 0)
    decreases d
  {
    if d == 0 {
      events := before;
    } else {
      ArrivePollPush(start, limits, w, bound, before, a, d);
      events := ReachDrained(start, limits, w, bound, before + [Poll(w)] + [Push(a + ChannelSlots)], a + 1, d - 1);
    }
  }

  /** The bound is tight, for every positive limit and every number of dispatches under way; in the end
      the whole excess is active or in the channel. */
  lemma {:induction false} WorkerLoadBoundReached(start: Pool, limits: map<nat, int>, w: nat, bound: nat)
    returns (events: seq<Event>)
    requires IsNew(start) && w in limits && limits[w] >= 1
    ensures InFlightAtMost(start, limits, events, w, bound)
    ensures var p := After(start, limits, events);
            |Active(p, w)| + |Channel(p, w)| == Bound(limits, w, bound)
  {
    var full := ReachFull(start, limits, w, bound, limits[w] - 1, bound);
    events := ReachDrained(start, limits, w, bound, full, limits[w] - 1, bound);
    LaidLoad(After(start, limits, events), w, limits[w] - 1 + bound, ChannelSlots, 0);
  }
}
