/** Concurrency of a direct-runtime queue (internal/queue/processor.go): a dispatch counts the running
    jobs, and only later sets its job running.  Between the two, others may do the same. */
module QueueConcurrency {
  import opened JobStates
  import Domain

  /** The jobs of the queue, and the dispatches that passed the check and have not written yet.  A job is
      claimed before it is counted and its state is not looked at again, so it may be in flight more than
      once, or counted when it is running, cancelled or finished already. */
  datatype Queue = Queue(jobs: map<nat, JobState>, inFlight: seq<nat>)

  datatype Event =
    | Check(job: nat)            // claimed some time ago, and now counted below the limit
    | Commit(k: nat)             // the k-th dispatch in flight writes `running`
    | Abandon(k: nat)            // it fails, or the process crashes, before it writes
    | Write(job: nat, to: JobState)  // any other write: results, cancellation, expiry, enqueue

  function RunningJobs(jobs: map<nat, JobState>): set<nat> {
    set j | j in jobs && jobs[j] == Running
  }

  /** `CountRunningByQueue`. */
  function CountRunning(q: Queue): nat {
    |RunningJobs(q.jobs)|
  }

  function Without(s: seq<nat>, k: nat): seq<nat>
    requires k < |s|
  {
    s[..k] + s[k + 1..]
  }

  /** The check of `dispatch`; a job over the limit is left for a later tick. */
  function CheckStep(q: Queue, concurrency: int, job: nat): Queue {
    if CountRunning(q) >= concurrency then q else q.(inFlight := q.inFlight + [job])
  }

  function CommitStep(q: Queue, k: nat): Queue
    requires k < |q.inFlight|
  {
    Queue(q.jobs[q.inFlight[k] := Running], Without(q.inFlight, k))
  }

  predicate Enabled(q: Queue, e: Event) {
    match e
    case Check(job) => true
    case Commit(k) => k < |q.inFlight|
    case Abandon(k) => k < |q.inFlight|
    case Write(job, to) => to != Running
  }

  function Step(q: Queue, concurrency: int, e: Event): Queue {
    if !Enabled(q, e) then q
    else match e
      case Check(job) => CheckStep(q, concurrency, job)
      case Commit(k) => CommitStep(q, k)
      case Abandon(k) => q.(inFlight := Without(q.inFlight, k))
      case Write(job, to) => q.(jobs := q.jobs[job := to])
  }

  function After(q: Queue, concurrency: int, events: seq<Event>): Queue
    decreases |events|
  {
    if events == [] then q else After(Step(q, concurrency, events[0]), concurrency, events[1..])
  }

  /** No more than `bound` dispatches are ever in flight. */
  predicate InFlightAtMost(q: Queue, concurrency: int, events: seq<Event>, bound: nat)
    decreases |events|
  {
    |q.inFlight| <= bound && (events == [] || InFlightAtMost(Step(q, concurrency, events[0]), concurrency, events[1..], bound))
  }

  /** The row store, with the two halves of `dispatch`. */
  class Processor {
    var jobs: map<nat, JobState>
    var inFlight: seq<nat>

    function Now(): Queue
      reads this
    {
      Queue(jobs, inFlight)
    }

    constructor ()
      ensures Now() == Queue(map[], [])
    {
      jobs, inFlight := map[], [];
    }

    method CheckConcurrency(concurrency: int, job: nat) returns (admitted: bool)
      modifies this`inFlight
      ensures Now() == CheckStep(old(Now()), concurrency, job)
      ensures jobs == old(jobs) && inFlight == old(inFlight) + if admitted then [job] else []
      ensures admitted <==> |set j | j in old(jobs) && old(jobs)[j] == JobState.Running| < concurrency
    {
      var running := |RunningJobs(jobs)|;
      assert RunningJobs(jobs) == set j | j in jobs && jobs[j] == JobState.Running;
      admitted := running < concurrency;
      if admitted {
        inFlight := inFlight + [job];
      }
    }

    method SetRunning(k: nat)
      requires k < |inFlight|
      modifies this
      ensures Now() == CommitStep(old(Now()), k)
      ensures jobs == old(jobs)[old(inFlight)[k] := JobState.Running] && inFlight == old(inFlight)[..k] + old(inFlight)[k + 1..]
    {
      jobs := jobs[inFlight[k] := Running];
      inFlight := inFlight[..k] + inFlight[k + 1..];
    }
  }

  lemma CountAfterWrite(jobs: map<nat, JobState>, job: nat, to: JobState)
    ensures |RunningJobs(jobs[job := to])| <= |RunningJobs(jobs)| + (if to == Running then 1 else 0)
  {
    var before, after := RunningJobs(jobs), RunningJobs(jobs[job := to]);
    if to == Running {
      assert after == before + {job};
    } else {
      assert after == before - {job};
    }
  }

  /** Running jobs and dispatches in flight together stay below the limit plus the dispatches that
      can be in flight. */
  lemma StepKeepsSum(q: Queue, concurrency: int, e: Event, bound: nat)
    requires concurrency >= 1 && CountRunning(q) + |q.inFlight| <= concurrency - 1 + bound
    requires |Step(q, concurrency, e).inFlight| <= bound
    ensures var q' := Step(q, concurrency, e);
            CountRunning(q') + |q'.inFlight| <= concurrency - 1 + bound
  {
    if Enabled(q, e) {
      match e
      case Check(job) =>
      case Commit(k) => CountAfterWrite(q.jobs, q.inFlight[k], Running);
      case Abandon(k) =>
      case Write(job, to) => CountAfterWrite(q.jobs, job, to);
    }
  }

  lemma {:induction false} SumBounded(q: Queue, concurrency: int, events: seq<Event>, bound: nat)
    requires concurrency >= 1 && CountRunning(q) + |q.inFlight| <= concurrency - 1 + bound
    requires InFlightAtMost(q, concurrency, events, bound)
    ensures CountRunning(After(q, concurrency, events)) <= concurrency - 1 + bound
    decreases |events|
  {
    if events != [] {
      StepKeepsSum(q, concurrency, events[0], bound);
      SumBounded(Step(q, concurrency, events[0]), concurrency, events[1..], bound);
    }
  }

  /** Without a positive limit nothing is ever admitted. */
  lemma {:induction false} NothingAdmitted(q: Queue, concurrency: int, events: seq<Event>)
    requires concurrency <= 0 && q.inFlight == [] && RunningJobs(q.jobs) == {}
    ensures CountRunning(After(q, concurrency, events)) == 0
    decreases |events|
  {
    if events != [] {
      var q' := Step(q, concurrency, events[0]);
      if events[0].Write? && Enabled(q, events[0]) {
        CountAfterWrite(q.jobs, events[0].job, events[0].to);
      }
      assert RunningJobs(q'.jobs) == {};
      NothingAdmitted(q', concurrency, events[1..]);
    }
  }

  /** With at most `bound` dispatches in flight, the running jobs of a queue never exceed
      concurrency - 1 + bound, in any interleaving. */
  lemma ConcurrencyBound(concurrency: int, events: seq<Event>, bound: nat)
    requires InFlightAtMost(Queue(map[], []), concurrency, events, bound)
    ensures CountRunning(After(Queue(map[], []), concurrency, events)) <= if concurrency <= 0 then 0 else concurrency - 1 + bound
  {
    var q := Queue(map[], []);
    assert RunningJobs(q.jobs) == {};
    if concurrency <= 0 {
      NothingAdmitted(q, concurrency, events);
    } else {
      SumBounded(q, concurrency, events, bound);
    }
  }

  /** Serialised dispatch keeps exactly to the configured limit. */
  lemma SerialisedKeepsLimit(concurrency: int, events: seq<Event>)
    requires InFlightAtMost(Queue(map[], []), concurrency, events, 1)
    ensures CountRunning(After(Queue(map[], []), concurrency, events)) <= Domain.Max(0, concurrency)
  {
    ConcurrencyBound(concurrency, events, 1);
  }

  /** Dispatches admitted, and dispatches that wrote or were given up. */
  function Admitted(q: Queue, concurrency: int, events: seq<Event>): nat
    decreases |events|
  {
    if events == [] then 0
    else (if events[0].Check? && |set j | j in q.jobs && q.jobs[j] == Running| < concurrency then 1 else 0)
         + Admitted(Step(q, concurrency, events[0]), concurrency, events[1..])
  }

  function Ended(q: Queue, concurrency: int, events: seq<Event>): nat
    decreases |events|
  {
    if events == [] then 0
    else (if (events[0].Commit? || events[0].Abandon?) && events[0].k < |q.inFlight| then 1 else 0)
         + Ended(Step(q, concurrency, events[0]), concurrency, events[1..])
  }

  /** Every dispatch admitted is in flight until it writes or is given up. */
  lemma {:induction false} InFlightBalance(q: Queue, concurrency: int, events: seq<Event>)
    ensures |After(q, concurrency, events).inFlight| == |q.inFlight| + Admitted(q, concurrency, events) - Ended(q, concurrency, events)
    decreases |events|
  {
    if events != [] {
      assert RunningJobs(q.jobs) == set j | j in q.jobs && q.jobs[j] == Running;
      InFlightBalance(Step(q, concurrency, events[0]), concurrency, events[1..]);
    }
  }

  // ---------------------------------------------------------------- the bound is reached

  /** `n` pending jobs, numbered from `from`. */
  function Enqueues(from: nat, n: nat): seq<Event>
    decreases n
  {
    if n == 0 then [] else [Write(from, Pending)] + Enqueues(from + 1, n - 1)
  }

  function Checks(from: nat, n: nat): seq<Event>
    decreases n
  {
    if n == 0 then [] else [Check(from)] + Checks(from + 1, n - 1)
  }

  function Commits(n: nat): seq<Event>
    decreases n
  {
    if n == 0 then [] else [Commit(0)] + Commits(n - 1)
  }

  /** Jobs from `from` on, `n` of them, are dispatched one at a time. */
  function Serially(from: nat, n: nat): seq<Event>
    decreases n
  {
    if n == 0 then [] else [Check(from), Commit(0)] + Serially(from + 1, n - 1)
  }

  /** Fill the queue to one below the limit, then let `bound` dispatches pass the check together. */
  function Burst(concurrency: nat, bound: nat): seq<Event>
    requires concurrency >= 1
  {
    Enqueues(0, concurrency - 1 + bound) + (Serially(0, concurrency - 1) + (Checks(concurrency - 1, bound) + Commits(bound)))
  }

  /** Jobs 0 to n - 1 exist, those below `r` running and the others pending; `r` to `r + k - 1` are in flight. */
  ghost predicate Laid(q: Queue, r: nat, n: nat, k: nat) {
    && (forall j: nat :: j in q.jobs <==> j < n)
    && (forall j: nat :: j in q.jobs ==> q.jobs[j] == if j < r then Running else Pending)
    && |q.inFlight| == k
    && (forall i :: 0 <= i < k ==> q.inFlight[i] == r + i)
  }

  ghost function Below(r: nat): (s: set<nat>)
    ensures |s| == r && forall j: nat :: j in s <==> j < r
  {
    if r == 0 then {} else Below(r - 1) + {r - 1}
  }

  lemma LaidCount(q: Queue, r: nat, n: nat, k: nat)
    requires Laid(q, r, n, k) && r <= n
    ensures CountRunning(q) == r
  {
    assert RunningJobs(q.jobs) == Below(r);
  }

  lemma {:induction false} AfterAppend(q: Queue, c: int, es: seq<Event>, fs: seq<Event>, bound: nat)
    ensures After(q, c, es + fs) == After(After(q, c, es), c, fs)
    ensures InFlightAtMost(q, c, es, bound) && InFlightAtMost(After(q, c, es), c, fs, bound) ==> InFlightAtMost(q, c, es + fs, bound)
    decreases |es|
  {
    if es == [] {
      assert es + fs == fs;
    } else {
      assert (es + fs)[1..] == es[1..] + fs;
      AfterAppend(Step(q, c, es[0]), c, es[1..], fs, bound);
    }
  }

  lemma {:induction false} AfterEnqueues(q: Queue, c: int, from: nat, n: nat, bound: nat)
    requires Laid(q, 0, from, 0)
    ensures Laid(After(q, c, Enqueues(from, n)), 0, from + n, 0)
    ensures InFlightAtMost(q, c, Enqueues(from, n), bound)
    decreases n
  {
    if n > 0 {
      assert Enqueues(from, n)[1..] == Enqueues(from + 1, n - 1);
      AfterEnqueues(Step(q, c, Write(from, Pending)), c, from + 1, n - 1, bound);
    }
  }

  lemma {:induction false} AfterSerially(q: Queue, c: int, from: nat, n: nat, total: nat, bound: nat)
    requires Laid(q, from, total, 0) && from + n <= total && from + n <= c - 1 && bound >= 1
    ensures Laid(After(q, c, Serially(from, n)), from + n, total, 0)
    ensures InFlightAtMost(q, c, Serially(from, n), bound)
    decreases n
  {
    if n > 0 {
      var es := Serially(from, n);
      LaidCount(q, from, total, 0);
      var q1 := Step(q, c, Check(from));
      var q2 := Step(q1, c, Commit(0));
      assert Laid(q2, from + 1, total, 0);
      assert es[0] == Check(from) && es[1..][0] == Commit(0) && es[1..][1..] == Serially(from + 1, n - 1);
      AfterSerially(q2, c, from + 1, n - 1, total, bound);
      assert After(q, c, es) == After(q1, c, es[1..]) == After(q2, c, es[1..][1..]);
    }
  }

  lemma {:induction false} AfterChecks(q: Queue, c: int, r: nat, k: nat, n: nat, total: nat, bound: nat)
    requires Laid(q, r, total, k) && r <= c - 1 && r + k + n <= total && k + n <= bound
    ensures Laid(After(q, c, Checks(r + k, n)), r, total, k + n)
    ensures InFlightAtMost(q, c, Checks(r + k, n), bound)
    decreases n
  {
    if n > 0 {
      LaidCount(q, r, total, k);
      assert Checks(r + k, n)[1..] == Checks(r + k + 1, n - 1);
      AfterChecks(Step(q, c, Check(r + k)), c, r, k + 1, n - 1, total, bound);
    }
  }

  lemma {:induction false} AfterCommits(q: Queue, c: int, r: nat, n: nat, bound: nat)
    requires Laid(q, r, r + n, n) && n <= bound
    ensures Laid(After(q, c, Commits(n)), r + n, r + n, 0)
    ensures InFlightAtMost(q, c, Commits(n), bound)
    decreases n
  {
    if n > 0 {
      assert Commits(n)[1..] == Commits(n - 1);
      AfterCommits(Step(q, c, Commit(0)), c, r + 1, n - 1, bound);
    }
  }

  /** The bound is tight: for every limit and every number of simultaneous dispatches some
      interleaving reaches it. */
  lemma ConcurrencyBoundReached(concurrency: nat, bound: nat)
    requires concurrency >= 1 && bound >= 1
    ensures InFlightAtMost(Queue(map[], []), concurrency, Burst(concurrency, bound), bound)
    ensures CountRunning(After(Queue(map[], []), concurrency, Burst(concurrency, bound))) == concurrency - 1 + bound
  {
    var c, r, total := concurrency, concurrency - 1, concurrency - 1 + bound;
    var q := Queue(map[], []);
    assert Laid(q, 0, 0, 0);
    AfterEnqueues(q, c, 0, total, bound);
    var q1 := After(q, c, Enqueues(0, total));
    AfterSerially(q1, c, 0, r, total, bound);
    var q2 := After(q1, c, Serially(0, r));
    AfterFlood(q2, c, r, bound);
    AfterAppend(q1, c, Serially(0, r), Checks(r, bound) + Commits(bound), bound);
    AfterAppend(q, c, Enqueues(0, total), Serially(0, r) + (Checks(r, bound) + Commits(bound)), bound);
  }

  /** One below the limit, `bound` dispatches pass the check together. */
  lemma AfterFlood(q: Queue, c: nat, r: nat, bound: nat)
    requires Laid(q, r, r + bound, 0) && r == c - 1 && bound >= 1
    ensures InFlightAtMost(q, c, Checks(r, bound) + Commits(bound), bound)
    ensures CountRunning(After(q, c, Checks(r, bound) + Commits(bound))) == r + bound
  {
    AfterChecks(q, c, r, 0, bound, r + bound, bound);
    var q1 := After(q, c, Checks(r, bound));
    AfterCommits(q1, c, r, bound, bound);
    LaidCount(After(q1, c, Commits(bound)), r + bound, r + bound, 0);
    AfterAppend(q, c, Checks(r, bound), Commits(bound), bound);
  }
}
