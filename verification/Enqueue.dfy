/** Enqueueing jobs, one at a time, in atomic batches, and as replays (EnqueueJob, BatchEnqueueJobs and
    ReplayJob of internal/handler/service.go; internal/db/jobs.sql.go). */
module Enqueue {
  import opened Domain

  /** A job as it is asked for.  `insertable` is false when the database refuses the row for a reason of
      its own: an unknown queue, a value too long, a lost connection. */
  datatype Request = Request(queue: nat, payload: string, key: Option<string>, insertable: bool)

  datatype Job = Job(workspace: nat, queue: nat, payload: string, key: Option<string>, replayOf: Option<nat>)

  datatype Response = Created(count: nat) | Conflict(index: nat) | Invalid | InsertFailed(index: nat) | CommitFailed

  datatype Call =
    | Single(workspace: nat, request: Request)
    | Batch(workspace: nat, requests: seq<Request>, commits: bool)
    | Replay(job: nat, payload: Option<string>)

  function NewJob(workspace: nat, r: Request): Job {
    Job(workspace, r.queue, r.payload, r.key, None)
  }

  function NewJobs(workspace: nat, requests: seq<Request>): (jobs: seq<Job>)
    ensures |jobs| == |requests|
    ensures forall i :: 0 <= i < |jobs| ==> jobs[i] == NewJob(workspace, requests[i])
  {
    if requests == [] then []
    else NewJobs(workspace, requests[..|requests| - 1]) + [NewJob(workspace, requests[|requests| - 1])]
  }

  /** `CheckIdempotencyKey`. */
  predicate KeyTaken(jobs: seq<Job>, workspace: nat, key: Option<string>) {
    key.Some? && exists i :: 0 <= i < |jobs| && jobs[i].workspace == workspace && jobs[i].key == key
  }

  /** The partial unique index on (workspace_id, idempotency_key). */
  predicate KeysUnique(jobs: seq<Job>) {
    forall i, j :: 0 <= i < j < |jobs| && jobs[i].key.Some? ==> jobs[i].workspace != jobs[j].workspace || jobs[i].key != jobs[j].key
  }

  /** What a batch must satisfy to be stored. */
  predicate Acceptable(jobs: seq<Job>, workspace: nat, requests: seq<Request>) {
    && requests != []
    && (forall i :: 0 <= i < |requests| ==> requests[i].insertable && !KeyTaken(jobs, workspace, requests[i].key))
    && (forall i, j :: 0 <= i < j < |requests| && requests[i].key.Some? ==> requests[i].key != requests[j].key)
  }

  /** The table of jobs, and the handlers that add to it. */
  class JobTable {
    var jobs: seq<Job>

    constructor ()
      ensures jobs == []
    {
      jobs := [];
    }

    method KeyExists(stored: seq<Job>, workspace: nat, key: Option<string>) returns (taken: bool)
      ensures taken <==> KeyTaken(stored, workspace, key)
      ensures taken <==> key.Some? && exists i :: 0 <= i < |stored| && stored[i].workspace == workspace && stored[i].key == key
    {
      if key.None? {
        return false;
      }
      for i := 0 to |stored|
        invariant forall j :: 0 <= j < i ==> stored[j].workspace != workspace || stored[j].key != key
      {
        if stored[i].workspace == workspace && stored[i].key == key {
          return true;
        }
      }
      taken := false;
    }

    method EnqueueJob(workspace: nat, request: Request) returns (response: Response)
      modifies this
      ensures response.Created? <==> Acceptable(old(jobs), workspace, [request])
      ensures jobs == Step(old(jobs), Single(workspace, request))
      ensures jobs == old(jobs) + if response.Created? then [Job(workspace, request.queue, request.payload, request.key, None)] else []
      ensures response.Created? ==> response.count == 1
      ensures response.InsertFailed? <==> !KeyTaken(old(jobs), workspace, request.key) && !request.insertable
      ensures response.Conflict? <==> KeyTaken(old(jobs), workspace, request.key)
    {
      AcceptableOne(jobs, workspace, request);
      var taken := KeyExists(jobs, workspace, request.key);
      if taken {
        return Conflict(0);
      }
      if !request.insertable {
        return InsertFailed(0);
      }
      jobs := jobs + [NewJob(workspace, request)];
      response := Created(1);
    }

    /** The loop works on the transaction's view; only the commit makes it the table. */
    method BatchEnqueueJobs(workspace: nat, requests: seq<Request>, commits: bool) returns (response: Response)
      modifies this
      ensures response.Created? <==> Acceptable(old(jobs), workspace, requests) && commits
      ensures jobs == Step(old(jobs), Batch(workspace, requests, commits))
      ensures response.Created? ==>
                && response.count == |requests| && |jobs| == |old(jobs)| + |requests| && jobs[..|old(jobs)|] == old(jobs)
                && forall i :: 0 <= i < |requests| ==>
                     jobs[|old(jobs)| + i] == Job(workspace, requests[i].queue, requests[i].payload, requests[i].key, None)
      ensures !response.Created? ==> jobs == old(jobs)
      ensures response.Invalid? <==> requests == []
      ensures response.CommitFailed? <==> Acceptable(old(jobs), workspace, requests) && !commits
      ensures response.Conflict? ==>
                && response.index < |requests|
                && KeyTaken(old(jobs) + NewJobs(workspace, requests[..response.index]), workspace, requests[response.index].key)
    {
      if requests == [] {
        return Invalid;
      }
      var view := jobs;
      for i := 0 to |requests|
        invariant jobs == old(jobs) && view == jobs + NewJobs(workspace, requests[..i])
        invariant i > 0 ==> Acceptable(jobs, workspace, requests[..i])
      {
        var taken := KeyExists(view, workspace, requests[i].key);
        assert requests[..i + 1][..i] == requests[..i];
        AcceptableNext(jobs, workspace, requests, i);
        if taken {
          AcceptablePrefix(jobs, workspace, requests, i + 1);
          return Conflict(i);
        }
        if !requests[i].insertable {
          AcceptablePrefix(jobs, workspace, requests, i + 1);
          return InsertFailed(i);
        }
        view := view + [NewJob(workspace, requests[i])];
      }
      assert requests[..|requests|] == requests;
      if !commits {
        return CommitFailed;
      }
      jobs := view;
      response := Created(|requests|);
    }

    /** `CreateReplayJob` copies the job, but not its key. */
    method ReplayJob(job: nat, payload: Option<string>) returns (response: Response)
      modifies this
      ensures response.Created? <==> job < |old(jobs)|
      ensures jobs == Step(old(jobs), Replay(job, payload))
      ensures job < |old(jobs)| ==>
                var from := old(jobs)[job];
                jobs == old(jobs) + [Job(from.workspace, from.queue, if payload.Some? then payload.value else from.payload, None, Some(job))]
    {
      if job >= |jobs| {
        return InsertFailed(0);
      }
      var text := match payload case Some(p) => p case None => jobs[job].payload;
      jobs := jobs + [Job(jobs[job].workspace, jobs[job].queue, text, None, Some(job))];
      response := Created(1);
    }
  }

  /** The transaction sees a key when the table has it or an earlier job of the batch brought it. */
  lemma ViewKeys(jobs: seq<Job>, workspace: nat, requests: seq<Request>, i: nat)
    requires i < |requests|
    ensures KeyTaken(jobs + NewJobs(workspace, requests[..i]), workspace, requests[i].key) <==>
              KeyTaken(jobs, workspace, requests[i].key)
              || (requests[i].key.Some? && exists j :: 0 <= j < i && requests[j].key == requests[i].key)
  {
    var view, key := jobs + NewJobs(workspace, requests[..i]), requests[i].key;
    assert forall j :: 0 <= j < |jobs| ==> view[j] == jobs[j];
    assert forall j :: 0 <= j < i ==> view[|jobs| + j] == NewJob(workspace, requests[j]);
  }

  lemma {:induction false} AcceptableOne(jobs: seq<Job>, workspace: nat, request: Request)
    ensures Acceptable(jobs, workspace, [request]) <==> request.insertable && !KeyTaken(jobs, workspace, request.key)
  {
    assert [request][0] == request;
  }

  /** A batch is acceptable up to its i-th job when it was before it, and the job could be inserted on
      its own into the transaction's view. */
  lemma {:induction false} AcceptableNext(jobs: seq<Job>, workspace: nat, requests: seq<Request>, i: nat)
    requires i < |requests|
    ensures Acceptable(jobs, workspace, requests[..i + 1]) <==>
              && (i == 0 || Acceptable(jobs, workspace, requests[..i]))
              && requests[i].insertable
              && !KeyTaken(jobs + NewJobs(workspace, requests[..i]), workspace, requests[i].key)
  {
    var front, more := requests[..i], requests[..i + 1];
    ViewKeys(jobs, workspace, requests, i);
    assert more[i] == requests[i] && forall j :: 0 <= j < i ==> more[j] == front[j] == requests[j];
  }

  lemma {:induction false} AcceptablePrefix(jobs: seq<Job>, workspace: nat, requests: seq<Request>, i: nat)
    requires 0 < i <= |requests| && !Acceptable(jobs, workspace, requests[..i])
    ensures !Acceptable(jobs, workspace, requests)
  {
    var front := requests[..i];
    assert forall j :: 0 <= j < i ==> front[j] == requests[j];
  }

  function Replayed(jobs: seq<Job>, job: nat, payload: Option<string>): Job
    requires job < |jobs|
  {
    Job(jobs[job].workspace, jobs[job].queue, match payload case Some(p) => p case None => jobs[job].payload, None, Some(job))
  }

  // ---------------------------------------------------------------- sequences of calls

  /** What each call leaves behind, as the handlers guarantee it. */
  function Step(jobs: seq<Job>, c: Call): seq<Job> {
    match c
    case Single(workspace, request) =>
      if Acceptable(jobs, workspace, [request]) then jobs + [NewJob(workspace, request)] else jobs
    case Batch(workspace, requests, commits) =>
      if Acceptable(jobs, workspace, requests) && commits then jobs + NewJobs(workspace, requests) else jobs
    case Replay(job, payload) =>
      if job < |jobs| then jobs + [Replayed(jobs, job, payload)] else jobs
  }

  function After(jobs: seq<Job>, calls: seq<Call>): seq<Job>
    decreases |calls|
  {
    if calls == [] then jobs else After(Step(jobs, calls[0]), calls[1..])
  }

  lemma {:induction false} AcceptableKeepsUnique(jobs: seq<Job>, workspace: nat, requests: seq<Request>)
    requires KeysUnique(jobs) && Acceptable(jobs, workspace, requests)
    ensures KeysUnique(jobs + NewJobs(workspace, requests))
  {
    var all := jobs + NewJobs(workspace, requests);
    forall i, j | 0 <= i < j < |all| && all[i].key.Some? ensures all[i].workspace != all[j].workspace || all[i].key != all[j].key {
      if i < |jobs| <= j {
        assert !KeyTaken(jobs, workspace, requests[j - |jobs|].key);
      }
    }
  }

  /** Over every sequence of enqueues, batches and replays, no two jobs of a workspace share a key, and
      no stored job is ever lost or reordered. */
  lemma {:induction false} KeysStayUnique(jobs: seq<Job>, calls: seq<Call>)
    requires KeysUnique(jobs)
    ensures KeysUnique(After(jobs, calls)) && jobs <= After(jobs, calls)
    decreases |calls|
  {
    if calls != [] {
      var next := Step(jobs, calls[0]);
      match calls[0] {
        case Single(workspace, request) =>
          if Acceptable(jobs, workspace, [request]) {
            AcceptableKeepsUnique(jobs, workspace, [request]);
            assert NewJobs(workspace, [request]) == [NewJob(workspace, request)];
          }
        case Batch(workspace, requests, commits) =>
          if Acceptable(jobs, workspace, requests) {
            AcceptableKeepsUnique(jobs, workspace, requests);
          }
        case Replay(job, payload) =>
      }
      KeysStayUnique(next, calls[1..]);
    }
  }

  /** A batch is stored exactly when its jobs would be stored one by one. */
  lemma {:induction false} BatchIsAllSingles(jobs: seq<Job>, workspace: nat, requests: seq<Request>)
    requires requests != []
    ensures Acceptable(jobs, workspace, requests) <==>
              |After(jobs, Singles(workspace, requests))| == |jobs| + |requests|
    ensures Acceptable(jobs, workspace, requests) ==>
              After(jobs, Singles(workspace, requests)) == jobs + NewJobs(workspace, requests)
  {
    SinglesAccepted(jobs, workspace, requests);
  }

  function Singles(workspace: nat, requests: seq<Request>): seq<Call> {
    if requests == [] then [] else Singles(workspace, requests[..|requests| - 1]) + [Single(workspace, requests[|requests| - 1])]
  }

  lemma {:induction false} AfterExtended(jobs: seq<Job>, calls: seq<Call>, c: Call)
    ensures After(jobs, calls + [c]) == Step(After(jobs, calls), c)
    decreases |calls|
  {
    if calls == [] {
      var one := calls + [c];
      assert one[0] == c && one[1..] == [];
    } else {
      assert (calls + [c])[1..] == calls[1..] + [c];
      AfterExtended(Step(jobs, calls[0]), calls[1..], c);
    }
  }

  lemma {:induction false} SinglesAccepted(jobs: seq<Job>, workspace: nat, requests: seq<Request>)
    ensures var after := After(jobs, Singles(workspace, requests));
            && |after| <= |jobs| + |requests|
            && ((requests == [] || Acceptable(jobs, workspace, requests)) <==> |after| == |jobs| + |requests|)
            && ((requests == [] || Acceptable(jobs, workspace, requests)) ==> after == jobs + NewJobs(workspace, requests))
    decreases |requests|
  {
    if requests != [] {
      var n := |requests| - 1;
      var front, last := requests[..n], requests[n];
      SinglesAccepted(jobs, workspace, front);
      AfterExtended(jobs, Singles(workspace, front), Single(workspace, last));
      AcceptableNext(jobs, workspace, requests, n);
      assert requests[..n + 1] == requests;
      AcceptableOne(After(jobs, Singles(workspace, front)), workspace, last);
    }
  }
}
