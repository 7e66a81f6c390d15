/** The cascade of dependency runs that a finished run sets off (`Evaluate`, called by the executor's
    `handleTerminal` for every run it finalises). */
module Cascade {
  import opened Domain
  import opened Dependency

  datatype Kind = Always | OnSuccess  // "after", "after_success"

  /** A process row; `kind` is None when the dependency type is missing. */
  datatype Process = Process(id: string, parent: Option<string>, kind: Option<Kind>, enabled: bool)

  /** A run of the cascade; `trigger` is the index of the run that triggered it. */
  datatype Run = Run(process: string, trigger: Option<nat>)

  ghost predicate UniqueIds(procs: seq<Process>) {
    forall i, j :: 0 <= i < j < |procs| ==> procs[i].id != procs[j].id
  }

  /** Whether the end of a run of `parent` in state `st` triggers `d`. */
  predicate Triggers(d: Process, parent: string, st: RunState) {
    && d.enabled && d.parent == Some(parent) && IsFinalTerminal(st)
    && (d.kind == Some(Always) || (d.kind == Some(OnSuccess) && st == Completed))
  }

  /** The runs `Evaluate` creates for the end of run `k`, a run of `parent`, in row order. */
  function Created(procs: seq<Process>, parent: string, k: nat, st: RunState): seq<Run> {
    if procs == [] then []
    else Created(procs[..|procs| - 1], parent, k, st)
         + (if Triggers(procs[|procs| - 1], parent, st) then [Run(procs[|procs| - 1].id, Some(k))] else [])
  }

  class Resolver {
    var runs: seq<Run>

    constructor (root: string)
      ensures runs == [Run(root, None)]
    {
      runs := [Run(root, None)];
    }

    method Evaluate(procs: seq<Process>, k: nat, st: RunState)
      requires k < |runs|
      modifies this
      ensures runs == old(runs) + Created(procs, old(runs)[k].process, k, st)
    {
      ghost var before := runs;
      var parent := runs[k].process;
      if !IsFinalTerminal(st) {
        NoneCreated(procs, parent, k, st);
        return;
      }
      for i := 0 to |procs|
        invariant runs == before + Created(procs[..i], parent, k, st)
      {
        var dep := procs[i];
        assert procs[..i + 1][..i] == procs[..i];
        if !dep.enabled || dep.parent != Some(parent) || dep.kind.None? {
          continue;
        }
        match dep.kind.value
        case Always => runs := runs + [Run(dep.id, Some(k))];
        case OnSuccess =>
          if st == Completed {
            runs := runs + [Run(dep.id, Some(k))];
          }
      }
      assert procs[..|procs|] == procs;
    }
  }

  lemma {:induction false} NoneCreated(procs: seq<Process>, parent: string, k: nat, st: RunState)
    requires !IsFinalTerminal(st)
    ensures Created(procs, parent, k, st) == []
  {
    if procs != [] {
      NoneCreated(procs[..|procs| - 1], parent, k, st);
    }
  }

  // ---------------------------------------------------------------- the triggered closure

  /** `x` is reached from `root` through `n` triggering dependencies, when the run of each process
      `y` ends in state `outcome(y)`. */
  ghost predicate Reached(procs: seq<Process>, outcome: string -> RunState, root: string, n: nat, x: string) {
    if n == 0 then x == root
    else exists i :: 0 <= i < |procs| && procs[i].id == x && procs[i].parent.Some?
                     && Triggers(procs[i], procs[i].parent.value, outcome(procs[i].parent.value))
                     && Reached(procs, outcome, root, n - 1, procs[i].parent.value)
  }

  ghost predicate InClosure(procs: seq<Process>, outcome: string -> RunState, root: string, x: string) {
    exists n: nat :: Reached(procs, outcome, root, n, x)
  }

  /** The end of a run triggers the enabled dependents of its process: those of kind "after" once the run
      has ended for good, those of kind "after_success" only when it completed. */
  lemma {:induction false} CreatedMember(procs: seq<Process>, parent: string, k: nat, st: RunState, r: Run)
    ensures r in Created(procs, parent, k, st) <==>
              && r.trigger == Some(k)
              && exists i :: 0 <= i < |procs| && procs[i].id == r.process && procs[i].enabled && procs[i].parent == Some(parent)
                   && ( || (procs[i].kind == Some(Always) && st in {Completed, Failed, Killed, Skipped, Cancelled})
                        || (procs[i].kind == Some(OnSuccess) && st == Completed))
  {
    CreatedTriggered(procs, parent, k, st, r);
    forall i | 0 <= i < |procs|
      ensures Triggers(procs[i], parent, st) <==>
                && procs[i].enabled && procs[i].parent == Some(parent)
                && ( || (procs[i].kind == Some(Always) && st in {Completed, Failed, Killed, Skipped, Cancelled})
                     || (procs[i].kind == Some(OnSuccess) && st == Completed))
    {
    }
  }

  /** They come in row order. */
  lemma {:induction false} CreatedInOrder(first: seq<Process>, rest: seq<Process>, parent: string, k: nat, st: RunState)
    ensures Created(first + rest, parent, k, st) == Created(first, parent, k, st) + Created(rest, parent, k, st)
    decreases |rest|
  {
    if rest == [] {
      assert first + rest == first;
    } else {
      assert (first + rest)[..|first + rest| - 1] == first + rest[..|rest| - 1];
      CreatedInOrder(first, rest[..|rest| - 1], parent, k, st);
    }
  }

  /** One link of a triggering chain. */
  lemma ReachedLink(procs: seq<Process>, outcome: string -> RunState, root: string, n: nat, x: string)
    ensures Reached(procs, outcome, root, n + 1, x) <==>
              exists i :: 0 <= i < |procs| && procs[i].id == x && procs[i].enabled && procs[i].parent.Some?
                && (var y := procs[i].parent.value;
                    && Reached(procs, outcome, root, n, y)
                    && ( || (procs[i].kind == Some(Always) && outcome(y) in {Completed, Failed, Killed, Skipped, Cancelled})
                         || (procs[i].kind == Some(OnSuccess) && outcome(y) == Completed)))
  {
  }

  lemma {:induction false} CreatedTriggered(procs: seq<Process>, parent: string, k: nat, st: RunState, r: Run)
    ensures r in Created(procs, parent, k, st)
       <==> r.trigger == Some(k) && exists i :: 0 <= i < |procs| && procs[i].id == r.process && Triggers(procs[i], parent, st)
  {
    if procs != [] {
      var front := procs[..|procs| - 1];
      CreatedTriggered(front, parent, k, st, r);
      if i :| 0 <= i < |procs| && procs[i].id == r.process && Triggers(procs[i], parent, st) {
        if i < |front| {
          assert front[i] == procs[i];
        }
      }
    }
  }

  lemma {:induction false} CreatedDistinct(procs: seq<Process>, parent: string, k: nat, st: RunState)
    requires UniqueIds(procs)
    ensures var c := Created(procs, parent, k, st);
            forall i, j :: 0 <= i < j < |c| ==> c[i].process != c[j].process
  {
    if procs != [] {
      var front := procs[..|procs| - 1];
      CreatedDistinct(front, parent, k, st);
      var c := Created(front, parent, k, st);
      forall i | 0 <= i < |c| ensures c[i].process != procs[|procs| - 1].id {
        CreatedTriggered(front, parent, k, st, c[i]);
      }
    }
  }

  // ---------------------------------------------------------------- the cascade

  function Below(n: nat): (s: set<nat>)
    ensures |s| == n && forall k: nat :: k in s <==> k < n
  {
    if n == 0 then {} else Below(n - 1) + {n - 1}
  }

  /** Run `m` was triggered by the end of run `q`. */
  ghost predicate TriggeredBy(procs: seq<Process>, outcome: string -> RunState, runs: seq<Run>, m: nat, q: nat)
    requires m < |runs| && q < |runs|
  {
    exists i :: 0 <= i < |procs| && procs[i].id == runs[m].process
                && Triggers(procs[i], runs[q].process, outcome(runs[q].process))
  }

  ghost predicate Sound(procs: seq<Process>, outcome: string -> RunState, root: string, runs: seq<Run>, finished: set<nat>) {
    && runs != [] && runs[0] == Run(root, None)
    && (forall k :: k in finished ==> k < |runs|)
    && (forall m :: 0 < m < |runs| ==> runs[m].trigger.Some? && runs[m].trigger.value < m && runs[m].trigger.value in finished
                                       && TriggeredBy(procs, outcome, runs, m, runs[m].trigger.value))
  }

  ghost predicate Complete(procs: seq<Process>, outcome: string -> RunState, runs: seq<Run>, finished: set<nat>) {
    forall q, i :: q in finished && 0 <= q < |runs| && 0 <= i < |procs| && Triggers(procs[i], runs[q].process, outcome(runs[q].process))
                   ==> HasRunAfter(runs, q, procs[i].id)
  }

  ghost predicate HasRunAfter(runs: seq<Run>, q: nat, x: string) {
    exists m :: q < m < |runs| && runs[m].process == x
  }

  ghost predicate HasRun(runs: seq<Run>, x: string) {
    exists m :: 0 <= m < |runs| && runs[m].process == x
  }

  ghost predicate Distinct(runs: seq<Run>) {
    forall i, j :: 0 <= i < j < |runs| ==> runs[i].process != runs[j].process
  }

  /** The root is triggered by the end of its own run, directly or through others. */
  ghost predicate SelfTriggering(procs: seq<Process>, outcome: string -> RunState, root: string) {
    exists n: nat :: n > 0 && Reached(procs, outcome, root, n, root)
  }

  /** Every run's process is in the triggered closure of the root. */
  lemma {:induction false} RunReached(procs: seq<Process>, outcome: string -> RunState, root: string, runs: seq<Run>, finished: set<nat>, m: nat)
    returns (n: nat)
    requires Sound(procs, outcome, root, runs, finished) && m < |runs|
    ensures Reached(procs, outcome, root, n, runs[m].process)
    decreases m
  {
    if m == 0 {
      n := 0;
    } else {
      var q := runs[m].trigger.value;
      var up := RunReached(procs, outcome, root, runs, finished, q);
      var i :| 0 <= i < |procs| && procs[i].id == runs[m].process && Triggers(procs[i], runs[q].process, outcome(runs[q].process));
      n := up + 1;
    }
  }

  /** Unless the root triggers itself, the end of a run never triggers a process that has a run already. */
  lemma {:induction false} TriggeredIsNew(procs: seq<Process>, outcome: string -> RunState, root: string, runs: seq<Run>, finished: set<nat>, k: nat, i: nat)
    requires UniqueIds(procs) && !SelfTriggering(procs, outcome, root) && Sound(procs, outcome, root, runs, finished) && Distinct(runs)
    requires k < |runs| && k !in finished && i < |procs| && Triggers(procs[i], runs[k].process, outcome(runs[k].process))
    ensures !HasRun(runs, procs[i].id)
  {
    if m :| 0 <= m < |runs| && runs[m].process == procs[i].id {
      if m > 0 {
        assert false;  // its trigger is run k, which has not ended
      } else {
        var n := RunReached(procs, outcome, root, runs, finished, k);
        assert Reached(procs, outcome, root, n + 1, root);
        assert false;
      }
    }
  }

  /** The runs created for the end of run `k` are triggered by it, and their processes are new. */
  lemma CreatedIsNew(procs: seq<Process>, outcome: string -> RunState, root: string, runs: seq<Run>, finished: set<nat>, k: nat, r: Run)
    requires UniqueIds(procs) && !SelfTriggering(procs, outcome, root) && Sound(procs, outcome, root, runs, finished) && Distinct(runs)
    requires k < |runs| && k !in finished && r in Created(procs, runs[k].process, k, outcome(runs[k].process))
    ensures r.trigger == Some(k) && !HasRun(runs, r.process)
    ensures exists i :: 0 <= i < |procs| && procs[i].id == r.process && Triggers(procs[i], runs[k].process, outcome(runs[k].process))
  {
    CreatedTriggered(procs, runs[k].process, k, outcome(runs[k].process), r);
    var i :| 0 <= i < |procs| && procs[i].id == r.process && Triggers(procs[i], runs[k].process, outcome(runs[k].process));
    TriggeredIsNew(procs, outcome, root, runs, finished, k, i);
  }

  lemma EvaluateKeepsSound(procs: seq<Process>, outcome: string -> RunState, root: string, runs: seq<Run>, finished: set<nat>, k: nat)
    requires UniqueIds(procs) && !SelfTriggering(procs, outcome, root) && Sound(procs, outcome, root, runs, finished) && Distinct(runs)
    requires k < |runs| && k !in finished
    ensures var runs' := runs + Created(procs, runs[k].process, k, outcome(runs[k].process));
            Sound(procs, outcome, root, runs', finished + {k}) && Distinct(runs')
  {
    var c := Created(procs, runs[k].process, k, outcome(runs[k].process));
    var runs' := runs + c;
    CreatedDistinct(procs, runs[k].process, k, outcome(runs[k].process));
    forall m | |runs| <= m < |runs'|
      ensures runs'[m].trigger == Some(k) && TriggeredBy(procs, outcome, runs', m, k)
      ensures forall j :: 0 <= j < |runs| ==> runs[j].process != runs'[m].process
    {
      assert runs'[m] == c[m - |runs|];
      CreatedIsNew(procs, outcome, root, runs, finished, k, c[m - |runs|]);
    }
    forall m | 0 < m < |runs| ensures TriggeredBy(procs, outcome, runs', m, runs'[m].trigger.value) {
      assert TriggeredBy(procs, outcome, runs, m, runs[m].trigger.value);
    }
  }

  lemma {:induction false} EvaluateKeepsComplete(procs: seq<Process>, outcome: string -> RunState, runs: seq<Run>, finished: set<nat>, k: nat)
    requires Complete(procs, outcome, runs, finished) && k < |runs| && forall q :: q in finished ==> q < |runs|
    ensures Complete(procs, outcome, runs + Created(procs, runs[k].process, k, outcome(runs[k].process)), finished + {k})
  {
    var c := Created(procs, runs[k].process, k, outcome(runs[k].process));
    forall q, i | q in finished + {k} && 0 <= q < |runs| && 0 <= i < |procs| && Triggers(procs[i], runs[q].process, outcome(runs[q].process))
      ensures HasRunAfter(runs + c, q, procs[i].id)
    {
      if q in finished {
        assert HasRunAfter(runs, q, procs[i].id);
        var m :| q < m < |runs| && runs[m].process == procs[i].id;
        assert (runs + c)[m].process == procs[i].id;
      } else {
        var r := Run(procs[i].id, Some(k));
        CreatedTriggered(procs, runs[k].process, k, outcome(runs[k].process), r);
        var m :| 0 <= m < |c| && c[m] == r;
        assert (runs + c)[|runs| + m].process == procs[i].id;
      }
    }
  }

  function Ids(procs: seq<Process>): set<string> {
    set i | 0 <= i < |procs| :: procs[i].id
  }

  lemma {:induction false} DistinctBounded(runs: seq<Run>, ids: set<string>)
    requires Distinct(runs) && forall m :: 0 <= m < |runs| ==> runs[m].process in ids
    ensures |runs| <= |ids|
    decreases |runs|
  {
    if runs != [] {
      DistinctBounded(runs[..|runs| - 1], ids - {runs[|runs| - 1].process});
    }
  }

  lemma {:induction false} IdsBounded(procs: seq<Process>)
    ensures |Ids(procs)| <= |procs|
  {
    if procs != [] {
      var front, last := procs[..|procs| - 1], procs[|procs| - 1];
      IdsBounded(front);
      assert Ids(procs) == Ids(front) + {last.id} by {
        forall x | x in Ids(front) ensures x in Ids(procs) {
          var i :| 0 <= i < |front| && front[i].id == x;
          assert procs[i].id == x;
        }
        forall x | x in Ids(procs) ensures x in Ids(front) + {last.id} {
          var i :| 0 <= i < |procs| && procs[i].id == x;
          if i < |front| { assert front[i].id == x; }
        }
      }
    }
  }

  lemma CascadeBounded(procs: seq<Process>, outcome: string -> RunState, root: string, runs: seq<Run>, finished: set<nat>)
    requires Sound(procs, outcome, root, runs, finished) && Distinct(runs)
    ensures |runs| <= |procs| + 1
  {
    var ids := Ids(procs) + {root};
    forall m | 0 <= m < |runs| ensures runs[m].process in ids {
      if m > 0 {
        assert TriggeredBy(procs, outcome, runs, m, runs[m].trigger.value);
      }
    }
    IdsBounded(procs);
    DistinctBounded(runs, ids);
  }

  /** When all have ended, every triggering chain from a run of the root leads to a later run. */
  lemma {:induction false} ClosureHasRuns(procs: seq<Process>, outcome: string -> RunState, root: string, runs: seq<Run>, first: nat, n: nat, x: string)
    returns (m: nat)
    requires first < |runs| && runs[first].process == root && Reached(procs, outcome, root, n, x)
    requires Complete(procs, outcome, runs, Below(|runs|))
    ensures m < |runs| && runs[m].process == x && (if n == 0 then m == first else m > first)
    decreases n
  {
    if n == 0 {
      m := first;
    } else {
      var i := LastLink(procs, outcome, root, n, x);
      var q := ClosureHasRuns(procs, outcome, root, runs, first, n - 1, procs[i].parent.value);
      m := NextRun(procs, outcome, runs, q, i);
    }
  }

  /** The last process of a triggering chain. */
  lemma LastLink(procs: seq<Process>, outcome: string -> RunState, root: string, n: nat, x: string) returns (i: nat)
    requires n > 0 && Reached(procs, outcome, root, n, x)
    ensures i < |procs| && procs[i].id == x && procs[i].parent.Some?
    ensures Triggers(procs[i], procs[i].parent.value, outcome(procs[i].parent.value))
    ensures Reached(procs, outcome, root, n - 1, procs[i].parent.value)
  {
    i :| 0 <= i < |procs| && procs[i].id == x && procs[i].parent.Some?
         && Triggers(procs[i], procs[i].parent.value, outcome(procs[i].parent.value))
         && Reached(procs, outcome, root, n - 1, procs[i].parent.value);
  }

  lemma NextRun(procs: seq<Process>, outcome: string -> RunState, runs: seq<Run>, q: nat, i: nat) returns (m: nat)
    requires Complete(procs, outcome, runs, Below(|runs|)) && q < |runs| && i < |procs|
    requires Triggers(procs[i], runs[q].process, outcome(runs[q].process))
    ensures q < m < |runs| && runs[m].process == procs[i].id
  {
    assert HasRunAfter(runs, q, procs[i].id);
    m :| q < m < |runs| && runs[m].process == procs[i].id;
  }

  lemma {:induction false} EndedExact(procs: seq<Process>, outcome: string -> RunState, root: string, runs: seq<Run>, x: string)
    requires Sound(procs, outcome, root, runs, Below(|runs|)) && Complete(procs, outcome, runs, Below(|runs|))
    ensures HasRun(runs, x) <==> InClosure(procs, outcome, root, x)
  {
    if m :| 0 <= m < |runs| && runs[m].process == x {
      var n := RunReached(procs, outcome, root, runs, Below(|runs|), m);
    }
    if n: nat :| Reached(procs, outcome, root, n, x) {
      var m := ClosureHasRuns(procs, outcome, root, runs, 0, n, x);
    }
  }

  /** The whole cascade: runs end in any order, each ends in the state `outcome` gives its process,
      and each end is evaluated.  Unless the root triggers itself it stops after at most one run per
      process, and then the processes with a run are exactly those of the triggered closure, with one run
      each. */
  method RunCascade(procs: seq<Process>, outcome: string -> RunState, root: string) returns (runs: seq<Run>)
    requires UniqueIds(procs) && !SelfTriggering(procs, outcome, root)
    ensures Distinct(runs) && |runs| <= |procs| + 1
    ensures forall x :: HasRun(runs, x) <==> InClosure(procs, outcome, root, x)
  {
    var resolver := new Resolver(root);
    var finished: set<nat> := {};
    while |finished| < |resolver.runs|
      invariant Sound(procs, outcome, root, resolver.runs, finished) && Distinct(resolver.runs)
      invariant Complete(procs, outcome, resolver.runs, finished)
      invariant |finished| <= |resolver.runs| <= |procs| + 1
      decreases |procs| + 1 - |resolver.runs|, |resolver.runs| - |finished|
    {
      Unfinished(finished, |resolver.runs|);
      var k :| 0 <= k < |resolver.runs| && k !in finished;  // whichever run ends next
      EvaluateKeepsSound(procs, outcome, root, resolver.runs, finished, k);
      EvaluateKeepsComplete(procs, outcome, resolver.runs, finished, k);
      resolver.Evaluate(procs, k, outcome(resolver.runs[k].process));
      finished := finished + {k};
      CascadeBounded(procs, outcome, root, resolver.runs, finished);
    }
    AllFinished(finished, |resolver.runs|);
    runs := resolver.runs;
    forall x ensures HasRun(runs, x) <==> InClosure(procs, outcome, root, x) {
      EndedExact(procs, outcome, root, runs, x);
    }
  }

  lemma {:induction false} SubsetSize(a: set<nat>, b: set<nat>)
    requires a <= b
    ensures |a| <= |b| && (|a| == |b| ==> a == b)
    decreases a
  {
    if x :| x in a {
      SubsetSize(a - {x}, b - {x});
      assert a == (a - {x}) + {x} && b == (b - {x}) + {x};
    }
  }

  lemma Unfinished(finished: set<nat>, n: nat)
    requires |finished| < n && forall k :: k in finished ==> k < n
    ensures exists k :: 0 <= k < n && k !in finished
  {
    if forall k :: 0 <= k < n ==> k in finished {
      SubsetSize(Below(n), finished);
    }
  }

  lemma AllFinished(finished: set<nat>, n: nat)
    requires |finished| >= n && forall k :: k in finished ==> k < n
    ensures finished == Below(n)
  {
    SubsetSize(finished, Below(n));
  }

  // ---------------------------------------------------------------- does it end?

  /** The runs after evaluating the ends of the runs in `order`, one after the other. */
  function RunsAfter(procs: seq<Process>, outcome: string -> RunState, root: string, order: seq<nat>): (runs: seq<Run>)
    ensures runs != []
  {
    if order == [] then [Run(root, None)]
    else
      var before := RunsAfter(procs, outcome, root, order[..|order| - 1]);
      var k := order[|order| - 1];
      if k < |before| then before + Created(procs, before[k].process, k, outcome(before[k].process)) else before
  }

  function Evaluated(order: seq<nat>): set<nat> {
    set k | k in order
  }

  /** Each run ends once, and not before it exists. */
  predicate IsOrder(procs: seq<Process>, outcome: string -> RunState, root: string, order: seq<nat>) {
    order == [] ||
    (var front, k := order[..|order| - 1], order[|order| - 1];
     IsOrder(procs, outcome, root, front) && k < |RunsAfter(procs, outcome, root, front)| && k !in front)
  }

  /** All runs have ended, and been evaluated. */
  predicate HasEnded(procs: seq<Process>, outcome: string -> RunState, root: string, order: seq<nat>) {
    IsOrder(procs, outcome, root, order) && |order| == |RunsAfter(procs, outcome, root, order)|
  }

  lemma {:induction false} OrderComplete(procs: seq<Process>, outcome: string -> RunState, root: string, order: seq<nat>)
    requires IsOrder(procs, outcome, root, order)
    ensures var runs := RunsAfter(procs, outcome, root, order);
            && runs[0] == Run(root, None) && Complete(procs, outcome, runs, Evaluated(order))
            && |Evaluated(order)| == |order| && forall k :: k in Evaluated(order) ==> k < |runs|
    decreases |order|
  {
    if order != [] {
      var front, k := order[..|order| - 1], order[|order| - 1];
      OrderComplete(procs, outcome, root, front);
      EvaluateKeepsComplete(procs, outcome, RunsAfter(procs, outcome, root, front), Evaluated(front), k);
      assert order == front + [k];
      assert Evaluated(order) == Evaluated(front) + {k};
    }
  }

  lemma {:induction false} OrderSound(procs: seq<Process>, outcome: string -> RunState, root: string, order: seq<nat>)
    requires UniqueIds(procs) && !SelfTriggering(procs, outcome, root) && IsOrder(procs, outcome, root, order)
    ensures var runs := RunsAfter(procs, outcome, root, order);
            Sound(procs, outcome, root, runs, Evaluated(order)) && Distinct(runs)
    decreases |order|
  {
    if order != [] {
      var front, k := order[..|order| - 1], order[|order| - 1];
      OrderSound(procs, outcome, root, front);
      EvaluateKeepsSound(procs, outcome, root, RunsAfter(procs, outcome, root, front), Evaluated(front), k);
      assert order == front + [k];
      assert Evaluated(order) == Evaluated(front) + {k};
    }
  }

  /** An order that has not ended can go on, and is no longer than the number of processes allows. */
  lemma {:induction false} OrderGoesOn(procs: seq<Process>, outcome: string -> RunState, root: string, order: seq<nat>) returns (ended: seq<nat>)
    requires UniqueIds(procs) && !SelfTriggering(procs, outcome, root) && IsOrder(procs, outcome, root, order)
    ensures HasEnded(procs, outcome, root, ended)
    decreases |procs| + 1 - |order|
  {
    var runs := RunsAfter(procs, outcome, root, order);
    OrderComplete(procs, outcome, root, order);
    SubsetSize(Evaluated(order), Below(|runs|));
    if |order| == |runs| {
      ended := order;
    } else {
      OrderSound(procs, outcome, root, order);
      CascadeBounded(procs, outcome, root, runs, Evaluated(order));
      Unfinished(Evaluated(order), |runs|);
      var k :| 0 <= k < |runs| && k !in Evaluated(order);
      assert (order + [k])[..|order|] == order;
      ended := OrderGoesOn(procs, outcome, root, order + [k]);
    }
  }

  /** A root that triggers itself has a later run for each of its runs. */
  lemma {:induction false} NoLastRun(procs: seq<Process>, outcome: string -> RunState, root: string, runs: seq<Run>, first: nat)
    requires SelfTriggering(procs, outcome, root) && first < |runs| && runs[first].process == root
    requires Complete(procs, outcome, runs, Below(|runs|))
    ensures false
    decreases |runs| - first
  {
    var n: nat :| n > 0 && Reached(procs, outcome, root, n, root);
    var later := ClosureHasRuns(procs, outcome, root, runs, first, n, root);
    NoLastRun(procs, outcome, root, runs, later);
  }

  /** A cascade can come to its end if and only if the root does not trigger itself. */
  lemma {:induction false} CascadeEndsIff(procs: seq<Process>, outcome: string -> RunState, root: string)
    requires UniqueIds(procs)
    ensures (exists order :: HasEnded(procs, outcome, root, order)) <==> !SelfTriggering(procs, outcome, root)
  {
    if order :| HasEnded(procs, outcome, root, order) {
      var runs := RunsAfter(procs, outcome, root, order);
      OrderComplete(procs, outcome, root, order);
      AllFinished(Evaluated(order), |runs|);
      if SelfTriggering(procs, outcome, root) {
        NoLastRun(procs, outcome, root, runs, 0);
      }
    }
    if !SelfTriggering(procs, outcome, root) {
      var ended := OrderGoesOn(procs, outcome, root, []);
    }
  }

  // ---------------------------------------------------------------- acyclic dependencies

  /** The dependency graph of the process rows. */
  function GraphOf(procs: seq<Process>): Graph {
    if procs == [] then map[]
    else GraphOf(procs[..|procs| - 1])[procs[|procs| - 1].id := procs[|procs| - 1].parent]
  }

  lemma {:induction false} GraphAt(procs: seq<Process>, i: nat)
    requires UniqueIds(procs) && i < |procs|
    ensures procs[i].id in GraphOf(procs) && GraphOf(procs)[procs[i].id] == procs[i].parent
  {
    if i < |procs| - 1 {
      GraphAt(procs[..|procs| - 1], i);
    }
  }

  lemma {:induction false} ReachedWalksBack(procs: seq<Process>, outcome: string -> RunState, root: string, n: nat, x: string)
    requires UniqueIds(procs) && (forall i :: 0 <= i < |procs| ==> procs[i].id != "") && root != ""
    requires Reached(procs, outcome, root, n, x)
    ensures x != "" && Walk(GraphOf(procs), x, n) == Some(root)
    decreases n
  {
    if n > 0 {
      var i :| 0 <= i < |procs| && procs[i].id == x && procs[i].parent.Some?
               && Triggers(procs[i], procs[i].parent.value, outcome(procs[i].parent.value))
               && Reached(procs, outcome, root, n - 1, procs[i].parent.value);
      var y := procs[i].parent.value;
      ReachedWalksBack(procs, outcome, root, n - 1, y);
      GraphAt(procs, i);
      assert Walk(GraphOf(procs), x, 0) == Some(x);
      assert Walk(GraphOf(procs), x, 1) == Some(y);
      WalkSplits(GraphOf(procs), x, 1, y, n - 1);
    }
  }

  /** With acyclic dependencies no root triggers itself, so every cascade ends. */
  lemma {:induction false} AcyclicEnds(procs: seq<Process>, outcome: string -> RunState, root: string)
    requires UniqueIds(procs) && (forall i :: 0 <= i < |procs| ==> procs[i].id != "") && root != "" && Acyclic(GraphOf(procs))
    ensures !SelfTriggering(procs, outcome, root)
  {
    if n: nat :| n > 0 && Reached(procs, outcome, root, n, root) {
      var g := GraphOf(procs);
      ReachedWalksBack(procs, outcome, root, n, root);
      assert Ends(g, root);
      var e: nat :| Walk(g, root, e).None?;
      assert Walk(g, root, 0) == Some(root);
      RevisitNeverEnds(g, root, 0, n, e);
    }
  }
}
