/** Process dependencies (internal/dependency/resolver.go): the check that a new dependency closes no
    cycle, and the cascade of runs that a finished run sets off. */
module Dependency {
  import opened Domain

  /** The rows the lookup can see: process id to the id it depends on, if any. */
  type Graph = map<string, Option<string>>

  /** The node reached after `k` steps from `x`; None once the walk has ended: at the empty id, at
      an unknown process, or at one that depends on nothing. */
  function Walk(g: Graph, x: string, k: nat): Option<string> {
    if k == 0 then (if x == "" then None else Some(x))
    else
      var y := Walk(g, x, k - 1);
      if y.Some? && y.value in g && g[y.value].Some? && g[y.value].value != "" then g[y.value] else None
  }

  ghost predicate Ends(g: Graph, x: string) {
    exists k: nat :: Walk(g, x, k).None?
  }

  ghost predicate Acyclic(g: Graph) {
    forall x :: Ends(g, x)
  }

  function Update(g: Graph, child: string, parent: string): Graph {
    g[child := Some(parent)]
  }

  // ---------------------------------------------------------------- walks

  lemma {:induction false} EndedStaysEnded(g: Graph, x: string, k: nat, m: nat)
    requires Walk(g, x, k).None? && k <= m
    ensures Walk(g, x, m).None?
    decreases m
  {
    if k < m {
      EndedStaysEnded(g, x, k, m - 1);
    }
  }

  lemma {:induction false} WalkSplits(g: Graph, x: string, j: nat, y: string, d: nat)
    requires Walk(g, x, j) == Some(y) && y != ""
    ensures Walk(g, x, j + d) == Walk(g, y, d)
  {
    if d > 0 {
      WalkSplits(g, x, j, y, d - 1);
    }
  }

  lemma {:induction false} WalkNotEmpty(g: Graph, x: string, k: nat)
    ensures Walk(g, x, k) != Some("")
  {
  }

  /** A walk that meets a node twice never ends. */
  lemma {:induction false} RevisitNeverEnds(g: Graph, x: string, j: nat, k: nat, n: nat)
    requires j < k && Walk(g, x, j).Some? && Walk(g, x, j) == Walk(g, x, k)
    ensures Walk(g, x, n).Some?
    decreases n
  {
    WalkNotEmpty(g, x, j);
    var y := Walk(g, x, j).value;
    if n <= k {
      if Walk(g, x, n).None? {
        EndedStaysEnded(g, x, n, k);
      }
    } else {
      WalkSplits(g, x, j, y, n - k);
      WalkSplits(g, x, k, y, n - k);
      RevisitNeverEnds(g, x, j, k, j + (n - k));
    }
  }

  /** Until a walk meets `child`, it does not notice what `child` depends on. */
  lemma {:induction false} WalkIgnores(g: Graph, child: string, parent: string, x: string, k: nat)
    requires forall j :: 0 <= j < k ==> Walk(g, x, j) != Some(child)
    ensures Walk(Update(g, child, parent), x, k) == Walk(g, x, k)
  {
    if k > 0 {
      WalkIgnores(g, child, parent, x, k - 1);
    }
  }

  lemma FromChild(g: Graph, child: string, parent: string, k: nat)
    requires child != "" && parent != ""
    ensures Walk(Update(g, child, parent), child, k + 1) == Walk(Update(g, child, parent), parent, k)
  {
    var g' := Update(g, child, parent);
    assert Walk(g', child, 0) == Some(child);
    assert Walk(g', child, 1) == Some(parent);
    WalkSplits(g', child, 1, parent, k);
  }

  // ---------------------------------------------------------------- the check

  lemma AcceptedEnds(g: Graph, child: string, parent: string, k: nat)
    requires child != "" && Walk(g, parent, k).None?
    requires forall j :: 0 <= j < k ==> Walk(g, parent, j) != Some(child)
    ensures Ends(Update(g, child, parent), child)
  {
    var g' := Update(g, child, parent);
    if parent == "" {
      assert Walk(g', child, 0) == Some(child);
      assert Walk(g', child, 1).None?;
    } else {
      WalkIgnores(g, child, parent, parent, k);
      FromChild(g, child, parent, k);
    }
  }

  lemma RejectedNeverEnds(g: Graph, child: string, parent: string, j: nat, k: nat)
    requires child != "" && Walk(g, parent, k).Some? && j <= k
    requires forall i :: 0 <= i < k ==> Walk(g, parent, i) != Some(child)
    requires Walk(g, parent, k) == Some(child) || (j < k && Walk(g, parent, j) == Walk(g, parent, k))
    ensures !Ends(Update(g, child, parent), child)
  {
    var g' := Update(g, child, parent);
    if parent == "" {
      EndedStaysEnded(g, parent, 0, k);
    }
    WalkIgnores(g, child, parent, parent, k);
    FromChild(g, child, parent, k);
    if Walk(g, parent, k) != Some(child) {
      WalkIgnores(g, child, parent, parent, j);
      FromChild(g, child, parent, j);
    }
    forall n: nat ensures Walk(g', child, n).Some? {
      if Walk(g, parent, k) == Some(child) {
        RevisitNeverEnds(g', child, 0, k + 1, n);
      } else {
        RevisitNeverEnds(g', child, j + 1, k + 1, n);
      }
    }
  }

  /** `ValidateNoCycles`: None to accept, the node met twice to reject.  It terminates on every
      graph, and accepts exactly the updates after which the walk from the child ends. */
  method ValidateNoCycles(g: Graph, child: string, parent: string) returns (cycleAt: Option<string>)
    requires child != ""
    ensures cycleAt.None? <==> Ends(Update(g, child, parent), child)
    ensures cycleAt.Some? ==> exists k: nat :: Walk(g, parent, k) == cycleAt
  {
    var visited := {child};
    var current := parent;
    ghost var k: nat := 0;
    while current != ""
      invariant Walk(g, parent, k) == if current == "" then None else Some(current)
      invariant child in visited
      invariant forall x :: x in visited ==> x == child || exists j :: 0 <= j < k && Walk(g, parent, j) == Some(x)
      invariant forall j :: 0 <= j < k ==> Walk(g, parent, j) != Some(child)
      decreases g.Keys - visited, current != ""
    {
      if current in visited {
        ghost var j :| 0 <= j <= k && (current == child || (j < k && Walk(g, parent, j) == Some(current)));
        RejectedNeverEnds(g, child, parent, j, k);
        return Some(current);
      }
      visited := visited + {current};
      if current !in g {
        assert Walk(g, parent, k + 1).None?;
        AcceptedEnds(g, child, parent, k + 1);
        return None;
      }
      if g[current].None? {
        assert Walk(g, parent, k + 1).None?;
        AcceptedEnds(g, child, parent, k + 1);
        return None;
      }
      assert Walk(g, parent, k) == Some(current);
      current := g[current].value;
      k := k + 1;
    }
    AcceptedEnds(g, child, parent, k);
    cycleAt := None;
  }

  /** Accepting keeps the whole graph acyclic, also when it replaces an old dependency of the child;
      and on an acyclic graph nothing else is rejected. */
  lemma AcceptedKeepsAcyclic(g: Graph, child: string, parent: string)
    requires Acyclic(g) && child != ""
    ensures Acyclic(Update(g, child, parent)) <==> Ends(Update(g, child, parent), child)
  {
    var g' := Update(g, child, parent);
    if Ends(g', child) {
      forall x ensures Ends(g', x) {
        assert Ends(g, x);
        var n: nat :| Walk(g, x, n).None?;
        if k: nat :| k < n && Walk(g, x, k) == Some(child) {
          var first := FirstVisit(g, x, child, k);
          WalkIgnores(g, child, parent, x, first);
          var m: nat :| Walk(g', child, m).None?;
          WalkSplits(g', x, first, child, m);
        } else {
          WalkIgnores(g, child, parent, x, n);
        }
      }
    }
  }

  lemma {:induction false} FirstVisit(g: Graph, x: string, y: string, k: nat) returns (first: nat)
    requires Walk(g, x, k) == Some(y)
    ensures first <= k && Walk(g, x, first) == Some(y) && forall j :: 0 <= j < first ==> Walk(g, x, j) != Some(y)
    decreases k
  {
    if j: nat :| j < k && Walk(g, x, j) == Some(y) {
      first := FirstVisit(g, x, y, j);
    } else {
      first := k;
    }
  }

  /** What is rejected: a dependency on a process whose own chain leads to the child, or into a cycle. */
  lemma RejectedExactly(g: Graph, child: string, parent: string)
    requires child != ""
    ensures !Ends(Update(g, child, parent), child)
       <==> !Ends(g, parent) || exists k: nat :: Walk(g, parent, k) == Some(child)
  {
    var g' := Update(g, child, parent);
    assert parent == "" ==> Walk(g, parent, 0).None?;
    if k: nat :| Walk(g, parent, k) == Some(child) {
      var first := FirstVisit(g, parent, child, k);
      RejectedNeverEnds(g, child, parent, first, first);
    } else if Ends(g, parent) {
      var n: nat :| Walk(g, parent, n).None?;
      AcceptedEnds(g, child, parent, n);
    } else if Ends(g', child) {
      var n: nat :| Walk(g', child, n).None?;
      EndedStaysEnded(g', child, n, n + 1);
      if parent != "" {
        FromChild(g, child, parent, n);
        WalkIgnores(g, child, parent, parent, n);
      }
    }
  }

  /** As written, the lookup runs with an empty workspace id and finds no process.  The check would then
      refuse a dependency of a process on itself and nothing else. */
  lemma EmptyLookupSeesOnlySelf(child: string, parent: string)
    requires child != ""
    ensures Ends(Update(map[], child, parent), child) <==> parent != child
  {
    RejectedExactly(map[], child, parent);
    assert Walk(map[], parent, 0) == Some(child) <==> parent == child;
    assert Walk(map[], parent, 1).None?;
    if k: nat :| Walk(map[], parent, k) == Some(child) {
      if k > 0 {
        EndedStaysEnded(map[], parent, 1, k);
      }
    }
  }
}
