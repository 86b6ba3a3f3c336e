/** The task-dependency graph as the task store exposes it.

    The pivot table `task_dependencies` holds rows (task_id, depends_on_task_id);
    here it is `edges`, a map from a task id to the ids it depends on (a missing
    key means no rows). `live` is the set of ids of tasks that are not
    soft-deleted. The store only reports a dependency whose target is a live task,
    and reports nothing for a task that is not live itself. */
module TaskGraph {

  type Edges = map<int, set<int>>

  /** The pivot rows of task `t` (every target, live or not). */
  function Row(edges: Edges, t: int): set<int> {
    if t in edges then edges[t] else {}
  }

  /** The dependencies of `t` as the store returns them. */
  function Dependencies(live: set<int>, edges: Edges, t: int): (r: set<int>)
    ensures r <= live
    ensures t !in live ==> r == {}
    ensures t in live ==> r == Row(edges, t) * live
  {
    if t in live then Row(edges, t) * live else {}
  }

  /** The dependents of `a`: the live tasks that have a row depending on `a`. */
  function Dependents(live: set<int>, edges: Edges, a: int): (r: set<int>)
    ensures r <= live
    ensures a !in live ==> r == {}
  {
    if a in live then set b | b in live && a in Row(edges, b) else {}
  }

  /** `getDependents` and `getDependencies` read the same rows with the columns
      swapped: for live tasks, b is a dependent of a exactly when a is a
      dependency of b. */
  lemma DependentsMirrorDependencies(live: set<int>, edges: Edges, a: int, b: int)
    requires a in live && b in live
    ensures b in Dependents(live, edges, a) <==> a in Dependencies(live, edges, b)
  {
  }

  /** `syncWithoutDetaching([d])` on the rows of `t`: a row for d afterwards, no duplicate. */
  function Attach(edges: Edges, t: int, d: int): (r: Edges)
    ensures Row(r, t) == Row(edges, t) + {d}
    ensures forall x :: x != t ==> Row(r, x) == Row(edges, x)
  {
    edges[t := Row(edges, t) + {d}]
  }

  /** `detach(d)` on the rows of `t`: the row for d is gone, nothing else changes. */
  function Detach(edges: Edges, t: int, d: int): (r: Edges)
    ensures Row(r, t) == Row(edges, t) - {d}
    ensures forall x :: x != t ==> Row(r, x) == Row(edges, x)
  {
    if t in edges then edges[t := edges[t] - {d}] else edges
  }

  /** A walk along depends-on edges: each element depends on the one before it. */
  ghost predicate IsPath(live: set<int>, edges: Edges, p: seq<int>) {
    |p| >= 1 && forall i :: 0 <= i < |p| - 1 ==> p[i + 1] in Dependencies(live, edges, p[i])
  }

  /** `b` is reachable from `a` by zero or more depends-on edges. */
  ghost predicate Reachable(live: set<int>, edges: Edges, a: int, b: int) {
    exists p :: IsPath(live, edges, p) && p[0] == a && p[|p| - 1] == b
  }

  /** No dependency edge lies on a cycle: for an edge a -> b, a is not reachable from b. */
  ghost predicate Acyclic(live: set<int>, edges: Edges) {
    forall a, b :: b in Dependencies(live, edges, a) ==> !Reachable(live, edges, b, a)
  }

  /** Every task that is not live has no dependencies, so no walk leaves it. */
  ghost predicate Closed(live: set<int>, edges: Edges, s: set<int>) {
    forall v :: v in s ==> Dependencies(live, edges, v) <= s
  }

  lemma ReachableRefl(live: set<int>, edges: Edges, a: int)
    ensures Reachable(live, edges, a, a)
  {
    assert IsPath(live, edges, [a]);
  }

  /** One edge followed by a walk is a walk. */
  lemma ReachableStep(live: set<int>, edges: Edges, a: int, b: int, c: int)
    requires b in Dependencies(live, edges, a)
    requires Reachable(live, edges, b, c)
    ensures Reachable(live, edges, a, c)
  {
    var p :| IsPath(live, edges, p) && p[0] == b && p[|p| - 1] == c;
    var q := [a] + p;
    assert forall i :: 1 <= i < |q| - 1 ==> q[i + 1] == p[i] && q[i] == p[i - 1];
    assert IsPath(live, edges, q);
  }

  /** A walk followed by one edge is a walk. */
  lemma ReachableExtend(live: set<int>, edges: Edges, a: int, b: int, c: int)
    requires Reachable(live, edges, a, b)
    requires c in Dependencies(live, edges, b)
    ensures Reachable(live, edges, a, c)
  {
    var p :| IsPath(live, edges, p) && p[0] == a && p[|p| - 1] == b;
    var q := p + [c];
    assert forall i :: 0 <= i < |p| ==> q[i] == p[i];
    assert IsPath(live, edges, q);
  }

  /** Reachability is transitive. */
  lemma ReachableTrans(live: set<int>, edges: Edges, a: int, b: int, c: int)
    requires Reachable(live, edges, a, b)
    requires Reachable(live, edges, b, c)
    ensures Reachable(live, edges, a, c)
  {
    var p :| IsPath(live, edges, p) && p[0] == a && p[|p| - 1] == b;
    var q :| IsPath(live, edges, q) && q[0] == b && q[|q| - 1] == c;
    var r := p + q[1..];
    assert forall i :: 0 <= i < |p| ==> r[i] == p[i];
    assert forall i :: |p| <= i < |r| ==> r[i] == q[i - |p| + 1];
    assert IsPath(live, edges, r);
  }

  /** Every element of a walk that starts in a closed set stays in that set. */
  lemma {:induction false} PathStaysInClosed(live: set<int>, edges: Edges, s: set<int>, p: seq<int>, k: nat)
    requires Closed(live, edges, s)
    requires IsPath(live, edges, p) && p[0] in s
    requires k < |p|
    ensures p[k] in s
  {
    if k > 0 {
      PathStaysInClosed(live, edges, s, p, k - 1);
      assert p[k] in Dependencies(live, edges, p[k - 1]);
    }
  }

  /** A closed set that contains `a` contains everything reachable from `a`. */
  lemma ClosedContainsReachable(live: set<int>, edges: Edges, s: set<int>, a: int, b: int)
    requires Closed(live, edges, s) && a in s
    ensures Reachable(live, edges, a, b) ==> b in s
  {
    if Reachable(live, edges, a, b) {
      var p :| IsPath(live, edges, p) && p[0] == a && p[|p| - 1] == b;
      PathStaysInClosed(live, edges, s, p, |p| - 1);
    }
  }

  /** A walk after `t -> d` is added either avoids the new edge, or goes through it:
      from the start to t, then from d to the end, both in the old graph. */
  lemma {:induction false} AttachedPath(live: set<int>, edges: Edges, t: int, d: int, p: seq<int>)
    requires IsPath(live, Attach(edges, t, d), p)
    ensures Reachable(live, edges, p[0], p[|p| - 1])
         || (Reachable(live, edges, p[0], t) && Reachable(live, edges, d, p[|p| - 1]))
  {
    var e' := Attach(edges, t, d);
    var last := p[|p| - 1];
    if |p| == 1 {
      ReachableRefl(live, edges, p[0]);
    } else {
      var q := p[..|p| - 1];
      var z := q[|q| - 1];
      assert forall i :: 0 <= i < |q| ==> q[i] == p[i];
      assert IsPath(live, e', q);
      AttachedPath(live, edges, t, d, q);
      assert last in Dependencies(live, e', z);
      if last in Dependencies(live, edges, z) {
        if Reachable(live, edges, q[0], z) {
          ReachableExtend(live, edges, q[0], z, last);
        } else {
          ReachableExtend(live, edges, d, z, last);
        }
      } else {
        assert z == t && last == d;
        ReachableRefl(live, edges, d);
        if Reachable(live, edges, q[0], z) {
        }
      }
    }
  }

  lemma AttachedReachable(live: set<int>, edges: Edges, t: int, d: int, a: int, b: int)
    requires Reachable(live, Attach(edges, t, d), a, b)
    ensures Reachable(live, edges, a, b)
         || (Reachable(live, edges, a, t) && Reachable(live, edges, d, b))
  {
    var p :| IsPath(live, Attach(edges, t, d), p) && p[0] == a && p[|p| - 1] == b;
    AttachedPath(live, edges, t, d, p);
  }

  /** Adding the edge `t -> d` to an acyclic graph leaves it acyclic exactly when
      there was no walk from d back to t (the check the service performs). */
  lemma AttachPreservesAcyclic(live: set<int>, edges: Edges, t: int, d: int)
    requires Acyclic(live, edges)
    requires t != d
    requires !Reachable(live, edges, d, t)
    ensures Acyclic(live, Attach(edges, t, d))
  {
    var e' := Attach(edges, t, d);
    forall a, b | b in Dependencies(live, e', a)
      ensures !Reachable(live, e', b, a)
    {
      if Reachable(live, e', b, a) {
        AttachedReachable(live, edges, t, d, b, a);
        if b in Dependencies(live, edges, a) {
          if Reachable(live, edges, b, a) {
          } else {
            // d ->* a -> b ->* t was already a walk
            ReachableExtend(live, edges, d, a, b);
            ReachableTrans(live, edges, d, b, t);
          }
        }
      }
    }
  }

  /** Conversely, if a walk from d back to t exists, the edge `t -> d` closes a cycle. */
  lemma AttachOnWalkBackIsCyclic(live: set<int>, edges: Edges, t: int, d: int)
    requires t in live && d in live
    requires Reachable(live, edges, d, t)
    ensures !Acyclic(live, Attach(edges, t, d))
  {
    var e' := Attach(edges, t, d);
    assert d in Dependencies(live, e', t);
    var p :| IsPath(live, edges, p) && p[0] == d && p[|p| - 1] == t;
    forall i | 0 <= i < |p| - 1 ensures p[i + 1] in Dependencies(live, e', p[i]) {
      assert p[i + 1] in Dependencies(live, edges, p[i]);
    }
    assert IsPath(live, e', p);
  }

  /** Every walk in a graph whose dependency sets shrank was a walk before. */
  lemma {:induction false} SubgraphPath(live: set<int>, edges: Edges, live': set<int>, edges': Edges, p: seq<int>)
    requires forall x :: Dependencies(live', edges', x) <= Dependencies(live, edges, x)
    requires IsPath(live', edges', p)
    ensures IsPath(live, edges, p)
  {
    forall i | 0 <= i < |p| - 1 ensures p[i + 1] in Dependencies(live, edges, p[i]) {
      assert p[i + 1] in Dependencies(live', edges', p[i]);
    }
  }

  lemma SubgraphReachable(live: set<int>, edges: Edges, live': set<int>, edges': Edges, a: int, b: int)
    requires forall x :: Dependencies(live', edges', x) <= Dependencies(live, edges, x)
    ensures Reachable(live', edges', a, b) ==> Reachable(live, edges, a, b)
  {
    if Reachable(live', edges', a, b) {
      var p :| IsPath(live', edges', p) && p[0] == a && p[|p| - 1] == b;
      SubgraphPath(live, edges, live', edges', p);
    }
  }

  /** Removing edges or tasks keeps an acyclic graph acyclic. */
  lemma SubgraphPreservesAcyclic(live: set<int>, edges: Edges, live': set<int>, edges': Edges)
    requires Acyclic(live, edges)
    requires forall x :: Dependencies(live', edges', x) <= Dependencies(live, edges, x)
    ensures Acyclic(live', edges')
  {
    forall a, b | b in Dependencies(live', edges', a)
      ensures !Reachable(live', edges', b, a)
    {
      SubgraphReachable(live, edges, live', edges', b, a);
    }
  }

  lemma DetachPreservesAcyclic(live: set<int>, edges: Edges, t: int, d: int)
    requires Acyclic(live, edges)
    ensures Acyclic(live, Detach(edges, t, d))
  {
    SubgraphPreservesAcyclic(live, edges, live, Detach(edges, t, d));
  }

  /** Soft-deleting a task keeps the live graph acyclic. */
  lemma RemoveTaskPreservesAcyclic(live: set<int>, edges: Edges, t: int)
    requires Acyclic(live, edges)
    ensures Acyclic(live - {t}, edges)
  {
    SubgraphPreservesAcyclic(live, edges, live - {t}, edges);
  }

  /** A task without dependencies reaches only itself. */
  lemma NoWalkFromSink(live: set<int>, edges: Edges, a: int, b: int)
    requires Dependencies(live, edges, a) == {}
    ensures a != b ==> !Reachable(live, edges, a, b)
  {
    ClosedContainsReachable(live, edges, {a}, a, b);
  }

  /** Restoring a soft-deleted task does not keep the live graph acyclic: its old
      rows come back. With rows 1 -> 2, 2 -> 3 and 3 -> 1 and task 2 trashed, the
      live graph {1, 3} has the single edge 3 -> 1 (the rows of 1 point at a trashed
      task), so the cycle guard let 3 -> 1 in; restoring task 2 closes 1 -> 2 -> 3 -> 1. */
  lemma RestoreCanExposeCycle()
    ensures var edges: Edges := map[1 := {2}, 2 := {3}, 3 := {1}];
            Acyclic({1, 3}, edges) && !Acyclic({1, 2, 3}, edges)
  {
    var edges: Edges := map[1 := {2}, 2 := {3}, 3 := {1}];
    var live := {1, 3};
    assert Dependencies(live, edges, 1) == {};
    NoWalkFromSink(live, edges, 1, 3);
    forall a, b | b in Dependencies(live, edges, a)
      ensures !Reachable(live, edges, b, a)
    {
      assert a == 3 && b == 1;
    }
    var all := {1, 2, 3};
    var w := [2, 3, 1];
    assert IsPath(all, edges, w);
    assert 2 in Dependencies(all, edges, 1);
  }

  /** The cycle guard refuses only walks back, not a second route: with 1 -> 2,
      1 -> 3 and 2 -> 4, the edge 3 -> 4 passes every guard of `addDependency`
      although 1 already reaches 4, and afterwards 1 reaches 4 along two walks
      while the graph stays acyclic. */
  lemma DiamondIsAccepted()
    ensures var live := {1, 2, 3, 4};
            var edges: Edges := map[1 := {2, 3}, 2 := {4}];
            && Acyclic(live, edges)
            && 4 !in Row(edges, 3) && !Reachable(live, edges, 4, 3) && Reachable(live, edges, 1, 4)
            && IsPath(live, Attach(edges, 3, 4), [1, 2, 4]) && IsPath(live, Attach(edges, 3, 4), [1, 3, 4])
            && Acyclic(live, Attach(edges, 3, 4))
  {
    var live := {1, 2, 3, 4};
    var edges: Edges := map[1 := {2, 3}, 2 := {4}];
    assert Dependencies(live, edges, 4) == {};
    assert Dependencies(live, edges, 3) == {};
    NoWalkFromSink(live, edges, 4, 3);
    forall a, b | b in Dependencies(live, edges, a)
      ensures !Reachable(live, edges, b, a)
    {
      if a == 1 {
        assert Closed(live, edges, {2, 3, 4});
        ClosedContainsReachable(live, edges, {2, 3, 4}, b, a);
      } else {
        assert a == 2 && b == 4;
        NoWalkFromSink(live, edges, 4, 2);
      }
    }
    assert IsPath(live, edges, [1, 2, 4]);
    AttachPreservesAcyclic(live, edges, 3, 4);
  }
}
