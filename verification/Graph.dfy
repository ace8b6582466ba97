/** Reachability over the unresolved edges of a dependency list (internal/agent/state.go). */
module Graph {

  datatype Edge = Edge(blocked: string, blockedBy: string, resolved: bool, resolvedAt: int)

  ghost predicate Linked(deps: seq<Edge>, a: string, b: string) {
    exists i :: 0 <= i < |deps| && deps[i].blocked == a && deps[i].blockedBy == b && !deps[i].resolved
  }

  /** A walk follows one or more unresolved edges, from blocked to blocker. */
  ghost predicate Walk(deps: seq<Edge>, p: seq<string>, a: string, b: string) {
    && |p| >= 2
    && p[0] == a
    && p[|p| - 1] == b
    && forall k :: 0 < k < |p| ==> Linked(deps, p[k - 1], p[k])
  }

  ghost predicate Reaches(deps: seq<Edge>, a: string, b: string) {
    exists p :: Walk(deps, p, a, b)
  }

  ghost predicate Acyclic(deps: seq<Edge>) {
    forall x :: !Reaches(deps, x, x)
  }

  predicate HasPair(deps: seq<Edge>, a: string, b: string) {
    exists i :: 0 <= i < |deps| && deps[i].blocked == a && deps[i].blockedBy == b
  }

  /** What every store reachable through the store's own operations keeps. */
  ghost predicate WellFormed(deps: seq<Edge>) {
    && Acyclic(deps)
    && (forall i :: 0 <= i < |deps| ==> deps[i].blocked != deps[i].blockedBy)
    && (forall i, j :: 0 <= i < j < |deps| ==> deps[i].blocked != deps[j].blocked || deps[i].blockedBy != deps[j].blockedBy)
  }

  /** All task names that occur in an edge. */
  function Names(deps: seq<Edge>): set<string> {
    (set i | 0 <= i < |deps| :: deps[i].blocked) + (set i | 0 <= i < |deps| :: deps[i].blockedBy)
  }

  /** The number of unresolved edges that leave a task of `from`. */
  ghost function OpenFrom(deps: seq<Edge>, from: set<string>): nat {
    if deps == [] then
      0
    else
      var last := deps[|deps| - 1];
      OpenFrom(deps[..|deps| - 1], from) + (if !last.resolved && last.blocked in from then 1 else 0)
  }

  function OpenCount(deps: seq<Edge>): nat {
    if deps == [] then 0 else OpenCount(deps[..|deps| - 1]) + (if deps[|deps| - 1].resolved then 0 else 1)
  }

  /** The blockers of one task over its unresolved edges, in list order. */
  function OpenBlockersOf(deps: seq<Edge>, node: string): seq<string> {
    if deps == [] then
      []
    else
      var last := deps[|deps| - 1];
      OpenBlockersOf(deps[..|deps| - 1], node) + (if !last.resolved && last.blocked == node then [last.blockedBy] else [])
  }

  lemma OpenBlockersNext(deps: seq<Edge>, i: nat, node: string)
    requires i < |deps|
    ensures OpenBlockersOf(deps[..i + 1], node)
      == OpenBlockersOf(deps[..i], node) + (if !deps[i].resolved && deps[i].blocked == node then [deps[i].blockedBy] else [])
  {
    assert deps[..i + 1][..i] == deps[..i];
  }

  lemma {:induction false} OpenBlockersAreLinked(deps: seq<Edge>, node: string)
    ensures |OpenBlockersOf(deps, node)| == OpenFrom(deps, {node})
    ensures forall x :: x in OpenBlockersOf(deps, node) <==> Linked(deps, node, x)
  {
    if deps != [] {
      var front, last := deps[..|deps| - 1], deps[|deps| - 1];
      OpenBlockersAreLinked(front, node);
      assert deps == front + [last];
      forall x ensures x in OpenBlockersOf(deps, node) <==> Linked(deps, node, x) {
        LinkedAppend(front, last, node, x);
      }
    }
  }

  lemma {:induction false} OpenFromAtMost(deps: seq<Edge>, from: set<string>)
    ensures OpenFrom(deps, from) <= OpenCount(deps)
  {
    if deps != [] {
      OpenFromAtMost(deps[..|deps| - 1], from);
    }
  }

  lemma {:induction false} OpenFromAdd(deps: seq<Edge>, from: set<string>, n: string)
    requires n !in from
    ensures OpenFrom(deps, from + {n}) == OpenFrom(deps, from) + OpenFrom(deps, {n})
  {
    if deps != [] {
      OpenFromAdd(deps[..|deps| - 1], from, n);
    }
  }

  // ---------- walks ----------

  lemma StepReaches(deps: seq<Edge>, a: string, b: string)
    requires Linked(deps, a, b)
    ensures Reaches(deps, a, b)
  {
    assert Walk(deps, [a, b], a, b);
  }

  lemma ReachesStep(deps: seq<Edge>, a: string, b: string, c: string)
    requires a == b || Reaches(deps, a, b)
    requires Linked(deps, b, c)
    ensures Reaches(deps, a, c)
  {
    if a == b {
      StepReaches(deps, b, c);
    } else {
      var p :| Walk(deps, p, a, b);
      assert Walk(deps, p + [c], a, c);
    }
  }

  lemma ReachesTrans(deps: seq<Edge>, a: string, b: string, c: string)
    requires Reaches(deps, a, b) && Reaches(deps, b, c)
    ensures Reaches(deps, a, c)
  {
    var p :| Walk(deps, p, a, b);
    var q :| Walk(deps, q, b, c);
    var r := p + q[1..];
    forall k | 0 < k < |r| ensures Linked(deps, r[k - 1], r[k]) {
      if k >= |p| {
        assert r[k] == q[k - |p| + 1];
        assert r[k - 1] == q[k - |p|];
      }
    }
    assert Walk(deps, r, a, c);
  }

  /** The last step of a walk, and what precedes it. */
  lemma LastStep(deps: seq<Edge>, p: seq<string>, a: string, b: string)
    requires Walk(deps, p, a, b)
    ensures Linked(deps, p[|p| - 2], b)
    ensures |p| == 2 ==> p[0] == a
    ensures |p| > 2 ==> Walk(deps, p[..|p| - 1], a, p[|p| - 2])
  {
    assert Linked(deps, p[|p| - 1 - 1], p[|p| - 1]);
  }

  lemma ReachedIsBlocker(deps: seq<Edge>, a: string, b: string)
    requires Reaches(deps, a, b)
    ensures b in Names(deps)
  {
    var p :| Walk(deps, p, a, b);
    LastStep(deps, p, a, b);
  }

  /** A set that holds the start and is closed under unresolved edges holds everything reachable. */
  lemma {:induction false} ClosedSetHolds(deps: seq<Edge>, closed: set<string>, p: seq<string>, a: string, b: string)
    requires a in closed
    requires forall x, y :: x in closed && Linked(deps, x, y) ==> y in closed
    requires Walk(deps, p, a, b)
    ensures b in closed
    decreases |p|
  {
    LastStep(deps, p, a, b);
    if |p| > 2 {
      ClosedSetHolds(deps, closed, p[..|p| - 1], a, p[|p| - 2]);
    }
  }

  /** Reachability only depends on which pairs are linked. */
  lemma ReachesMonotone(d1: seq<Edge>, d2: seq<Edge>, a: string, b: string)
    requires forall x, y :: Linked(d1, x, y) ==> Linked(d2, x, y)
    ensures Reaches(d1, a, b) ==> Reaches(d2, a, b)
  {
    if Reaches(d1, a, b) {
      var p :| Walk(d1, p, a, b);
      assert Walk(d2, p, a, b);
    }
  }

  // ---------- adding an edge ----------

  lemma LinkedAppend(deps: seq<Edge>, e: Edge, x: string, y: string)
    ensures Linked(deps + [e], x, y) <==> Linked(deps, x, y) || (!e.resolved && x == e.blocked && y == e.blockedBy)
  {
    var d := deps + [e];
    if Linked(deps, x, y) {
      var i :| 0 <= i < |deps| && deps[i].blocked == x && deps[i].blockedBy == y && !deps[i].resolved;
      assert d[i] == deps[i];
    }
    if !e.resolved && x == e.blocked && y == e.blockedBy {
      assert d[|deps|] == e;
    }
  }

  /** A walk over deps + [e] stays within deps, or passes e: then e's ends are joined to the walk's within deps. */
  lemma {:induction false} WalkThroughNewEdge(deps: seq<Edge>, e: Edge, p: seq<string>, a: string, b: string)
    requires Walk(deps + [e], p, a, b)
    ensures
      || Reaches(deps, a, b)
      || ((a == e.blocked || Reaches(deps, a, e.blocked)) && (b == e.blockedBy || Reaches(deps, e.blockedBy, b)))
    decreases |p|
  {
    LastStep(deps + [e], p, a, b);
    var c := p[|p| - 2];
    LinkedAppend(deps, e, c, b);
    if |p| > 2 {
      WalkThroughNewEdge(deps, e, p[..|p| - 1], a, c);
    }
    if Linked(deps, c, b) {
      if |p| == 2 || Reaches(deps, a, c) {
        ReachesStep(deps, a, c, b);
      } else {
        ReachesStep(deps, e.blockedBy, c, b);
      }
    }
  }

  lemma AppendKeepsAcyclic(deps: seq<Edge>, e: Edge)
    requires Acyclic(deps)
    requires e.blocked != e.blockedBy && !Reaches(deps, e.blockedBy, e.blocked)
    ensures Acyclic(deps + [e])
  {
    forall x ensures !Reaches(deps + [e], x, x) {
      if Reaches(deps + [e], x, x) {
        var p :| Walk(deps + [e], p, x, x);
        WalkThroughNewEdge(deps, e, p, x, x);
        if x != e.blockedBy && x != e.blocked {
          ReachesTrans(deps, e.blockedBy, x, e.blocked);
        }
        assert false;
      }
    }
  }

  /** The guard is exact: an open edge closes a cycle just when it is a self-loop or its blocker already waits for its task. */
  lemma AppendAcyclicIff(deps: seq<Edge>, e: Edge)
    requires Acyclic(deps) && !e.resolved
    ensures Acyclic(deps + [e]) <==> e.blocked != e.blockedBy && !Reaches(deps, e.blockedBy, e.blocked)
  {
    var more := deps + [e];
    if e.blocked != e.blockedBy && !Reaches(deps, e.blockedBy, e.blocked) {
      AppendKeepsAcyclic(deps, e);
    } else {
      assert more[|deps|] == e;
      assert Linked(more, e.blocked, e.blockedBy);
      StepReaches(more, e.blocked, e.blockedBy);
      if e.blocked != e.blockedBy {
        forall x, y ensures Linked(deps, x, y) ==> Linked(more, x, y) {
          LinkedAppend(deps, e, x, y);
        }
        ReachesMonotone(deps, more, e.blockedBy, e.blocked);
        ReachesTrans(more, e.blocked, e.blockedBy, e.blocked);
      }
    }
  }
}
