/** What every run of a StateStore keeps, and when a blocked store can always be completed. */
module StateLaws {
  import opened Protocol
  import opened Graph
  import opened State

  // ---------- each operation keeps the graph well formed ----------

  lemma WithEdgeKeeps(deps: seq<Edge>, e: Edge)
    requires WellFormed(deps)
    ensures WellFormed(WithEdge(deps, e))
  {
    if !HasPair(deps, e.blocked, e.blockedBy) && !ClosesCycle(deps, e.blocked, e.blockedBy) {
      AppendKeepsAcyclic(deps, e);
    }
  }

  lemma {:induction false} WithBlockersKeeps(deps: seq<Edge>, task: string, blockers: seq<string>)
    requires WellFormed(deps)
    ensures WellFormed(WithBlockers(deps, task, blockers))
  {
    if blockers != [] {
      var front := blockers[..|blockers| - 1];
      WithBlockersKeeps(deps, task, front);
      WithEdgeKeeps(WithBlockers(deps, task, front), Edge(task, blockers[|blockers| - 1], false, 0));
    }
  }

  lemma ResolveOnlyUnlinks(deps: seq<Edge>, task: string, now: int, x: string, y: string)
    ensures Linked(ResolveAll(deps, task, now), x, y) <==> Linked(deps, x, y) && y != task
  {
    var r := ResolveAll(deps, task, now);
    if Linked(r, x, y) {
      var i :| 0 <= i < |r| && r[i].blocked == x && r[i].blockedBy == y && !r[i].resolved;
      assert r[i] == ResolveEdge(deps[i], task, now);
    }
    if Linked(deps, x, y) && y != task {
      var i :| 0 <= i < |deps| && deps[i].blocked == x && deps[i].blockedBy == y && !deps[i].resolved;
      assert r[i] == ResolveEdge(deps[i], task, now);
    }
  }

  lemma ResolveKeeps(deps: seq<Edge>, task: string, now: int)
    requires WellFormed(deps)
    ensures WellFormed(ResolveAll(deps, task, now))
  {
    var r := ResolveAll(deps, task, now);
    forall x, y ensures Linked(r, x, y) ==> Linked(deps, x, y) {
      ResolveOnlyUnlinks(deps, task, now, x, y);
    }
    forall x ensures !Reaches(r, x, x) {
      ReachesMonotone(r, deps, x, x);
    }
  }

  lemma AfterKeeps(s: Store, msg: Message, now: int)
    requires WellFormed(s.deps)
    ensures WellFormed(After(s, msg, now).deps)
  {
    ResolveKeeps(s.deps, msg.Get("task"), now);
    WithBlockersKeeps(s.deps, msg.Get("task"), Blockers(msg));
  }

  // ---------- runs ----------

  /** What a caller can do to a store. Load restores the k-th snapshot the store itself saved. */
  datatype Op = Update(msg: Message, now: int) | Add(edge: Edge) | Save | Load(k: nat)

  datatype System = System(store: Store, saved: seq<Store>)

  ghost function Step(s: System, op: Op): System {
    match op
    case Update(msg, now) => s.(store := After(s.store, msg, now))
    case Add(edge) => s.(store := s.store.(deps := WithEdge(s.store.deps, edge)))
    case Save => s.(saved := s.saved + [s.store])
    case Load(k) => if k < |s.saved| then s.(store := s.saved[k]) else s
  }

  ghost function Run(s: System, ops: seq<Op>): System {
    if ops == [] then s else Step(Run(s, ops[..|ops| - 1]), ops[|ops| - 1])
  }

  const EMPTY_SYSTEM := System(EMPTY_STORE, [])

  lemma {:induction false} RunConcat(s: System, a: seq<Op>, b: seq<Op>)
    ensures Run(s, a + b) == Run(Run(s, a), b)
  {
    if b == [] {
      assert a + b == a;
    } else {
      assert (a + b)[..|a + b| - 1] == a + b[..|b| - 1];
      RunConcat(s, a, b[..|b| - 1]);
    }
  }

  ghost predicate AllWellFormed(s: System) {
    WellFormed(s.store.deps) && forall k :: 0 <= k < |s.saved| ==> WellFormed(s.saved[k].deps)
  }

  lemma EmptyIsWellFormed()
    ensures WellFormed([])
  {
    forall x ensures !Reaches([], x, x) {
      if Reaches([], x, x) {
        var p :| Walk([], p, x, x);
        LastStep([], p, x, x);
      }
    }
  }

  /** Safety over whole runs: no cycle of open edges, no self-loop, no pair twice, whatever the callers do. */
  lemma {:induction false} ReachableIsWellFormed(ops: seq<Op>)
    ensures AllWellFormed(Run(EMPTY_SYSTEM, ops))
  {
    if ops == [] {
      EmptyIsWellFormed();
    } else {
      ReachableIsWellFormed(ops[..|ops| - 1]);
      var s, op := Run(EMPTY_SYSTEM, ops[..|ops| - 1]), ops[|ops| - 1];
      match op {
        case Update(msg, now) => AfterKeeps(s.store, msg, now);
        case Add(edge) => WithEdgeKeeps(s.store.deps, edge);
        case Save =>
        case Load(k) =>
      }
    }
  }

  /** The two searches agree: an edge is refused exactly when its blocked end is among its blocker's own blockers. */
  lemma CycleIffListed(deps: seq<Edge>, blocked: string, blockedBy: string, result: seq<string>)
    requires ListsBlockers(deps, blockedBy, result)
    ensures ClosesCycle(deps, blocked, blockedBy) <==> blocked == blockedBy || blocked in result
  {
    hide HasDuplicates, NearestFirst, Reaches;
  }

  /** In every reachable store, no task is listed among its own transitive blockers. */
  lemma NeverBlocksItself(ops: seq<Op>, task: string, result: seq<string>)
    requires ListsBlockers(Run(EMPTY_SYSTEM, ops).store.deps, task, result)
    ensures task !in result
  {
    hide Run, HasDuplicates, NearestFirst, Reaches;
    ReachableIsWellFormed(ops);
  }

  // ---------- history ----------

  /** The list only grows at its end, and an entry changes at most once: from open to resolved. */
  ghost predicate Evolves(before: seq<Edge>, after: seq<Edge>) {
    && |before| <= |after|
    && forall i :: 0 <= i < |before| ==>
      && after[i].blocked == before[i].blocked
      && after[i].blockedBy == before[i].blockedBy
      && (after[i] == before[i] || (!before[i].resolved && after[i].resolved))
  }

  lemma {:induction false} WithBlockersEvolves(deps: seq<Edge>, task: string, blockers: seq<string>)
    ensures Evolves(deps, WithBlockers(deps, task, blockers))
  {
    if blockers != [] {
      WithBlockersEvolves(deps, task, blockers[..|blockers| - 1]);
    }
  }

  lemma StepEvolves(s: System, op: Op)
    requires !op.Load?
    ensures Evolves(s.store.deps, Step(s, op).store.deps)
  {
    if op.Update? {
      WithBlockersEvolves(s.store.deps, op.msg.Get("task"), Blockers(op.msg));
    }
  }

  lemma {:induction false} HistoryOnlyEvolves(s: System, ops: seq<Op>)
    requires forall i :: 0 <= i < |ops| ==> !ops[i].Load?
    ensures Evolves(s.store.deps, Run(s, ops).store.deps)
  {
    if ops != [] {
      HistoryOnlyEvolves(s, ops[..|ops| - 1]);
      StepEvolves(Run(s, ops[..|ops| - 1]), ops[|ops| - 1]);
    }
  }

  // ---------- no deadlock ----------

  /** The distinct tasks that still block some task. */
  function OpenBlockers(deps: seq<Edge>): set<string> {
    set i | 0 <= i < |deps| && !deps[i].resolved :: deps[i].blockedBy
  }

  ghost predicate Unblocked(deps: seq<Edge>, task: string) {
    forall y :: !Linked(deps, task, y)
  }

  lemma OpenBlockersLinked(deps: seq<Edge>, y: string)
    ensures y in OpenBlockers(deps) <==> exists x :: Linked(deps, x, y)
  {
    if y in OpenBlockers(deps) {
      var i :| 0 <= i < |deps| && !deps[i].resolved && deps[i].blockedBy == y;
      assert Linked(deps, deps[i].blocked, y);
    }
  }

  ghost function ReachedFrom(deps: seq<Edge>, x: string): set<string> {
    set y | y in Names(deps) && Reaches(deps, x, y)
  }

  /** Without cycles, following open edges from any task leads to one that waits for nothing. */
  lemma {:induction false} SomeBlockerIsFree(deps: seq<Edge>, x: string) returns (free: string)
    requires Acyclic(deps)
    requires x in OpenBlockers(deps)
    ensures free in OpenBlockers(deps) && Unblocked(deps, free)
    decreases |ReachedFrom(deps, x)|
  {
    if Unblocked(deps, x) {
      free := x;
    } else {
      var y :| Linked(deps, x, y);
      OpenBlockersLinked(deps, y);
      ReachedShrinks(deps, x, y);
      free := SomeBlockerIsFree(deps, y);
    }
  }

  lemma ReachedShrinks(deps: seq<Edge>, x: string, y: string)
    requires Acyclic(deps) && Linked(deps, x, y)
    ensures |ReachedFrom(deps, y)| < |ReachedFrom(deps, x)|
  {
    StepReaches(deps, x, y);
    ReachedIsBlocker(deps, x, y);
    var small, big := ReachedFrom(deps, y), ReachedFrom(deps, x);
    forall z | z in small ensures z in big {
      ReachesTrans(deps, x, y, z);
    }
    assert y in big && y !in small;
    assert big == small + (big - small);
    assert big - small != {};
  }

  function Completion(task: string): Message {
    NewMessage(Completed, map["task" := task], [])
  }

  /** The store after the given tasks were completed in this order. */
  ghost function Drained(s: Store, order: seq<string>, now: int): Store
    decreases |order|
  {
    if order == [] then s else Drained(After(s, Completion(order[0]), now), order[1..], now)
  }

  /** Every task is completed at a moment when it waits for nothing. */
  ghost predicate InOrder(s: Store, order: seq<string>, now: int)
    decreases |order|
  {
    order == [] || (Unblocked(s.deps, order[0]) && InOrder(After(s, Completion(order[0]), now), order[1..], now))
  }

  /** Nothing is open, and every task that is still Blocked and has edges is reported by UnblockedTasks. */
  ghost predicate Released(s: Store) {
    && OpenBlockers(s.deps) == {}
    && forall k :: k in s.tasks && s.tasks[k].status == IsBlocked && (exists i :: 0 <= i < |s.deps| && s.deps[i].blocked == s.tasks[k].name)
        ==> Ready(s.tasks[k], s.deps)
  }

  ghost predicate Releases(s: Store, order: seq<string>, now: int) {
    InOrder(s, order, now) && Released(Drained(s, order, now))
  }

  lemma CompletionRemoves(s: Store, task: string, now: int)
    requires task != ""
    ensures OpenBlockers(After(s, Completion(task), now).deps) == OpenBlockers(s.deps) - {task}
    ensures After(s, Completion(task), now).deps == ResolveAll(s.deps, task, now)
  {
    var r := ResolveAll(s.deps, task, now);
    forall y ensures y in OpenBlockers(r) <==> y in OpenBlockers(s.deps) && y != task {
      OpenBlockersLinked(r, y);
      OpenBlockersLinked(s.deps, y);
      forall x ensures Linked(r, x, y) <==> Linked(s.deps, x, y) && y != task {
        ResolveOnlyUnlinks(s.deps, task, now, x, y);
      }
    }
  }

  lemma OpenMember(deps: seq<Edge>, i: nat)
    requires i < |deps|
    ensures deps[i].resolved || deps[i].blockedBy in OpenBlockers(deps)
  {
  }

  lemma NothingOpenIsReleased(s: Store)
    requires OpenBlockers(s.deps) == {}
    ensures Released(s)
  {
    forall i | 0 <= i < |s.deps| ensures s.deps[i].resolved {
      OpenMember(s.deps, i);
    }
  }

  /** No deadlock: completing free blockers one after another releases the store, one completion per open blocker. */
  lemma {:induction false} DrainOrder(s: Store, now: int) returns (order: seq<string>)
    requires WellFormed(s.deps) && "" !in OpenBlockers(s.deps)
    ensures InOrder(s, order, now)
    ensures |order| == |OpenBlockers(s.deps)|
    ensures Released(Drained(s, order, now))
    decreases |OpenBlockers(s.deps)|
  {
    if OpenBlockers(s.deps) == {} {
      order := [];
      NothingOpenIsReleased(s);
    } else {
      var x :| x in OpenBlockers(s.deps);
      var free := SomeBlockerIsFree(s.deps, x);
      var next := After(s, Completion(free), now);
      CompletionRemoves(s, free, now);
      ResolveKeeps(s.deps, free, now);
      var rest := DrainOrder(next, now);
      order := [free] + rest;
      assert order[1..] == rest;
    }
  }

  /** An edge whose blocker has no name outlives every message. */
  lemma {:induction false} NamelessStaysOpen(s: Store, order: seq<string>, now: int)
    requires "" in OpenBlockers(s.deps)
    ensures "" in OpenBlockers(Drained(s, order, now).deps)
    decreases |order|
  {
    if order != [] {
      if order[0] != "" {
        CompletionRemoves(s, order[0], now);
      }
      NamelessStaysOpen(After(s, Completion(order[0]), now), order[1..], now);
    }
  }

  /** No fewer completions can release a store than it has open blockers. */
  lemma {:induction false} DrainNeedsEveryBlocker(s: Store, order: seq<string>, now: int)
    requires OpenBlockers(Drained(s, order, now).deps) == {}
    ensures |order| >= |OpenBlockers(s.deps)|
    decreases |order|
  {
    if order != [] {
      if order[0] != "" {
        CompletionRemoves(s, order[0], now);
      }
      DrainNeedsEveryBlocker(After(s, Completion(order[0]), now), order[1..], now);
      var a, b := OpenBlockers(s.deps), OpenBlockers(After(s, Completion(order[0]), now).deps);
      assert a <= b + {order[0]};
      SubsetSize(a, b + {order[0]});
    }
  }

  lemma {:induction false} SubsetSize(a: set<string>, b: set<string>)
    requires a <= b
    ensures |a| <= |b|
  {
    assert b == a + (b - a);
  }

  /** A well-formed store can be released by COMPLETED messages exactly when no open edge has a nameless blocker. */
  lemma ReleasableIffNamed(s: Store, now: int)
    requires WellFormed(s.deps)
    ensures (exists order :: Releases(s, order, now)) <==> "" !in OpenBlockers(s.deps)
  {
    if "" in OpenBlockers(s.deps) {
      forall order ensures !Releases(s, order, now) {
        NamelessStaysOpen(s, order, now);
      }
    } else {
      var order := DrainOrder(s, now);
      assert Releases(s, order, now);
    }
  }

  /** Only AddDependency can introduce a nameless blocker. */
  predicate NamedAdds(ops: seq<Op>) {
    forall i :: 0 <= i < |ops| && ops[i].Add? ==> ops[i].edge.blockedBy != ""
  }

  ghost predicate NoNameless(deps: seq<Edge>) {
    forall i :: 0 <= i < |deps| ==> deps[i].blockedBy != ""
  }

  lemma {:induction false} TagBlockersNamed(tags: seq<string>)
    ensures forall i :: 0 <= i < |TagBlockers(tags)| ==> TagBlockers(tags)[i] != ""
  {
    if tags != [] {
      TagBlockersNamed(tags[..|tags| - 1]);
    }
  }

  lemma {:induction false} WithBlockersNamed(deps: seq<Edge>, task: string, blockers: seq<string>)
    requires NoNameless(deps) && forall i :: 0 <= i < |blockers| ==> blockers[i] != ""
    ensures NoNameless(WithBlockers(deps, task, blockers))
  {
    if blockers != [] {
      WithBlockersNamed(deps, task, blockers[..|blockers| - 1]);
    }
  }

  lemma {:induction false} NamedRunsStayNamed(ops: seq<Op>)
    requires NamedAdds(ops)
    ensures NoNameless(Run(EMPTY_SYSTEM, ops).store.deps)
    ensures forall k :: 0 <= k < |Run(EMPTY_SYSTEM, ops).saved| ==> NoNameless(Run(EMPTY_SYSTEM, ops).saved[k].deps)
  {
    if ops != [] {
      NamedRunsStayNamed(ops[..|ops| - 1]);
      var s, op := Run(EMPTY_SYSTEM, ops[..|ops| - 1]), ops[|ops| - 1];
      if op.Update? {
        TagBlockersNamed(op.msg.tags);
        WithBlockersNamed(s.store.deps, op.msg.Get("task"), Blockers(op.msg));
      }
    }
  }

  /** From every store reachable by messages, named edges, snapshots and restores, a completion order exists. */
  lemma NoDeadlock(ops: seq<Op>, now: int) returns (order: seq<string>)
    requires NamedAdds(ops)
    ensures var s := Run(EMPTY_SYSTEM, ops).store;
      && InOrder(s, order, now)
      && |order| == |OpenBlockers(s.deps)|
      && Released(Drained(s, order, now))
  {
    ReachableIsWellFormed(ops);
    NamedRunsStayNamed(ops);
    order := DrainOrder(Run(EMPTY_SYSTEM, ops).store, now);
  }

  /** The exported AddDependency accepts an empty blocker, and then no completion order exists. */
  lemma NamelessBlockerDeadlocks(now: int)
    ensures var s := Run(EMPTY_SYSTEM, [Add(Edge("a", "", false, 0))]).store;
      forall order :: !Released(Drained(s, order, now))
  {
    var ops := [Add(Edge("a", "", false, 0))];
    assert ops[..0] == [];
    assert Run(EMPTY_SYSTEM, []) == EMPTY_SYSTEM;
    EmptyIsWellFormed();
    var s := Run(EMPTY_SYSTEM, ops).store;
    assert !Reaches([], "", "a") by {
      if Reaches([], "", "a") {
        var p :| Walk([], p, "", "a");
        LastStep([], p, "", "a");
      }
    }
    assert s.deps == [Edge("a", "", false, 0)];
    assert s.deps[0].blockedBy in OpenBlockers(s.deps);
    ReachableIsWellFormed(ops);
    forall order ensures !Released(Drained(s, order, now)) {
      NamelessStaysOpen(s, order, now);
    }
  }
}
