/** When an edge is resolved and a task is ready, in terms of the messages a store has seen. */
module StateHistory {
  import opened Protocol
  import opened Graph
  import opened State
  import opened StateLaws

  /** A COMPLETED message for this task; one without a task says nothing. */
  predicate Completes(op: Op, task: string) {
    op.Update? && op.msg.action == Completed && op.msg.Get("task") == task != ""
  }

  /** One of the operations from number n on completes the task. */
  predicate CompletedSince(ops: seq<Op>, n: nat, task: string) {
    exists k :: n <= k < |ops| && Completes(ops[k], task)
  }

  predicate NoLoads(ops: seq<Op>) {
    forall k :: 0 <= k < |ops| ==> !ops[k].Load?
  }

  ghost function DepsOf(s: System, ops: seq<Op>): seq<Edge> {
    Run(s, ops).store.deps
  }

  // ---------- one step ----------

  lemma {:induction false} WithBlockersExtends(deps: seq<Edge>, task: string, blockers: seq<string>)
    ensures deps <= WithBlockers(deps, task, blockers)
    ensures forall i :: |deps| <= i < |WithBlockers(deps, task, blockers)| ==> !WithBlockers(deps, task, blockers)[i].resolved
  {
    hide HasPair, ClosesCycle;
    if blockers != [] {
      WithBlockersExtends(deps, task, blockers[..|blockers| - 1]);
    }
  }

  /** A step resolves an edge exactly if it completes the edge's blocker, and nothing opens one again. */
  lemma StepResolves(s: System, op: Op, i: nat)
    requires !op.Load? && i < |s.store.deps|
    ensures var after := Step(s, op).store.deps;
      && i < |after| && after[i].blocked == s.store.deps[i].blocked && after[i].blockedBy == s.store.deps[i].blockedBy
      && (after[i].resolved <==> s.store.deps[i].resolved || Completes(op, s.store.deps[i].blockedBy))
  {
    hide WithBlockers, Revise, HasPair, ClosesCycle, Blockers;
    if op.Update? {
      WithBlockersExtends(s.store.deps, op.msg.Get("task"), Blockers(op.msg));
    }
  }

  /** Edges recorded from a message start out open. */
  lemma MessageEdgesStartOpen(s: System, op: Op, i: nat)
    requires op.Update? && |s.store.deps| <= i < |Step(s, op).store.deps|
    ensures !Step(s, op).store.deps[i].resolved
  {
    hide WithBlockers, Revise, Blockers;
    WithBlockersExtends(s.store.deps, op.msg.Get("task"), Blockers(op.msg));
  }

  // ---------- whole runs ----------

  lemma CompletedOneMore(ops: seq<Op>, n: nat, task: string)
    requires n < |ops|
    ensures var last := |ops| - 1;
      CompletedSince(ops, n, task) <==> CompletedSince(ops[..last], n, task) || Completes(ops[last], task)
  {
    hide Completes;
    var front := ops[..|ops| - 1];
    if CompletedSince(ops, n, task) {
      var k :| n <= k < |ops| && Completes(ops[k], task);
      assert k < |front| ==> front[k] == ops[k];
    }
    if CompletedSince(front, n, task) {
      var k :| n <= k < |front| && Completes(front[k], task);
      assert ops[k] == front[k];
    }
  }

  /** An edge is resolved after a run exactly if it was before, or a COMPLETED message for its blocker came in between. */
  lemma {:induction false} ResolvedIffCompleted(s: System, ops: seq<Op>, i: nat)
    requires NoLoads(ops) && i < |s.store.deps|
    ensures var after := DepsOf(s, ops);
      && i < |after| && after[i].blocked == s.store.deps[i].blocked && after[i].blockedBy == s.store.deps[i].blockedBy
      && (after[i].resolved <==> s.store.deps[i].resolved || CompletedSince(ops, 0, s.store.deps[i].blockedBy))
  {
    hide Step, Completes, CompletedSince;
    if ops == [] {
      NothingCompleted(s.store.deps[i].blockedBy);
    } else {
      var front := ops[..|ops| - 1];
      ResolvedIffCompleted(s, front, i);
      StepResolves(Run(s, front), ops[|ops| - 1], i);
      CompletedOneMore(ops, 0, s.store.deps[i].blockedBy);
    }
  }

  lemma NothingCompleted(task: string)
    ensures !CompletedSince([], 0, task)
  {
  }

  /** Edge i is there after n operations and not before; those of the initial store arrive with none. */
  ghost predicate Arrives(s: System, ops: seq<Op>, n: nat, i: nat) {
    && n <= |ops| && i < |DepsOf(s, ops[..n])|
    && (n > 0 ==> |DepsOf(s, ops[..n - 1])| <= i)
  }

  lemma {:induction false} EveryEdgeArrives(s: System, ops: seq<Op>, i: nat) returns (n: nat)
    requires NoLoads(ops) && i < |DepsOf(s, ops)|
    ensures Arrives(s, ops, n, i)
  {
    hide Step;
    var last := |ops| - 1;
    if ops != [] && i < |DepsOf(s, ops[..last])| {
      n := EveryEdgeArrives(s, ops[..last], i);
      assert ops[..last][..n] == ops[..n];
      assert n > 0 ==> ops[..last][..n - 1] == ops[..n - 1];
    } else {
      n := |ops|;
      assert ops[..n] == ops;
    }
  }

  /** After it has arrived, an edge is resolved exactly if it arrived so or its blocker was completed later. */
  lemma ArrivedEdgeResolved(s: System, ops: seq<Op>, n: nat, i: nat)
    requires NoLoads(ops) && Arrives(s, ops, n, i)
    ensures var arrived, after := DepsOf(s, ops[..n])[i], DepsOf(s, ops);
      && i < |after| && after[i].blocked == arrived.blocked && after[i].blockedBy == arrived.blockedBy
      && (after[i].resolved <==> arrived.resolved || CompletedSince(ops, n, arrived.blockedBy))
  {
    hide Step, Run, Completes;
    var task := DepsOf(s, ops[..n])[i].blockedBy;
    assert ops == ops[..n] + ops[n..];
    RunConcat(s, ops[..n], ops[n..]);
    ResolvedIffCompleted(Run(s, ops[..n]), ops[n..], i);
    ShiftedCompletion(ops, n, task);
  }

  lemma ShiftedCompletion(ops: seq<Op>, n: nat, task: string)
    requires n <= |ops|
    ensures CompletedSince(ops[n..], 0, task) <==> CompletedSince(ops, n, task)
  {
    hide Completes;
    if CompletedSince(ops, n, task) {
      var k :| n <= k < |ops| && Completes(ops[k], task);
      assert ops[n..][k - n] == ops[k];
    }
    if CompletedSince(ops[n..], 0, task) {
      var k :| 0 <= k < |ops[n..]| && Completes(ops[n..][k], task);
      assert ops[n..][k] == ops[n + k];
    }
  }

  /** Edge i arrived resolved, or its blocker was completed after it arrived. */
  ghost predicate Settled(s: System, ops: seq<Op>, n: nat, i: nat)
    requires Arrives(s, ops, n, i)
  {
    DepsOf(s, ops[..n])[i].resolved || CompletedSince(ops, n, DepsOf(s, ops[..n])[i].blockedBy)
  }

  ghost predicate AllSettled(s: System, ops: seq<Op>, task: string) {
    forall n: nat, i: nat :: Arrives(s, ops, n, i) && DepsOf(s, ops[..n])[i].blocked == task ==> Settled(s, ops, n, i)
  }

  predicate HasEdge(deps: seq<Edge>, task: string) {
    exists i :: 0 <= i < |deps| && deps[i].blocked == task
  }

  /**
   * Exactly when UnblockedTasks reports a task: it is Blocked, has an edge, and each of its edges arrived resolved or had
   * a COMPLETED message for its blocker since it was first recorded. What the blocker's status was before that, or has
   * become after, does not matter.
   */
  lemma ReadyIffCompletedSince(s: System, ops: seq<Op>, info: TaskInfo)
    requires NoLoads(ops)
    ensures Ready(info, DepsOf(s, ops)) <==>
      info.status == IsBlocked && HasEdge(DepsOf(s, ops), info.name) && AllSettled(s, ops, info.name)
  {
    hide Run, Step, CompletedSince, DepsOf;
    var deps := DepsOf(s, ops);
    if AllSettled(s, ops, info.name) {
      forall i | 0 <= i < |deps| && deps[i].blocked == info.name ensures deps[i].resolved {
        var n := EveryEdgeArrives(s, ops, i);
        ArrivedEdgeResolved(s, ops, n, i);
        assert Settled(s, ops, n, i);
      }
    }
    if Ready(info, deps) {
      forall n: nat, i: nat | Arrives(s, ops, n, i) && DepsOf(s, ops[..n])[i].blocked == info.name ensures Settled(s, ops, n, i) {
        ArrivedEdgeResolved(s, ops, n, i);
      }
    }
  }

  // ---------- the two ways in which readiness and status come apart ----------

  function Waits(task: string, blocker: string): Op {
    Update(NewMessage(Blocked, map["task" := task, "waiting-for" := blocker], []), 0)
  }

  function Says(action: Action, task: string): Op {
    Update(NewMessage(action, map["task" := task], []), 0)
  }

  lemma WaitsAdds(s: System, task: string, blocker: string)
    requires task != "" && blocker != ""
    ensures var after := Step(s, Waits(task, blocker)).store;
      && after.deps == WithEdge(s.store.deps, Edge(task, blocker, false, 0))
      && after.tasks.Keys == s.store.tasks.Keys + {task}
      && after.tasks[task].status == IsBlocked
      && (task in s.store.tasks ==> after.tasks[task].name == s.store.tasks[task].name)
      && (task !in s.store.tasks ==> after.tasks[task].name == task)
      && (forall t :: t in s.store.tasks && t != task ==> after.tasks[t] == s.store.tasks[t])
  {
    hide WithEdge;
    var msg := NewMessage(Blocked, map["task" := task, "waiting-for" := blocker], []);
    assert Blockers(msg) == [] + [blocker];
    WithBlockersNext(s.store.deps, task, [], blocker);
  }

  lemma SaysChanges(s: System, action: Action, task: string)
    requires task != "" && action in {Completed, Started}
    ensures var after := Step(s, Says(action, task)).store;
      && after.deps == (if action == Completed then ResolveAll(s.store.deps, task, 0) else s.store.deps)
      && after.tasks.Keys == s.store.tasks.Keys + {task}
      && after.tasks[task].status == (if action == Completed then IsCompleted else IsStarted)
      && (forall t :: t in s.store.tasks && t != task ==> after.tasks[t] == s.store.tasks[t])
  {
  }

  lemma FirstEdge(e: Edge)
    requires e.blocked != e.blockedBy
    ensures WithEdge([], e) == [e]
  {
    if Reaches([], e.blockedBy, e.blocked) {
      var p :| Walk([], p, e.blockedBy, e.blocked);
      LastStep([], p, e.blockedBy, e.blocked);
    }
  }

  lemma RunNext(s: System, ops: seq<Op>, op: Op)
    ensures Run(s, ops + [op]) == Step(Run(s, ops), op) && Run(s, []) == s
  {
    assert (ops + [op])[..|ops|] == ops;
  }

  lemma RunTwo(s: System, a: Op, b: Op)
    ensures Run(s, [a, b]) == Step(Step(s, a), b)
  {
    hide Run, Step;
    assert [a] == [] + [a] && [a, b] == [a] + [b];
    RunNext(s, [], a);
    RunNext(s, [a], b);
  }

  lemma RunFour(s: System, a: Op, b: Op, c: Op, d: Op)
    ensures Run(s, [a, b, c, d]) == Step(Step(Step(Step(s, a), b), c), d)
  {
    hide Run, Step;
    assert [a, b, c] == [a, b] + [c] && [a, b, c, d] == [a, b, c] + [d];
    RunTwo(s, a, b);
    RunNext(s, [a, b], c);
    RunNext(s, [a, b, c], d);
  }

  /** A blocker that was done before it is named keeps its task waiting. */
  lemma DoneButNotReady(task: string, blocker: string)
    requires task != blocker && task != "" && blocker != ""
    ensures var s := Run(EMPTY_SYSTEM, [Says(Completed, blocker), Waits(task, blocker)]).store;
      && task in s.tasks && blocker in s.tasks
      && s.tasks[blocker].status == IsCompleted && s.tasks[task].status == IsBlocked
      && !Ready(s.tasks[task], s.deps)
  {
    hide Step, Run, Says, Waits;
    RunTwo(EMPTY_SYSTEM, Says(Completed, blocker), Waits(task, blocker));
    var one := Step(EMPTY_SYSTEM, Says(Completed, blocker));
    SaysChanges(EMPTY_SYSTEM, Completed, blocker);
    WaitsAdds(one, task, blocker);
    FirstEdge(Edge(task, blocker, false, 0));
    assert Step(one, Waits(task, blocker)).store.deps[0] == Edge(task, blocker, false, 0);
  }

  /** A task blocked again by a blocker at work counts as ready at once, because the resolved pair is not opened. */
  lemma ReadyButNotDone(task: string, blocker: string)
    requires task != blocker && task != "" && blocker != ""
    ensures var ops := [Waits(task, blocker), Says(Completed, blocker), Says(Started, blocker), Waits(task, blocker)];
      var s := Run(EMPTY_SYSTEM, ops).store;
      && task in s.tasks && blocker in s.tasks
      && s.tasks[blocker].status == IsStarted && s.tasks[task].status == IsBlocked
      && Ready(s.tasks[task], s.deps)
  {
    hide Step, Run, Says, Waits, WithEdge, ResolveAll, Ready;
    RunFour(EMPTY_SYSTEM, Waits(task, blocker), Says(Completed, blocker), Says(Started, blocker), Waits(task, blocker));
    var one := Step(EMPTY_SYSTEM, Waits(task, blocker));
    var two := Step(one, Says(Completed, blocker));
    var three := Step(two, Says(Started, blocker));
    WaitsAdds(EMPTY_SYSTEM, task, blocker);
    FirstEdge(Edge(task, blocker, false, 0));
    SaysChanges(one, Completed, blocker);
    SaysChanges(two, Started, blocker);
    WaitsAdds(three, task, blocker);
    OneResolvedEdge(Edge(task, blocker, false, 0));
    OnlyEdgeResolved(Step(three, Waits(task, blocker)).store.tasks[task], Edge(task, blocker, true, 0));
  }

  /** A resolved pair is not added again. */
  lemma OneResolvedEdge(e: Edge)
    requires !e.resolved
    ensures var deps := ResolveAll([e], e.blockedBy, 0);
      deps == [e.(resolved := true, resolvedAt := 0)] && WithEdge(deps, e) == deps
  {
    var deps := ResolveAll([e], e.blockedBy, 0);
    assert deps[0] == ResolveEdge([e][0], e.blockedBy, 0);
    assert HasPair(deps, e.blocked, e.blockedBy);
  }

  lemma OnlyEdgeResolved(info: TaskInfo, e: Edge)
    requires info.status == IsBlocked && info.name == e.blocked && e.resolved
    ensures Ready(info, [e])
  {
    assert [e][0].blocked == info.name;
  }
}
