/** Automatic acknowledgement of unblocked tasks (internal/agent/coordinator.go). */
module Coordinator {
  import opened Protocol
  import opened Graph
  import opened State
  import opened Irc
  import opened Wire
  import opened StateLaws
  import opened StateHistory

  ghost predicate ReadyTask(s: Store, task: string) {
    task in s.tasks && Ready(s.tasks[task], s.deps)
  }

  /** The tasks acknowledged for one COMPLETED message: in some order, each ready task not acknowledged before. */
  ghost predicate Acknowledges(s: Store, notified: set<string>, msg: Message, acks: seq<string>) {
    && !HasDuplicates(acks)
    && forall t :: t in acks <==> msg.action == Completed && msg.Get("task") != "" && ReadyTask(s, t) && t !in notified
  }

  ghost function AckSends(msg: Message, acks: seq<string>): (r: seq<Send>)
    ensures |r| == |acks|
    ensures forall i :: 0 <= i < |r| ==> r[i] == Send(ReplyTarget(msg), Format(AckMessage(acks[i], msg.Get("task"))))
  {
    seq(|acks|, i requires 0 <= i < |acks| => Send(ReplyTarget(msg), Format(AckMessage(acks[i], msg.Get("task")))))
  }

  class UnblockNotifier {
    const state: StateStore
    const client: Client
    var notified: set<string>
    /** The tasks acknowledged since the last Reset, in order. */
    ghost var acked: seq<string>

    /** Each task in notified has been acknowledged exactly once since the last Reset. */
    ghost predicate Valid()
      reads this
    {
      notified == Members(acked) && !HasDuplicates(acked)
    }

    constructor (state: StateStore, client: Client)
      ensures Valid() && notified == {} && this.state == state && this.client == client
    {
      this.state, this.client := state, client;
      notified, acked := {}, [];
    }

    method OnTaskCompleted(msg: Message) returns (ghost acks: seq<string>)
      requires Valid() && WellNamed(state.tasks)
      modifies this, client
      ensures Valid()
      ensures Acknowledges(state.Contents(), old(notified), msg, acks)
      ensures acked == old(acked) + acks && notified == old(notified) + Members(acks)
      ensures client.sent == old(client.sent) + AckSends(msg, acks)
      ensures forall i :: |old(client.sent)| <= i < |client.sent| ==>
        client.sent[i].target == if msg.channel == "" then msg.nick else msg.channel
    {
      hide HasDuplicates, Members, Ready, Format;
      acks := [];
      NoDuplicates();
      MembersHold(acks);
      assert acked + [] == acked;
      if msg.action != Completed || msg.Get("task") == "" {
        return;
      }
      var names, unblocked := state.UnblockedTasks();
      ghost var notified0, acked0, sent0 := notified, acked, client.sent;
      for i := 0 to |unblocked|
        invariant Valid()
        invariant !HasDuplicates(acks) && notified == notified0 + Members(acks) && acked == acked0 + acks
        invariant forall t :: t in acks <==> t in names[..i] && t !in notified0
        invariant client.sent == sent0 + AckSends(msg, acks)
      {
        var task := unblocked[i].name;
        assert names[i] in state.tasks && task == names[i];
        PrefixMember(names, i);
        MembersHold(acks);
        if task in notified {
          continue;
        }
        AckOneMore(acked0, acks, task, msg);
        notified := notified + {task};
        ghost var sent := client.sent;
        var text := String(AckMessage(task, msg.Get("task")));
        client.SendMessage(ReplyTarget(msg), text);
        MembersAppend(acks, task);
        MembersHold(acked);
        MembersAppend(acked, task);
        acks, acked := acks + [task], acked + [task];
      }
      assert names[..|unblocked|] == names;
    }

    method Reset()
      modifies this
      ensures Valid() && notified == {}
    {
      notified, acked := {}, [];
    }
  }

  lemma PrefixMember(names: seq<string>, i: nat)
    requires i < |names|
    ensures forall t :: t in names[..i + 1] <==> t in names[..i] || t == names[i]
    ensures !HasDuplicates(names) ==> names[i] !in names[..i]
  {
    assert names[..i + 1] == names[..i] + [names[i]];
    if names[i] in names[..i] {
      var k :| 0 <= k < i && names[k] == names[i];
    }
  }

  lemma AckOneMore(acked0: seq<string>, acks: seq<string>, task: string, msg: Message)
    ensures acked0 + acks + [task] == acked0 + (acks + [task])
    ensures AckSends(msg, acks + [task]) == AckSends(msg, acks) + [Send(ReplyTarget(msg), Format(AckMessage(task, msg.Get("task"))))]
  {
    hide Format;
  }

  // ---------- whole runs ----------

  /** One agent's store and notifier; log holds every acknowledgement since the last Reset. */
  datatype Acks = Acks(system: System, notified: set<string>, log: seq<string>)

  datatype AckOp = Change(op: Op) | OnCompleted(msg: Message) | Clear

  /** The order of acknowledgements for one message is not determined, so a step is a relation. */
  ghost predicate AckStep(s: Acks, op: AckOp, t: Acks) {
    match op
    case Change(o) => t == s.(system := Step(s.system, o))
    case Clear => t == s.(notified := {}, log := [])
    case OnCompleted(msg) =>
      exists acks :: Acknowledges(s.system.store, s.notified, msg, acks)
        && t == s.(notified := s.notified + Members(acks), log := s.log + acks)
  }

  ghost predicate AckRun(states: seq<Acks>, ops: seq<AckOp>) {
    && |states| == |ops| + 1
    && states[0] == Acks(EMPTY_SYSTEM, {}, [])
    && forall i :: 0 <= i < |ops| ==> AckStep(states[i], ops[i], states[i + 1])
  }

  lemma DistinctConcat(a: seq<string>, b: seq<string>)
    requires !HasDuplicates(a) && !HasDuplicates(b)
    requires forall t :: t in b ==> t !in Members(a)
    ensures !HasDuplicates(a + b) && Members(a + b) == Members(a) + Members(b)
  {
    MembersHold(a);
    var c := a + b;
    forall i, j | 0 <= i < j < |c| ensures c[i] != c[j] {
      if i < |a| <= j {
        assert c[i] in a && c[j] in b;
      }
    }
  }

  /** Over any run, no task is acknowledged twice between two Resets. */
  lemma {:induction false} AcknowledgedAtMostOnce(states: seq<Acks>, ops: seq<AckOp>, n: nat)
    requires AckRun(states, ops) && n <= |ops|
    ensures !HasDuplicates(states[n].log) && states[n].notified == Members(states[n].log)
    decreases n
  {
    hide HasDuplicates, Members, Step, Ready;
    NoDuplicates();
    MembersHold([]);
    if n > 0 {
      AcknowledgedAtMostOnce(states, ops, n - 1);
      var s, t := states[n - 1], states[n];
      assert AckStep(states[n - 1], ops[n - 1], states[n - 1 + 1]);
      if ops[n - 1].OnCompleted? {
        var acks :| Acknowledges(s.system.store, s.notified, ops[n - 1].msg, acks)
          && t == s.(notified := s.notified + Members(acks), log := s.log + acks);
        DistinctConcat(s.log, acks);
      }
    } else {
      assert states[0].log == [];
    }
  }

  /** Only blocked tasks with edges, all resolved, are acknowledged; afterwards every unblocked task has been. */
  lemma CompletionAcknowledgesAll(s: Acks, msg: Message, t: Acks)
    requires AckStep(s, OnCompleted(msg), t)
    ensures s.log <= t.log
    ensures forall i :: |s.log| <= i < |t.log| ==> ReadyTask(s.system.store, t.log[i])
    ensures msg.action == Completed && msg.Get("task") != "" ==> forall k :: ReadyTask(t.system.store, k) ==> k in t.notified
  {
    hide HasDuplicates, Members, Ready;
    var acks :| Acknowledges(s.system.store, s.notified, msg, acks)
      && t == s.(notified := s.notified + Members(acks), log := s.log + acks);
    MembersHold(acks);
    forall i | |s.log| <= i < |t.log| ensures ReadyTask(s.system.store, t.log[i]) {
      assert t.log[i] == acks[i - |s.log|];
      assert t.log[i] in acks;
    }
  }

  /**
   * Whom an acknowledgement credits: the completed task was holding the acknowledged one back if and only if that one
   * was not ready before the message; otherwise the unblocked-by field names a bystander.
   */
  lemma CreditIffJustReleased(s: Store, notified: set<string>, msg: Message, now: int, acks: seq<string>, task: string)
    requires WellNamed(s.tasks) && msg.action == Completed
    requires Acknowledges(Record(s, msg, now), notified, msg, acks) && task in acks
    ensures Linked(s.deps, task, msg.Get("task")) <==> !ReadyTask(s, task)
  {
    hide HasDuplicates, Atoi, ResolveAll, Acknowledges;
    AcknowledgedIsReady(Record(s, msg, now), notified, msg, acks, task);
    var completed := msg.Get("task");
    var before, after := s.deps, ResolveAll(s.deps, completed, now);
    assert Record(s, msg, now).deps == after;
    forall i | 0 <= i < |before| ensures after[i] == ResolveEdge(before[i], completed, now) {
    }
    if !Linked(before, task, completed) {
      forall i | 0 <= i < |before| && before[i].blocked == task ensures before[i].resolved {
        assert after[i].resolved;
      }
    }
  }

  /**
   * Such a bystander: the agent completes the blocker itself, which acknowledges nothing, and then another agent completes
   * some third task.
   */
  lemma BystanderIsCredited(task: string, blocker: string, other: string, now: int, acks: seq<string>)
    requires task != "" && blocker != "" && other != "" && task != blocker && other != task && other != blocker
    requires var s := Run(EMPTY_SYSTEM, [Waits(task, blocker), Says(Completed, blocker)]).store;
      Acknowledges(Record(s, Completion(other), now), {}, Completion(other), acks)
    ensures task in acks
    ensures !Linked(Run(EMPTY_SYSTEM, [Waits(task, blocker), Says(Completed, blocker)]).store.deps, task, other)
  {
    hide Run, Step, Says, Waits, WithEdge, ResolveAll, HasDuplicates, Ready;
    RunTwo(EMPTY_SYSTEM, Waits(task, blocker), Says(Completed, blocker));
    var one := Step(EMPTY_SYSTEM, Waits(task, blocker));
    WaitsAdds(EMPTY_SYSTEM, task, blocker);
    FirstEdge(Edge(task, blocker, false, 0));
    SaysChanges(one, Completed, blocker);
    OneResolvedEdge(Edge(task, blocker, false, 0));
    OtherEdgeStays(Edge(task, blocker, true, 0), other, now);
    OnlyEdgeResolved(Step(one, Says(Completed, blocker)).store.tasks[task], Edge(task, blocker, true, 0));
  }

  lemma OtherEdgeStays(e: Edge, other: string, now: int)
    requires e.resolved
    ensures ResolveAll([e], other, now) == [e] && forall x, y :: !Linked([e], x, y)
  {
    var r := ResolveAll([e], other, now);
    assert r[0] == ResolveEdge([e][0], other, now);
  }

  lemma AcknowledgedIsReady(s: Store, notified: set<string>, msg: Message, acks: seq<string>, task: string)
    requires Acknowledges(s, notified, msg, acks) && task in acks
    ensures ReadyTask(s, task) && msg.Get("task") != "" && task !in notified
  {
    hide HasDuplicates, Ready;
  }

  // ---------- tasks stay filed under their own names ----------

  lemma AfterKeepsNames(s: Store, msg: Message, now: int)
    requires WellNamed(s.tasks)
    ensures WellNamed(After(s, msg, now).tasks)
    ensures WellNamed(Record(s, msg, now).tasks)
  {
    hide Atoi, DepsAfter;
  }

  lemma {:induction false} RunsKeepNames(ops: seq<Op>)
    ensures WellNamed(Run(EMPTY_SYSTEM, ops).store.tasks)
    ensures forall k :: 0 <= k < |Run(EMPTY_SYSTEM, ops).saved| ==> WellNamed(Run(EMPTY_SYSTEM, ops).saved[k].tasks)
  {
    hide WellNamed, After;
    if ops == [] {
      NoTasksWellNamed();
    } else {
      RunsKeepNames(ops[..|ops| - 1]);
      var s, op := Run(EMPTY_SYSTEM, ops[..|ops| - 1]), ops[|ops| - 1];
      if op.Update? {
        AfterKeepsNames(s.store, op.msg, op.now);
      }
    }
  }

  lemma NoTasksWellNamed()
    ensures WellNamed(map[])
  {
  }
}
