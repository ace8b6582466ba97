/** Runs of whole dispatchers keep the replicas that the log of their messages describes, and so agree. */
module AgentRuns {
  import opened Protocol
  import opened State
  import opened Wire
  import opened WireLaws
  import opened WireExact
  import opened Irc
  import ContextSharing
  import opened Coordinator
  import opened Replica
  import opened Dispatcher

  // ---------- one line at one agent ----------

  /** An agent without access rules, of the given nick, whose roles answer nothing. */
  ghost predicate Quiet(cfg: Config, agent: string) {
    && cfg.nick == agent
    && (forall nick, channel, action :: cfg.allows(nick, channel, action))
    && (forall msg :: RoleReplies(cfg, msg) == [])
  }

  /** What the dispatcher does to the task store is what the replica model says of a received line. */
  lemma HandledIsReceived(cfg: Config, a: AgentState, ev: Event, now: int, b: AgentState, sends: seq<Send>)
    requires Quiet(cfg, cfg.nick) && ev.nick != cfg.nick
    requires Handles(cfg, a, ev, now, b, sends)
    ensures b.store == Receive(a.store, ev, now)
  {
    hide Record, IsProtocolMessage, Parsed, Acknowledges, AckSends, ContextSharing.SendAll, ContextSharing.ContextStep, ContextAnswers,
      DiscoveryAnswers, RoleReplies, HandlerSends, Members;
    if !Ignored(cfg, ev) {
      var msg := Enrich(Parsed(ev.text).value, ev, now);
      var acks, first :| Dispatched(cfg, a, msg, now, acks, first, b, sends);
      assert RoleReplies(cfg, msg) == [];
    }
  }

  // ---------- runs ----------

  /** Entry e of the log as agents other than its sender receive it. */
  ghost function Arriving(e: Entry, now: int): Event {
    Event(e.sender, e.channel, Format(Line(e)), now)
  }

  /**
   * One log entry at one agent. The sender of a message records it through SendProtocolMessage; the sender of an
   * acknowledgement records nothing; every other agent handles the line.
   */
  ghost predicate Takes(cfg: Config, agent: string, s: AgentState, e: Entry, now: int, t: AgentState) {
    if agent == e.sender then
      t.store == if e.Sent? then Record(s.store, Own(cfg, e.channel, e.msg, now), now) else s.store
    else
      exists sends :: Handles(cfg, s, Arriving(e, now), now, t, sends)
  }

  /** Handling the entry, the agent acknowledged the task: the line is among its sends. */
  ghost predicate Acknowledging(
      cfg: Config, agent: string, s: AgentState, e: Entry, now: int, t: AgentState, channel: string, task: string, completed: string)
  {
    && agent != e.sender && !Ignored(cfg, Arriving(e, now))
    && var msg := Enrich(Parsed(Arriving(e, now).text).value, Arriving(e, now), now);
      && channel == ReplyTarget(msg) && completed == msg.Get("task")
      && exists acks, first, sends :: Dispatched(cfg, s, msg, now, acks, first, t, sends) && task in acks
  }

  /** Agents, the log they share, and their states after each entry. */
  datatype Fleet = Fleet(cfgs: string -> Config, states: seq<string -> AgentState>, log: seq<Entry>, clock: (string, nat) -> int)

  /** Every entry was sent by a user as a message the wire can carry, or by an agent that acknowledged an earlier entry. */
  ghost predicate Explained(r: Fleet, n: nat)
    requires n < |r.log| < |r.states|
  {
    match r.log[n]
    case Sent(_, _, msg) => WireSafe(msg) && EndsStay(msg)
    case Ack(sender, channel, task, completed) =>
      exists j :: 0 <= j < n && Acknowledging(
        r.cfgs(sender), sender, r.states[j](sender), r.log[j], r.clock(sender, j), r.states[j + 1](sender), channel, task, completed)
  }

  ghost predicate Moves(r: Fleet, n: nat, a: string)
    requires n < |r.log| < |r.states|
  {
    Takes(r.cfgs(a), a, r.states[n](a), r.log[n], r.clock(a, n), r.states[n + 1](a))
  }

  ghost predicate AgentRun(r: Fleet) {
    && |r.states| == |r.log| + 1
    && (forall a :: Quiet(r.cfgs(a), a))
    && (forall a :: r.states[0](a).store == EMPTY_STORE)
    && (forall n: nat, a :: n < |r.log| ==> Moves(r, n, a))
    && (forall n: nat :: n < |r.log| ==> Explained(r, n))
  }

  /** The store of agent a after n entries is the replica that the log describes. */
  ghost predicate Follows(r: Fleet, n: nat, a: string)
    requires n <= |r.log| < |r.states|
  {
    r.states[n](a).store == StoreOf(a, r.log[..n], r.clock)
  }

  lemma ReplicaStep(r: Fleet, n: nat, a: string)
    requires n < |r.log|
    ensures var e, now, s := r.log[n], r.clock(a, n), StoreOf(a, r.log[..n], r.clock);
      StoreOf(a, r.log[..n + 1], r.clock) ==
        if a == e.sender then
          if e.Sent? then Record(s, e.msg.(nick := a, channel := e.channel, timestamp := Stamped(e.msg.timestamp, now)), now) else s
        else Receive(s, Arriving(e, now), now)
  {
    hide Record, Receive, Format;
    assert r.log[..n + 1][..n] == r.log[..n];
  }

  lemma MoveFollows(r: Fleet, n: nat, a: string)
    requires n < |r.log| < |r.states| && Quiet(r.cfgs(a), a) && Moves(r, n, a) && Follows(r, n, a)
    ensures Follows(r, n + 1, a)
  {
    hide StoreOf, Record, Receive, Handles, Format, Line;
    ReplicaStep(r, n, a);
    var e, now := r.log[n], r.clock(a, n);
    if a != e.sender {
      var sends :| Handles(r.cfgs(a), r.states[n](a), Arriving(e, now), now, r.states[n + 1](a), sends);
      HandledIsReceived(r.cfgs(a), r.states[n](a), Arriving(e, now), now, r.states[n + 1](a), sends);
    }
  }

  lemma {:induction false} StoresFollowLog(r: Fleet, n: nat, a: string)
    requires AgentRun(r) && n <= |r.log|
    ensures Follows(r, n, a)
    decreases n
  {
    hide StoreOf, Moves, Explained, Quiet;
    if n > 0 {
      StoresFollowLog(r, n - 1, a);
      MoveFollows(r, n - 1, a);
    } else {
      EmptyReplica(r, a);
    }
  }

  lemma EmptyReplica(r: Fleet, a: string)
    ensures StoreOf(a, r.log[..0], r.clock) == EMPTY_STORE
  {
  }

  // ---------- acknowledgements are genuine ----------

  /** An acknowledgement that a dispatcher sent answers a COMPLETED message of another agent, as the replica model asks. */
  lemma AcknowledgingAnswers(r: Fleet, j: nat, agent: string, channel: string, task: string, completed: string)
    requires j < |r.log| < |r.states| && Quiet(r.cfgs(agent), agent) && Follows(r, j, agent)
    requires WireSafe(Line(r.log[j])) && EndsStay(Line(r.log[j]))
    requires Acknowledging(r.cfgs(agent), agent, r.states[j](agent), r.log[j], r.clock(agent, j), r.states[j + 1](agent),
                           channel, task, completed)
    ensures Answers(r.log, r.clock, j, agent, task, completed)
  {
    hide *;
    var e, now := r.log[j], r.clock(agent, j);
    var msg, recorded := WhatWasAcknowledged(r.cfgs(agent), agent, r.states[j](agent), e, now, r.states[j + 1](agent), channel, task, completed);
    ReplicaStep(r, j, agent);
    FollowsMeans(r, j, agent);
    AnswersWhen(r, j, agent, task, completed, msg, recorded);
  }

  lemma FollowsMeans(r: Fleet, n: nat, a: string)
    requires n <= |r.log| < |r.states|
    ensures Follows(r, n, a) <==> r.states[n](a).store == StoreOf(a, r.log[..n], r.clock)
  {
  }

  lemma AnswersWhen(r: Fleet, j: nat, agent: string, task: string, completed: string, msg: Message, s: Store)
    requires j < |r.log| && agent != r.log[j].sender && s == StoreOf(agent, r.log[..j + 1], r.clock)
    requires msg == Line(r.log[j]) && msg.action == Completed && msg.Get("task") == completed != "" && ReadyTask(s, task)
    ensures Answers(r.log, r.clock, j, agent, task, completed)
  {
    hide StoreOf, Ready;
  }

  lemma WhatWasAcknowledged(
      cfg: Config, agent: string, s: AgentState, e: Entry, now: int, t: AgentState, channel: string, task: string, completed: string)
    returns (msg: Message, recorded: Store)
    requires WireSafe(Line(e)) && EndsStay(Line(e))
    requires Acknowledging(cfg, agent, s, e, now, t, channel, task, completed)
    ensures agent != e.sender && msg == Line(e) && msg.action == Completed && msg.Get("task") == completed != ""
    ensures recorded == Receive(s.store, Arriving(e, now), now) && ReadyTask(recorded, task)
  {
    hide WireSafe, EndsStay, Record, Parsed, Format, IsProtocolMessage, Ready, HasDuplicates, ReplyTarget, Line, AckSends, ContextSharing.SendAll,
      ContextSharing.ContextStep, ContextAnswers, DiscoveryAnswers, RoleReplies, RecordAll, HandlerSends, Members, Acknowledges;
    RoundTripExactly(Line(e));
    msg := Line(e);
    var seen := Enrich(Parsed(Format(Line(e))).value, Arriving(e, now), now);
    recorded := Record(s.store, seen, now);
    var acks, first, sends :| Dispatched(cfg, s, seen, now, acks, first, t, sends) && task in acks;
    AcksSay(recorded, s.notified, seen, acks, task);
  }

  lemma AcksSay(s: Store, notified: set<string>, msg: Message, acks: seq<string>, task: string)
    requires Acknowledges(s, notified, msg, acks) && task in acks
    ensures msg.action == Completed && msg.Get("task") != "" && ReadyTask(s, task)
  {
    hide HasDuplicates, Ready;
  }

  lemma {:induction false} RunIsGenuine(r: Fleet, n: nat)
    requires AgentRun(r) && n <= |r.log|
    ensures AllGenuine(r.log[..n], r.clock)
    decreases n
  {
    hide StoreOf, Moves, Quiet, Follows, Genuine;
    if n > 0 {
      RunIsGenuine(r, n - 1);
      var p := r.log[..n];
      assert p[..n - 1] == r.log[..n - 1];
      forall i: nat | i < n ensures Genuine(p, r.clock, i) {
        if i < n - 1 {
          GenuineExtends(p, r.clock, n - 1, i);
        } else {
          LastIsGenuine(r, n - 1);
        }
      }
    }
  }

  /** What is genuine in a prefix is genuine in the whole log. */
  lemma GenuineExtends(log: seq<Entry>, clock: (string, nat) -> int, n: nat, i: nat)
    requires i < n <= |log| && Genuine(log[..n], clock, i)
    ensures Genuine(log, clock, i)
  {
    hide WireSafe, EndsStay, Answers;
    match log[i] {
      case Sent(_, _, _) =>
      case Ack(sender, _, task, completed) =>
        var j :| 0 <= j < i && Answers(log[..n], clock, j, sender, task, completed);
        AnswersExtends(log, clock, n, j, sender, task, completed);
    }
  }

  lemma AnswersExtends(
      log: seq<Entry>, clock: (string, nat) -> int, n: nat, j: nat, sender: string, task: string, completed: string)
    requires j < n <= |log| && Answers(log[..n], clock, j, sender, task, completed)
    ensures Answers(log, clock, j, sender, task, completed)
  {
    hide StoreOf, Ready;
    assert log[..n][..j + 1] == log[..j + 1];
  }

  lemma LastIsGenuine(r: Fleet, n: nat)
    requires AgentRun(r) && n < |r.log| && AllGenuine(r.log[..n], r.clock)
    ensures Genuine(r.log[..n + 1], r.clock, n)
  {
    hide StoreOf, Moves, Quiet, Follows, AllGenuine, WireSafe, EndsStay, Answers, Acknowledging, Line;
    assert Explained(r, n);
    match r.log[n] {
      case Sent(_, _, _) =>
      case Ack(sender, channel, task, completed) =>
        var j :| 0 <= j < n && Acknowledging(
          r.cfgs(sender), sender, r.states[j](sender), r.log[j], r.clock(sender, j), r.states[j + 1](sender), channel, task, completed);
        StoresFollowLog(r, j, sender);
        LineTravels(r, n, j);
        AcknowledgingAnswers(r, j, sender, channel, task, completed);
        AnswersInPrefix(r.log, r.clock, n + 1, j, sender, task, completed);
    }
  }

  lemma LineTravels(r: Fleet, n: nat, j: nat)
    requires j < n <= |r.log| && AllGenuine(r.log[..n], r.clock)
    ensures WireSafe(Line(r.log[j])) && EndsStay(Line(r.log[j]))
  {
    hide StoreOf, AllGenuine, NamesTravel, WireSafe, EndsStay, Line, GoodValue;
    var p := r.log[..n];
    forall k, a | 0 <= k <= j ensures NamesTravel(StoreOf(a, p[..k], r.clock)) {
      StoresTravel(p, r.clock, k, a);
    }
    TextTravels(p, r.clock, j);
  }

  // ---------- agreement ----------

  /**
   * Replica agreement for the program itself: after every run of any agents over one log, in which each line is handled by
   * the dispatchers of all others and acknowledgements are those the dispatchers sent, all task stores agree.
   */
  lemma DispatchersAgree(r: Fleet, a: string, b: string)
    requires AgentRun(r)
    ensures SameView(r.states[|r.log|](a).store, r.states[|r.log|](b).store)
  {
    hide *;
    var n := |r.log|;
    RunShape(r);
    StoresFollowLog(r, n, a);
    StoresFollowLog(r, n, b);
    FollowsMeans(r, n, a);
    FollowsMeans(r, n, b);
    RunIsGenuine(r, n);
    assert r.log[..n] == r.log;
    ReplicasAgree(r.log, r.clock, a, b);
  }

  lemma RunShape(r: Fleet)
    requires AgentRun(r)
    ensures |r.states| == |r.log| + 1
  {
  }
}
