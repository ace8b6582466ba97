/** The protocol dispatcher (internal/agent/protocol.go) and the agent's own sends (internal/agent/agent.go). */
module Dispatcher {
  import opened Protocol
  import opened State
  import opened Wire
  import opened Irc
  import opened ContextSharing
  import opened Coordinator
  import opened Roles
  import opened Notifier
  import opened Lists

  /** What is fixed about an agent. allows is the ACL, clean the credential check, quote Go's %q, lower strings.ToLower. */
  datatype Config = Config(
    nick: string,
    caps: seq<string>,
    rules: seq<Rule>,
    roles: seq<Role>,
    allows: (string, string, Action) -> bool,
    clean: Message -> bool,
    quote: string -> string,
    lower: string -> string)

  /** What an agent's messages change. */
  datatype AgentState = AgentState(store: Store, contexts: Contexts, notified: set<string>)

  // ---------- what one message does ----------

  function ContextAnswers(c: Contexts, msg: Message): seq<Message> {
    if msg.action == RequestContext then Answers(c, msg) else []
  }

  /** One CAPABILITIES message if the requested expertise is among the agent's own. */
  function DiscoveryAnswers(cfg: Config, msg: Message): seq<Message> {
    var requested := cfg.lower(msg.Get("expertise"));
    if msg.action != Discover || requested == "" then []
    else if exists i :: 0 <= i < |cfg.caps| && cfg.lower(cfg.caps[i]) == requested then
      [NewMessage(Capabilities, map["expertise" := JoinComma(cfg.caps)], [])]
    else []
  }

  predicate MaySend(cfg: Config, target: string, msg: Message) {
    cfg.clean(msg) && cfg.allows(cfg.nick, target, msg.action)
  }

  /** The messages of a list that SendProtocolMessage lets pass. */
  function Passed(cfg: Config, target: string, messages: seq<Message>): seq<Message> {
    if messages == [] then []
    else
      var last := messages[|messages| - 1];
      Passed(cfg, target, messages[..|messages| - 1]) + (if MaySend(cfg, target, last) then [last] else [])
  }

  /** An agent's own message as it records it before sending. */
  function Own(cfg: Config, target: string, msg: Message, now: int): Message {
    msg.(nick := cfg.nick, channel := target, timestamp := Stamped(msg.timestamp, now))
  }

  ghost function RecordAll(cfg: Config, s: Store, target: string, messages: seq<Message>, now: int): Store {
    if messages == [] then s
    else Record(RecordAll(cfg, s, target, messages[..|messages| - 1], now),
                Own(cfg, target, messages[|messages| - 1], now), now)
  }

  function RoleReplies(cfg: Config, msg: Message): seq<Message> {
    Passed(cfg, msg.channel, Replies(cfg.roles, msg))
  }

  /** The registered handlers run in no fixed order: notifications and role replies may come either way round. */
  ghost function HandlerSends(cfg: Config, msg: Message, notifierFirst: bool): seq<Send> {
    var notices, replies := Notifications(cfg.rules, msg, cfg.quote), SendAll(msg.channel, RoleReplies(cfg, msg));
    if notifierFirst then notices + replies else replies + notices
  }

  ghost predicate Dispatched(
      cfg: Config, a: AgentState, msg: Message, now: int, acks: seq<string>, notifierFirst: bool, b: AgentState, sends: seq<Send>) {
    var recorded := Record(a.store, msg, now);
    && Acknowledges(recorded, a.notified, msg, acks)
    && b.notified == a.notified + Members(acks)
    && b.store == RecordAll(cfg, recorded, msg.channel, RoleReplies(cfg, msg), now)
    && ContextStep(a.contexts, msg, now, b.contexts)
    && sends == AckSends(msg, acks) + SendAll(ReplyTarget(msg), ContextAnswers(a.contexts, msg) + DiscoveryAnswers(cfg, msg))
              + HandlerSends(cfg, msg, notifierFirst)
  }

  /** Lines that handleMessage drops without any effect. */
  ghost predicate Ignored(cfg: Config, ev: Event) {
    || !IsProtocolMessage(ev.text)
    || ev.nick == cfg.nick
    || Parsed(ev.text).Err?
    || !cfg.allows(ev.nick, ev.channel, Parsed(ev.text).value.action)
  }

  /** Everything one incoming line can do to an agent, and everything it can make the agent send. */
  ghost predicate Handles(cfg: Config, a: AgentState, ev: Event, now: int, b: AgentState, sends: seq<Send>) {
    if Ignored(cfg, ev) then b == a && sends == []
    else exists acks, first :: Dispatched(cfg, a, Enrich(Parsed(ev.text).value, ev, now), now, acks, first, b, sends)
  }

  /** Roles without a behaviour make no difference. */
  ghost predicate SameReplies(behaviors: seq<Role>, roles: seq<Role>) {
    forall msg :: Replies(behaviors, msg) == Replies(roles, msg)
  }

  // ---------- the class ----------

  class ProtocolDispatcher {
    const cfg: Config
    const client: Client
    const state: StateStore
    const contexts: ContextStore
    const unblocker: UnblockNotifier
    const notifier: RuleNotifier
    const roleEngine: RoleEngine

    ghost predicate Valid()
      reads this, state, unblocker, notifier, roleEngine
    {
      && unblocker.state == state && unblocker.client == client && notifier.client == client
      && unblocker.Valid() && WellNamed(state.tasks)
      && notifier.rules == cfg.rules
      && SameReplies(roleEngine.behaviors, cfg.roles)
    }

    ghost function Contents(): AgentState
      reads this, state, contexts, unblocker
    {
      AgentState(state.Contents(), contexts.Contents(), unblocker.notified)
    }

    /** The wiring of initProtocol. */
    constructor (cfg: Config, client: Client)
      ensures Valid() && this.cfg == cfg && this.client == client
      ensures Contents() == AgentState(EMPTY_STORE, Contexts(map[], []), {})
      ensures fresh({state, contexts, unblocker, notifier, roleEngine})
    {
      this.cfg, this.client := cfg, client;
      var s := new StateStore();
      var u := new UnblockNotifier(s, client);
      var n := new RuleNotifier(client);
      for i := 0 to |cfg.rules|
        invariant n.rules == cfg.rules[..i] && n.client == client && fresh(n) && fresh(s) && fresh(u)
        invariant u.Valid() && u.state == s && u.client == client && u.notified == {} && s.Contents() == EMPTY_STORE
      {
        n.AddRule(cfg.rules[i]);
      }
      var r := new RoleEngine(cfg.roles);
      var c := new ContextStore();
      state, unblocker, notifier, roleEngine, contexts := s, u, n, r, c;
    }

    /** Records one message in the task store, for messages of others and the agent's own alike. */
    method RecordTask(msg: Message, now: int)
      requires WellNamed(state.tasks)
      modifies state
      ensures state.Contents() == Record(old(state.Contents()), msg, now)
      ensures var s, task := old(state.Contents()), msg.Get("task");
        state.Contents() ==
          if task != "" && msg.action in {Started, Completed, Blocked, Acknowledged, Offer, Claim, Assign, Accept, Decline,
                                          Yield, Checkpoint, Handoff} then
            After(s, msg, now).(agents := s.agents[msg.nick := AgentStatus(msg.nick, msg.channel, task, now)])
          else s
      ensures WellNamed(state.tasks)
    {
      hide WellNamed, Revise, DepsAfter;
      AfterKeepsNames(state.Contents(), msg, now);
      if UpdatesTasks(msg.action) {
        state.UpdateTask(msg, now);
        var taskName := msg.Get("task");
        if taskName != "" {
          state.UpdateAgentStatus(msg.nick, msg.channel, taskName, now);
        }
      }
    }

    /** updateLocalState: what the agent itself sends. */
    method UpdateLocalState(msg: Message, now: int)
      requires WellNamed(state.tasks)
      modifies state, contexts
      ensures state.Contents() == Record(old(state.Contents()), msg, now) && WellNamed(state.tasks)
      ensures msg.action != RequestContext ==> ContextStep(old(contexts.Contents()), msg, now, contexts.Contents())
      ensures msg.action == RequestContext ==> contexts.Contents() == old(contexts.Contents())
    {
      hide Record, WellNamed, Announced, PayloadStored;
      RecordTask(msg, now);
      if msg.action == Context {
        contexts.Store(msg, now);
      } else if msg.action == SharingContext {
        contexts.StorePayload(msg);
      }
    }

    /** SendProtocolMessage: refused messages change nothing; others are recorded, then sent. */
    method SendProtocolMessage(target: string, msg: Message, now: int) returns (ok: bool)
      requires WellNamed(state.tasks)
      modifies state, contexts, client
      ensures ok <==> cfg.clean(msg) && cfg.allows(cfg.nick, target, msg.action)
      ensures !ok ==> state.Contents() == old(state.Contents()) && contexts.Contents() == old(contexts.Contents()) && client.sent == old(client.sent)
      ensures ok ==> state.Contents() == Record(
        old(state.Contents()),
        msg.(nick := cfg.nick, channel := target, timestamp := if msg.timestamp == 0 then now else msg.timestamp), now)
      ensures ok && msg.action in {Context, SharingContext}
        ==> ContextStep(old(contexts.Contents()), Own(cfg, target, msg, now), now, contexts.Contents())
      ensures msg.action !in {Context, SharingContext} ==> contexts.Contents() == old(contexts.Contents())
      ensures ok ==> client.sent == old(client.sent) + [Send(target, Format(msg))]
      ensures WellNamed(state.tasks)
    {
      hide Record, WellNamed, Announced, PayloadStored, Format;
      if !cfg.clean(msg) || !cfg.allows(cfg.nick, target, msg.action) {
        return false;
      }
      UpdateLocalState(Own(cfg, target, msg, now), now);
      var wire := String(msg);
      client.SendMessage(target, wire);
      return true;
    }

    /** The handler hooked up for the role engine. */
    method AnswerByRole(msg: Message, now: int)
      requires Valid()
      modifies state, contexts, client
      ensures Valid()
      ensures state.Contents() == RecordAll(cfg, old(state.Contents()), msg.channel, RoleReplies(cfg, msg), now)
      ensures contexts.Contents() == old(contexts.Contents())
      ensures client.sent == old(client.sent) + SendAll(msg.channel, RoleReplies(cfg, msg))
    {
      hide Record, WellNamed, Format, Replies, MaySend, Own, Passed, RecordAll;
      NothingPassed(cfg, state.Contents(), msg.channel, now);
      var responses := roleEngine.HandleMessage(msg);
      ghost var s0, sent0 := state.Contents(), client.sent;
      RepliesAreNotContext(roleEngine.behaviors, msg);
      assert responses == Replies(cfg.roles, msg);
      for i := 0 to |responses|
        invariant Valid()
        invariant contexts.Contents() == old(contexts.Contents())
        invariant state.Contents() == RecordAll(cfg, s0, msg.channel, Passed(cfg, msg.channel, responses[..i]), now)
        invariant client.sent == sent0 + SendAll(msg.channel, Passed(cfg, msg.channel, responses[..i]))
      {
        PassedNext(cfg, s0, msg.channel, responses, i, now);
        SentAsOwn(cfg, msg.channel, responses[i], now);
        var _ := SendProtocolMessage(msg.channel, responses[i], now);
      }
      assert responses[..|responses|] == responses;
    }

    method HandleDiscover(msg: Message)
      modifies client
      ensures client.sent == old(client.sent) + SendAll(ReplyTarget(msg), DiscoveryAnswers(cfg, msg))
      ensures forall i :: |old(client.sent)| <= i < |client.sent| ==>
        client.sent[i].target == if msg.channel == "" then msg.nick else msg.channel
    {
      hide Format;
      var requested := cfg.lower(msg.Get("expertise"));
      if msg.action != Discover || requested == "" {
        return;
      }
      for i := 0 to |cfg.caps|
        invariant forall k :: 0 <= k < i ==> cfg.lower(cfg.caps[k]) != requested
        invariant client.sent == old(client.sent)
      {
        if cfg.lower(cfg.caps[i]) == requested {
          var joined := JoinLoop(cfg.caps);
          var reply := String(NewMessage(Capabilities, map["expertise" := joined], []));
          client.SendMessage(ReplyTarget(msg), reply);
          return;
        }
      }
    }

    /** The context part of handleMessage. */
    method HandleContexts(msg: Message, now: int)
      modifies contexts, client
      ensures ContextStep(old(contexts.Contents()), msg, now, contexts.Contents())
      ensures client.sent == old(client.sent) + SendAll(ReplyTarget(msg), ContextAnswers(old(contexts.Contents()), msg))
    {
      hide Format, PayloadStored, Announced;
      match msg.action {
        case Context => contexts.Store(msg, now);
        case SharingContext => contexts.StorePayload(msg);
        case RequestContext =>
          contexts.TrackRequest(msg);
          contexts.HandleContextRequest(msg, client);
        case _ =>
      }
    }

    /** The registered handlers, in either order. */
    method RunHandlers(msg: Message, now: int, notifierFirst: bool)
      requires Valid()
      modifies state, contexts, client
      ensures Valid()
      ensures state.Contents() == RecordAll(cfg, old(state.Contents()), msg.channel, RoleReplies(cfg, msg), now)
      ensures contexts.Contents() == old(contexts.Contents())
      ensures client.sent == old(client.sent) + HandlerSends(cfg, msg, notifierFirst)
    {
      hide RecordAll, RoleReplies, Notifications, SendAll, SameReplies, WellNamed;
      SentInTwo(client.sent, Notifications(cfg.rules, msg, cfg.quote), SendAll(msg.channel, RoleReplies(cfg, msg)));
      SentInTwo(client.sent, SendAll(msg.channel, RoleReplies(cfg, msg)), Notifications(cfg.rules, msg, cfg.quote));
      if notifierFirst {
        notifier.HandleMessage(msg, cfg.quote);
        AnswerByRole(msg, now);
      } else {
        AnswerByRole(msg, now);
        notifier.HandleMessage(msg, cfg.quote);
      }
    }

    /** What an incoming message changes before the handlers run. */
    method Absorb(msg: Message, now: int) returns (ghost acks: seq<string>)
      requires Valid()
      modifies state, contexts, unblocker, client
      ensures Valid()
      ensures state.Contents() == Record(old(state.Contents()), msg, now)
      ensures Acknowledges(state.Contents(), old(unblocker.notified), msg, acks)
      ensures unblocker.notified == old(unblocker.notified) + Members(acks)
      ensures ContextStep(old(contexts.Contents()), msg, now, contexts.Contents())
      ensures client.sent == old(client.sent) + (AckSends(msg, acks)
        + SendAll(ReplyTarget(msg), ContextAnswers(old(contexts.Contents()), msg) + DiscoveryAnswers(cfg, msg)))
    {
      hide Record, Acknowledges, AckSends, SendAll, ContextStep, ContextAnswers, DiscoveryAnswers, SameReplies, WellNamed,
        ReplyTarget;
      ghost var target, sent0, answers := ReplyTarget(msg), client.sent, ContextAnswers(contexts.Contents(), msg);
      RecordTask(msg, now);
      acks := unblocker.OnTaskCompleted(msg);
      HandleContexts(msg, now);
      HandleDiscover(msg);
      SentInParts(sent0, AckSends(msg, acks), SendAll(target, answers), SendAll(target, DiscoveryAnswers(cfg, msg)));
      SendAllConcat(target, answers, DiscoveryAnswers(cfg, msg));
    }

    /** handleMessage once the line is parsed and allowed. */
    method Dispatch(msg: Message, now: int, notifierFirst: bool) returns (ghost acks: seq<string>, ghost sends: seq<Send>)
      requires Valid()
      modifies state, contexts, unblocker, client
      ensures Valid()
      ensures client.sent == old(client.sent) + sends
      ensures Dispatched(cfg, old(Contents()), msg, now, acks, notifierFirst, Contents(), sends)
    {
      hide Record, Acknowledges, AckSends, SendAll, ContextStep, RecordAll, RoleReplies, ContextAnswers,
        DiscoveryAnswers, WellNamed, Members, HandlerSends, ReplyTarget, SameReplies;
      ghost var answers, sent0 := ContextAnswers(contexts.Contents(), msg) + DiscoveryAnswers(cfg, msg), client.sent;
      acks := Absorb(msg, now);
      RunHandlers(msg, now, notifierFirst);
      sends := AckSends(msg, acks) + SendAll(ReplyTarget(msg), answers);
      SentInTwo(sent0, sends, HandlerSends(cfg, msg, notifierFirst));
      sends := sends + HandlerSends(cfg, msg, notifierFirst);
    }

    /** handleMessage: the line as it comes from IRC. */
    method HandleMessage(ev: Event, now: int, notifierFirst: bool) returns (ghost sends: seq<Send>)
      requires Valid()
      modifies state, contexts, unblocker, client
      ensures Valid()
      ensures client.sent == old(client.sent) + sends
      ensures Handles(cfg, old(Contents()), ev, now, Contents(), sends)
    {
      hide IsProtocolMessage, Parsed, Dispatched, WellNamed, SameReplies;
      sends := [];
      var isProtocol := CheckProtocolMessage(ev.text);
      if !isProtocol || ev.nick == cfg.nick {
        return;
      }
      var r := Parse(ev.text);
      if r.Err? || !cfg.allows(ev.nick, ev.channel, r.value.action) {
        return;
      }
      ghost var acks;
      acks, sends := Dispatch(Enrich(r.value, ev, now), now, notifierFirst);
    }
  }

  lemma SendAllConcat(target: string, a: seq<Message>, b: seq<Message>)
    ensures SendAll(target, a + b) == SendAll(target, a) + SendAll(target, b)
  {
    hide Format;
  }

  lemma SentAsOwn(cfg: Config, target: string, msg: Message, now: int)
    ensures MaySend(cfg, target, msg) <==> cfg.clean(msg) && cfg.allows(cfg.nick, target, msg.action)
    ensures Own(cfg, target, msg, now)
      == msg.(nick := cfg.nick, channel := target, timestamp := if msg.timestamp == 0 then now else msg.timestamp)
  {
  }

  lemma NothingPassed(cfg: Config, s: Store, target: string, now: int)
    ensures Passed(cfg, target, []) == [] && RecordAll(cfg, s, target, [], now) == s
  {
  }

  lemma PassedNext(cfg: Config, s: Store, target: string, messages: seq<Message>, i: nat, now: int)
    requires i < |messages|
    ensures var before, after := Passed(cfg, target, messages[..i]), Passed(cfg, target, messages[..i + 1]);
      if MaySend(cfg, target, messages[i]) then
        && RecordAll(cfg, s, target, after, now) == Record(RecordAll(cfg, s, target, before, now), Own(cfg, target, messages[i], now), now)
        && SendAll(target, after) == SendAll(target, before) + [Send(target, Format(messages[i]))]
      else
        after == before
  {
    hide Record, Format, MaySend, Own;
    var before := Passed(cfg, target, messages[..i]);
    assert messages[..i + 1][..i] == messages[..i];
    assert (before + [messages[i]])[..|before|] == before;
  }

  lemma RepliesAreNotContext(roles: seq<Role>, msg: Message)
    ensures forall i :: 0 <= i < |Replies(roles, msg)| ==> Replies(roles, msg)[i].action !in {Context, SharingContext}
  {
    forall i | 0 <= i < |Replies(roles, msg)| ensures Replies(roles, msg)[i].action !in {Context, SharingContext} {
      hide Replies;
      RepliesKnowTheirRole(roles, msg, i);
    }
  }

  lemma SentInParts(s: seq<Send>, a: seq<Send>, b: seq<Send>, c: seq<Send>)
    ensures s + a + b + c == s + (a + (b + c))
  {
  }

  lemma SentInTwo(s: seq<Send>, a: seq<Send>, b: seq<Send>)
    ensures s + a + b == s + (a + b)
  {
  }
}
