/**
 * No message storm: every line an agent sends of its own accord ranks strictly below the line that made it send,
 * so one message can only start a finite cascade, however many agents take part.
 */
module Storm {
  import opened Protocol
  import opened Text
  import opened Wire
  import opened WireLaws
  import opened Irc
  import opened State
  import opened Roles
  import opened Notifier
  import opened Coordinator
  import opened ContextSharing
  import opened Federation
  import opened Dispatcher

  // ---------- ranks ----------

  /** The action named by the first word of a line. */
  ghost function LeadAction(text: string): Option<Action> {
    ActionOf(FirstWord(TrimSpace(text)))
  }

  function ActionRank(a: Action): nat {
    match a
    case ReviewRequest => 4
    case ReviewComplete => 3
    case Completed => 3
    case Escalate => 3
    case RequestContext => 3
    case Discover => 3
    case _ => 2
  }

  /** Relayed lines are lowest, then plain text such as notifications, then protocol messages by action. */
  ghost function Rank(text: string): nat {
    if IsFederatedMessage(text) then 0
    else match LeadAction(text)
      case None => 1
      case Some(a) => ActionRank(a)
  }

  lemma BracketedIsNoAction(text: string)
    requires text != "" && text[0] == '['
    ensures LeadAction(text).None?
  {
    hide Name, Lettered;
    TrimSpaceRight(text);
    var t := TrimSpace(text);
    assert t[0] == '[';
    assert FirstWord(t) != "" && FirstWord(t)[0] == '[';
    if LeadAction(text).Some? {
      NameIsOneWord(LeadAction(text).value);
    }
  }

  lemma ProtocolRank(text: string)
    ensures IsProtocolMessage(text) <==> LeadAction(text).Some?
    ensures IsProtocolMessage(text) ==> Rank(text) == ActionRank(LeadAction(text).value)
  {
    hide TrimSpace, Name, ActionRank, FirstWord, IsProtocolMessage;
    ProtocolMessageIffFirstWord(text);
    if IsFederatedMessage(text) {
      assert text[0] == FED[0];
      BracketedIsNoAction(text);
    }
  }

  lemma PrintedRank(m: Message)
    ensures Rank(Format(m)) == ActionRank(m.action)
  {
    hide TrimSpace, Name, ActionRank, FirstWord, IsProtocolMessage, Rank;
    FirstWordIsAction(m);
    ActionOfName(m.action);
    ProtocolRank(Format(m));
  }

  lemma NoticeRank(event: Notification, msg: Message, quote: string -> string)
    ensures Rank(DefaultText(event, msg, quote)) == 1
  {
    hide LeadAction;
    var text := DefaultText(event, msg, quote);
    NoticeStarts(event, msg, quote);
    BracketedIsNoAction(text);
    assert FED[1] == 'f';
  }

  lemma NoticeStarts(event: Notification, msg: Message, quote: string -> string)
    ensures var text := DefaultText(event, msg, quote); |text| > 1 && text[0] == '[' && 'A' <= text[1] <= 'Z'
  {
    HeadingStarts(event);
    hide *;
    DefaultTextSays(event, msg, quote);
    var text := DefaultText(event, msg, quote);
    assert text[0] == Heading(event)[0] && text[1] == Heading(event)[1];
  }

  lemma HeadingStarts(event: Notification)
    ensures |Heading(event)| > 1 && Heading(event)[0] == '[' && 'A' <= Heading(event)[1] <= 'Z'
  {
  }

  // ---------- what one agent sends for one line ----------

  ghost predicate AllBelow(sends: seq<Send>, rank: nat) {
    forall i :: 0 <= i < |sends| ==> Rank(sends[i].text) < rank
  }

  lemma AllBelowConcat(a: seq<Send>, b: seq<Send>, rank: nat)
    requires AllBelow(a, rank) && AllBelow(b, rank)
    ensures AllBelow(a + b, rank)
  {
  }

  lemma PrintedBelow(target: string, messages: seq<Message>, rank: nat)
    requires forall i :: 0 <= i < |messages| ==> ActionRank(messages[i].action) < rank
    ensures AllBelow(SendAll(target, messages), rank)
  {
    hide Rank, Format;
    forall i | 0 <= i < |messages| ensures Rank(SendAll(target, messages)[i].text) < rank {
      PrintedRank(messages[i]);
    }
  }

  lemma AcksBelow(s: Store, notified: set<string>, msg: Message, acks: seq<string>)
    requires Acknowledges(s, notified, msg, acks)
    ensures AllBelow(AckSends(msg, acks), ActionRank(msg.action))
  {
    hide Rank, Format, ReadyTask, HasDuplicates;
    forall i | 0 <= i < |acks| ensures Rank(AckSends(msg, acks)[i].text) < ActionRank(msg.action) {
      assert acks[i] in acks;
      PrintedRank(AckMessage(acks[i], msg.Get("task")));
    }
  }

  lemma AnswersBelow(cfg: Config, c: Contexts, msg: Message)
    ensures AllBelow(SendAll(ReplyTarget(msg), ContextAnswers(c, msg) + DiscoveryAnswers(cfg, msg)), ActionRank(msg.action))
  {
    hide Rank, Format;
    PrintedBelow(ReplyTarget(msg), ContextAnswers(c, msg) + DiscoveryAnswers(cfg, msg), ActionRank(msg.action));
  }

  lemma RoleAnswerRank(role: Role)
    requires Trigger(role).Some?
    ensures ActionRank(AnswerAction(role)) < ActionRank(Trigger(role).value)
  {
  }

  lemma {:induction false} PassedAreMembers(cfg: Config, target: string, messages: seq<Message>)
    ensures forall x :: x in Passed(cfg, target, messages) ==> x in messages
  {
    if messages != [] {
      PassedAreMembers(cfg, target, messages[..|messages| - 1]);
      assert messages == messages[..|messages| - 1] + [messages[|messages| - 1]];
    }
  }

  lemma RolesBelow(cfg: Config, msg: Message)
    ensures AllBelow(SendAll(msg.channel, RoleReplies(cfg, msg)), ActionRank(msg.action))
  {
    hide Rank, Format, Passed, Replies, ActionRank, AnswerAction, Trigger;
    var all := Replies(cfg.roles, msg);
    PassedAreMembers(cfg, msg.channel, all);
    var passed := RoleReplies(cfg, msg);
    forall i | 0 <= i < |passed| ensures ActionRank(passed[i].action) < ActionRank(msg.action) {
      assert passed[i] in all;
      var j :| 0 <= j < |all| && all[j] == passed[i];
      RepliesKnowTheirRole(cfg.roles, msg, j);
      var k :| 0 <= k < |cfg.roles| && Trigger(cfg.roles[k]) == Some(msg.action) && all[j].action == AnswerAction(cfg.roles[k]);
      RoleAnswerRank(cfg.roles[k]);
    }
    PrintedBelow(msg.channel, passed, ActionRank(msg.action));
  }

  /** No custom formatter ever writes a line that would pass for a protocol message. */
  ghost predicate TameRules(rules: seq<Rule>) {
    forall rule, event, msg :: rule in rules && rule.formatter.Some? ==> !IsProtocolMessage(rule.formatter.value(event, msg))
  }

  lemma PlainTextRank(text: string)
    ensures Rank(text) <= 1 <==> !IsProtocolMessage(text)
  {
    hide IsProtocolMessage, LeadAction;
    ProtocolRank(text);
  }

  lemma NoticesBelow(cfg: Config, msg: Message)
    requires TameRules(cfg.rules)
    ensures AllBelow(Notifications(cfg.rules, msg, cfg.quote), ActionRank(msg.action))
  {
    hide Rank, Notices, IsProtocolMessage, DefaultText;
    if EventOf(msg).Some? {
      var event, sends := EventOf(msg).value, Notifications(cfg.rules, msg, cfg.quote);
      NoticesComeFromRules(cfg.rules, event, msg, cfg.quote);
      NoticeRank(event, msg, cfg.quote);
      forall i | 0 <= i < |sends| ensures Rank(sends[i].text) < ActionRank(msg.action) {
        assert sends[i] in sends;
        var k :| 0 <= k < |cfg.rules| && sends[i] in Notice(cfg.rules[k], event, msg, cfg.quote);
        assert cfg.rules[k] in cfg.rules;
        PlainTextRank(sends[i].text);
      }
    }
  }

  lemma DispatchedBelow(
      cfg: Config, a: AgentState, msg: Message, now: int, acks: seq<string>, first: bool, b: AgentState, sends: seq<Send>)
    requires TameRules(cfg.rules) && Dispatched(cfg, a, msg, now, acks, first, b, sends)
    ensures AllBelow(sends, ActionRank(msg.action))
  {
    hide AllBelow, Record, Acknowledges, AckSends, SendAll, ContextStep, ContextAnswers, DiscoveryAnswers, RecordAll,
      RoleReplies, Notifications, ActionRank, TameRules;
    var r := ActionRank(msg.action);
    AcksBelow(Record(a.store, msg, now), a.notified, msg, acks);
    AnswersBelow(cfg, a.contexts, msg);
    RolesBelow(cfg, msg);
    NoticesBelow(cfg, msg);
    var notices, replies := Notifications(cfg.rules, msg, cfg.quote), SendAll(msg.channel, RoleReplies(cfg, msg));
    AllBelowConcat(notices, replies, r);
    AllBelowConcat(replies, notices, r);
    var answers := SendAll(ReplyTarget(msg), ContextAnswers(a.contexts, msg) + DiscoveryAnswers(cfg, msg));
    AllBelowConcat(AckSends(msg, acks), answers, r);
    AllBelowConcat(AckSends(msg, acks) + answers, HandlerSends(cfg, msg, first), r);
  }

  /** Whatever the dispatcher sends for a line ranks below that line. */
  lemma HandledBelow(cfg: Config, a: AgentState, ev: Event, now: int, b: AgentState, sends: seq<Send>)
    requires TameRules(cfg.rules) && Handles(cfg, a, ev, now, b, sends)
    ensures AllBelow(sends, Rank(ev.text))
  {
    hide Dispatched, Rank, ActionRank, Parsed, TameRules, IsProtocolMessage, TrimSpace, FirstWord, Name;
    if !Ignored(cfg, ev) {
      var msg := Enrich(Parsed(ev.text).value, ev, now);
      var acks, first :| Dispatched(cfg, a, msg, now, acks, first, b, sends);
      DispatchedBelow(cfg, a, msg, now, acks, first, b, sends);
      ProtocolRank(ev.text);
      OnlyQuotesFail(ev.text);
    }
  }

  // ---------- the network ----------

  /** What is fixed about one agent: its dispatcher and its federation. */
  datatype Node = Node(cfg: Config, mappings: seq<Mapping>, links: set<string>)

  /** A line on its way to an agent, over its local connection or over one of its links. */
  datatype Delivery = Delivery(agent: string, link: Option<string>, ev: Event)

  datatype Net = Net(agents: map<string, AgentState>, pending: seq<Delivery>)

  function SentTexts(sends: seq<Send>): (r: seq<string>)
    ensures |r| == |sends| && forall i :: 0 <= i < |r| ==> r[i] == sends[i].text
  {
    seq(|sends|, i requires 0 <= i < |sends| => sends[i].text)
  }

  function RelayedTexts(sends: seq<LinkSend>): (r: seq<string>)
    ensures |r| == |sends| && forall i :: 0 <= i < |r| ==> r[i] == sends[i].send.text
  {
    seq(|sends|, i requires 0 <= i < |sends| => sends[i].send.text)
  }

  /**
   * All handlers of one connection take the line: on the local one the dispatcher and the outward relay, in either
   * order; on a link's only the inward relay.
   */
  ghost predicate Reacts(node: Node, a: AgentState, d: Delivery, now: int, b: AgentState, texts: seq<string>) {
    match d.link
    case Some(link) => b == a && texts == SentTexts(RelayedIn(node.mappings, link, d.ev))
    case None =>
      var relayed := RelayedTexts(RelayedOut(node.mappings, node.links, node.cfg.nick, d.ev));
      exists sends :: Handles(node.cfg, a, d.ev, now, b, sends)
        && (texts == SentTexts(sends) + relayed || texts == relayed + SentTexts(sends))
  }

  lemma FederatedRanksLast(text: string)
    ensures IsFederatedMessage(text) <==> Rank(text) == 0
  {
    hide LeadAction;
  }

  lemma ReactionBelow(node: Node, a: AgentState, d: Delivery, now: int, b: AgentState, texts: seq<string>)
    requires TameRules(node.cfg.rules) && Reacts(node, a, d, now, b, texts)
    ensures forall i :: 0 <= i < |texts| ==> Rank(texts[i]) < Rank(d.ev.text)
  {
    hide Rank, Handles, TameRules, IsFederatedMessage, LocalRelays, RemoteRelays;
    FederatedRanksLast(d.ev.text);
    match d.link {
      case Some(link) =>
        RemoteRelaysAreTagged(node.mappings, link, d.ev);
        forall i | 0 <= i < |texts| ensures Rank(texts[i]) < Rank(d.ev.text) {
          FederatedRanksLast(texts[i]);
        }
      case None =>
        var relayed := RelayedTexts(RelayedOut(node.mappings, node.links, node.cfg.nick, d.ev));
        var sends :| Handles(node.cfg, a, d.ev, now, b, sends)
          && (texts == SentTexts(sends) + relayed || texts == relayed + SentTexts(sends));
        HandledBelow(node.cfg, a, d.ev, now, b, sends);
        LocalRelaysAreTagged(node.mappings, node.links, d.ev);
        forall i | 0 <= i < |relayed| ensures Rank(relayed[i]) < Rank(d.ev.text) {
          FederatedRanksLast(relayed[i]);
        }
        forall i | 0 <= i < |texts| ensures Rank(texts[i]) < Rank(d.ev.text) {
          if texts == SentTexts(sends) + relayed {
            assert texts[i] == if i < |sends| then SentTexts(sends)[i] else relayed[i - |sends|];
          } else {
            assert texts[i] == if i < |relayed| then relayed[i] else SentTexts(sends)[i - |relayed|];
          }
        }
    }
  }

  /**
   * Some pending line reaches its agent. What that agent sends arrives, each line at any agents any number of times;
   * no other line appears.
   */
  ghost predicate Step(nodes: string -> Node, net: Net, net': Net) {
    exists i, now, b, texts, arrived ::
      && 0 <= i < |net.pending|
      && net.pending[i].agent in net.agents
      && Reacts(nodes(net.pending[i].agent), net.agents[net.pending[i].agent], net.pending[i], now, b, texts)
      && Arrive(arrived, texts)
      && net'.agents == net.agents[net.pending[i].agent := b]
      && net'.pending == net.pending[..i] + net.pending[i + 1..] + arrived
  }

  ghost predicate Arrive(arrived: seq<Delivery>, texts: seq<string>) {
    forall k :: 0 <= k < |arrived| ==> arrived[k].ev.text in texts
  }

  // ---------- something can always be delivered ----------

  lemma AcksExist(s: Store, notified: set<string>, msg: Message) returns (acks: seq<string>)
    ensures Acknowledges(s, notified, msg, acks)
  {
    hide Ready;
    var due := set t | t in s.tasks && msg.action == Completed && msg.Get("task") != "" && ReadyTask(s, t) && t !in notified;
    acks := SortedExists(due);
    forall i, j | 0 <= i < j < |acks| ensures acks[i] != acks[j] {
      BeforeTotal(acks[i], acks[j]);
    }
  }

  lemma ContextsExist(c: Contexts, msg: Message, now: int) returns (c': Contexts)
    ensures ContextStep(c, msg, now, c')
  {
    match msg.action {
      case Context => c' := Announced(c, msg, now);
      case RequestContext => c' := Tracked(c, msg);
      case SharingContext =>
        if k :| k in c.entries && c.entries[k].sharedBy == msg.nick {
          c' := c.(entries := c.entries[k := c.entries[k].(payload := msg.payload, updatedAt := msg.timestamp)]);
        } else {
          var key := PAYLOAD_KEY + msg.nick;
          c' := c.(entries := c.entries[key := ContextEntry(key, "", "", msg.payload, msg.nick, msg.timestamp)]);
        }
      case _ => c' := c;
    }
  }

  lemma HandlingExists(cfg: Config, a: AgentState, ev: Event, now: int) returns (b: AgentState, sends: seq<Send>)
    ensures Handles(cfg, a, ev, now, b, sends)
  {
    hide Record, Acknowledges, AckSends, SendAll, ContextStep, ContextAnswers, DiscoveryAnswers, RecordAll, RoleReplies,
      HandlerSends, Ignored, Members;
    if Ignored(cfg, ev) {
      return a, [];
    }
    NotIgnored(cfg, ev);
    var msg := Enrich(Parsed(ev.text).value, ev, now);
    var recorded := Record(a.store, msg, now);
    var acks := AcksExist(recorded, a.notified, msg);
    var contexts := ContextsExist(a.contexts, msg, now);
    b := AgentState(
      RecordAll(cfg, recorded, msg.channel, RoleReplies(cfg, msg), now), contexts, a.notified + Members(acks));
    sends := AckSends(msg, acks)
      + SendAll(ReplyTarget(msg), ContextAnswers(a.contexts, msg) + DiscoveryAnswers(cfg, msg)) + HandlerSends(cfg, msg, true);
    assert Dispatched(cfg, a, msg, now, acks, true, b, sends);
  }

  lemma NotIgnored(cfg: Config, ev: Event)
    requires !Ignored(cfg, ev)
    ensures Parsed(ev.text).Ok?
  {
  }

  lemma ReactionExists(node: Node, a: AgentState, d: Delivery, now: int) returns (b: AgentState, texts: seq<string>)
    ensures Reacts(node, a, d, now, b, texts)
  {
    hide Handles;
    match d.link {
      case Some(link) => b, texts := a, SentTexts(RelayedIn(node.mappings, link, d.ev));
      case None =>
        var sends;
        b, sends := HandlingExists(node.cfg, a, d.ev, now);
        texts := SentTexts(sends) + RelayedTexts(RelayedOut(node.mappings, node.links, node.cfg.nick, d.ev));
    }
  }

  /** Progress: any pending line of a known agent can be delivered next, and what is sent can arrive in any way. */
  lemma AnyLineCanBeDelivered(nodes: string -> Node, net: Net, i: nat, spread: seq<string> -> seq<Delivery>)
    requires i < |net.pending| && net.pending[i].agent in net.agents
    requires forall texts :: Arrive(spread(texts), texts)
    ensures exists net', texts ::
      Step(nodes, net, net') && net'.pending == net.pending[..i] + net.pending[i + 1..] + spread(texts)
      && net'.agents.Keys == net.agents.Keys
  {
    hide Reacts, Arrive;
    var d := net.pending[i];
    var b, texts := ReactionExists(nodes(d.agent), net.agents[d.agent], d, 0);
    var net' := Net(net.agents[d.agent := b], net.pending[..i] + net.pending[i + 1..] + spread(texts));
    assert Arrive(spread(texts), texts);
    assert Step(nodes, net, net');
  }

  // ---------- cascades end ----------

  ghost function CountRank(ds: seq<Delivery>, rank: nat): nat {
    if ds == [] then 0
    else CountRank(ds[..|ds| - 1], rank) + (if Rank(ds[|ds| - 1].ev.text) == rank then 1 else 0)
  }

  lemma {:induction false} CountConcat(a: seq<Delivery>, b: seq<Delivery>, rank: nat)
    ensures CountRank(a + b, rank) == CountRank(a, rank) + CountRank(b, rank)
  {
    hide Rank;
    if b == [] {
      assert a + b == a;
    } else {
      assert (a + b)[..|a + b| - 1] == a + b[..|b| - 1];
      CountConcat(a, b[..|b| - 1], rank);
    }
  }

  lemma CountOne(d: Delivery, rank: nat)
    ensures CountRank([d], rank) == if Rank(d.ev.text) == rank then 1 else 0
  {
    hide Rank;
    assert [d][..0] == [];
  }

  lemma {:induction false} CountLower(ds: seq<Delivery>, rank: nat, bound: nat)
    requires forall k :: 0 <= k < |ds| ==> Rank(ds[k].ev.text) < bound
    requires bound <= rank
    ensures CountRank(ds, rank) == 0
  {
    hide Rank;
    if ds != [] {
      CountLower(ds[..|ds| - 1], rank, bound);
    }
  }

  lemma RankAtMostFour(text: string)
    ensures Rank(text) <= 4
  {
    hide LeadAction, IsFederatedMessage;
  }

  ghost predicate Tame(nodes: string -> Node) {
    forall agent :: TameRules(nodes(agent).cfg.rules)
  }

  /** Delivering one line removes one of its rank and adds only lines of lower ranks. */
  lemma StepCounts(nodes: string -> Node, net: Net, net': Net) returns (r: nat)
    requires Tame(nodes) && Step(nodes, net, net')
    ensures r <= 4
    ensures CountRank(net'.pending, r) < CountRank(net.pending, r)
    ensures forall q :: r < q ==> CountRank(net'.pending, q) == CountRank(net.pending, q)
  {
    var i, now, b, texts, arrived :|
      && 0 <= i < |net.pending|
      && net.pending[i].agent in net.agents
      && Reacts(nodes(net.pending[i].agent), net.agents[net.pending[i].agent], net.pending[i], now, b, texts)
      && Arrive(arrived, texts)
      && net'.agents == net.agents[net.pending[i].agent := b]
      && net'.pending == net.pending[..i] + net.pending[i + 1..] + arrived;
    hide Rank, Reacts, CountRank, TameRules;
    var d := net.pending[i];
    r := Rank(d.ev.text);
    RankAtMostFour(d.ev.text);
    ReactionBelow(nodes(d.agent), net.agents[d.agent], d, now, b, texts);
    ArrivedBelow(arrived, texts, r);
    forall q: nat | r <= q ensures CountRank(net'.pending, q) + (if q == r then 1 else 0) == CountRank(net.pending, q) {
      CountMoves(net.pending, i, arrived, r, q);
    }
  }

  lemma ArrivedBelow(arrived: seq<Delivery>, texts: seq<string>, r: nat)
    requires Arrive(arrived, texts) && forall i :: 0 <= i < |texts| ==> Rank(texts[i]) < r
    ensures forall k :: 0 <= k < |arrived| ==> Rank(arrived[k].ev.text) < r
  {
    hide Rank;
    forall k | 0 <= k < |arrived| ensures Rank(arrived[k].ev.text) < r {
      var j :| 0 <= j < |texts| && texts[j] == arrived[k].ev.text;
    }
  }

  lemma CountMoves(pending: seq<Delivery>, i: nat, arrived: seq<Delivery>, r: nat, q: nat)
    requires i < |pending| && r == Rank(pending[i].ev.text) <= q
    requires forall k :: 0 <= k < |arrived| ==> Rank(arrived[k].ev.text) < r
    ensures CountRank(pending[..i] + pending[i + 1..] + arrived, q) + (if q == r then 1 else 0) == CountRank(pending, q)
  {
    hide Rank, CountRank;
    var before, after, d := pending[..i], pending[i + 1..], pending[i];
    assert pending == before + [d] + after;
    CountConcat(before + after, arrived, q);
    CountConcat(before, after, q);
    CountConcat(before + [d], after, q);
    CountConcat(before, [d], q);
    CountOne(d, q);
    CountLower(arrived, q, r);
  }

  /** As long as lines are pending, one of them is delivered next. */
  ghost predicate Delivers(nodes: string -> Node, run: nat -> Net, n: nat) {
    run(n).pending == [] || Step(nodes, run(n), run(n + 1))
  }

  lemma {:induction false} CascadeEnds(nodes: string -> Node, run: nat -> Net, i: nat) returns (n: nat)
    requires Tame(nodes) && forall k :: Delivers(nodes, run, k)
    ensures i <= n && run(n).pending == []
    decreases CountRank(run(i).pending, 4), CountRank(run(i).pending, 3), CountRank(run(i).pending, 2),
      CountRank(run(i).pending, 1), CountRank(run(i).pending, 0)
  {
    hide Step, CountRank, Tame;
    if run(i).pending == [] {
      n := i;
    } else {
      assert Delivers(nodes, run, i);
      var r := StepCounts(nodes, run(i), run(i + 1));
      n := CascadeEnds(nodes, run, i + 1);
    }
  }

  /** No storm: whatever is pending at first, every run that keeps delivering reaches a moment with nothing pending. */
  lemma NoEndlessStorm(nodes: string -> Node, run: nat -> Net)
    requires Tame(nodes) && forall k :: Delivers(nodes, run, k)
    ensures exists n :: run(n).pending == []
  {
    hide Delivers, Tame;
    var n := CascadeEnds(nodes, run, 0);
  }

  /** A line that some agent, in some state, sends because of the delivery d. */
  ghost predicate Provokes(nodes: string -> Node, d: Delivery, text: string) {
    exists a, now, b, texts :: Reacts(nodes(d.agent), a, d, now, b, texts) && text in texts
  }

  ghost predicate Chain(nodes: string -> Node, ds: seq<Delivery>) {
    forall i :: 0 < i < |ds| ==> Provokes(nodes, ds[i - 1], ds[i].ev.text)
  }

  lemma ProvokedIsLower(nodes: string -> Node, d: Delivery, text: string)
    requires Tame(nodes) && Provokes(nodes, d, text)
    ensures Rank(text) < Rank(d.ev.text)
  {
    hide Rank, Reacts, TameRules;
    var a, now, b, texts :| Reacts(nodes(d.agent), a, d, now, b, texts) && text in texts;
    ReactionBelow(nodes(d.agent), a, d, now, b, texts);
  }

  /** A chain of lines, each sent because of the one before, is no longer than the rank of its first line allows. */
  lemma {:induction false} ChainsAreShort(nodes: string -> Node, ds: seq<Delivery>)
    requires Tame(nodes) && Chain(nodes, ds) && ds != []
    ensures |ds| + Rank(ds[|ds| - 1].ev.text) <= 1 + Rank(ds[0].ev.text) <= 5
  {
    hide Rank, Provokes, Tame;
    RankAtMostFour(ds[0].ev.text);
    if |ds| > 1 {
      var front := ds[..|ds| - 1];
      assert Provokes(nodes, ds[|ds| - 1 - 1], ds[|ds| - 1].ev.text);
      ProvokedIsLower(nodes, ds[|ds| - 2], ds[|ds| - 1].ev.text);
      ChainsAreShort(nodes, front);
    }
  }
}
