/** What one incoming line does to an agent and makes it send, in terms of the line and the agent's configuration. */
module HandlingLaws {
  import opened Protocol
  import opened Sequences
  import opened State
  import opened Wire
  import opened Irc
  import opened Lists
  import opened ContextSharing
  import opened Coordinator
  import opened Roles
  import opened Notifier
  import opened Dispatcher

  // ---------- which lines count ----------

  /** The line is of another agent, parses, and the access rules allow its sender the action there. */
  ghost predicate Heard(cfg: Config, ev: Event) {
    && IsProtocolMessage(ev.text) && ev.nick != cfg.nick
    && Parsed(ev.text).Ok? && cfg.allows(ev.nick, ev.channel, Parsed(ev.text).value.action)
  }

  /** The message of a line: as parsed, with the sender, channel and time of the line. */
  ghost function Said(ev: Event, now: int): Message
    requires Parsed(ev.text).Ok?
  {
    Parsed(ev.text).value.(
      nick := ev.nick, channel := ev.channel, timestamp := if ev.timestamp == 0 then now else ev.timestamp)
  }

  /** A line that does not count changes nothing and is not answered. */
  lemma UnheardLinesDoNothing(cfg: Config, a: AgentState, ev: Event, now: int, b: AgentState, sends: seq<Send>)
    requires Handles(cfg, a, ev, now, b, sends) && !Heard(cfg, ev)
    ensures b == a && sends == []
  {
    hide Dispatched, IsProtocolMessage, Parsed;
  }

  // ---------- role replies ----------

  /** What the credential check and the access rules let an agent send. */
  function Cleared(cfg: Config, target: string): Message -> Option<Message> {
    m => if cfg.clean(m) && cfg.allows(cfg.nick, target, m.action) then Some(m) else None
  }

  lemma {:induction false} PassedIsSelection(cfg: Config, target: string, messages: seq<Message>)
    ensures IsSelection(messages, Passed(cfg, target, messages), Cleared(cfg, target))
  {
    hide IsSelection;
    if messages == [] {
      NothingSelected(Cleared(cfg, target));
    } else {
      var front, last := messages[..|messages| - 1], messages[|messages| - 1];
      PassedIsSelection(cfg, target, front);
      assert front + [last] == messages;
      SelectionGrows(front, Passed(cfg, target, front), Cleared(cfg, target), last);
    }
  }

  /** What an agent sends for a line apart from role replies: acknowledgements, answers, then notifications. */
  ghost predicate OtherSends(cfg: Config, a: AgentState, msg: Message, now: int, others: seq<Send>) {
    exists acks :: Acknowledges(Record(a.store, msg, now), a.notified, msg, acks)
      && others == AckSends(msg, acks) + SendAll(ReplyTarget(msg), ContextAnswers(a.contexts, msg) + DiscoveryAnswers(cfg, msg))
                 + Notifications(cfg.rules, msg, cfg.quote)
  }

  /** The kept replies are sent in one piece, in order, to the channel of the line, among the other sends. */
  ghost predicate SentAmong(msg: Message, kept: seq<Message>, others: seq<Send>, sends: seq<Send>) {
    exists i :: 0 <= i <= |others| && sends == others[..i] + SendAll(msg.channel, kept) + others[i..]
  }

  /**
   * For a line that counts, the role replies that are sent and recorded are exactly those replies of the configured roles
   * that are clean and allowed, in order; the line itself is recorded first.
   */
  lemma ClearedRepliesAreSent(cfg: Config, a: AgentState, ev: Event, now: int, b: AgentState, sends: seq<Send>)
    requires Handles(cfg, a, ev, now, b, sends) && Heard(cfg, ev)
    ensures var msg := Said(ev, now);
      exists kept, others ::
        && IsSelection(Replies(cfg.roles, msg), kept, Cleared(cfg, msg.channel))
        && OtherSends(cfg, a, msg, now, others) && SentAmong(msg, kept, others, sends)
        && b.store == RecordAll(cfg, Record(a.store, msg, now), msg.channel, kept, now)
  {
    hide Record, Parsed, IsProtocolMessage, Acknowledges, AckSends, SendAll, ContextStep, ContextAnswers, DiscoveryAnswers,
      Members, IsSelection, RecordAll, Notifications, Replies, Passed, ReplyTarget;
    var msg := Said(ev, now);
    assert Enrich(Parsed(ev.text).value, ev, now) == msg;
    var acks, first :| Dispatched(cfg, a, msg, now, acks, first, b, sends);
    var kept := Passed(cfg, msg.channel, Replies(cfg.roles, msg));
    PassedIsSelection(cfg, msg.channel, Replies(cfg.roles, msg));
    var answers := SendAll(ReplyTarget(msg), ContextAnswers(a.contexts, msg) + DiscoveryAnswers(cfg, msg));
    var early, notices := AckSends(msg, acks) + answers, Notifications(cfg.rules, msg, cfg.quote);
    var others := early + notices;
    assert OtherSends(cfg, a, msg, now, others);
    var i := if first then |others| else |early|;
    Among(early, notices, SendAll(msg.channel, kept), first);
    assert sends == others[..i] + SendAll(msg.channel, kept) + others[i..];
    assert SentAmong(msg, kept, others, sends);
  }

  lemma Among(early: seq<Send>, notices: seq<Send>, replies: seq<Send>, first: bool)
    ensures var others := early + notices; var i := if first then |others| else |early|;
      early + (if first then notices + replies else replies + notices) == others[..i] + replies + others[i..]
  {
  }

  /** An agent that may send nothing to the channel, or nothing that it would say, sends and records no role reply. */
  lemma MutedAgentsDoNotReply(cfg: Config, a: AgentState, ev: Event, now: int, b: AgentState, sends: seq<Send>)
    requires Handles(cfg, a, ev, now, b, sends) && Heard(cfg, ev)
    requires (forall action :: !cfg.allows(cfg.nick, ev.channel, action)) || forall m :: !cfg.clean(m)
    ensures Parsed(ev.text).Ok?
    ensures b.store == Record(a.store, Said(ev, now), now)
    ensures OtherSends(cfg, a, Said(ev, now), now, sends)
  {
    assert Parsed(ev.text).Ok?;
    hide *;
    ClearedRepliesAreSent(cfg, a, ev, now, b, sends);
    var msg := Said(ev, now);
    var kept, others :|
      && IsSelection(Replies(cfg.roles, msg), kept, Cleared(cfg, msg.channel))
      && OtherSends(cfg, a, msg, now, others) && SentAmong(msg, kept, others, sends)
      && b.store == RecordAll(cfg, Record(a.store, msg, now), msg.channel, kept, now);
    SaidThere(ev, now);
    NothingCleared(cfg, msg.channel, Replies(cfg.roles, msg), kept);
    NothingAmong(msg, others, sends);
    NothingRecorded(cfg, Record(a.store, msg, now), msg.channel, now);
  }

  lemma SaidThere(ev: Event, now: int)
    requires Parsed(ev.text).Ok?
    ensures Said(ev, now).channel == ev.channel
  {
  }

  lemma NothingAmong(msg: Message, others: seq<Send>, sends: seq<Send>)
    requires SentAmong(msg, [], others, sends)
    ensures sends == others
  {
    var i :| 0 <= i <= |others| && sends == others[..i] + SendAll(msg.channel, []) + others[i..];
    assert SendAll(msg.channel, []) == [];
  }

  lemma NothingRecorded(cfg: Config, s: Store, target: string, now: int)
    ensures RecordAll(cfg, s, target, [], now) == s
  {
  }

  lemma NothingCleared(cfg: Config, target: string, all: seq<Message>, kept: seq<Message>)
    requires IsSelection(all, kept, Cleared(cfg, target))
    requires (forall action :: !cfg.allows(cfg.nick, target, action)) || forall m :: !cfg.clean(m)
    ensures kept == []
  {
    if kept != [] {
      SomethingTaken(all, kept, Cleared(cfg, target));
    }
  }

  // ---------- contexts and acknowledgements ----------

  /** A line that counts reaches the context store once, and what it makes the agent acknowledge is remembered. */
  lemma LineReachesStores(cfg: Config, a: AgentState, ev: Event, now: int, b: AgentState, sends: seq<Send>)
    requires Handles(cfg, a, ev, now, b, sends) && Heard(cfg, ev)
    ensures ContextStep(a.contexts, Said(ev, now), now, b.contexts)
    ensures forall t :: t in b.notified <==>
      || t in a.notified
      || (Said(ev, now).action == Completed && Said(ev, now).Get("task") != "" && ReadyTask(Record(a.store, Said(ev, now), now), t))
  {
    hide Record, Parsed, IsProtocolMessage, AckSends, SendAll, ContextStep, ContextAnswers, DiscoveryAnswers, HasDuplicates,
      Members, RecordAll, Notifications, Replies, Passed, ReplyTarget, ReadyTask;
    var msg := Said(ev, now);
    assert Enrich(Parsed(ev.text).value, ev, now) == msg;
    var acks, first :| Dispatched(cfg, a, msg, now, acks, first, b, sends);
    MembersHold(acks);
  }

  // ---------- discovery ----------

  /**
   * A DISCOVER message is answered if and only if the expertise it asks for is not empty and is, in small letters, one of the
   * agent's own; the one answer then lists all of them, and the list can be split again if each is free of commas and blanks
   * at its ends.
   */
  lemma DiscoveryAnswered(cfg: Config, msg: Message)
    ensures var asked, answers := cfg.lower(msg.Get("expertise")), DiscoveryAnswers(cfg, msg);
      && |answers| <= 1
      && (|answers| == 1 <==> msg.action == Discover && asked != "" && exists cap :: cap in cfg.caps && cfg.lower(cap) == asked)
      && (|answers| == 1 ==>
            && answers[0].action == Capabilities && answers[0].tags == [] && answers[0].fields.Keys == {"expertise"}
            && (CommaList(answers[0].Get("expertise")) == cfg.caps <==> forall i :: 0 <= i < |cfg.caps| ==> Clean(cfg.caps[i])))
  {
    hide CommaList, JoinComma, Clean;
    SplitUndoesJoin(cfg.caps);
    var asked := cfg.lower(msg.Get("expertise"));
    if cap :| cap in cfg.caps && cfg.lower(cap) == asked {
      var i :| 0 <= i < |cfg.caps| && cfg.caps[i] == cap;
    }
  }
}
