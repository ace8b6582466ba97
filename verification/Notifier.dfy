/** Notification routing of internal/agent/notifier.go, with the default formatter and custom ones. */
module Notifier {
  import opened Protocol
  import opened Irc
  import opened Sequences

  datatype Notification =
    | TaskCompleted | TaskBlocked | TaskStarted | HelpNeededEvent | ContextUpdate | UnblockedEvent
    | TaskOffered | TaskClaimed | TaskAssigned | TaskYielded | CheckpointEvent | HandoffEvent
    | ReviewRequested | ReviewCompleted | GatePassed | GateFailed | VoteEvent | Escalation

  /** A rule may bring its own formatter, which can return any text, also none. */
  datatype Rule = Rule(event: Notification, channel: string, formatter: Option<(Notification, Message) -> string>)

  function ActionToEvent(a: Action): Option<Notification> {
    match a
    case Completed => Some(TaskCompleted)
    case Blocked => Some(TaskBlocked)
    case Started => Some(TaskStarted)
    case HelpNeeded => Some(HelpNeededEvent)
    case Context => Some(ContextUpdate)
    case Acknowledged => Some(UnblockedEvent)
    case Offer => Some(TaskOffered)
    case Claim => Some(TaskClaimed)
    case Assign => Some(TaskAssigned)
    case Yield => Some(TaskYielded)
    case Checkpoint => Some(CheckpointEvent)
    case Handoff => Some(HandoffEvent)
    case ReviewRequest => Some(ReviewRequested)
    case ReviewComplete => Some(ReviewCompleted)
    case GateCheck => Some(GatePassed)
    case Vote => Some(VoteEvent)
    case Escalate => Some(Escalation)
    case _ => None
  }

  /** The event of a message: a failed gate is told apart from a passed one. */
  function EventOf(msg: Message): Option<Notification> {
    if msg.action == GateCheck && msg.Get("status") == "failed" then Some(GateFailed) else ActionToEvent(msg.action)
  }

  /** A format string cut at its verbs, and what is filled in: the text is glue, fact, glue, fact, and so on. */
  datatype Template = Template(glue: seq<string>, facts: seq<string>)

  function Woven(glue: seq<string>, facts: seq<string>): string
    requires |glue| == |facts| + 1
  {
    if facts == [] then glue[0] else glue[0] + (facts[0] + Woven(glue[1..], facts[1..]))
  }

  /** The bracketed word every default text starts with. */
  function Heading(event: Notification): string {
    match event
    case TaskCompleted => "[COMPLETED] "
    case TaskBlocked => "[BLOCKED] "
    case TaskStarted => "[STARTED] "
    case HelpNeededEvent => "[HELP-NEEDED] "
    case ContextUpdate => "[CONTEXT] "
    case UnblockedEvent => "[UNBLOCKED] "
    case TaskOffered => "[OFFERED] "
    case TaskClaimed => "[CLAIMED] "
    case TaskAssigned => "[ASSIGNED] "
    case TaskYielded => "[YIELDED] "
    case CheckpointEvent => "[CHECKPOINT] "
    case HandoffEvent => "[HANDOFF] "
    case ReviewRequested => "[REVIEW-REQUEST] "
    case ReviewCompleted => "[REVIEW-COMPLETE] "
    case GatePassed => "[GATE-CHECK] "
    case GateFailed => "[GATE-FAILED] "
    case VoteEvent => "[VOTE] "
    case Escalation => "[ESCALATE] "
  }

  /** The default formats after the heading; quote is the rendering of Go's %q. */
  function TemplateOf(event: Notification, msg: Message, quote: string -> string): (t: Template)
    ensures |t.glue| == |t.facts| + 1
  {
    var task := quote(msg.Get("task"));
    match event
    case TaskCompleted => Template(["", " completed task ", " in ", ""], [msg.nick, task, msg.channel])
    case TaskBlocked =>
      if msg.Get("waiting-for") != "" then
        Template(["", " blocked on task ", " waiting for ", ""], [msg.nick, task, msg.Get("waiting-for")])
      else
        Template(["", " blocked on task ", ""], [msg.nick, task])
    case TaskStarted => Template(["", " started task ", " in ", ""], [msg.nick, task, msg.channel])
    case HelpNeededEvent =>
      if msg.Get("expertise") != "" then
        Template(["", " needs help with ", " (expertise: ", ")"], [msg.nick, task, msg.Get("expertise")])
      else
        Template(["", " needs help with ", ""], [msg.nick, task])
    case ContextUpdate => Template(["", " updated context for ", ""], [msg.nick, quote(msg.Get("component"))])
    case UnblockedEvent =>
      if msg.Get("unblocked-by") != "" then
        Template(["task ", " unblocked by completion of ", ""], [task, quote(msg.Get("unblocked-by"))])
      else
        Template(["task ", " unblocked"], [task])
    case TaskOffered => Template(["", " offered task ", " in ", ""], [msg.nick, task, msg.channel])
    case TaskClaimed => Template(["", " claimed task ", ""], [msg.nick, task])
    case TaskAssigned => Template(["", " assigned task ", " to ", ""], [msg.nick, task, msg.Get("to")])
    case TaskYielded => Template(["", " yielded task ", ""], [msg.nick, task])
    case CheckpointEvent =>
      Template(["", " checkpoint on ", ": ", "% - ", ""], [msg.nick, task, msg.Get("progress"), msg.Get("summary")])
    case HandoffEvent => Template(["", " handed off ", " to ", ""], [msg.nick, task, msg.Get("to")])
    case ReviewRequested =>
      Template(["", " requested ", " review for ", ""], [msg.nick, msg.Get("review-type"), task])
    case ReviewCompleted => Template(["", " reviewed ", ": ", ""], [msg.nick, task, msg.Get("verdict")])
    case GatePassed =>
      Template(["", " gate ", " for ", ": ", ""], [msg.nick, quote(msg.Get("gate")), task, msg.Get("status")])
    case GateFailed =>
      Template(["", " gate ", " for ", " failed: ", ""], [msg.nick, quote(msg.Get("gate")), task, msg.Get("details")])
    case VoteEvent =>
      Template(["", " voted ", " on topic ", ""], [msg.nick, quote(msg.Get("choice")), quote(msg.Get("topic"))])
    case Escalation =>
      Template(["", " escalated ", " to ", ": ", " (severity: ", ")"],
               [msg.nick, task, msg.Get("to"), msg.Get("reason"), msg.Get("severity")])
  }

  function DefaultText(event: Notification, msg: Message, quote: string -> string): string {
    Heading(event) + Woven(TemplateOf(event, msg, quote).glue, TemplateOf(event, msg, quote).facts)
  }

  /** The text a rule makes of an event; an empty one is not sent. */
  function RuleText(rule: Rule, event: Notification, msg: Message, quote: string -> string): string {
    if rule.formatter.Some? then rule.formatter.value(event, msg) else DefaultText(event, msg, quote)
  }

  function Notice(rule: Rule, event: Notification, msg: Message, quote: string -> string): seq<Send> {
    if rule.event == event && RuleText(rule, event, msg, quote) != "" then
      [Send(rule.channel, RuleText(rule, event, msg, quote))]
    else
      []
  }

  /** What the rules make the notifier send for an event, in the order of the rules. */
  function Notices(rules: seq<Rule>, event: Notification, msg: Message, quote: string -> string): seq<Send> {
    if rules == [] then []
    else Notices(rules[..|rules| - 1], event, msg, quote) + Notice(rules[|rules| - 1], event, msg, quote)
  }

  function Notifications(rules: seq<Rule>, msg: Message, quote: string -> string): seq<Send> {
    match EventOf(msg)
    case None => []
    case Some(event) => Notices(rules, event, msg, quote)
  }

  /** A send that some rule for the event makes: to its channel, with its text. */
  predicate FromRule(rules: seq<Rule>, event: Notification, msg: Message, quote: string -> string, send: Send) {
    exists k :: 0 <= k < |rules| && send in Notice(rules[k], event, msg, quote)
  }

  /** Every notification comes from a rule for the event. */
  lemma {:induction false} NoticesComeFromRules(rules: seq<Rule>, event: Notification, msg: Message, quote: string -> string)
    ensures forall send :: send in Notices(rules, event, msg, quote) ==> FromRule(rules, event, msg, quote, send)
  {
    hide Notice;
    if rules != [] {
      var front, last := rules[..|rules| - 1], rules[|rules| - 1];
      NoticesComeFromRules(front, event, msg, quote);
      forall send | send in Notices(rules, event, msg, quote) ensures FromRule(rules, event, msg, quote, send) {
        if send in Notices(front, event, msg, quote) {
          var k :| 0 <= k < |front| && send in Notice(front[k], event, msg, quote);
          assert rules[k] == front[k];
        } else {
          assert send in Notice(last, event, msg, quote);
        }
      }
    }
  }

  class RuleNotifier {
    var rules: seq<Rule>
    const client: Client

    constructor (client: Client)
      ensures this.client == client && rules == []
    {
      this.client := client;
      rules := [];
    }

    method AddRule(rule: Rule)
      modifies this`rules
      ensures rules == old(rules) + [rule]
    {
      rules := rules + [rule];
    }

    /** A matching rule sends one line, unless its formatter returns nothing; the default text is never empty. */
    method HandleMessage(msg: Message, quote: string -> string)
      modifies client
      ensures client.sent == old(client.sent) + Notifications(rules, msg, quote)
    {
      hide DefaultText, TemplateOf;
      var event := EventOf(msg);
      if event.None? {
        return;
      }
      ghost var before := client.sent;
      for i := 0 to |rules|
        invariant client.sent == before + Notices(rules[..i], event.value, msg, quote)
      {
        NoticesNext(rules, i, event.value, msg, quote);
        if rules[i].event == event.value {
          var text := DefaultText(event.value, msg, quote);
          if rules[i].formatter.Some? {
            text := rules[i].formatter.value(event.value, msg);
          }
          if text != "" {
            client.SendMessage(rules[i].channel, text);
          }
        }
      }
      assert rules[..|rules|] == rules;
    }
  }

  lemma NoticesNext(rules: seq<Rule>, i: nat, event: Notification, msg: Message, quote: string -> string)
    requires i < |rules|
    ensures Notices(rules[..i + 1], event, msg, quote) == Notices(rules[..i], event, msg, quote) + Notice(rules[i], event, msg, quote)
  {
    hide Notice;
    assert rules[..i + 1][..i] == rules[..i];
  }

  // ---------- what a notification says ----------

  /** The facts occur in the text one after the other. */
  ghost predicate SaysInOrder(text: string, facts: seq<string>)
    decreases |facts|
  {
    facts == [] || exists i, j :: 0 <= i <= j <= |text| && text[i..j] == facts[0] && SaysInOrder(text[j..], facts[1..])
  }

  lemma {:induction false} WovenSaysFacts(glue: seq<string>, facts: seq<string>)
    requires |glue| == |facts| + 1
    ensures glue[0] <= Woven(glue, facts) && SaysInOrder(Woven(glue, facts), facts)
    decreases |facts|
  {
    if facts != [] {
      WovenSaysFacts(glue[1..], facts[1..]);
      var text, rest := Woven(glue, facts), Woven(glue[1..], facts[1..]);
      var i := |glue[0]|;
      var j := i + |facts[0]|;
      assert text[i..j] == facts[0] && text[j..] == rest;
    }
  }

  lemma {:induction false} SaidAfterHeading(heading: string, text: string, facts: seq<string>)
    requires SaysInOrder(text, facts)
    ensures SaysInOrder(heading + text, facts)
  {
    if facts != [] {
      var i, j :| 0 <= i <= j <= |text| && text[i..j] == facts[0] && SaysInOrder(text[j..], facts[1..]);
      var n := |heading|;
      assert (heading + text)[n + i..n + j] == text[i..j] && (heading + text)[n + j..] == text[j..];
    }
  }

  /** Who and what a reader learns of an event, in this order. */
  function Learns(event: Notification, msg: Message, quote: string -> string): seq<string> {
    var who, task := msg.nick, quote(msg.Get("task"));
    match event
    case TaskBlocked => if msg.Get("waiting-for") == "" then [who, task] else [who, task, msg.Get("waiting-for")]
    case HelpNeededEvent => if msg.Get("expertise") == "" then [who, task] else [who, task, msg.Get("expertise")]
    case UnblockedEvent => if msg.Get("unblocked-by") == "" then [task] else [task, quote(msg.Get("unblocked-by"))]
    case ContextUpdate => [who, quote(msg.Get("component"))]
    case VoteEvent => [who, quote(msg.Get("choice")), quote(msg.Get("topic"))]
    case ReviewRequested => [who, msg.Get("review-type"), task]
    case GatePassed => [who, quote(msg.Get("gate")), task, msg.Get("status")]
    case GateFailed => [who, quote(msg.Get("gate")), task, msg.Get("details")]
    case ReviewCompleted => [who, task, msg.Get("verdict")]
    case CheckpointEvent => [who, task, msg.Get("progress"), msg.Get("summary")]
    case Escalation => [who, task, msg.Get("to"), msg.Get("reason"), msg.Get("severity")]
    case TaskClaimed => [who, task]
    case TaskYielded => [who, task]
    case TaskAssigned => [who, task, msg.Get("to")]
    case HandoffEvent => [who, task, msg.Get("to")]
    case _ => [who, task, msg.channel]
  }

  lemma TemplatesHoldFacts(event: Notification, msg: Message, quote: string -> string)
    ensures TemplateOf(event, msg, quote).facts == Learns(event, msg, quote)
  {
  }

  /** A default text starts with the word of its event and names, in order, what a reader has to learn. */
  lemma DefaultTextSays(event: Notification, msg: Message, quote: string -> string)
    ensures Heading(event) <= DefaultText(event, msg, quote)
    ensures SaysInOrder(DefaultText(event, msg, quote), Learns(event, msg, quote))
  {
    hide Woven, SaysInOrder, TemplateOf, Learns, Heading;
    var t := TemplateOf(event, msg, quote);
    TemplatesHoldFacts(event, msg, quote);
    WovenSaysFacts(t.glue, t.facts);
    SaidAfterHeading(Heading(event), Woven(t.glue, t.facts), t.facts);
  }

  /** No two events share their word. */
  lemma HeadingsDiffer(a: Notification, b: Notification)
    requires Heading(a) == Heading(b)
    ensures a == b
  {
    var n := |Heading(a)|;
    assert n == |Heading(b)| && Heading(a)[1] == Heading(b)[1] && Heading(a)[2] == Heading(b)[2] && Heading(a)[6] == Heading(b)[6];
  }

  /** The action whose messages an event is about. */
  function Source(event: Notification): Action {
    match event
    case TaskCompleted => Completed
    case TaskBlocked => Blocked
    case TaskStarted => Started
    case HelpNeededEvent => HelpNeeded
    case ContextUpdate => Context
    case UnblockedEvent => Acknowledged
    case TaskOffered => Offer
    case TaskClaimed => Claim
    case TaskAssigned => Assign
    case TaskYielded => Yield
    case CheckpointEvent => Checkpoint
    case HandoffEvent => Handoff
    case ReviewRequested => ReviewRequest
    case ReviewCompleted => ReviewComplete
    case GatePassed => GateCheck
    case GateFailed => GateCheck
    case VoteEvent => Vote
    case Escalation => Escalate
  }

  /** Which messages a rule's event covers; a gate check is a failure exactly if its status says so. */
  predicate Covers(event: Notification, msg: Message) {
    && msg.action == Source(event)
    && (event == GateFailed ==> msg.Get("status") == "failed")
    && (event == GatePassed ==> msg.Get("status") != "failed")
  }

  lemma EventCovers(event: Notification, msg: Message)
    ensures EventOf(msg) == Some(event) <==> Covers(event, msg)
  {
  }

  /** What a rule makes of a message: one line to its channel, by its own formatter if it has one, and none without text. */
  function NoticeLine(msg: Message, quote: string -> string): Rule -> Option<Send> {
    (rule: Rule) =>
      var text := if rule.formatter.Some? then rule.formatter.value(rule.event, msg) else DefaultText(rule.event, msg, quote);
      if Covers(rule.event, msg) && text != "" then Some(Send(rule.channel, text)) else None
  }

  lemma {:induction false} NoticesAreSelection(rules: seq<Rule>, event: Notification, msg: Message, quote: string -> string)
    requires EventOf(msg) == Some(event)
    ensures IsSelection(rules, Notices(rules, event, msg, quote), NoticeLine(msg, quote))
  {
    hide IsSelection, DefaultText, Covers, EventOf;
    if rules == [] {
      NothingSelected(NoticeLine(msg, quote));
    } else {
      var front, last := rules[..|rules| - 1], rules[|rules| - 1];
      NoticesAreSelection(front, event, msg, quote);
      EventCovers(last.event, msg);
      assert front + [last] == rules;
      SelectionGrows(front, Notices(front, event, msg, quote), NoticeLine(msg, quote), last);
    }
  }

  /** A message makes exactly the rules send that cover it, each its line, in the order of the rules. */
  lemma {:induction false} CoveringRulesSend(rules: seq<Rule>, msg: Message, quote: string -> string)
    ensures IsSelection(rules, Notifications(rules, msg, quote), NoticeLine(msg, quote))
  {
    hide IsSelection, DefaultText, Notices;
    if EventOf(msg).Some? {
      NoticesAreSelection(rules, EventOf(msg).value, msg, quote);
    } else {
      NothingCovers(rules, msg, quote);
    }
  }

  lemma {:induction false} NothingCovers(rules: seq<Rule>, msg: Message, quote: string -> string)
    requires EventOf(msg).None?
    ensures IsSelection(rules, [], NoticeLine(msg, quote))
  {
    hide IsSelection, DefaultText, Covers, EventOf;
    if rules == [] {
      NothingSelected(NoticeLine(msg, quote));
    } else {
      var front, last := rules[..|rules| - 1], rules[|rules| - 1];
      NothingCovers(front, msg, quote);
      EventCovers(last.event, msg);
      assert front + [last] == rules;
      var none: seq<Send> := [];
      SelectionGrows(front, none, NoticeLine(msg, quote), last);
      assert none + [] == none;
    }
  }
}
