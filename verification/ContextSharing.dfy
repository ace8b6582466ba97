/** Context announcements, payloads and requests of internal/agent/context_sharing.go. */
module ContextSharing {
  import opened Protocol
  import opened Irc
  import opened Wire

  datatype ContextEntry = ContextEntry(
    component: string,
    project: string,
    status: string,
    payload: string,
    sharedBy: string,
    updatedAt: int)

  datatype ContextRequest = ContextRequest(
    component: string,
    requestedBy: string,
    channel: string,
    requestedAt: int,
    fulfilled: bool,
    fulfilledAt: int)

  datatype Contexts = Contexts(entries: map<string, ContextEntry>, requests: seq<ContextRequest>)

  function EntryOf(msg: Message): ContextEntry {
    ContextEntry(msg.Get("component"), msg.Get("project"), msg.Get("status"), "", msg.nick, msg.timestamp)
  }

  function FulfillOne(r: ContextRequest, component: string, now: int): ContextRequest {
    if r.component == component && !r.fulfilled then r.(fulfilled := true, fulfilledAt := now) else r
  }

  function Fulfill(requests: seq<ContextRequest>, component: string, now: int): (r: seq<ContextRequest>)
    ensures |r| == |requests| && forall i :: 0 <= i < |r| ==> r[i] == FulfillOne(requests[i], component, now)
  {
    seq(|requests|, i requires 0 <= i < |requests| => FulfillOne(requests[i], component, now))
  }

  /** After a CONTEXT message: the announcement replaces the entry, payload and all, and answers every open request. */
  function Announced(c: Contexts, msg: Message, now: int): Contexts {
    var component := msg.Get("component");
    if component == "" then c
    else Contexts(c.entries[component := EntryOf(msg)], Fulfill(c.requests, component, now))
  }

  const PAYLOAD_KEY := "_payload_"

  /** After a SHARING-CONTEXT message: some entry of the sender gets the payload, or else one of its own is made. */
  ghost predicate PayloadStored(c: Contexts, msg: Message, c': Contexts) {
    && c'.requests == c.requests
    && if exists k :: k in c.entries && c.entries[k].sharedBy == msg.nick then
         exists k :: k in c.entries && c.entries[k].sharedBy == msg.nick
           && c'.entries == c.entries[k := c.entries[k].(payload := msg.payload, updatedAt := msg.timestamp)]
       else
         var key := PAYLOAD_KEY + msg.nick;
         c'.entries == c.entries[key := ContextEntry(key, "", "", msg.payload, msg.nick, msg.timestamp)]
  }

  function Tracked(c: Contexts, msg: Message): Contexts {
    if msg.Get("component") == "" then c
    else c.(requests := c.requests
      + [ContextRequest(msg.Get("component"), msg.nick, msg.channel, msg.timestamp, false, 0)])
  }

  function ReplyFields(e: ContextEntry): map<string, string> {
    map["component" := e.component]
    + (if e.project != "" then map["project" := e.project] else map[])
    + (if e.status != "" then map["status" := e.status] else map[])
  }

  /** The answers to a REQUEST-CONTEXT message, as messages. */
  function Answers(c: Contexts, msg: Message): seq<Message> {
    var component := msg.Get("component");
    if component == "" || component !in c.entries then []
    else
      var e := c.entries[component];
      [NewMessage(Context, ReplyFields(e), [])]
      + (if e.payload != "" then [NewMessage(SharingContext, map[], []).(payload := e.payload)] else [])
  }

  /** Messages printed and sent to one target. */
  ghost function SendAll(target: string, messages: seq<Message>): (r: seq<Send>)
    ensures |r| == |messages| && forall i :: 0 <= i < |r| ==> r[i] == Send(target, Format(messages[i]))
  {
    seq(|messages|, i requires 0 <= i < |messages| => Send(target, Format(messages[i])))
  }

  class ContextStore {
    var entries: map<string, ContextEntry>
    var requests: seq<ContextRequest>

    ghost function Contents(): Contexts
      reads this
    {
      Contexts(entries, requests)
    }

    constructor ()
      ensures Contents() == Contexts(map[], [])
    {
      entries, requests := map[], [];
    }

    method Store(msg: Message, now: int)
      modifies this
      ensures Contents() == Announced(old(Contents()), msg, now)
      ensures entries == if msg.Get("component") == "" then old(entries) else old(entries)[msg.Get("component") :=
        ContextEntry(msg.Get("component"), msg.Get("project"), msg.Get("status"), "", msg.nick, msg.timestamp)]
    {
      var component := msg.Get("component");
      if component == "" {
        return;
      }
      entries := entries[component := EntryOf(msg)];
      FulfillRequest(component, now);
    }

    method FulfillRequest(component: string, now: int)
      modifies this`requests
      ensures requests == Fulfill(old(requests), component, now)
      ensures |requests| == |old(requests)|
      ensures forall i :: 0 <= i < |requests| ==>
        var r := old(requests)[i];
        requests[i] == if r.component == component && !r.fulfilled then r.(fulfilled := true, fulfilledAt := now) else r
    {
      ghost var before := requests;
      for i := 0 to |requests|
        invariant |requests| == |before|
        invariant forall k :: 0 <= k < i ==> requests[k] == FulfillOne(before[k], component, now)
        invariant forall k :: i <= k < |requests| ==> requests[k] == before[k]
      {
        if requests[i].component == component && !requests[i].fulfilled {
          requests := requests[i := requests[i].(fulfilled := true, fulfilledAt := now)];
        }
      }
    }

    /** The entries are visited in an arbitrary order until one of the sender is found. */
    method StorePayload(msg: Message)
      modifies this`entries
      ensures PayloadStored(old(Contents()), msg, Contents())
    {
      var left := entries.Keys;
      while left != {}
        invariant left <= entries.Keys && entries == old(entries)
        invariant forall k :: k in entries && k !in left ==> entries[k].sharedBy != msg.nick
        decreases left
      {
        var k :| k in left;
        left := left - {k};
        if entries[k].sharedBy == msg.nick {
          entries := entries[k := entries[k].(payload := msg.payload, updatedAt := msg.timestamp)];
          return;
        }
      }
      var key := PAYLOAD_KEY + msg.nick;
      entries := entries[key := ContextEntry(key, "", "", msg.payload, msg.nick, msg.timestamp)];
    }

    method TrackRequest(msg: Message)
      modifies this`requests
      ensures Contents() == Tracked(old(Contents()), msg)
      ensures requests == if msg.Get("component") == "" then old(requests)
        else old(requests) + [ContextRequest(msg.Get("component"), msg.nick, msg.channel, msg.timestamp, false, 0)]
    {
      var component := msg.Get("component");
      if component == "" {
        return;
      }
      requests := requests + [ContextRequest(component, msg.nick, msg.channel, msg.timestamp, false, 0)];
    }

    method HandleContextRequest(msg: Message, client: Client)
      modifies client
      ensures client.sent == old(client.sent) + SendAll(ReplyTarget(msg), Answers(Contents(), msg))
      ensures forall i :: |old(client.sent)| <= i < |client.sent| ==>
        client.sent[i].target == if msg.channel == "" then msg.nick else msg.channel
    {
      hide Format;
      var component := msg.Get("component");
      if component == "" || component !in entries {
        return;
      }
      var entry := entries[component];
      var fields := map["component" := entry.component];
      if entry.project != "" {
        fields := fields["project" := entry.project];
      }
      if entry.status != "" {
        fields := fields["status" := entry.status];
      }
      assert fields == ReplyFields(entry);
      var text := String(NewMessage(Context, fields, []));
      client.SendMessage(ReplyTarget(msg), text);
      if entry.payload != "" {
        text := String(NewMessage(SharingContext, map[], []).(payload := entry.payload));
        client.SendMessage(ReplyTarget(msg), text);
      }
    }
  }

  // ---------- requests ----------

  /** Requests that no announcement has answered yet. */
  ghost predicate PendingFor(c: Contexts, component: string) {
    exists i :: 0 <= i < |c.requests| && c.requests[i].component == component && !c.requests[i].fulfilled
  }

  /** An announcement answers every open request for its component and touches no other request. */
  lemma AnnouncementAnswers(c: Contexts, msg: Message, now: int)
    requires msg.Get("component") != ""
    ensures !PendingFor(Announced(c, msg, now), msg.Get("component"))
    ensures forall other :: other != msg.Get("component") ==> (PendingFor(Announced(c, msg, now), other) <==> PendingFor(c, other))
    ensures |Answers(Announced(c, msg, now), msg)| == 1
  {
    var d := Announced(c, msg, now);
    forall other | other != msg.Get("component") ensures PendingFor(d, other) <==> PendingFor(c, other) {
      if PendingFor(c, other) {
        var i :| 0 <= i < |c.requests| && c.requests[i].component == other && !c.requests[i].fulfilled;
        assert d.requests[i] == c.requests[i];
      }
    }
  }

  // ---------- what a request is answered ----------

  /** A CONTEXT message with what was announced: the component, and project and status where they are not empty. */
  ghost predicate Repeats(answer: Message, component: string, project: string, status: string) {
    && answer.action == Context && answer.tags == [] && answer.payload == ""
    && answer.Get("component") == component && answer.Get("project") == project && answer.Get("status") == status
    && (forall k :: k in answer.fields ==> k in {"component", "project", "status"})
    && (forall k :: k in {"project", "status"} && k in answer.fields ==> answer.fields[k] != "")
  }

  /** Someone announced the component, with this project and status. */
  ghost predicate Holds(c: Contexts, component: string, project: string, status: string) {
    && component in c.entries
    && c.entries[component].component == component && c.entries[component].project == project && c.entries[component].status == status
  }

  /** A request for an announced component is answered with the announcement first; then comes the payload, if there is one. */
  lemma RequestIsAnswered(c: Contexts, request: Message, project: string, status: string)
    requires request.Get("component") != "" && Holds(c, request.Get("component"), project, status)
    ensures var answers, payload := Answers(c, request), c.entries[request.Get("component")].payload;
      && 1 <= |answers| <= 2 && Repeats(answers[0], request.Get("component"), project, status)
      && (|answers| == 2 <==> payload != "")
      && (|answers| == 2 ==> answers[1] == NewMessage(SharingContext, map[], []).(payload := payload))
  {
    HeldEntry(c, request.Get("component"), project, status);
    FieldsRepeat(c.entries[request.Get("component")]);
    hide ReplyFields, Repeats;
  }

  lemma HeldEntry(c: Contexts, component: string, project: string, status: string)
    requires Holds(c, component, project, status)
    ensures component in c.entries
    ensures var e := c.entries[component]; e.component == component && e.project == project && e.status == status
  {
  }

  lemma FieldsRepeat(e: ContextEntry)
    ensures Repeats(NewMessage(Context, ReplyFields(e), []), e.component, e.project, e.status)
  {
  }

  lemma UnknownIsNotAnswered(c: Contexts, request: Message)
    requires request.Get("component") !in c.entries || request.Get("component") == ""
    ensures Answers(c, request) == []
  {
  }

  /** One message that reaches the context store; only announcements and payloads change entries. */
  ghost predicate ContextStep(c: Contexts, msg: Message, now: int, c': Contexts) {
    match msg.action
    case Context => c' == Announced(c, msg, now)
    case SharingContext => PayloadStored(c, msg, c')
    case RequestContext => c' == Tracked(c, msg)
    case _ => c' == c
  }

  ghost predicate ContextRun(states: seq<Contexts>, msgs: seq<Message>, clock: nat -> int) {
    && |states| == |msgs| + 1
    && forall n: nat :: n < |msgs| ==> ContextStep(states[n], msgs[n], clock(n), states[n + 1])
  }

  predicate Announces(msg: Message, component: string) {
    msg.action == Context && msg.Get("component") == component
  }

  /** The sender of a payload has no entry, so it gets one of its own, in the place of this component. */
  ghost predicate Overwrites(c: Contexts, msg: Message, component: string) {
    && msg.action == SharingContext && component == "_payload_" + msg.nick
    && forall k :: k in c.entries ==> c.entries[k].sharedBy != msg.nick
  }

  lemma StepHolds(c: Contexts, msg: Message, now: int, c': Contexts, component: string, project: string, status: string)
    requires ContextStep(c, msg, now, c') && component != "" && !Overwrites(c, msg, component)
    ensures Announces(msg, component) ==> Holds(c', component, msg.Get("project"), msg.Get("status"))
    ensures !Announces(msg, component) && Holds(c, component, project, status) ==> Holds(c', component, project, status)
  {
  }

  /**
   * Over every run the store holds the last announcement of a component, whoever made it and whatever other announcements,
   * payloads and requests came after, unless one of them overwrote it.
   */
  lemma {:induction false} LastAnnouncementIsHeld(
      states: seq<Contexts>, msgs: seq<Message>, clock: nat -> int, component: string, k: nat, n: nat)
    requires ContextRun(states, msgs, clock) && component != ""
    requires k < n <= |msgs| && Announces(msgs[k], component)
    requires forall j :: k < j < n ==> !Announces(msgs[j], component) && !Overwrites(states[j], msgs[j], component)
    ensures Holds(states[n], component, msgs[k].Get("project"), msgs[k].Get("status"))
  {
    AnnouncingIsNotOverwriting(states[k], msgs[k], component);
    hide ContextStep, Holds, Announces, Overwrites;
    assert ContextStep(states[n - 1], msgs[n - 1], clock(n - 1), states[n - 1 + 1]);
    StepHolds(
      states[n - 1], msgs[n - 1], clock(n - 1), states[n], component, msgs[k].Get("project"), msgs[k].Get("status"));
    if k < n - 1 {
      LastAnnouncementIsHeld(states, msgs, clock, component, k, n - 1);
    }
  }

  lemma AnnouncingIsNotOverwriting(c: Contexts, msg: Message, component: string)
    requires Announces(msg, component)
    ensures !Overwrites(c, msg, component)
  {
  }

  /** What overwriting leaves: an entry with the payload, and no project and status. */
  lemma PayloadEntryOverwrites(c: Contexts, msg: Message, now: int, c': Contexts, component: string)
    requires ContextStep(c, msg, now, c') && Overwrites(c, msg, component)
    ensures Holds(c', component, "", "") && c'.entries[component].payload == msg.payload
  {
  }

  /** The contexts with the payload at entry k. */
  function Attached(c: Contexts, msg: Message, k: string): Contexts
    requires k in c.entries
  {
    c.(entries := c.entries[k := c.entries[k].(payload := msg.payload, updatedAt := msg.timestamp)])
  }

  /** When the sender has entries, the payload may go to any of them, and to no other entry. */
  lemma AnyOwnEntryMayGetIt(c: Contexts, msg: Message, k: string)
    requires exists own :: own in c.entries && c.entries[own].sharedBy == msg.nick
    requires k in c.entries && c.entries[k].payload != msg.payload
    ensures PayloadStored(c, msg, Attached(c, msg, k)) <==> c.entries[k].sharedBy == msg.nick
  {
    if own :| own in c.entries && c.entries[own].sharedBy == msg.nick && Attached(c, msg, k).entries == Attached(c, msg, own).entries {
      assert Attached(c, msg, k).entries[k].payload == msg.payload;
    }
  }

  /** A payload goes to one component: that of an entry its sender has shared, or one named after the sender. */
  lemma PayloadIsAttached(c: Contexts, msg: Message, c': Contexts) returns (k: string)
    requires PayloadStored(c, msg, c')
    ensures k in c'.entries && c'.entries[k].payload == msg.payload && c'.entries[k].sharedBy == msg.nick
    ensures c'.entries[k].updatedAt == msg.timestamp && (k in c.entries || k == "_payload_" + msg.nick)
    ensures forall other :: other != k ==>
      (other in c'.entries <==> other in c.entries) && (other in c.entries ==> c'.entries[other] == c.entries[other])
  {
    if exists k :: k in c.entries && c.entries[k].sharedBy == msg.nick {
      k :| k in c.entries && c.entries[k].sharedBy == msg.nick
        && c'.entries == c.entries[k := c.entries[k].(payload := msg.payload, updatedAt := msg.timestamp)];
    } else {
      k := PAYLOAD_KEY + msg.nick;
    }
  }
}
