/** Agents that see the same messages keep the same tasks and dependencies. */
module Replica {
  import opened Protocol
  import opened Graph
  import opened State
  import opened Text
  import opened Wire
  import opened WireLaws
  import opened WireExact
  import opened Irc

  // ---------- what a replica must agree on ----------

  /** Equal up to tags, last agent and time stamps. */
  predicate SameTask(a: TaskInfo, b: TaskInfo) {
    && a.name == b.name && a.status == b.status && a.priority == b.priority && a.waitingFor == b.waitingFor
    && a.owner == b.owner && a.scope == b.scope && a.progress == b.progress && a.summary == b.summary
  }

  predicate SameEdge(a: Edge, b: Edge) {
    a.blocked == b.blocked && a.blockedBy == b.blockedBy && a.resolved == b.resolved
  }

  ghost predicate SameEdges(a: seq<Edge>, b: seq<Edge>) {
    |a| == |b| && forall i :: 0 <= i < |a| ==> SameEdge(a[i], b[i])
  }

  ghost predicate SameView(a: Store, b: Store) {
    && a.tasks.Keys == b.tasks.Keys
    && (forall k :: k in a.tasks ==> SameTask(a.tasks[k], b.tasks[k]))
    && SameEdges(a.deps, b.deps)
  }

  /** Equal but for channel, payload and time stamp. */
  predicate SameContent(m: Message, n: Message) {
    m.action == n.action && m.fields == n.fields && m.tags == n.tags && m.nick == n.nick
  }

  lemma SameEdgesReach(a: seq<Edge>, b: seq<Edge>, x: string, y: string)
    requires SameEdges(a, b)
    ensures Reaches(a, x, y) <==> Reaches(b, x, y)
  {
    forall u, v ensures Linked(a, u, v) <==> Linked(b, u, v) {
      if Linked(a, u, v) {
        var i :| 0 <= i < |a| && a[i].blocked == u && a[i].blockedBy == v && !a[i].resolved;
        assert SameEdge(a[i], b[i]);
      }
      if Linked(b, u, v) {
        var i :| 0 <= i < |b| && b[i].blocked == u && b[i].blockedBy == v && !b[i].resolved;
        assert SameEdge(a[i], b[i]);
      }
    }
    ReachesMonotone(a, b, x, y);
    ReachesMonotone(b, a, x, y);
  }

  lemma SameEdgesPair(a: seq<Edge>, b: seq<Edge>, x: string, y: string)
    requires SameEdges(a, b)
    ensures HasPair(a, x, y) <==> HasPair(b, x, y)
  {
    if HasPair(a, x, y) {
      var i :| 0 <= i < |a| && a[i].blocked == x && a[i].blockedBy == y;
      assert SameEdge(a[i], b[i]);
    }
    if HasPair(b, x, y) {
      var i :| 0 <= i < |b| && b[i].blocked == x && b[i].blockedBy == y;
      assert SameEdge(a[i], b[i]);
    }
  }

  lemma {:induction false} WithBlockersCongruent(a: seq<Edge>, b: seq<Edge>, task: string, blockers: seq<string>)
    requires SameEdges(a, b)
    ensures SameEdges(WithBlockers(a, task, blockers), WithBlockers(b, task, blockers))
  {
    if blockers != [] {
      var front, last := blockers[..|blockers| - 1], blockers[|blockers| - 1];
      WithBlockersCongruent(a, b, task, front);
      var x, y := WithBlockers(a, task, front), WithBlockers(b, task, front);
      SameEdgesPair(x, y, task, last);
      SameEdgesReach(x, y, last, task);
    }
  }

  lemma DepsAfterCongruent(a: seq<Edge>, b: seq<Edge>, m: Message, n: Message, t: int, u: int)
    requires SameEdges(a, b) && SameContent(m, n)
    ensures SameEdges(DepsAfter(a, m, t), DepsAfter(b, n, u))
  {
    assert m.Get("task") == n.Get("task") && Blockers(m) == Blockers(n);
    WithBlockersCongruent(a, b, m.Get("task"), Blockers(m));
    if m.action == Completed {
      var x, y := ResolveAll(a, m.Get("task"), t), ResolveAll(b, m.Get("task"), u);
      forall i | 0 <= i < |x| ensures SameEdge(x[i], y[i]) {
        assert SameEdge(a[i], b[i]);
      }
    }
  }

  lemma AfterCongruent(a: Store, b: Store, m: Message, n: Message, t: int, u: int)
    requires SameView(a, b) && SameContent(m, n)
    ensures SameView(After(a, m, t), After(b, n, u))
  {
    hide SameEdges, DepsAfter, Atoi;
    var task := m.Get("task");
    assert n.Get("task") == task;
    if task != "" {
      DepsAfterCongruent(a.deps, b.deps, m, n, t, u);
      assert task in a.tasks <==> task in b.tasks;
      var i := if task in a.tasks then a.tasks[task] else NewTask(task);
      var j := if task in b.tasks then b.tasks[task] else NewTask(task);
      ReviseCongruent(i, j, m, n);
    }
  }

  lemma ReviseCongruent(i: TaskInfo, j: TaskInfo, m: Message, n: Message)
    requires SameTask(i, j) && SameContent(m, n)
    ensures SameTask(Revise(i, m), Revise(j, n))
  {
    hide Atoi;
    assert forall k :: m.Get(k) == n.Get(k);
  }

  // ---------- the common log ----------

  /** Sent goes through SendProtocolMessage; Ack is an auto-acknowledgement, which its sender does not record. */
  datatype Entry =
    | Sent(sender: string, channel: string, msg: Message)
    | Ack(sender: string, channel: string, task: string, completed: string)

  function Line(e: Entry): Message {
    match e
    case Sent(_, _, msg) => msg
    case Ack(_, _, task, completed) => AckMessage(task, completed)
  }

  /** The store of agent a after the log; clocks may differ between agents. */
  ghost function StoreOf(a: string, log: seq<Entry>, clock: (string, nat) -> int): Store {
    if log == [] then EMPTY_STORE
    else
      var n := |log| - 1;
      var s, e := StoreOf(a, log[..n], clock), log[n];
      var now := clock(a, n);
      if a == e.sender then
        if e.Sent? then Record(s, e.msg.(nick := a, channel := e.channel, timestamp := Stamped(e.msg.timestamp, now)), now) else s
      else
        Receive(s, Event(e.sender, e.channel, Format(Line(e)), now), now)
  }

  /**
   * Sent messages are ones the wire can carry, and every Ack was produced by OnTaskCompleted: its sender had
   * received a COMPLETED message after which the task was among its unblocked tasks.
   */
  ghost predicate Genuine(log: seq<Entry>, clock: (string, nat) -> int, i: nat)
    requires i < |log|
  {
    match log[i]
    case Sent(_, _, msg) => WireSafe(msg) && EndsStay(msg)
    case Ack(sender, _, task, completed) =>
      exists j :: 0 <= j < i && Answers(log, clock, j, sender, task, completed)
  }

  ghost predicate Answers(log: seq<Entry>, clock: (string, nat) -> int, j: nat, sender: string, task: string, completed: string)
    requires j < |log|
  {
    && log[j].Sent? && log[j].sender != sender
    && log[j].msg.action == Completed && log[j].msg.Get("task") == completed != ""
    && var s := StoreOf(sender, log[..j + 1], clock); task in s.tasks && Ready(s.tasks[task], s.deps)
  }

  ghost predicate AllGenuine(log: seq<Entry>, clock: (string, nat) -> int) {
    forall i :: 0 <= i < |log| ==> Genuine(log, clock, i)
  }

  lemma AnswersInPrefix(
      log: seq<Entry>, clock: (string, nat) -> int, n: nat, j: nat, sender: string, task: string, completed: string)
    requires j < n <= |log| && Answers(log, clock, j, sender, task, completed)
    ensures Answers(log[..n], clock, j, sender, task, completed)
  {
    hide StoreOf, Ready;
    assert log[..n][..j + 1] == log[..j + 1];
  }

  lemma GenuineInPrefix(log: seq<Entry>, clock: (string, nat) -> int, n: nat, i: nat)
    requires i < n <= |log| && Genuine(log, clock, i)
    ensures Genuine(log[..n], clock, i)
  {
    hide WireSafe, EndsStay, Answers;
    match log[i] {
      case Sent(_, _, _) =>
      case Ack(sender, _, task, completed) =>
        var j :| 0 <= j < i && Answers(log, clock, j, sender, task, completed);
        AnswersInPrefix(log, clock, n, j, sender, task, completed);
    }
  }

  lemma GenuinePrefix(log: seq<Entry>, clock: (string, nat) -> int, n: nat)
    requires n <= |log| && AllGenuine(log, clock)
    ensures AllGenuine(log[..n], clock)
  {
    hide Genuine;
    forall i | 0 <= i < n ensures Genuine(log[..n], clock, i) {
      GenuineInPrefix(log, clock, n, i);
    }
  }

  // ---------- messages arrive as they were sent ----------

  lemma ReceivedAsSent(s: Store, m: Message, ev: Event, now: int)
    requires WireSafe(m) && EndsStay(m) && ev.text == Format(m)
    ensures Receive(s, ev, now) == Record(s, m.(nick := ev.nick, channel := ev.channel, timestamp := Stamped(ev.timestamp, now)), now)
  {
    hide WireSafe, EndsStay, Format, Parsed, Record, Name;
    FirstWordIsAction(m);
    ProtocolMessageIffFirstWord(ev.text);
    RoundTripExactly(m);
  }

  lemma AgentsDoNotMatter(a: Store, b: Store)
    requires SameView(a, b)
    ensures forall x, y :: SameView(a.(agents := x), b.(agents := y))
  {
  }

  lemma RecordCongruent(a: Store, b: Store, m: Message, n: Message, t: int, u: int)
    requires SameView(a, b) && SameContent(m, n)
    ensures SameView(Record(a, m, t), Record(b, n, u))
  {
    hide SameView, After;
    AfterCongruent(a, b, m, n, t, u);
    AgentsDoNotMatter(After(a, m, t), After(b, n, u));
  }

  /** An acknowledgement of a known task changes nothing the replicas agree on. */
  lemma AckChangesNothing(s: Store, m: Message, now: int)
    requires m.action == Acknowledged && m.Get("task") in s.tasks
    ensures SameView(s, Record(s, m, now))
  {
  }

  // ---------- names that the wire can carry ----------

  ghost predicate NamesTravel(s: Store) {
    forall k :: k in s.tasks ==> GoodValue(k) && k != ""
  }

  lemma RecordNames(s: Store, m: Message, now: int)
    requires NamesTravel(s) && GoodValue(m.Get("task"))
    ensures NamesTravel(Record(s, m, now))
    ensures s.tasks.Keys <= Record(s, m, now).tasks.Keys
  {
    hide GoodValue;
  }

  lemma FieldTravels(m: Message, key: string)
    requires WireSafe(m)
    ensures GoodValue(m.Get(key))
  {
    assert GoodValue("");
    hide GoodValue, GoodKey, GoodTag, TrimSpace;
  }

  lemma AckItems(task: string, completed: string)
    ensures ItemsOf(AckMessage(task, completed))
      == [Field("task", task), Field("unblocked-by", completed), Tag("auto-unblock")]
  {
    var m := AckMessage(task, completed);
    AscendingUnique(SortedKeys(m.fields.Keys), ["task", "unblocked-by"]);
  }

  /** An acknowledgement always arrives: its first key and its tag keep trimming away from the names. */
  lemma AckTravels(task: string, completed: string)
    requires GoodValue(task) && GoodValue(completed)
    ensures WireSafe(AckMessage(task, completed)) && EndsStay(AckMessage(task, completed))
  {
    AckIsSafe(task, completed);
    AckItems(task, completed);
    AckEnds(Field("task", task), Field("unblocked-by", completed), Tag("auto-unblock"));
    hide GoodValue, WireSafe, ItemsOf, BodyText, Trimmed;
  }

  /** What a receiver reads of an automatic acknowledgement. */
  lemma AckIsRead(task: string, completed: string)
    requires GoodValue(task) && GoodValue(completed)
    ensures var r := Parsed(Format(AckMessage(task, completed)));
      && r.Ok? && r.value.action == Acknowledged && r.value.Get("task") == task && r.value.Get("unblocked-by") == completed
      && r.value.fields.Keys == {"task", "unblocked-by"} && r.value.tags == ["auto-unblock"]
  {
    hide GoodValue, Parsed, Format, WireSafe, EndsStay;
    AckTravels(task, completed);
    RoundTripExactly(AckMessage(task, completed));
  }

  lemma AckWords(first: Item, last: Item)
    requires first.Field? && first.key == "task" && last == Tag("auto-unblock")
    ensures |ItemText(first)| > 0 && ItemText(first)[0] == 't'
    ensures |ItemText(last)| > 0 && ItemText(last)[|ItemText(last)| - 1] == 'k'
  {
    hide HasBlank;
  }

  lemma AckEnds(first: Item, second: Item, last: Item)
    requires first.Field? && first.key == "task" && last == Tag("auto-unblock")
    ensures |BodyText([first, second, last])| > 0 && Trimmed(BodyText([first, second, last])[1..])
  {
    AckWords(first, last);
    assert !Space('t') && !Space('k');
    hide ItemText, BodyText, Space;
    var text := BodyText([first, second, last]);
    assert [first, second, last] == [first] + [second, last] == [first, second] + [last];
    BodyTextCons(first, [second, last]);
    BodyTextSnoc([first, second], last);
    assert text[1] == ItemText(first)[0] && text[|text| - 1] == ItemText(last)[|ItemText(last)| - 1];
  }

  lemma AckIsSafe(task: string, completed: string)
    requires GoodValue(task) && GoodValue(completed)
    ensures var m := AckMessage(task, completed); WireSafe(m) && m.action == Acknowledged
  {
    hide GoodValue, GoodKey, GoodTag;
    WordsAreGood();
  }

  lemma WordsAreGood()
    ensures GoodKey("task") && GoodKey("unblocked-by") && GoodTag("auto-unblock")
  {
    hide Find;
    FindUnique("task", KEY_STOPS, 4);
    FindUnique("unblocked-by", KEY_STOPS, 12);
  }

  // ---------- agreement ----------

  lemma TextTravels(log: seq<Entry>, clock: (string, nat) -> int, i: nat)
    requires AllGenuine(log, clock) && i < |log|
    requires forall n, a :: 0 <= n <= i ==> NamesTravel(StoreOf(a, log[..n], clock))
    ensures WireSafe(Line(log[i])) && EndsStay(Line(log[i]))
    ensures GoodValue(Line(log[i]).Get("task"))
  {
    hide WireSafe, EndsStay, GoodValue, StoreOf, Ready;
    assert Genuine(log, clock, i);
    match log[i] {
      case Sent(_, _, msg) =>
        FieldTravels(msg, "task");
      case Ack(sender, _, task, completed) =>
        var j :| 0 <= j < i && Answers(log, clock, j, sender, task, completed);
        assert Genuine(log, clock, j);
        FieldTravels(log[j].msg, "task");
        assert NamesTravel(StoreOf(sender, log[..j + 1], clock));
        AckTravels(task, completed);
        FieldTravels(AckMessage(task, completed), "task");
    }
  }

  lemma {:induction false} StoresTravel(log: seq<Entry>, clock: (string, nat) -> int, n: nat, a: string)
    requires AllGenuine(log, clock) && n <= |log|
    ensures NamesTravel(StoreOf(a, log[..n], clock))
    ensures n > 0 ==> StoreOf(a, log[..n - 1], clock).tasks.Keys <= StoreOf(a, log[..n], clock).tasks.Keys
    decreases n
  {
    if n > 0 {
      hide AllGenuine, NamesTravel, Record, Receive, WireSafe, EndsStay, Format, GoodValue, Genuine;
      assert log[..n][..n - 1] == log[..n - 1];
      var e, s, now := log[n - 1], StoreOf(a, log[..n - 1], clock), clock(a, n - 1);
      forall k, b | 0 <= k <= n - 1 ensures NamesTravel(StoreOf(b, log[..k], clock)) {
        StoresTravel(log, clock, k, b);
      }
      TextTravels(log, clock, n - 1);
      var own := a == e.sender && e.Sent?;
      var m := Line(e).(nick := e.sender, channel := e.channel, timestamp := if own then Stamped(Line(e).timestamp, now) else now);
      RecordNames(s, m, now);
      if a != e.sender {
        ReceivedAsSent(s, Line(e), Event(e.sender, e.channel, Format(Line(e)), now), now);
      }
    } else {
      assert log[..0] == [];
    }
  }

  lemma {:induction false} TasksOnlyGrow(log: seq<Entry>, clock: (string, nat) -> int, i: nat, n: nat, a: string)
    requires AllGenuine(log, clock) && i <= n <= |log|
    ensures StoreOf(a, log[..i], clock).tasks.Keys <= StoreOf(a, log[..n], clock).tasks.Keys
    decreases n
  {
    hide AllGenuine, StoreOf;
    if i < n {
      TasksOnlyGrow(log, clock, i, n - 1, a);
      StoresTravel(log, clock, n, a);
    }
  }

  /** The task of a genuine Ack is already known to every agent that agrees with its sender. */
  lemma AckedTaskKnown(log: seq<Entry>, clock: (string, nat) -> int, n: nat)
    requires AllGenuine(log, clock) && n < |log| && log[n].Ack?
    ensures log[n].task in StoreOf(log[n].sender, log[..n], clock).tasks
  {
    assert Genuine(log, clock, n);
    hide AllGenuine, StoreOf, Ready;
    var j :| 0 <= j < n && Answers(log, clock, j, log[n].sender, log[n].task, log[n].completed);
    TasksOnlyGrow(log, clock, j + 1, n, log[n].sender);
  }

  /** One more log entry keeps agent a in agreement with agent b. */
  lemma EntryKeepsAgreement(log: seq<Entry>, clock: (string, nat) -> int, n: nat, a: string, b: string)
    requires AllGenuine(log, clock) && n < |log|
    requires SameView(StoreOf(a, log[..n], clock), StoreOf(b, log[..n], clock))
    requires log[n].Ack? ==> log[n].task in StoreOf(a, log[..n], clock).tasks
    ensures SameView(StoreOf(a, log[..n + 1], clock), StoreOf(b, log[..n + 1], clock))
  {
    hide AllGenuine, SameView, Record, Receive, WireSafe, EndsStay, Format;
    assert log[..n + 1][..n] == log[..n];
    var e, s, t := log[n], StoreOf(a, log[..n], clock), StoreOf(b, log[..n], clock);
    forall k, c | 0 <= k <= n ensures NamesTravel(StoreOf(c, log[..k], clock)) {
      StoresTravel(log, clock, k, c);
    }
    TextTravels(log, clock, n);
    var m := Line(e);
    var x, y := clock(a, n), clock(b, n);
    if a != e.sender {
      ReceivedAsSent(s, m, Event(e.sender, e.channel, Format(m), x), x);
    }
    if b != e.sender {
      ReceivedAsSent(t, m, Event(e.sender, e.channel, Format(m), y), y);
    }
    var ma := m.(nick := e.sender, channel := e.channel, timestamp := if a == e.sender then Stamped(m.timestamp, x) else x);
    var mb := m.(nick := e.sender, channel := e.channel, timestamp := if b == e.sender then Stamped(m.timestamp, y) else y);
    if e.Sent? {
      RecordCongruent(s, t, ma, mb, x, y);
    } else {
      SameViewKeys(s, t);
      AckChangesNothing(s, ma, x);
      AckChangesNothing(t, mb, y);
      SameViewAround(s, t, Record(s, ma, x), Record(t, mb, y));
    }
  }

  lemma SameViewKeys(a: Store, b: Store)
    requires SameView(a, b)
    ensures a.tasks.Keys == b.tasks.Keys
  {
  }

  lemma SameViewAround(a: Store, b: Store, a': Store, b': Store)
    requires SameView(a, b) && SameView(a, a') && SameView(b, b')
    ensures SameView(a', b') && SameView(a', b) && SameView(a, b')
  {
  }

  /** Replica agreement: any two of any number of agents hold the same tasks and edges after the same log. */
  lemma {:induction false} ReplicasAgree(log: seq<Entry>, clock: (string, nat) -> int, a: string, b: string)
    requires AllGenuine(log, clock)
    ensures SameView(StoreOf(a, log, clock), StoreOf(b, log, clock))
    decreases |log|
  {
    if log != [] {
      hide AllGenuine, SameView, StoreOf;
      var n := |log| - 1;
      GenuinePrefix(log, clock, n);
      ReplicasAgree(log[..n], clock, a, b);
      if log[n].Ack? {
        AckedTaskKnown(log, clock, n);
        ReplicasAgree(log[..n], clock, log[n].sender, a);
        SameViewKeys(StoreOf(log[n].sender, log[..n], clock), StoreOf(a, log[..n], clock));
      }
      EntryKeepsAgreement(log, clock, n, a, b);
      assert log[..n + 1] == log;
    }
  }
}
