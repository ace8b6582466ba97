/** What messages leave behind in a store: which blockers are recorded, and who said what about a task last. */
module StateEffects {
  import opened Protocol
  import opened Graph
  import opened State
  import opened StateLaws
  import opened StateHistory

  // ---------- which blockers a BLOCKED message records ----------

  /** The message names the blocker, in its waiting-for field or in a tag. */
  predicate NamesBlocker(msg: Message, blocker: string) {
    && blocker != ""
    && (msg.Get("waiting-for") == blocker || exists i :: 0 <= i < |msg.tags| && msg.tags[i] == "blocked-by-" + blocker)
  }

  /** Some entry of the list, resolved or not, has this blocked task and this blocker. */
  predicate Recorded(deps: seq<Edge>, task: string, blocker: string) {
    exists e :: e in deps && e.blocked == task && e.blockedBy == blocker
  }

  /** Edges that leave a task do not change who reaches that task. */
  lemma {:induction false} WalkBackIsOld(deps: seq<Edge>, e: Edge, p: seq<string>, x: string)
    requires x != e.blocked && Walk(deps + [e], p, x, e.blocked)
    ensures Reaches(deps, x, e.blocked)
    decreases |p|
  {
    LinkedAppend(deps, e, p[0], p[1]);
    assert Linked(deps + [e], p[1 - 1], p[1]);
    StepReaches(deps, p[0], p[1]);
    if p[1] != e.blocked {
      var rest := p[1..];
      forall k | 0 < k < |rest| ensures Linked(deps + [e], rest[k - 1], rest[k]) {
        assert Linked(deps + [e], p[k + 1 - 1], p[k + 1]);
      }
      WalkBackIsOld(deps, e, rest, p[1]);
      ReachesTrans(deps, x, p[1], e.blocked);
    }
  }

  lemma ReachedAsBefore(deps: seq<Edge>, e: Edge, x: string)
    requires x != e.blocked
    ensures Reaches(deps + [e], x, e.blocked) <==> Reaches(deps, x, e.blocked)
  {
    var more := deps + [e];
    if Reaches(more, x, e.blocked) {
      var p :| Walk(more, p, x, e.blocked);
      WalkBackIsOld(deps, e, p, x);
    }
    forall a, b ensures Linked(deps, a, b) ==> Linked(more, a, b) {
      LinkedAppend(deps, e, a, b);
    }
    ReachesMonotone(deps, more, x, e.blocked);
  }

  /** One insertion, pair by pair. */
  lemma InsertedExactly(deps: seq<Edge>, e: Edge, x: string, y: string)
    ensures Recorded(WithEdge(deps, e), x, y) <==>
      Recorded(deps, x, y) || (x == e.blocked && y == e.blockedBy && x != y && !Reaches(deps, y, x))
    ensures y != e.blocked ==> (Reaches(WithEdge(deps, e), y, e.blocked) <==> Reaches(deps, y, e.blocked))
  {
    var after := WithEdge(deps, e);
    if y != e.blocked {
      ReachedAsBefore(deps, e, y);
    }
    hide Reaches;
    if after == deps + [e] {
      assert forall f :: f in after <==> f in deps || f == e;
    }
    if HasPair(deps, e.blocked, e.blockedBy) {
      var i :| 0 <= i < |deps| && deps[i].blocked == e.blocked && deps[i].blockedBy == e.blockedBy;
      assert deps[i] in deps;
    }
    if Recorded(deps, e.blocked, e.blockedBy) {
      var f :| f in deps && f.blocked == e.blocked && f.blockedBy == e.blockedBy;
    }
  }

  lemma {:induction false} BlockersRecordedExactly(deps: seq<Edge>, task: string, blockers: seq<string>, x: string, y: string)
    ensures var after := WithBlockers(deps, task, blockers);
      && (Recorded(after, x, y) <==> Recorded(deps, x, y) || (x == task && y in blockers && x != y && !Reaches(deps, y, x)))
      && (y != task ==> (Reaches(after, y, task) <==> Reaches(deps, y, task)))
  {
    hide Reaches, WithEdge, Recorded;
    if blockers != [] {
      var front, last := blockers[..|blockers| - 1], blockers[|blockers| - 1];
      assert blockers == front + [last];
      BlockersRecordedExactly(deps, task, front, x, y);
      InsertedExactly(WithBlockers(deps, task, front), Edge(task, last, false, 0), x, y);
    }
  }

  lemma {:induction false} TagsNameBlockers(tags: seq<string>, blocker: string)
    ensures blocker in TagBlockers(tags) <==> blocker != "" && exists i :: 0 <= i < |tags| && tags[i] == "blocked-by-" + blocker
  {
    if tags != [] {
      var front, tag := tags[..|tags| - 1], tags[|tags| - 1];
      TagsNameBlockers(front, blocker);
      if BLOCKED_BY <= tag {
        assert tag == BLOCKED_BY + tag[|BLOCKED_BY|..];
      }
      if tag == "blocked-by-" + blocker {
        assert tag[|BLOCKED_BY|..] == blocker;
      }
    }
  }

  /**
   * After a BLOCKED message a pair is in the list exactly if it was there before, or its blocked task is the message's, its
   * blocker is named in the message, is another task, and did not wait for the task, directly or not, before the message.
   */
  lemma BlockedRecordsExactly(s: Store, msg: Message, now: int, x: string, y: string)
    requires msg.action == Blocked && msg.Get("task") != ""
    ensures Recorded(After(s, msg, now).deps, x, y) <==>
      || Recorded(s.deps, x, y)
      || (x == msg.Get("task") && NamesBlocker(msg, y) && x != y && !Reaches(s.deps, y, x))
  {
    hide Reaches, WithBlockers, Recorded, Revise;
    BlockersRecordedExactly(s.deps, msg.Get("task"), Blockers(msg), x, y);
    TagsNameBlockers(msg.tags, y);
  }

  // ---------- who said what last ----------

  /** A message about the task that has the property. */
  predicate Speaks(op: Op, task: string, sets: Message -> bool) {
    op.Update? && op.msg.Get("task") == task && sets(op.msg)
  }

  /** Operation k is the last one with such a message. */
  predicate SpeaksLast(ops: seq<Op>, k: int, task: string, sets: Message -> bool) {
    0 <= k < |ops| && Speaks(ops[k], task, sets) && forall j :: k < j < |ops| ==> !Speaks(ops[j], task, sets)
  }

  predicate NobodySpeaks(ops: seq<Op>, task: string, sets: Message -> bool) {
    forall j :: 0 <= j < |ops| ==> !Speaks(ops[j], task, sets)
  }

  /** The record of a task; an untracked task counts as one with nothing set. */
  ghost function Info(s: Store, task: string): TaskInfo {
    if task in s.tasks then s.tasks[task] else TaskInfo(task, Untracked, "", "", [], "", 0, "", "", 0, "")
  }

  /** After the run, the field has what the last message about it said; without one, it is what it was. */
  ghost predicate LastWord<T>(
      s: System, ops: seq<Op>, task: string, field: TaskInfo -> T, sets: Message -> bool, says: Message -> T)
  {
    && (forall k :: SpeaksLast(ops, k, task, sets) ==> field(Info(Run(s, ops).store, task)) == says(ops[k].msg))
    && (NobodySpeaks(ops, task, sets) ==> field(Info(Run(s, ops).store, task)) == field(Info(s.store, task)))
  }

  lemma OneWord<T>(s: System, op: Op, task: string, field: TaskInfo -> T, sets: Message -> bool, says: Message -> T)
    requires task != "" && !op.Load?
    requires forall info, msg :: field(Revise(info, msg)) == if sets(msg) then says(msg) else field(info)
    ensures field(Info(Step(s, op).store, task))
      == if Speaks(op, task, sets) then says(op.msg) else field(Info(s.store, task))
  {
    hide Revise, DepsAfter, WithEdge;
  }

  lemma {:induction false} LastWordHolds<T>(
      s: System, ops: seq<Op>, task: string, field: TaskInfo -> T, sets: Message -> bool, says: Message -> T)
    requires task != "" && NoLoads(ops)
    requires forall info, msg :: field(Revise(info, msg)) == if sets(msg) then says(msg) else field(info)
    ensures LastWord(s, ops, task, field, sets, says)
  {
    hide Revise, Step, Info;
    if ops != [] {
      var front, op := ops[..|ops| - 1], ops[|ops| - 1];
      LastWordHolds(s, front, task, field, sets, says);
      OneWord(Run(s, front), op, task, field, sets, says);
      forall k | SpeaksLast(ops, k, task, sets)
        ensures field(Info(Run(s, ops).store, task)) == says(ops[k].msg)
      {
        if k < |front| {
          assert SpeaksLast(front, k, task, sets);
        }
      }
      if NobodySpeaks(ops, task, sets) {
        assert NobodySpeaks(front, task, sets);
      }
    }
  }

  /** A task is tracked from the first message about it on, and for ever. */
  lemma {:induction false} TrackedIffNamed(s: System, ops: seq<Op>, task: string)
    requires task != "" && NoLoads(ops)
    ensures task in Run(s, ops).store.tasks <==> task in s.store.tasks || !NobodySpeaks(ops, task, AnyMessage)
  {
    hide Revise, DepsAfter, WithEdge;
    if ops != [] {
      var front, op := ops[..|ops| - 1], ops[|ops| - 1];
      TrackedIffNamed(s, front, task);
      if !NobodySpeaks(front, task, AnyMessage) {
        var j :| 0 <= j < |front| && Speaks(front[j], task, AnyMessage);
        assert ops[j] == front[j];
      }
    }
  }

  // ---------- field by field ----------

  function OwnerOf(info: TaskInfo): string { info.owner }

  predicate SetsOwner(msg: Message) {
    msg.action in {Claim, Accept, Assign, Handoff, Decline, Yield}
  }

  /** The sender takes the task, or the message names whom it goes to, or nobody has it any more. */
  function SaysOwner(msg: Message): string {
    if msg.action in {Claim, Accept} then msg.nick
    else if msg.action in {Assign, Handoff} then msg.Get("to")
    else ""
  }

  lemma OwnerIsLastSaid(s: System, ops: seq<Op>, task: string)
    requires task != "" && NoLoads(ops)
    ensures LastWord(s, ops, task, OwnerOf, SetsOwner, SaysOwner)
  {
    LastWordHolds(s, ops, task, OwnerOf, SetsOwner, SaysOwner);
  }

  function PriorityOf(info: TaskInfo): string { info.priority }

  predicate SetsPriority(msg: Message) {
    msg.action in {Started, Offer}
  }

  function SaysPriority(msg: Message): string { msg.Get("priority") }

  lemma PriorityIsLastSaid(s: System, ops: seq<Op>, task: string)
    requires task != "" && NoLoads(ops)
    ensures LastWord(s, ops, task, PriorityOf, SetsPriority, SaysPriority)
  {
    LastWordHolds(s, ops, task, PriorityOf, SetsPriority, SaysPriority);
  }

  function ScopeOf(info: TaskInfo): string { info.scope }

  /** An offer without scope keeps the earlier one. */
  predicate SetsScope(msg: Message) {
    msg.action == Offer && msg.Get("scope") != ""
  }

  function SaysScope(msg: Message): string { msg.Get("scope") }

  lemma ScopeIsLastSaid(s: System, ops: seq<Op>, task: string)
    requires task != "" && NoLoads(ops)
    ensures LastWord(s, ops, task, ScopeOf, SetsScope, SaysScope)
  {
    LastWordHolds(s, ops, task, ScopeOf, SetsScope, SaysScope);
  }

  function WaitingForOf(info: TaskInfo): string { info.waitingFor }

  predicate SetsWaitingFor(msg: Message) {
    msg.action == Blocked
  }

  function SaysWaitingFor(msg: Message): string { msg.Get("waiting-for") }

  lemma WaitingForIsLastSaid(s: System, ops: seq<Op>, task: string)
    requires task != "" && NoLoads(ops)
    ensures LastWord(s, ops, task, WaitingForOf, SetsWaitingFor, SaysWaitingFor)
  {
    LastWordHolds(s, ops, task, WaitingForOf, SetsWaitingFor, SaysWaitingFor);
  }

  function ProgressOf(info: TaskInfo): int { info.progress }

  /** A checkpoint whose progress is no number keeps the earlier one. */
  predicate SetsProgress(msg: Message) {
    msg.action == Checkpoint && Atoi(msg.Get("progress")).Some?
  }

  function SaysProgress(msg: Message): int {
    if Atoi(msg.Get("progress")).Some? then Atoi(msg.Get("progress")).value else 0
  }

  lemma ProgressIsLastSaid(s: System, ops: seq<Op>, task: string)
    requires task != "" && NoLoads(ops)
    ensures LastWord(s, ops, task, ProgressOf, SetsProgress, SaysProgress)
  {
    hide Atoi;
    LastWordHolds(s, ops, task, ProgressOf, SetsProgress, SaysProgress);
  }

  function SummaryOf(info: TaskInfo): string { info.summary }

  predicate SetsSummary(msg: Message) {
    msg.action == Checkpoint && msg.Get("summary") != ""
  }

  function SaysSummary(msg: Message): string { msg.Get("summary") }

  lemma SummaryIsLastSaid(s: System, ops: seq<Op>, task: string)
    requires task != "" && NoLoads(ops)
    ensures LastWord(s, ops, task, SummaryOf, SetsSummary, SaysSummary)
  {
    LastWordHolds(s, ops, task, SummaryOf, SetsSummary, SaysSummary);
  }

  /** What every message about a task leaves, whatever its action. */
  function TraceOf(info: TaskInfo): (seq<string>, string, int) {
    (info.tags, info.lastAgent, info.updatedAt)
  }

  predicate AnyMessage(msg: Message) {
    true
  }

  function SaysTrace(msg: Message): (seq<string>, string, int) {
    (msg.tags, msg.nick, msg.timestamp)
  }

  lemma TraceIsLastSaid(s: System, ops: seq<Op>, task: string)
    requires task != "" && NoLoads(ops)
    ensures LastWord(s, ops, task, TraceOf, AnyMessage, SaysTrace)
  {
    LastWordHolds(s, ops, task, TraceOf, AnyMessage, SaysTrace);
  }

  // ---------- status ----------

  /** DECLINE sets a status only for a task that is assigned, and is treated by itself. */
  predicate SetsStatus(msg: Message) {
    msg.action in {Started, Completed, Blocked, Offer, Claim, Assign, Accept, Yield}
  }

  function SaysStatus(msg: Message): TaskStatus {
    match msg.action
    case Started => IsStarted
    case Accept => IsStarted
    case Completed => IsCompleted
    case Blocked => IsBlocked
    case Offer => IsOffered
    case Claim => IsClaimed
    case Assign => IsAssigned
    case _ => IsYielded
  }

  predicate IsDecline(msg: Message) {
    msg.action == Decline
  }

  predicate DeclinedSince(ops: seq<Op>, n: int, task: string) {
    exists j :: 0 <= n <= j < |ops| && Speaks(ops[j], task, IsDecline)
  }

  function AfterDeclines(status: TaskStatus, declined: bool): TaskStatus {
    if declined && status == IsAssigned then IsOffered else status
  }

  lemma StatusStep(s: System, op: Op, task: string)
    requires task != "" && !op.Load?
    ensures var before, after := Info(s.store, task).status, Info(Step(s, op).store, task).status;
      after == if Speaks(op, task, SetsStatus) then SaysStatus(op.msg) else AfterDeclines(before, Speaks(op, task, IsDecline))
  {
    hide DepsAfter, WithEdge, Atoi;
  }

  lemma DeclinedOneMore(ops: seq<Op>, n: int, task: string)
    requires 0 <= n < |ops|
    ensures var last := |ops| - 1;
      DeclinedSince(ops, n, task) <==> DeclinedSince(ops[..last], n, task) || Speaks(ops[last], task, IsDecline)
  {
    hide Speaks;
    var front := ops[..|ops| - 1];
    if DeclinedSince(ops, n, task) {
      var j :| 0 <= n <= j < |ops| && Speaks(ops[j], task, IsDecline);
      assert j < |front| ==> front[j] == ops[j];
    }
    if DeclinedSince(front, n, task) {
      var j :| 0 <= n <= j < |front| && Speaks(front[j], task, IsDecline);
      assert ops[j] == front[j];
    }
  }

  lemma {:induction false} StatusAfterLast(s: System, ops: seq<Op>, k: int, task: string)
    requires task != "" && NoLoads(ops) && SpeaksLast(ops, k, task, SetsStatus)
    ensures Info(Run(s, ops).store, task).status == AfterDeclines(SaysStatus(ops[k].msg), DeclinedSince(ops, k + 1, task))
  {
    hide Step, Info, SaysStatus, SetsStatus, IsDecline, DeclinedSince;
    var front, op := ops[..|ops| - 1], ops[|ops| - 1];
    StatusStep(Run(s, front), op, task);
    if k < |front| {
      assert SpeaksLast(front, k, task, SetsStatus);
      StatusAfterLast(s, front, k, task);
      DeclinedOneMore(ops, k + 1, task);
    } else {
      NobodyDeclinedLater(ops, task);
    }
  }

  lemma {:induction false} StatusAfterNobody(s: System, ops: seq<Op>, task: string)
    requires task != "" && NoLoads(ops) && NobodySpeaks(ops, task, SetsStatus)
    ensures Info(Run(s, ops).store, task).status == AfterDeclines(Info(s.store, task).status, DeclinedSince(ops, 0, task))
  {
    hide Step, Info, SaysStatus, SetsStatus, IsDecline, DeclinedSince;
    if ops == [] {
      NobodyDeclinedLater(ops, task);
    } else {
      var front, op := ops[..|ops| - 1], ops[|ops| - 1];
      assert NobodySpeaks(front, task, SetsStatus);
      StatusAfterNobody(s, front, task);
      StatusStep(Run(s, front), op, task);
      DeclinedOneMore(ops, 0, task);
    }
  }

  /**
   * The status is the one that the last message about it gave, or the initial one; except that an assigned task counts as
   * offered again once a DECLINE has followed.
   */
  lemma StatusIsLastSaid(s: System, ops: seq<Op>, task: string)
    requires task != "" && NoLoads(ops)
    ensures forall k :: SpeaksLast(ops, k, task, SetsStatus) ==>
      Info(Run(s, ops).store, task).status == AfterDeclines(SaysStatus(ops[k].msg), DeclinedSince(ops, k + 1, task))
    ensures NobodySpeaks(ops, task, SetsStatus) ==>
      Info(Run(s, ops).store, task).status == AfterDeclines(Info(s.store, task).status, DeclinedSince(ops, 0, task))
  {
    hide Run, Info, SaysStatus, SetsStatus, AfterDeclines, DeclinedSince;
    forall k | SpeaksLast(ops, k, task, SetsStatus)
      ensures Info(Run(s, ops).store, task).status == AfterDeclines(SaysStatus(ops[k].msg), DeclinedSince(ops, k + 1, task))
    {
      StatusAfterLast(s, ops, k, task);
    }
    if NobodySpeaks(ops, task, SetsStatus) {
      StatusAfterNobody(s, ops, task);
    }
  }

  lemma NobodyDeclinedLater(ops: seq<Op>, task: string)
    ensures !DeclinedSince(ops, |ops|, task)
  {
  }

  // ---------- numbers ----------

  function Decimal(n: nat): string {
    (if n < 10 then "" else Decimal(n / 10)) + [('0' as int + n % 10) as char]
  }

  lemma {:induction false} DigitsReadDecimal(n: nat)
    ensures AllDigits(Decimal(n)) && Decimal(n) != "" && Digits(Decimal(n)) == n
  {
    if n >= 10 {
      DigitsReadDecimal(n / 10);
    }
    var text, front := Decimal(n), if n < 10 then "" else Decimal(n / 10);
    assert text[..|text| - 1] == front;
  }

  /** Reading a text of digits, with or without a minus in front. */
  lemma DigitsAreRead(text: string, v: int)
    requires text != "" && AllDigits(text) && Digits(text) == v
    ensures Atoi(text) == (if v <= MAX_INT64 then Some(v) else None) && ParseInt(text) == if v <= MAX_INT64 then v else MAX_INT64
  {
    assert '0' <= text[0] <= '9';
    hide Digits, AllDigits;
  }

  lemma MinusDigitsAreRead(text: string, v: int)
    requires text != "" && AllDigits(text) && Digits(text) == v
    ensures Atoi("-" + text) == if v <= MAX_INT64 + 1 then Some(-v) else None
    ensures ParseInt("-" + text) == if v <= MAX_INT64 + 1 then -v else -MAX_INT64 - 1
  {
    hide Digits, AllDigits;
    assert ("-" + text)[1..] == text;
  }

  /** A number printed in decimal, with or without a minus, is read back where it fits in 64 bits. */
  lemma AtoiReadsDecimal(n: nat)
    ensures var v: int := n;
      && Atoi(Decimal(n)) == (if v <= MAX_INT64 then Some(v) else None)
      && ParseInt(Decimal(n)) == (if v <= MAX_INT64 then v else MAX_INT64)
      && Atoi("-" + Decimal(n)) == (if v <= MAX_INT64 + 1 then Some(-v) else None)
      && ParseInt("-" + Decimal(n)) == (if v <= MAX_INT64 + 1 then -v else -MAX_INT64 - 1)
  {
    hide *;
    DigitsReadDecimal(n);
    DigitsAreRead(Decimal(n), n);
    MinusDigitsAreRead(Decimal(n), n);
  }
}
