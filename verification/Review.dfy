/** Review requests, verdicts and gate checks of internal/agent/review.go. */
module Review {
  import opened Sequences

  /** A review is pending as long as its verdict is empty. */
  datatype ReviewRecord = ReviewRecord(
    task: string,
    pr: string,
    reviewType: string,
    requestedBy: string,
    reviewer: string,
    verdict: string,
    details: string,
    channel: string,
    requestedAt: int,
    completedAt: int,
    iteration: int)

  datatype GateRecord = GateRecord(
    task: string,
    gate: string,
    status: string,
    details: string,
    checkedBy: string,
    channel: string,
    checkedAt: int)

  datatype Summary = Summary(
    task: string,
    total: nat,
    pending: nat,
    approved: nat,
    allGatesPassed: bool,
    iterationCount: int,
    needsEscalation: bool)

  /** What a completion brings. */
  datatype Completion = Completion(pr: string, reviewer: string, verdict: string, details: string, at: int)

  // ---------- review records ----------

  function CountOf(m: map<string, int>, task: string): int {
    if task in m then m[task] else 0
  }

  function Requested(
      records: seq<ReviewRecord>, task: string, pr: string, reviewType: string, requestedBy: string, channel: string, at: int)
    : seq<ReviewRecord>
  {
    records + [ReviewRecord(task, pr, reviewType, requestedBy, "", "", "", channel, at, 0, |records| + 1)]
  }

  /** A completion without pull request fits every pending review. */
  predicate Fits(r: ReviewRecord, task: string, c: Completion) {
    r.task == task && (c.pr == "" || r.pr == c.pr) && r.verdict == ""
  }

  function Closed(r: ReviewRecord, c: Completion): ReviewRecord {
    r.(reviewer := c.reviewer, verdict := c.verdict, details := c.details, completedAt := c.at)
  }

  /** The completion goes to the latest review it fits, and changes nothing else. */
  ghost predicate CompletesLatest(before: seq<ReviewRecord>, after: seq<ReviewRecord>, task: string, c: Completion) {
    if (exists i :: 0 <= i < |before| && Fits(before[i], task, c)) then
      exists k :: IsLatest(before, k, task, c) && after == before[k := Closed(before[k], c)]
    else
      after == before
  }

  predicate IsLatest(records: seq<ReviewRecord>, k: int, task: string, c: Completion) {
    && 0 <= k < |records| && Fits(records[k], task, c)
    && (forall i :: k < i < |records| ==> !Fits(records[i], task, c))
  }

  /** Record i was requested i-th for this task. */
  predicate Numbered(records: seq<ReviewRecord>, task: string) {
    forall i :: 0 <= i < |records| ==> records[i].task == task && records[i].iteration == i + 1
  }

  predicate CountsMatch(reviews: map<string, seq<ReviewRecord>>, iterations: map<string, int>) {
    iterations.Keys == reviews.Keys && forall task :: task in reviews ==> iterations[task] == |reviews[task]|
  }

  predicate AllNumbered(reviews: map<string, seq<ReviewRecord>>) {
    forall task :: task in reviews ==> Numbered(reviews[task], task)
  }

  function WithVerdict(records: seq<ReviewRecord>, verdict: string): set<nat> {
    set i: nat | i < |records| && records[i].verdict == verdict
  }

  lemma OneMore(records: seq<ReviewRecord>, i: nat, verdict: string)
    requires i < |records|
    ensures |WithVerdict(records[..i + 1], verdict)|
      == |WithVerdict(records[..i], verdict)| + if records[i].verdict == verdict then 1 else 0
  {
    assert WithVerdict(records[..i + 1], verdict)
      == WithVerdict(records[..i], verdict) + if records[i].verdict == verdict then {i} else {};
  }

  // ---------- gates ----------

  /** No later check of the same gate. */
  predicate IsLastCheck(gates: seq<GateRecord>, i: int) {
    0 <= i < |gates| && forall j :: i < j < |gates| ==> gates[j].gate != gates[i].gate
  }

  /** There are gate checks, and the last one of each gate passed. */
  ghost predicate GatesPass(gates: seq<GateRecord>) {
    gates != [] && forall i :: IsLastCheck(gates, i) ==> gates[i].status == "passed"
  }

  /** The status of each gate at its last check, as a map. */
  ghost predicate IsLatestStatus(gates: seq<GateRecord>, latest: map<string, string>) {
    && (forall i :: 0 <= i < |gates| ==> gates[i].gate in latest)
    && (forall i :: IsLastCheck(gates, i) ==> gates[i].gate in latest && latest[gates[i].gate] == gates[i].status)
    && (forall name :: name in latest ==> exists i :: IsLastCheck(gates, i) && gates[i].gate == name)
  }

  lemma LatestGrows(gates: seq<GateRecord>, g: GateRecord, latest: map<string, string>)
    requires IsLatestStatus(gates, latest)
    ensures IsLatestStatus(gates + [g], latest[g.gate := g.status])
  {
    var more := gates + [g];
    assert IsLastCheck(more, |gates|);
    forall i | IsLastCheck(more, i) && i < |gates| ensures IsLastCheck(gates, i) && gates[i].gate != g.gate {
      assert more[|gates|].gate == g.gate;
      forall j | i < j < |gates| ensures gates[j].gate != gates[i].gate {
        assert more[j] == gates[j];
      }
    }
    forall name | name in latest && name != g.gate ensures exists i :: IsLastCheck(more, i) && more[i].gate == name {
      var i :| IsLastCheck(gates, i) && gates[i].gate == name;
      assert IsLastCheck(more, i);
    }
  }

  /** A new check overrides earlier ones of its gate and leaves the others: it must pass, and so must every other gate. */
  lemma RecheckDecides(gates: seq<GateRecord>, g: GateRecord)
    ensures GatesPass(gates + [g]) <==>
      && g.status == "passed"
      && (forall i :: IsLastCheck(gates, i) && gates[i].gate != g.gate ==> gates[i].status == "passed")
  {
    var more := gates + [g];
    assert IsLastCheck(more, |gates|) && more[|gates|] == g;
    forall i | 0 <= i < |gates| ensures IsLastCheck(more, i) <==> IsLastCheck(gates, i) && gates[i].gate != g.gate {
      assert more[i] == gates[i];
      if IsLastCheck(more, i) {
        forall j | i < j < |gates| ensures gates[j].gate != gates[i].gate {
          assert more[j] == gates[j];
        }
      }
    }
  }

  // ---------- the store ----------

  class ReviewStore {
    var reviews: map<string, seq<ReviewRecord>>
    var gates: map<string, seq<GateRecord>>
    var iterations: map<string, int>
    const maxIterations: int

    ghost predicate Valid()
      reads this
    {
      CountsMatch(reviews, iterations) && AllNumbered(reviews)
    }

    constructor (maxIterations: int)
      ensures Valid() && reviews == map[] && gates == map[] && this.maxIterations == maxIterations
    {
      reviews, gates, iterations := map[], map[], map[];
      this.maxIterations := maxIterations;
    }

    method RecordRequest(task: string, pr: string, reviewType: string, requestedBy: string, channel: string, now: int)
      requires Valid()
      modifies this`reviews, this`iterations
      ensures Valid()
      ensures var before := ListAt(old(reviews), task);
        reviews == old(reviews)[task := before
          + [ReviewRecord(task, pr, reviewType, requestedBy, "", "", "", channel, now, 0, |before| + 1)]]
    {
      iterations := iterations[task := CountOf(iterations, task) + 1];
      reviews := reviews[task := ListAt(reviews, task)
        + [ReviewRecord(task, pr, reviewType, requestedBy, "", "", "", channel, now, 0, iterations[task])]];
    }

    method RecordComplete(task: string, pr: string, reviewer: string, verdict: string, details: string, now: int)
      requires Valid()
      modifies this`reviews
      ensures Valid()
      ensures reviews.Keys == old(reviews).Keys
      ensures forall t :: t in reviews && t != task ==> reviews[t] == old(reviews)[t]
      ensures CompletesLatest(
        ListAt(old(reviews), task), ListAt(reviews, task), task, Completion(pr, reviewer, verdict, details, now))
    {
      var records, c := ListAt(reviews, task), Completion(pr, reviewer, verdict, details, now);
      var i := |records| - 1;
      while i >= 0
        invariant -1 <= i < |records|
        invariant reviews == old(reviews)
        invariant forall k :: i < k < |records| ==> !Fits(records[k], task, c)
      {
        var r := records[i];
        if r.task == task && (pr == "" || r.pr == pr) && r.verdict == "" {
          assert IsLatest(records, i, task, c);
          reviews := reviews[task := records[i := r.(reviewer := reviewer, verdict := verdict, details := details, completedAt := now)]];
          break;
        }
        i := i - 1;
      }
    }

    method RecordGate(task: string, gate: string, status: string, details: string, checkedBy: string, channel: string, now: int)
      modifies this`gates
      ensures gates == old(gates)[task := ListAt(old(gates), task) + [GateRecord(task, gate, status, details, checkedBy, channel, now)]]
    {
      gates := gates[task := ListAt(gates, task) + [GateRecord(task, gate, status, details, checkedBy, channel, now)]];
    }

    /** The iteration count is the number of requests; verdicts other than approved count as neither pending nor approved. */
    method Summarize(task: string) returns (s: Summary)
      requires Valid()
      ensures var records := ListAt(reviews, task);
        s == Summary(
          task, |records|, |WithVerdict(records, "")|, |WithVerdict(records, "approved")|,
          GatesPass(ListAt(gates, task)), |records|, 0 < maxIterations < |records|)
    {
      var records := ListAt(reviews, task);
      var total, pending, approved := 0, 0, 0;
      for i := 0 to |records|
        invariant total == i
        invariant pending == |WithVerdict(records[..i], "")|
        invariant approved == |WithVerdict(records[..i], "approved")|
      {
        OneMore(records, i, "");
        OneMore(records, i, "approved");
        total := total + 1;
        match records[i].verdict {
          case "" => pending := pending + 1;
          case "approved" => approved := approved + 1;
          case _ =>
        }
      }
      assert records[..|records|] == records;
      var passed := AllGatesPassed(task);
      var count := CountOf(iterations, task);
      return Summary(task, total, pending, approved, passed, count, maxIterations > 0 && count > maxIterations);
    }

    method AllGatesPassed(task: string) returns (passed: bool)
      ensures passed <==> GatesPass(ListAt(gates, task))
    {
      var checks := ListAt(gates, task);
      if |checks| == 0 {
        return false;
      }
      var latest: map<string, string> := map[];
      for i := 0 to |checks|
        invariant IsLatestStatus(checks[..i], latest)
      {
        LatestGrows(checks[..i], checks[i], latest);
        assert checks[..i] + [checks[i]] == checks[..i + 1];
        latest := latest[checks[i].gate := checks[i].status];
      }
      assert checks[..|checks|] == checks;
      var names := latest.Keys;
      while names != {}
        invariant names <= latest.Keys
        invariant forall name :: name in latest && name !in names ==> latest[name] == "passed"
        decreases |names|
      {
        var name :| name in names;
        if latest[name] != "passed" {
          return false;
        }
        names := names - {name};
      }
      return true;
    }
  }

  // ---------- whole runs ----------

  /** What can happen to the reviews of one task: RecordRequest or RecordComplete. */
  datatype ReviewOp =
    | Request(pr: string, reviewType: string, requestedBy: string, channel: string, at: int)
    | Complete(c: Completion)

  ghost predicate Step(before: seq<ReviewRecord>, op: ReviewOp, after: seq<ReviewRecord>, task: string) {
    match op
    case Request(pr, reviewType, requestedBy, channel, at) =>
      after == Requested(before, task, pr, reviewType, requestedBy, channel, at)
    case Complete(c) => CompletesLatest(before, after, task, c)
  }

  /** The reviews of a task after each operation, from the first on. */
  ghost predicate Run(states: seq<seq<ReviewRecord>>, ops: seq<ReviewOp>, task: string) {
    && |states| == |ops| + 1 && states[0] == []
    && forall n :: 0 <= n < |ops| ==> Step(states[n], ops[n], states[n + 1], task)
  }

  /** Apart from the outcome of a pending review, records only get added: what was requested and what was decided stays. */
  predicate Extends(before: seq<ReviewRecord>, after: seq<ReviewRecord>) {
    && |before| <= |after|
    && (forall i :: 0 <= i < |before| ==> SameRequest(before[i], after[i]))
    && (forall i :: 0 <= i < |before| && before[i].verdict != "" ==> after[i] == before[i])
  }

  predicate SameRequest(a: ReviewRecord, b: ReviewRecord) {
    b == a.(reviewer := b.reviewer, verdict := b.verdict, details := b.details, completedAt := b.completedAt)
  }

  lemma StepExtends(before: seq<ReviewRecord>, op: ReviewOp, after: seq<ReviewRecord>, task: string)
    requires Step(before, op, after, task)
    ensures Extends(before, after)
  {
  }

  /** Over every run a verdict, once set, never changes, and neither does anything said in a request. */
  lemma {:induction false} DecidedStaysDecided(states: seq<seq<ReviewRecord>>, ops: seq<ReviewOp>, task: string, i: nat, j: nat)
    requires Run(states, ops, task) && i <= j < |states|
    ensures Extends(states[i], states[j])
  {
    hide Step;
    if i < j {
      DecidedStaysDecided(states, ops, task, i, j - 1);
      assert Step(states[j - 1], ops[j - 1], states[j - 1 + 1], task);
      StepExtends(states[j - 1], ops[j - 1], states[j], task);
    }
  }

  /** Record i is the i-th request, as it was made. */
  ghost predicate Asked(r: ReviewRecord, i: nat, op: ReviewOp, task: string) {
    && op.Request? && r.task == task && r.iteration == i + 1
    && r.pr == op.pr && r.reviewType == op.reviewType && r.requestedBy == op.requestedBy
    && r.channel == op.channel && r.requestedAt == op.at
  }

  /** The completion brought this outcome, and it was for this pull request or for any. */
  ghost predicate DecidedBy(r: ReviewRecord, op: ReviewOp) {
    && op.Complete? && r.verdict == op.c.verdict && r.reviewer == op.c.reviewer && r.details == op.c.details
    && r.completedAt == op.c.at && (op.c.pr == "" || op.c.pr == r.pr)
  }

  lemma StepRecords(before: seq<ReviewRecord>, op: ReviewOp, after: seq<ReviewRecord>, task: string, i: nat)
    requires Step(before, op, after, task) && i < |after|
    ensures i == |before| ==> Asked(after[i], i, op, task) && after[i].verdict == ""
    ensures i <= |before|
    ensures i < |before| && before[i].verdict == "" && after[i].verdict != "" ==> DecidedBy(after[i], op)
  {
  }

  /** Every record was requested by exactly the operation that the list was extended with. */
  lemma {:induction false} RecordsWereRequested(
      states: seq<seq<ReviewRecord>>, ops: seq<ReviewOp>, task: string, n: nat, i: nat) returns (m: nat)
    requires Run(states, ops, task) && n < |states| && i < |states[n]|
    ensures m < n && |states[m]| == i && Asked(states[n][i], i, ops[m], task)
  {
    hide Step, Asked;
    assert n > 0;
    assert Step(states[n - 1], ops[n - 1], states[n - 1 + 1], task);
    StepRecords(states[n - 1], ops[n - 1], states[n], task, i);
    if i < |states[n - 1]| {
      m := RecordsWereRequested(states, ops, task, n - 1, i);
      StepExtends(states[n - 1], ops[n - 1], states[n], task);
      AskedStays(states[n - 1][i], states[n][i], i, ops[m], task);
    } else {
      m := n - 1;
    }
  }

  lemma AskedStays(a: ReviewRecord, b: ReviewRecord, i: nat, op: ReviewOp, task: string)
    requires Asked(a, i, op, task) && SameRequest(a, b)
    ensures Asked(b, i, op, task)
  {
  }

  /** Every verdict in the list is the one of a completion that named the pull request, or none, while the review was pending. */
  lemma {:induction false} VerdictsWereGiven(
      states: seq<seq<ReviewRecord>>, ops: seq<ReviewOp>, task: string, n: nat, i: nat) returns (m: nat)
    requires Run(states, ops, task) && n < |states| && i < |states[n]| && states[n][i].verdict != ""
    ensures m < n && i < |states[m]| && states[m][i].verdict == "" && DecidedBy(states[n][i], ops[m])
  {
    hide Step, DecidedBy;
    assert n > 0;
    assert Step(states[n - 1], ops[n - 1], states[n - 1 + 1], task);
    StepRecords(states[n - 1], ops[n - 1], states[n], task, i);
    if states[n - 1][i].verdict != "" {
      m := VerdictsWereGiven(states, ops, task, n - 1, i);
      StepExtends(states[n - 1], ops[n - 1], states[n], task);
    } else {
      m := n - 1;
    }
  }

  /** A pending review of the pull request named, or any pending one if none is named. */
  predicate Awaits(r: ReviewRecord, c: Completion) {
    r.verdict == "" && (c.pr == "" || r.pr == c.pr)
  }

  /**
   * In every run, a completion reaches the latest review that awaits it, if there is one: that record gets its verdict,
   * reviewer, details and time, and no other record changes. So of every verdict there is one more, exactly if it is the
   * one given.
   */
  lemma OutcomeArrives(states: seq<seq<ReviewRecord>>, ops: seq<ReviewOp>, task: string, n: nat, k: nat)
    requires Run(states, ops, task) && n < |ops| && ops[n].Complete? && k < |states[n]|
    requires Awaits(states[n][k], ops[n].c) && forall i :: k < i < |states[n]| ==> !Awaits(states[n][i], ops[n].c)
    ensures var c, before, after := ops[n].c, states[n], states[n + 1];
      && |after| == |before| && (forall i :: 0 <= i < |before| && i != k ==> after[i] == before[i])
      && SameRequest(before[k], after[k]) && DecidedBy(after[k], ops[n])
      && forall v :: v != "" ==> WithVerdict(after, v) == WithVerdict(before, v) + if c.verdict == v then {k} else {}
  {
    forall i: nat | i < |states[n]| ensures states[n][i].task == task {
      var m := RecordsWereRequested(states, ops, task, n, i);
    }
    var c, before, after := ops[n].c, states[n], states[n + 1];
    assert Step(states[n], ops[n], states[n + 1], task);
    FitsIsAwaits(before, task, c);
    assert IsLatest(before, k, task, c);
    LatestIsCompleted(before, after, task, c, k);
  }

  lemma FitsIsAwaits(records: seq<ReviewRecord>, task: string, c: Completion)
    requires forall i: nat :: i < |records| ==> records[i].task == task
    ensures forall i :: 0 <= i < |records| ==> (Fits(records[i], task, c) <==> Awaits(records[i], c))
  {
  }

  lemma LatestIsCompleted(before: seq<ReviewRecord>, after: seq<ReviewRecord>, task: string, c: Completion, k: nat)
    requires CompletesLatest(before, after, task, c) && IsLatest(before, k, task, c)
    ensures |after| == |before| && (forall i :: 0 <= i < |before| && i != k ==> after[i] == before[i])
    ensures SameRequest(before[k], after[k]) && DecidedBy(after[k], Complete(c))
    ensures forall v :: v != "" ==> WithVerdict(after, v) == WithVerdict(before, v) + if c.verdict == v then {k} else {}
  {
    assert after == before[k := Closed(before[k], c)];
    hide CompletesLatest, IsLatest;
    forall v | v != "" ensures WithVerdict(after, v) == WithVerdict(before, v) + if c.verdict == v then {k} else {} {
      assert before[k].verdict == "";
    }
  }

  /** A completion that no review awaits changes nothing. */
  lemma NobodyAwaiting(states: seq<seq<ReviewRecord>>, ops: seq<ReviewOp>, task: string, n: nat)
    requires Run(states, ops, task) && n < |ops| && ops[n].Complete?
    requires forall i :: 0 <= i < |states[n]| ==> !Awaits(states[n][i], ops[n].c)
    ensures states[n + 1] == states[n]
  {
    assert Step(states[n], ops[n], states[n + 1], task);
  }

  /** A completion with a verdict takes exactly one review out of the pending ones, and none if it fits none. */
  lemma VerdictClosesOne(before: seq<ReviewRecord>, after: seq<ReviewRecord>, task: string, c: Completion)
    requires CompletesLatest(before, after, task, c) && c.verdict != ""
    ensures (exists k :: IsLatest(before, k, task, c)) <==> after != before
    ensures forall k :: IsLatest(before, k, task, c) ==> WithVerdict(after, "") == WithVerdict(before, "") - {k}
  {
  }

  /** A completion without a verdict leaves the same reviews pending. */
  lemma NoVerdictClosesNone(before: seq<ReviewRecord>, after: seq<ReviewRecord>, task: string, c: Completion)
    requires CompletesLatest(before, after, task, c) && c.verdict == ""
    ensures WithVerdict(after, "") == WithVerdict(before, "")
  {
  }
}
