/** The in-memory replica of internal/agent/state.go: tasks, dependency edges and agent activity. */
module State {
  import opened Protocol
  import opened Graph

  /** Untracked stands for the empty status of a task that no status-setting message has named yet. */
  datatype TaskStatus =
    | Untracked | IsStarted | IsCompleted | IsBlocked | IsOffered | IsClaimed | IsAssigned | IsYielded

  datatype TaskInfo = TaskInfo(
    name: string,
    status: TaskStatus,
    priority: string,
    waitingFor: string,
    tags: seq<string>,
    lastAgent: string,
    updatedAt: int,
    owner: string,
    scope: string,
    progress: int,
    summary: string)

  datatype AgentStatus = AgentStatus(nick: string, channel: string, taskName: string, updatedAt: int)

  /** The contents of a StateStore, and at the same time the persisted snapshot of one. */
  datatype Store = Store(tasks: map<string, TaskInfo>, deps: seq<Edge>, agents: map<string, AgentStatus>)

  const EMPTY_STORE := Store(map[], [], map[])

  function NewTask(name: string): TaskInfo {
    TaskInfo(name, Untracked, "", "", [], "", 0, "", "", 0, "")
  }

  // ---------- strconv.Atoi ----------

  const MAX_INT64 := 0x7fff_ffff_ffff_ffff

  predicate AllDigits(s: string) {
    forall i :: 0 <= i < |s| ==> '0' <= s[i] <= '9'
  }

  function Digits(s: string): (v: nat)
    requires AllDigits(s)
  {
    if s == "" then 0 else Digits(s[..|s| - 1]) * 10 + (s[|s| - 1] as int - '0' as int)
  }

  function Atoi(s: string): Option<int> {
    var negative := s != "" && s[0] == '-';
    var digits := if s != "" && (s[0] == '-' || s[0] == '+') then s[1..] else s;
    if digits == "" || !AllDigits(digits) then None
    else
      var v: int := Digits(digits);
      var v := if negative then -v else v;
      if -MAX_INT64 - 1 <= v <= MAX_INT64 then Some(v) else None
  }

  /** strconv.ParseInt in base 10 with 64 bits: zero for text that is no number, the nearest bound for one out of range. */
  function ParseInt(s: string): (v: int)
    ensures -MAX_INT64 - 1 <= v <= MAX_INT64
    ensures Atoi(s).Some? ==> v == Atoi(s).value
  {
    var negative := s != "" && s[0] == '-';
    var digits := if s != "" && (s[0] == '-' || s[0] == '+') then s[1..] else s;
    if digits == "" || !AllDigits(digits) then 0
    else
      var size: int := Digits(digits);
      var v := if negative then -size else size;
      if v > MAX_INT64 then MAX_INT64 else if v < -MAX_INT64 - 1 then -MAX_INT64 - 1 else v
  }

  // ---------- what one message does ----------

  /** The task record after a message that names it. */
  function Revise(info: TaskInfo, msg: Message): TaskInfo {
    var i := info.(tags := msg.tags, lastAgent := msg.nick, updatedAt := msg.timestamp);
    match msg.action
    case Started => i.(status := IsStarted, priority := msg.Get("priority"))
    case Completed => i.(status := IsCompleted)
    case Blocked => i.(status := IsBlocked, waitingFor := msg.Get("waiting-for"))
    case Offer =>
      i.(status := IsOffered, priority := msg.Get("priority"),
         scope := if msg.Get("scope") != "" then msg.Get("scope") else i.scope)
    case Claim => i.(status := IsClaimed, owner := msg.nick)
    case Assign => i.(status := IsAssigned, owner := msg.Get("to"))
    case Accept => i.(status := IsStarted, owner := msg.nick)
    case Decline => i.(status := if i.status == IsAssigned then IsOffered else i.status, owner := "")
    case Yield => i.(status := IsYielded, owner := "")
    case Checkpoint =>
      i.(progress := if Atoi(msg.Get("progress")).Some? then Atoi(msg.Get("progress")).value else i.progress,
         summary := if msg.Get("summary") != "" then msg.Get("summary") else i.summary)
    case Handoff => i.(owner := msg.Get("to"))
    case _ => i
  }

  const BLOCKED_BY := "blocked-by-"

  /** The blockers a list of tags asks for, in order. */
  function TagBlockers(tags: seq<string>): seq<string> {
    if tags == [] then []
    else
      var before := TagBlockers(tags[..|tags| - 1]);
      var tag := tags[|tags| - 1];
      if BLOCKED_BY <= tag && tag != BLOCKED_BY then before + [tag[|BLOCKED_BY|..]] else before
  }

  /** The blockers a BLOCKED message asks for: waiting-for first, then the tags. */
  function Blockers(msg: Message): seq<string> {
    (if msg.Get("waiting-for") != "" then [msg.Get("waiting-for")] else []) + TagBlockers(msg.tags)
  }

  ghost predicate ClosesCycle(deps: seq<Edge>, blocked: string, blockedBy: string) {
    blocked == blockedBy || Reaches(deps, blockedBy, blocked)
  }

  ghost function WithEdge(deps: seq<Edge>, e: Edge): seq<Edge> {
    if HasPair(deps, e.blocked, e.blockedBy) || ClosesCycle(deps, e.blocked, e.blockedBy) then deps else deps + [e]
  }

  ghost function WithBlockers(deps: seq<Edge>, task: string, blockers: seq<string>): seq<Edge> {
    if blockers == [] then deps
    else WithEdge(WithBlockers(deps, task, blockers[..|blockers| - 1]), Edge(task, blockers[|blockers| - 1], false, 0))
  }

  lemma WithBlockersNone(deps: seq<Edge>, task: string, msg: Message)
    ensures WithBlockers(deps, task, []) == deps
    ensures Blockers(msg.(tags := msg.tags[..0])) == if msg.Get("waiting-for") == "" then [] else [] + [msg.Get("waiting-for")]
  {
  }

  lemma WithBlockersNext(deps: seq<Edge>, task: string, blockers: seq<string>, b: string)
    ensures WithBlockers(deps, task, blockers + [b]) == WithEdge(WithBlockers(deps, task, blockers), Edge(task, b, false, 0))
  {
    assert (blockers + [b])[..|blockers|] == blockers;
  }

  lemma BlockersNext(msg: Message, i: nat)
    requires i < |msg.tags|
    ensures Blockers(msg.(tags := msg.tags[..i + 1])) ==
      var before := Blockers(msg.(tags := msg.tags[..i]));
      if BLOCKED_BY <= msg.tags[i] && msg.tags[i][|BLOCKED_BY|..] != "" then before + [msg.tags[i][|BLOCKED_BY|..]] else before
  {
    var tag := msg.tags[i];
    assert msg.tags[..i + 1][..i] == msg.tags[..i];
    assert BLOCKED_BY <= tag ==> tag == BLOCKED_BY + tag[|BLOCKED_BY|..];
  }

  function ResolveEdge(e: Edge, task: string, now: int): Edge {
    if e.blockedBy == task && !e.resolved then e.(resolved := true, resolvedAt := now) else e
  }

  function ResolveAll(deps: seq<Edge>, task: string, now: int): (r: seq<Edge>)
    ensures |r| == |deps|
    ensures forall i :: 0 <= i < |deps| ==> r[i] == ResolveEdge(deps[i], task, now)
  {
    seq(|deps|, i requires 0 <= i < |deps| => ResolveEdge(deps[i], task, now))
  }

  ghost function DepsAfter(deps: seq<Edge>, msg: Message, now: int): seq<Edge> {
    match msg.action
    case Completed => ResolveAll(deps, msg.Get("task"), now)
    case Blocked => WithBlockers(deps, msg.Get("task"), Blockers(msg))
    case _ => deps
  }

  /** The store after UpdateTask(msg) at time now. */
  ghost function After(s: Store, msg: Message, now: int): Store {
    var task := msg.Get("task");
    if task == "" then s
    else
      var info := if task in s.tasks then s.tasks[task] else NewTask(task);
      s.(tasks := s.tasks[task := Revise(info, msg)], deps := DepsAfter(s.deps, msg, now))
  }

  /** UpdateTask and UpdateAgentStatus, as handleMessage and updateLocalState call them. */
  ghost function Record(s: Store, m: Message, now: int): Store {
    if !UpdatesTasks(m.action) then s
    else
      var t := After(s, m, now);
      var task := m.Get("task");
      if task == "" then t else t.(agents := t.agents[m.nick := AgentStatus(m.nick, m.channel, task, now)])
  }

  // ---------- readiness ----------

  /** Blocked, with at least one edge, all of them resolved. */
  predicate Ready(info: TaskInfo, deps: seq<Edge>) {
    && info.status == IsBlocked
    && (exists i :: 0 <= i < |deps| && deps[i].blocked == info.name)
    && forall i :: 0 <= i < |deps| && deps[i].blocked == info.name ==> deps[i].resolved
  }

  /** Every task is filed under its own name, which is not empty. */
  predicate WellNamed(tasks: map<string, TaskInfo>) {
    forall k :: k in tasks ==> tasks[k].name == k && k != ""
  }

  predicate HasDuplicates(xs: seq<string>) {
    exists i, j :: 0 <= i < j < |xs| && xs[i] == xs[j]
  }

  lemma NoDuplicates()
    ensures !HasDuplicates([])
  {
  }

  function Members(xs: seq<string>): set<string> {
    set x | x in xs
  }

  lemma MembersHold(xs: seq<string>)
    ensures forall x :: x in Members(xs) <==> x in xs
  {
  }

  lemma {:induction false} MembersAppend(xs: seq<string>, x: string)
    ensures Members(xs + [x]) == Members(xs) + {x}
    ensures !HasDuplicates(xs) && x !in xs ==> !HasDuplicates(xs + [x])
  {
  }

  // ---------- depth-first search ----------

  /** Loop invariant of HasCycle: visited is closed up to the stack, and neither holds the target. */
  ghost predicate Searching(deps: seq<Edge>, root: string, target: string, visited: set<string>, stack: seq<string>) {
    && target !in visited && target !in stack
    && visited <= Names(deps) + {root}
    && (root in visited || root in stack)
    && (forall x :: x in visited || x in stack ==> x == root || Reaches(deps, root, x))
    && (forall x, y :: x in visited && Linked(deps, x, y) ==> y in visited || y in stack)
  }

  lemma SearchStarts(deps: seq<Edge>, blocked: string, blockedBy: string)
    ensures blocked == blockedBy ==> ClosesCycle(deps, blocked, blockedBy)
    ensures blocked != blockedBy ==> Searching(deps, blockedBy, blocked, {}, [blockedBy])
    ensures blocked != blockedBy ==> (ClosesCycle(deps, blocked, blockedBy) <==> Reaches(deps, blockedBy, blocked))
  {
  }

  lemma SearchSkips(deps: seq<Edge>, root: string, target: string, visited: set<string>, rest: seq<string>, node: string)
    requires Searching(deps, root, target, visited, rest + [node]) && node in visited
    ensures Searching(deps, root, target, visited, rest)
  {
    forall x | x in rest ensures x in rest + [node] {}
    forall y | y in rest + [node] && y !in visited ensures y in rest {}
  }

  lemma SearchExpands(deps: seq<Edge>, root: string, target: string, visited: set<string>, rest: seq<string>, node: string)
    requires Searching(deps, root, target, visited, rest + [node]) && node !in visited
    requires target !in OpenBlockersOf(deps, node)
    ensures Searching(deps, root, target, visited + {node}, rest + OpenBlockersOf(deps, node))
    ensures |(Names(deps) + {root}) - (visited + {node})| < |(Names(deps) + {root}) - visited|
  {
    OpenBlockersAreLinked(deps, node);
    var found := OpenBlockersOf(deps, node);
    assert node in rest + [node];
    if node != root {
      ReachedIsBlocker(deps, root, node);
    }
    SmallerRest(Names(deps) + {root}, visited, visited + {node});
    forall x | x in visited + {node} || x in rest + found ensures x == root || Reaches(deps, root, x) {
      if x in found {
        ReachesStep(deps, root, node, x);
      } else {
        assert x in visited || x in rest + [node];
      }
    }
    forall x, y | x in visited + {node} && Linked(deps, x, y) ensures y in visited + {node} || y in rest + found {
      if x in visited {
        assert y in visited || y in rest + [node];
      }
    }
  }

  lemma SearchEnds(deps: seq<Edge>, root: string, target: string, visited: set<string>, stack: seq<string>)
    requires Searching(deps, root, target, visited, stack) && stack == []
    ensures !Reaches(deps, root, target)
  {
    if Reaches(deps, root, target) {
      var p :| Walk(deps, p, root, target);
      ClosedSetHolds(deps, visited, p, root, target);
    }
  }

  lemma SearchFinds(deps: seq<Edge>, root: string, target: string, visited: set<string>, rest: seq<string>, node: string)
    requires Searching(deps, root, target, visited, rest + [node])
    requires Linked(deps, node, target)
    ensures Reaches(deps, root, target)
  {
    assert node in rest + [node];
    ReachesStep(deps, root, node, target);
  }

  // ---------- breadth-first search ----------

  ghost predicate ReachesWithin(deps: seq<Edge>, a: string, b: string, length: nat) {
    exists q :: Walk(deps, q, a, b) && |q| <= length
  }

  /** The result list after node's edges in deps have been scanned. */
  function Scan(deps: seq<Edge>, node: string, result: seq<string>): seq<string> {
    if deps == [] then
      result
    else
      var last, before := deps[|deps| - 1], Scan(deps[..|deps| - 1], node, result);
      if last.blocked == node && !last.resolved && last.blockedBy !in before then before + [last.blockedBy] else before
  }

  lemma ScanStart(deps: seq<Edge>, node: string, result: seq<string>)
    ensures Scan(deps[..0], node, result) == result
  {
  }

  lemma ScanNext(deps: seq<Edge>, i: nat, node: string, result: seq<string>)
    requires i < |deps|
    ensures Scan(deps[..i + 1], node, result) ==
      var before := Scan(deps[..i], node, result);
      if deps[i].blocked == node && !deps[i].resolved && deps[i].blockedBy !in before
      then before + [deps[i].blockedBy] else before
  {
    assert deps[..i + 1][..i] == deps[..i];
  }

  lemma {:induction false} ScanResult(deps: seq<Edge>, node: string, result: seq<string>)
    ensures result <= Scan(deps, node, result)
    ensures !HasDuplicates(result) ==> !HasDuplicates(Scan(deps, node, result))
    ensures forall k :: |result| <= k < |Scan(deps, node, result)| ==> Linked(deps, node, Scan(deps, node, result)[k])
    ensures forall y :: Linked(deps, node, y) ==> y in Scan(deps, node, result)
  {
    if deps != [] {
      var front, last := deps[..|deps| - 1], deps[|deps| - 1];
      assert deps == front + [last];
      ScanResult(front, node, result);
      var before, after := Scan(front, node, result), Scan(deps, node, result);
      MembersAppend(before, last.blockedBy);
      forall k | |result| <= k < |after| ensures Linked(deps, node, after[k]) {
        LinkedAppend(front, last, node, after[k]);
      }
      forall y | Linked(deps, node, y) ensures y in after {
        LinkedAppend(front, last, node, y);
      }
    }
  }

  /** The start, at depth 0, counts as entry 0 of the search; result[h - 1] is entry h. */
  function Entry(start: string, result: seq<string>, h: nat): string
    requires h <= |result|
  {
    if h == 0 then start else result[h - 1]
  }

  function Depth(level: seq<nat>, h: nat): nat
    requires h <= |level|
  {
    if h == 0 then 0 else level[h - 1]
  }

  /** The queue once the first head entries are finished. */
  function Waiting(start: string, result: seq<string>, head: nat): seq<string>
    requires head <= |result| + 1
  {
    if head == 0 then [start] + result else result[head - 1..]
  }

  ghost predicate LevelAtMost(x: string, depth: nat, result: seq<string>, level: seq<nat>) {
    |level| == |result| && exists k :: 0 <= k < |result| && result[k] == x && level[k] <= depth
  }

  ghost predicate Expanded(deps: seq<Edge>, node: string, depth: nat, result: seq<string>, level: seq<nat>) {
    forall y :: Linked(deps, node, y) ==> LevelAtMost(y, depth + 1, result, level)
  }

  /** Each result is reached by a walk of at most level steps, and levels never decrease. */
  ghost predicate Layered(deps: seq<Edge>, start: string, result: seq<string>, level: seq<nat>) {
    && |level| == |result|
    && (forall k :: 0 <= k < |result| ==> ReachesWithin(deps, start, result[k], level[k] + 1))
    && (forall i, j :: 0 <= i <= j < |level| ==> level[i] <= level[j])
  }

  /** The start (at depth 0) followed by the results; the first head of these are expanded. */
  ghost predicate Spreading(deps: seq<Edge>, start: string, result: seq<string>, level: seq<nat>, head: nat) {
    && Layered(deps, start, result, level) && !HasDuplicates(result)
    && head <= |result| + 1
    && (head <= |result| && |result| > 0 ==> level[|result| - 1] <= Depth(level, head) + 1)
    && (forall h :: 0 <= h < head ==> Expanded(deps, Entry(start, result, h), Depth(level, h), result, level))
  }

  lemma ReachesOneFurther(deps: seq<Edge>, start: string, result: seq<string>, level: seq<nat>, head: nat, y: string)
    requires Layered(deps, start, result, level) && head <= |result|
    requires Linked(deps, Entry(start, result, head), y)
    ensures ReachesWithin(deps, start, y, Depth(level, head) + 2)
  {
    if head == 0 {
      assert Walk(deps, [start, y], start, y);
    } else {
      var q :| Walk(deps, q, start, result[head - 1]) && |q| <= level[head - 1] + 1;
      assert Walk(deps, q + [y], start, y);
    }
  }

  lemma LevelOfPrefix(x: string, d: nat, r0: seq<string>, l0: seq<nat>, r: seq<string>, l: seq<nat>)
    requires |r| == |l| && r0 <= r && l0 <= l
    requires LevelAtMost(x, d, r0, l0)
    ensures LevelAtMost(x, d, r, l)
  {
    var k :| 0 <= k < |r0| && r0[k] == x && l0[k] <= d;
    assert r[k] == x && l[k] <= d;
  }

  lemma ScanStaysLayered(
      deps: seq<Edge>, start: string, r0: seq<string>, l0: seq<nat>, r: seq<string>, l: seq<nat>, head: nat)
    requires Spreading(deps, start, r0, l0, head) && head <= |r0|
    requires r == Scan(deps, Entry(start, r0, head), r0) && |l| == |r| && l0 <= l
    requires forall k :: |r0| <= k < |l| ==> l[k] == Depth(l0, head) + 1
    ensures Layered(deps, start, r, l) && !HasDuplicates(r) && r0 <= r
    ensures |r| > 0 ==> l[|r| - 1] <= Depth(l0, head) + 1
  {
    var node := Entry(start, r0, head);
    ScanResult(deps, node, r0);
    forall k | 0 <= k < |r| ensures ReachesWithin(deps, start, r[k], l[k] + 1) {
      if k < |r0| {
        assert r[k] == r0[k] && l[k] == l0[k];
      } else {
        ReachesOneFurther(deps, start, r0, l0, head, r[k]);
      }
    }
    forall i, j | 0 <= i <= j < |l| ensures l[i] <= l[j] {
      if i < |r0| <= j {
        assert l0[i] <= l0[|l0| - 1];
      }
    }
  }

  lemma ScanExpands(
      deps: seq<Edge>, start: string, r0: seq<string>, l0: seq<nat>, r: seq<string>, l: seq<nat>, head: nat)
    requires Spreading(deps, start, r0, l0, head) && head <= |r0|
    requires r == Scan(deps, Entry(start, r0, head), r0) && |l| == |r| && l0 <= l
    requires forall k :: |r0| <= k < |l| ==> l[k] == Depth(l0, head) + 1
    ensures Spreading(deps, start, r, l, head + 1)
  {
    var node, depth: nat := Entry(start, r0, head), Depth(l0, head);
    ScanStaysLayered(deps, start, r0, l0, r, l, head);
    ScanResult(deps, node, r0);
    forall h | 0 <= h < head + 1 ensures Expanded(deps, Entry(start, r, h), Depth(l, h), r, l) {
      assert Entry(start, r, h) == Entry(start, r0, h) && Depth(l, h) == Depth(l0, h);
      var d: nat := Depth(l, h);
      forall y | Linked(deps, Entry(start, r, h), y) ensures LevelAtMost(y, d + 1, r, l) {
        if h < head {
          LevelOfPrefix(y, d + 1, r0, l0, r, l);
        } else {
          var k :| 0 <= k < |r| && r[k] == y;
          assert l[k] <= l[|l| - 1];
        }
      }
    }
    if head + 1 <= |r| {
      assert Depth(l, head + 1) == l[head];
      if head > 0 {
        assert Depth(l0, head) == l[head - 1] <= l[head];
      }
    }
  }

  /** Once every entry is expanded, no walk is shorter than the level of its end. */
  lemma {:induction false} WalkBoundsLevel(
      deps: seq<Edge>, start: string, result: seq<string>, level: seq<nat>, p: seq<string>, x: string)
    requires Spreading(deps, start, result, level, |result| + 1)
    requires Walk(deps, p, start, x)
    ensures LevelAtMost(x, |p| - 1, result, level)
    decreases |p|
  {
    LastStep(deps, p, start, x);
    hide Walk, Linked, ReachesWithin;
    var h := 0;
    if |p| > 2 {
      WalkBoundsLevel(deps, start, result, level, p[..|p| - 1], p[|p| - 2]);
      var k :| 0 <= k < |result| && result[k] == p[|p| - 2] && level[k] <= |p| - 2;
      h := k + 1;
    }
    var d: nat := Depth(level, h);
    assert Expanded(deps, Entry(start, result, h), d, result, level);
    assert LevelAtMost(x, d + 1, result, level);
    var k :| 0 <= k < |result| && result[k] == x && level[k] <= d + 1;
  }

  lemma SpreadMembers(deps: seq<Edge>, start: string, result: seq<string>, level: seq<nat>)
    requires Spreading(deps, start, result, level, |result| + 1)
    ensures forall x :: x in result <==> Reaches(deps, start, x)
    ensures !HasDuplicates(result)
  {
    forall x ensures x in result <==> Reaches(deps, start, x) {
      if x in result {
        var k :| 0 <= k < |result| && result[k] == x;
        assert ReachesWithin(deps, start, result[k], level[k] + 1);
      }
      if Reaches(deps, start, x) {
        var p :| Walk(deps, p, start, x);
        WalkBoundsLevel(deps, start, result, level, p, x);
      }
    }
  }

  /** No walk to a later result is shorter than some walk to an earlier one. */
  ghost predicate NearestFirst(deps: seq<Edge>, start: string, result: seq<string>) {
    forall i, j, p :: 0 <= i <= j < |result| && Walk(deps, p, start, result[j]) ==> ReachesWithin(deps, start, result[i], |p|)
  }

  /** Exactly the tasks that start waits for, directly or not, each once, nearest first. */
  ghost predicate ListsBlockers(deps: seq<Edge>, start: string, result: seq<string>) {
    && (forall x :: x in result <==> Reaches(deps, start, x))
    && !HasDuplicates(result)
    && NearestFirst(deps, start, result)
  }

  lemma SpreadOrder(deps: seq<Edge>, start: string, result: seq<string>, level: seq<nat>)
    requires Spreading(deps, start, result, level, |result| + 1)
    ensures NearestFirst(deps, start, result)
  {
    forall i, j, p | 0 <= i <= j < |result| && Walk(deps, p, start, result[j])
      ensures ReachesWithin(deps, start, result[i], |p|)
    {
      WalkBoundsLevel(deps, start, result, level, p, result[j]);
      var k :| 0 <= k < |result| && result[k] == result[j] && level[k] <= |p| - 1;
      assert k == j;
      assert level[i] <= level[j];
      assert ReachesWithin(deps, start, result[i], level[i] + 1);
      var q :| Walk(deps, q, start, result[i]) && |q| <= level[i] + 1;
    }
  }

  lemma SpreadStarts(deps: seq<Edge>, start: string)
    ensures Spreading(deps, start, [], [], 0)
    ensures Waiting(start, [], 0) == [start] && Members([]) == {}
  {
  }

  lemma SpreadEnds(deps: seq<Edge>, start: string, result: seq<string>, level: seq<nat>, head: nat)
    requires head <= |result| + 1 && Waiting(start, result, head) == []
    requires Spreading(deps, start, result, level, head)
    ensures ListsBlockers(deps, start, result)
  {
    SpreadMembers(deps, start, result, level);
    SpreadOrder(deps, start, result, level);
  }

  ghost function Unseen(deps: seq<Edge>, result: seq<string>): nat {
    |Names(deps) - Members(result)|
  }

  lemma BfsProgress(deps: seq<Edge>, start: string, r0: seq<string>, result: seq<string>, level: seq<nat>, head: nat)
    requires Spreading(deps, start, result, level, head) && r0 <= result
    ensures r0 == result || Unseen(deps, result) < Unseen(deps, r0)
  {
    forall x | x in result ensures x in Names(deps) {
      var k :| 0 <= k < |result| && result[k] == x;
      assert ReachesWithin(deps, start, result[k], level[k] + 1);
      ReachedIsBlocker(deps, start, x);
    }
    if r0 != result {
      var x := result[|r0|];
      assert x !in Members(r0) && x in Members(result);
      SmallerRest(Names(deps), Members(r0), Members(result));
    }
  }

  /** The queue after the entries that result has and found has not are added to it. */
  function Queued(waiting: seq<string>, found: seq<string>, result: seq<string>): seq<string> {
    if found <= result then waiting + result[|found|..] else waiting
  }

  lemma WaitingMoves(start: string, r0: seq<string>, r: seq<string>, head: nat)
    requires r0 <= r && head <= |r0|
    ensures |Waiting(start, r0, head)| > 0 && Waiting(start, r0, head)[0] == Entry(start, r0, head)
    ensures Queued(Waiting(start, r0, head)[1..], r0, r) == Waiting(start, r, head + 1)
    ensures r == r0 ==> |Waiting(start, r, head + 1)| < |Waiting(start, r0, head)|
  {
    assert r == r0 + r[|r0|..];
    assert Waiting(start, r0, head)[1..] == r0[head..];
  }

  function Levels(l0: seq<nat>, depth: nat, count: nat): (l: seq<nat>)
    ensures |l| == |l0| + count && l0 <= l && forall k :: |l0| <= k < |l| ==> l[k] == depth
  {
    l0 + seq(count, _ => depth)
  }

  /** One round of the outer loop: the head entry is expanded, and the search has come closer to its end. */
  lemma SpreadStep(deps: seq<Edge>, start: string, r0: seq<string>, l0: seq<nat>, head: nat) returns (l: seq<nat>)
    requires Spreading(deps, start, r0, l0, head) && head <= |r0| + 1 && |Waiting(start, r0, head)| > 0
    ensures head <= |r0| && Waiting(start, r0, head)[0] == Entry(start, r0, head)
    ensures var r := Scan(deps, Entry(start, r0, head), r0);
      && r0 <= r
      && Spreading(deps, start, r, l, head + 1)
      && (Unseen(deps, r) < Unseen(deps, r0) || (r == r0 && |Waiting(start, r, head + 1)| < |Waiting(start, r0, head)|))
      && Queued(Waiting(start, r0, head)[1..], r0, r) == Waiting(start, r, head + 1)
  {
    var r := Scan(deps, Entry(start, r0, head), r0);
    assert |l0| == |r0| && head <= |r0|;
    hide *;
    assert r0 <= r by { ScanResult(deps, Entry(start, r0, head), r0); }
    l := Levels(l0, Depth(l0, head) + 1, |r| - |r0|);
    ScanExpands(deps, start, r0, l0, r, l, head);
    BfsProgress(deps, start, r0, r, l, head + 1);
    WaitingMoves(start, r0, r, head);
  }

  lemma SmallerRest(all: set<string>, less: set<string>, more: set<string>)
    requires less <= more <= all && less != more
    ensures |all - more| < |all - less|
  {
    var x :| x in more && x !in less;
    assert all - less == (all - more) + (more - less);
    assert x in more - less;
  }

  /** The class of state.go; the lock is the atomicity of each method. */
  class StateStore {
    var tasks: map<string, TaskInfo>
    var dependencies: seq<Edge>
    var agents: map<string, AgentStatus>

    ghost function Contents(): Store
      reads this
    {
      Store(tasks, dependencies, agents)
    }

    constructor ()
      ensures Contents() == EMPTY_STORE
    {
      tasks, dependencies, agents := map[], [], map[];
    }

    method UpdateTask(msg: Message, now: int)
      modifies this`tasks, this`dependencies
      ensures Contents() == After(old(Contents()), msg, now)
    {
      var taskName := msg.Get("task");
      if taskName == "" {
        return;
      }
      hide WithBlockers, Blockers, ResolveAll, Atoi;
      var info := NewTask(taskName);
      if taskName in tasks {
        info := tasks[taskName];
      }
      info := info.(tags := msg.tags, lastAgent := msg.nick, updatedAt := msg.timestamp);
      match msg.action {
        case Started =>
          info := info.(status := IsStarted, priority := msg.Get("priority"));
        case Completed =>
          info := info.(status := IsCompleted);
          ResolveDependencies(taskName, now);
        case Blocked =>
          info := info.(status := IsBlocked, waitingFor := msg.Get("waiting-for"));
          ExtractDependencies(msg, taskName);
        case Offer =>
          info := info.(status := IsOffered, priority := msg.Get("priority"));
          if msg.Get("scope") != "" {
            info := info.(scope := msg.Get("scope"));
          }
        case Claim =>
          info := info.(status := IsClaimed, owner := msg.nick);
        case Assign =>
          info := info.(status := IsAssigned, owner := msg.Get("to"));
        case Accept =>
          info := info.(status := IsStarted, owner := msg.nick);
        case Decline =>
          if info.status == IsAssigned {
            info := info.(status := IsOffered);
          }
          info := info.(owner := "");
        case Yield =>
          info := info.(status := IsYielded, owner := "");
        case Checkpoint =>
          var p := msg.Get("progress");
          if p != "" {
            var v := Atoi(p);
            if v.Some? {
              info := info.(progress := v.value);
            }
          }
          if msg.Get("summary") != "" {
            info := info.(summary := msg.Get("summary"));
          }
        case Handoff =>
          info := info.(owner := msg.Get("to"));
        case _ =>
      }
      tasks := tasks[taskName := info];
    }

    method ExtractDependencies(msg: Message, taskName: string)
      modifies this`dependencies
      ensures dependencies == WithBlockers(old(dependencies), taskName, Blockers(msg))
    {
      hide *;
      ghost var before := dependencies;
      var wf := msg.Get("waiting-for");
      WithBlockersNone(before, taskName, msg);
      if wf != "" {
        WithBlockersNext(before, taskName, [], wf);
        var _ := AddDependency(Edge(taskName, wf, false, 0));
      }
      for i := 0 to |msg.tags|
        invariant dependencies == WithBlockers(before, taskName, Blockers(msg.(tags := msg.tags[..i])))
      {
        var tag := msg.tags[i];
        BlockersNext(msg, i);
        if BLOCKED_BY <= tag {
          var blockedBy := tag[|BLOCKED_BY|..];
          if blockedBy != "" {
            WithBlockersNext(before, taskName, Blockers(msg.(tags := msg.tags[..i])), blockedBy);
            var _ := AddDependency(Edge(taskName, blockedBy, false, 0));
          }
        }
      }
      assert msg.tags[..|msg.tags|] == msg.tags;
    }

    method ResolveDependencies(taskName: string, now: int)
      modifies this`dependencies
      ensures |dependencies| == |old(dependencies)|
      ensures forall i :: 0 <= i < |dependencies| ==>
        var e := old(dependencies)[i];
        dependencies[i] == if e.blockedBy == taskName && !e.resolved then e.(resolved := true, resolvedAt := now) else e
      ensures dependencies == ResolveAll(old(dependencies), taskName, now)
    {
      var i := 0;
      while i < |dependencies|
        invariant 0 <= i <= |dependencies| == |old(dependencies)|
        invariant forall k :: 0 <= k < i ==> dependencies[k] == ResolveEdge(old(dependencies)[k], taskName, now)
        invariant forall k :: i <= k < |dependencies| ==> dependencies[k] == old(dependencies)[k]
      {
        if dependencies[i].blockedBy == taskName && !dependencies[i].resolved {
          dependencies := dependencies[i := dependencies[i].(resolved := true, resolvedAt := now)];
        }
        i := i + 1;
      }
    }

    /** Both the locked helper and the exported AddDependency: the edge may arrive already resolved. */
    method AddDependency(edge: Edge) returns (added: bool)
      modifies this`dependencies
      ensures added <==>
        && edge.blocked != edge.blockedBy && !Reaches(old(dependencies), edge.blockedBy, edge.blocked)
        && forall e :: e in old(dependencies) ==> e.blocked != edge.blocked || e.blockedBy != edge.blockedBy
      ensures dependencies == if added then old(dependencies) + [edge] else old(dependencies)
      ensures dependencies == WithEdge(old(dependencies), edge)
    {
      var i := 0;
      while i < |dependencies|
        invariant 0 <= i <= |dependencies|
        invariant !HasPair(dependencies[..i], edge.blocked, edge.blockedBy)
      {
        if dependencies[i].blocked == edge.blocked && dependencies[i].blockedBy == edge.blockedBy {
          return false;
        }
        i := i + 1;
      }
      assert dependencies[..i] == dependencies;
      var cycle, _ := HasCycle(edge.blocked, edge.blockedBy);
      if cycle {
        return false;
      }
      dependencies := dependencies + [edge];
      return true;
    }

    method UpdateAgentStatus(nick: string, channel: string, taskName: string, now: int)
      modifies this`agents
      ensures Contents() == old(Contents()).(agents := old(agents)[nick := AgentStatus(nick, channel, taskName, now)])
    {
      agents := agents[nick := AgentStatus(nick, channel, taskName, now)];
    }

    /** Whether the edges of one task are there and all resolved. */
    method IsReady(info: TaskInfo) returns (ready: bool)
      ensures ready <==> Ready(info, dependencies)
    {
      if info.status != IsBlocked {
        return false;
      }
      var hasDeps := false;
      for i := 0 to |dependencies|
        invariant hasDeps <==> exists k :: 0 <= k < i && dependencies[k].blocked == info.name
        invariant forall k :: 0 <= k < i && dependencies[k].blocked == info.name ==> dependencies[k].resolved
      {
        if dependencies[i].blocked == info.name {
          hasDeps := true;
          if !dependencies[i].resolved {
            return false;
          }
        }
      }
      return hasDeps;
    }

    /** The tasks are visited in an arbitrary order, each once. */
    method UnblockedTasks() returns (names: seq<string>, result: seq<TaskInfo>)
      ensures |names| == |result| && !HasDuplicates(names)
      ensures forall i :: 0 <= i < |names| ==> names[i] in tasks && tasks[names[i]] == result[i]
      ensures forall k :: k in names <==> k in tasks && Ready(tasks[k], dependencies)
    {
      hide HasDuplicates, Ready;
      NoDuplicates();
      names, result := [], [];
      var left := tasks.Keys;
      while left != {}
        invariant left <= tasks.Keys
        invariant |names| == |result| && !HasDuplicates(names)
        invariant forall i :: 0 <= i < |names| ==> names[i] in tasks && tasks[names[i]] == result[i]
        invariant forall k :: k in names <==> k in tasks && k !in left && Ready(tasks[k], dependencies)
        decreases left
      {
        var k :| k in left;
        left := left - {k};
        var ready := IsReady(tasks[k]);
        if ready {
          MembersAppend(names, k);
          names, result := names + [k], result + [tasks[k]];
        }
      }
    }

    /** A deep copy; the time stamp of the persisted form is not modelled. */
    method Snapshot() returns (saved: Store)
      ensures saved == Contents()
    {
      saved := Store(tasks, dependencies, agents);
    }

    method Restore(saved: Store)
      modifies this
      ensures Contents() == saved
    {
      tasks, dependencies, agents := saved.tasks, saved.deps, saved.agents;
    }

    /** The inner loop of HasCycle: push node's open blockers, unless one of them is the target. */
    static method PushBlockers(deps: seq<Edge>, node: string, target: string, rest: seq<string>)
      returns (hit: bool, stack: seq<string>)
      ensures hit <==> Linked(deps, node, target)
      ensures !hit ==> stack == rest + OpenBlockersOf(deps, node)
    {
      OpenBlockersAreLinked(deps, node);
      stack := rest;
      for i := 0 to |deps|
        invariant stack == rest + OpenBlockersOf(deps[..i], node)
        invariant target !in OpenBlockersOf(deps[..i], node)
      {
        OpenBlockersNext(deps, i, node);
        if deps[i].blocked == node && !deps[i].resolved {
          if deps[i].blockedBy == target {
            return true, stack;
          }
          stack := stack + [deps[i].blockedBy];
        }
      }
      assert deps[..|deps|] == deps;
      return false, stack;
    }

    /** The depth-first search, with the number of stack pops as a ghost result. */
    method HasCycle(blocked: string, blockedBy: string) returns (found: bool, ghost pops: nat)
      ensures found <==> ClosesCycle(dependencies, blocked, blockedBy)
      ensures pops <= 1 + OpenCount(dependencies)
    {
      hide *;
      SearchStarts(dependencies, blocked, blockedBy);
      pops := 0;
      if blocked == blockedBy {
        return true, 0;
      }
      var deps := dependencies;
      var visited: set<string> := {};
      var stack := [blockedBy];
      while |stack| > 0
        invariant Searching(deps, blockedBy, blocked, visited, stack)
        invariant pops + |stack| <= 1 + OpenFrom(deps, visited)
        decreases |(Names(deps) + {blockedBy}) - visited|, |stack|
      {
        OpenFromAtMost(deps, visited);
        var node, rest := stack[|stack| - 1], stack[..|stack| - 1];
        assert stack == rest + [node];
        stack := rest;
        pops := pops + 1;
        if node in visited {
          SearchSkips(deps, blockedBy, blocked, visited, rest, node);
          continue;
        }
        OpenFromAdd(deps, visited, node);
        OpenBlockersAreLinked(deps, node);
        var hit;
        hit, stack := PushBlockers(deps, node, blocked, rest);
        if hit {
          SearchFinds(deps, blockedBy, blocked, visited, rest, node);
          return true, pops;
        }
        SearchExpands(deps, blockedBy, blocked, visited, rest, node);
        visited := visited + {node};
      }
      SearchEnds(deps, blockedBy, blocked, visited, stack);
      OpenFromAtMost(deps, visited);
      return false, pops;
    }

    /** The inner loop of TransitiveDependencies: record and enqueue node's unvisited open blockers. */
    static method VisitBlockers(deps: seq<Edge>, node: string, seen: set<string>, found: seq<string>, waiting: seq<string>)
      returns (visited: set<string>, result: seq<string>, queue: seq<string>)
      requires seen == Members(found)
      ensures visited == Members(result)
      ensures result == Scan(deps, node, found)
      ensures queue == Queued(waiting, found, result)
    {
      ScanStart(deps, node, found);
      hide Scan, Members, Linked;
      visited, result, queue := seen, found, waiting;
      for i := 0 to |deps|
        invariant visited == Members(result)
        invariant found <= result && result == Scan(deps[..i], node, found)
        invariant queue == Queued(waiting, found, result)
      {
        ScanNext(deps, i, node, found);
        MembersHold(result);
        if deps[i].blocked == node && !deps[i].resolved && deps[i].blockedBy !in visited {
          MembersAppend(result, deps[i].blockedBy);
          visited := visited + {deps[i].blockedBy};
          result := result + [deps[i].blockedBy];
          queue := queue + [deps[i].blockedBy];
        }
      }
      assert deps[..|deps|] == deps;
    }

    /** The breadth-first search for all transitive blockers, nearest first. */
    method TransitiveDependencies(taskName: string) returns (result: seq<string>)
      ensures ListsBlockers(dependencies, taskName, result)
    {
      hide *;
      var deps := dependencies;
      result := [];
      var visited: set<string> := {};
      var queue := [taskName];
      ghost var head := 0;
      ghost var level: seq<nat> := [];
      SpreadStarts(deps, taskName);
      while |queue| > 0
        invariant head <= |result| + 1
        invariant Spreading(deps, taskName, result, level, head)
        invariant queue == Waiting(taskName, result, head)
        invariant visited == Members(result)
        decreases Unseen(deps, result), |queue|
      {
        var node := queue[0];
        level := SpreadStep(deps, taskName, result, level, head);
        visited, result, queue := VisitBlockers(deps, node, visited, result, queue[1..]);
        head := head + 1;
      }
      SpreadEnds(deps, taskName, result, level, head);
    }
  }
}
