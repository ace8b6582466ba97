/** Built-in role behaviours of internal/agent/role.go: which message a role answers, and with what. */
module Roles {
  import opened Protocol

  datatype Role =
    | ArchitectureReviewer | SecurityReviewer | MonitoringGuardian | TestCoverageEnforcer
    | MergeCoordinator | ReleaseCoordinator | CleanupAgent | IncidentResponder | TechDebtTracker
    | OtherRole(name: string)

  predicate HasSuffix(s: string, suffix: string) {
    |suffix| <= |s| && s[|s| - |suffix|..] == suffix
  }

  function TrimSuffix(s: string, suffix: string): string {
    if HasSuffix(s, suffix) then s[..|s| - |suffix|] else s
  }

  /** The action a built-in behaviour is registered for; None when the role has no behaviour. */
  function Trigger(role: Role): Option<Action> {
    match role
    case ArchitectureReviewer => Some(ReviewRequest)
    case SecurityReviewer => Some(ReviewRequest)
    case MonitoringGuardian => Some(ReviewRequest)
    case MergeCoordinator => Some(ReviewComplete)
    case ReleaseCoordinator => Some(Completed)
    case CleanupAgent => Some(Completed)
    case IncidentResponder => Some(Escalate)
    case _ => None
  }

  /** Whether a role's handler answers a message with the triggering action at all. */
  predicate Responds(role: Role, msg: Message) {
    match role
    case ArchitectureReviewer => msg.Get("review-type") == "architecture"
    case SecurityReviewer => msg.Get("review-type") == "security"
    case MonitoringGuardian => msg.Get("review-type") == "monitoring"
    case MergeCoordinator => msg.Get("verdict") == "approved"
    case ReleaseCoordinator => HasSuffix(msg.Get("task"), "-merge")
    case CleanupAgent => HasSuffix(msg.Get("task"), "-release")
    case IncidentResponder => msg.Get("severity") == "high" || msg.Get("severity") == "critical"
    case _ => false
  }

  function AnswerAction(role: Role): Action {
    match role
    case MonitoringGuardian => GateCheck
    case MergeCoordinator => Started
    case ReleaseCoordinator => Checkpoint
    case CleanupAgent => Offer
    case IncidentResponder => Started
    case _ => ReviewComplete
  }

  function Approval(msg: Message, details: string): map<string, string> {
    map["task" := msg.Get("task"), "pr" := msg.Get("pr"), "verdict" := "approved", "details" := details]
  }

  function AnswerFields(role: Role, msg: Message): map<string, string> {
    var task := msg.Get("task");
    match role
    case ArchitectureReviewer => Approval(msg, "Architecture review auto-approved")
    case SecurityReviewer => Approval(msg, "Security review auto-approved")
    case MonitoringGuardian =>
      map["task" := task, "gate" := "monitoring", "status" := "passed", "details" := "Monitoring gate auto-passed"]
    case MergeCoordinator => map["task" := task + "-merge", "priority" := "high"]
    case ReleaseCoordinator =>
      map["task" := TrimSuffix(task, "-merge") + "-release", "progress" := "0", "summary" := "Release initiated"]
    case CleanupAgent => map["task" := TrimSuffix(task, "-release") + "-cleanup", "scope" := "cleanup"]
    case IncidentResponder => map["task" := task + "-incident", "priority" := "critical"]
    case _ => map[]
  }

  /** The handler of a role's behaviour, for a message with the triggering action. */
  function Handler(role: Role, msg: Message): seq<Message> {
    if Responds(role, msg) then [NewMessage(AnswerAction(role), AnswerFields(role, msg), [])] else []
  }

  predicate Matches(role: Role, msg: Message) {
    Trigger(role) == Some(msg.action)
  }

  function Reply(role: Role, msg: Message): seq<Message> {
    if Matches(role, msg) then Handler(role, msg) else []
  }

  /** The answers of all behaviours, in the order of registration. */
  function Replies(roles: seq<Role>, msg: Message): seq<Message> {
    if roles == [] then [] else Replies(roles[..|roles| - 1], msg) + Reply(roles[|roles| - 1], msg)
  }

  /** The engine, with its behaviours named by their built-in roles. */
  class RoleEngine {
    var roles: seq<Role>
    var behaviors: seq<Role>

    /** As initProtocol sets it up: a behaviour for every configured role that has one. */
    constructor (configured: seq<Role>)
      ensures roles == configured
      ensures forall msg :: Replies(behaviors, msg) == Replies(configured, msg)
    {
      roles := configured;
      behaviors := [];
      new;
      var i := 0;
      while i < |configured|
        invariant 0 <= i <= |configured| && roles == configured
        invariant forall msg :: Replies(behaviors, msg) == Replies(configured[..i], msg)
      {
        RepliesNext(configured, i);
        if Trigger(configured[i]).Some? {
          RepliesAppend(behaviors, configured[i]);
          RegisterBehavior(configured[i]);
        }
        i := i + 1;
      }
      assert configured[..i] == configured;
    }

    method RegisterBehavior(behavior: Role)
      modifies this`behaviors
      ensures behaviors == old(behaviors) + [behavior]
    {
      behaviors := behaviors + [behavior];
    }

    method HandleMessage(msg: Message) returns (responses: seq<Message>)
      ensures responses == Replies(behaviors, msg)
    {
      hide Handler;
      responses := [];
      for i := 0 to |behaviors|
        invariant responses == Replies(behaviors[..i], msg)
      {
        RepliesNext(behaviors, i);
        if Matches(behaviors[i], msg) {
          responses := responses + Handler(behaviors[i], msg);
        }
      }
      assert behaviors[..|behaviors|] == behaviors;
    }
  }

  lemma RepliesNext(roles: seq<Role>, i: nat)
    requires i < |roles|
    ensures forall msg :: Replies(roles[..i + 1], msg) == Replies(roles[..i], msg) + Reply(roles[i], msg)
    ensures Trigger(roles[i]).None? ==> forall msg :: Reply(roles[i], msg) == []
  {
    hide Handler;
    assert roles[..i + 1][..i] == roles[..i];
  }

  lemma RepliesAppend(roles: seq<Role>, role: Role)
    ensures forall msg :: Replies(roles + [role], msg) == Replies(roles, msg) + Reply(role, msg)
  {
    hide Handler;
    assert (roles + [role])[..|roles|] == roles;
  }

  /** Every answer comes from one configured role whose trigger is the message's action. */
  lemma {:induction false} RepliesComeFromRoles(roles: seq<Role>, msg: Message, i: nat)
    requires i < |Replies(roles, msg)|
    ensures exists k, j :: 0 <= k < |roles| && 0 <= j < |Reply(roles[k], msg)| && Replies(roles, msg)[i] == Reply(roles[k], msg)[j]
  {
    hide Handler;
    var front, last := roles[..|roles| - 1], roles[|roles| - 1];
    var n := |Replies(front, msg)|;
    if i < n {
      RepliesComeFromRoles(front, msg, i);
      var k, j :| 0 <= k < |front| && 0 <= j < |Reply(front[k], msg)| && Replies(front, msg)[i] == Reply(front[k], msg)[j];
      assert front[k] == roles[k];
    } else {
      assert Replies(roles, msg)[i] == Reply(roles[|roles| - 1], msg)[i - n];
    }
  }

  /** An answer carries the action of the role that gives it, and the role was triggered by the message. */
  lemma RepliesKnowTheirRole(roles: seq<Role>, msg: Message, i: nat)
    requires i < |Replies(roles, msg)|
    ensures exists k :: 0 <= k < |roles| && Trigger(roles[k]) == Some(msg.action) && Replies(roles, msg)[i].action == AnswerAction(roles[k])
  {
    RepliesComeFromRoles(roles, msg, i);
    hide Replies, AnswerFields, Responds, AnswerAction, Trigger;
    var k, j :| 0 <= k < |roles| && 0 <= j < |Reply(roles[k], msg)| && Replies(roles, msg)[i] == Reply(roles[k], msg)[j];
  }

  // ---------- who answers what ----------

  /** The replies of several roles are those of the first ones followed by those of the others. */
  lemma {:induction false} RepliesConcat(a: seq<Role>, b: seq<Role>, msg: Message)
    ensures Replies(a + b, msg) == Replies(a, msg) + Replies(b, msg)
  {
    hide Reply;
    if b == [] {
      assert a + b == a;
    } else {
      RepliesConcat(a, b[..|b| - 1], msg);
      assert (a + b)[..|a + b| - 1] == a + b[..|b| - 1];
    }
  }

  lemma RepliesOfOne(role: Role, msg: Message)
    ensures Replies([role], msg) == Reply(role, msg)
  {
    hide Reply;
    assert [role][..0] == [];
  }

  /** An architecture reviewer approves exactly the architecture review requests, naming their task and pull request. */
  lemma ArchitectApproves(msg: Message)
    ensures Replies([ArchitectureReviewer], msg) ==
      if msg.action == ReviewRequest && msg.Get("review-type") == "architecture" then
        [NewMessage(ReviewComplete, map["task" := msg.Get("task"), "pr" := msg.Get("pr"), "verdict" := "approved",
                                        "details" := "Architecture review auto-approved"], [])]
      else []
  {
    RepliesOfOne(ArchitectureReviewer, msg);
  }

  /** A security reviewer does the same for security review requests. */
  lemma SecurityApproves(msg: Message)
    ensures Replies([SecurityReviewer], msg) ==
      if msg.action == ReviewRequest && msg.Get("review-type") == "security" then
        [NewMessage(ReviewComplete, map["task" := msg.Get("task"), "pr" := msg.Get("pr"), "verdict" := "approved",
                                        "details" := "Security review auto-approved"], [])]
      else []
  {
    RepliesOfOne(SecurityReviewer, msg);
  }

  /** The monitoring guardian passes the monitoring gate of every task for which a monitoring review is requested. */
  lemma GuardianPassesGate(msg: Message)
    ensures Replies([MonitoringGuardian], msg) ==
      if msg.action == ReviewRequest && msg.Get("review-type") == "monitoring" then
        [NewMessage(GateCheck, map["task" := msg.Get("task"), "gate" := "monitoring", "status" := "passed",
                                   "details" := "Monitoring gate auto-passed"], [])]
      else []
  {
    RepliesOfOne(MonitoringGuardian, msg);
  }

  /**
   * The release pipeline, for every task: an approved review starts its merge; the completed merge opens the release; the
   * completed release offers the clean-up. Each role stays silent for all other messages.
   */
  lemma PipelineContinues(task: string, msg: Message)
    ensures Replies([MergeCoordinator], msg) ==
      if msg.action == ReviewComplete && msg.Get("verdict") == "approved" then
        [NewMessage(Started, map["task" := msg.Get("task") + "-merge", "priority" := "high"], [])]
      else []
    ensures msg.action == Completed && msg.Get("task") == task + "-merge" ==>
      Replies([ReleaseCoordinator], msg) == [NewMessage(Checkpoint,
        map["task" := task + "-release", "progress" := "0", "summary" := "Release initiated"], [])]
    ensures msg.action == Completed && msg.Get("task") == task + "-release" ==>
      Replies([CleanupAgent], msg) == [NewMessage(Offer, map["task" := task + "-cleanup", "scope" := "cleanup"], [])]
  {
    RepliesOfOne(MergeCoordinator, msg);
    RepliesOfOne(ReleaseCoordinator, msg);
    RepliesOfOne(CleanupAgent, msg);
    SuffixComesOff(task, "-merge");
    SuffixComesOff(task, "-release");
  }

  lemma SuffixComesOff(stem: string, suffix: string)
    ensures HasSuffix(stem + suffix, suffix) && TrimSuffix(stem + suffix, suffix) == stem
  {
  }

  /** The two later pipeline roles answer nothing but completions of tasks with their suffix. */
  lemma PipelineIsSilent(role: Role, msg: Message) returns (task: string)
    requires role in {ReleaseCoordinator, CleanupAgent} && Replies([role], msg) != []
    ensures msg.action == Completed
    ensures msg.Get("task") == task + if role == ReleaseCoordinator then "-merge" else "-release"
  {
    RepliesOfOne(role, msg);
    var name, suffix := msg.Get("task"), if role == ReleaseCoordinator then "-merge" else "-release";
    task := name[..|name| - |suffix|];
    assert name == task + suffix;
  }

  /** The incident responder starts an incident for escalations of high or critical severity, and for no other message. */
  lemma ResponderStartsIncident(msg: Message)
    ensures Replies([IncidentResponder], msg) ==
      if msg.action == Escalate && msg.Get("severity") in {"high", "critical"} then
        [NewMessage(Started, map["task" := msg.Get("task") + "-incident", "priority" := "critical"], [])]
      else []
  {
    RepliesOfOne(IncidentResponder, msg);
  }

  /** All other roles, built in or not, answer nothing. */
  lemma OthersAreSilent(role: Role, msg: Message)
    requires role in {TestCoverageEnforcer, TechDebtTracker} || role.OtherRole?
    ensures Replies([role], msg) == []
  {
    RepliesOfOne(role, msg);
  }
}
