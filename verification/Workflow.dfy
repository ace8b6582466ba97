/** Workflow definitions and their instances, of internal/agent/workflow.go. */
module Workflow {

  import opened Protocol

  datatype Stage = Stage(name: string, requiredGates: seq<string>, requiredReviews: seq<string>, nextStage: string)

  datatype Definition = Definition(name: string, stages: seq<Stage>)

  datatype Instance = Instance(name: string, task: string, currentStage: string, completed: bool)

  /** The index of the first stage of that name, or the number of stages if there is none. */
  function FirstAt(stages: seq<Stage>, name: string): (i: nat)
    ensures i <= |stages|
    ensures i < |stages| ==> stages[i].name == name
    ensures forall k :: 0 <= k < i ==> stages[k].name != name
  {
    if stages == [] then 0 else if stages[0].name == name then 0 else 1 + FirstAt(stages[1..], name)
  }

  /** The name of the stage after stage i: the one it names, or else the next in the list; None after the last. */
  function Successor(stages: seq<Stage>, i: nat): Option<string>
    requires i < |stages|
  {
    if stages[i].nextStage != "" then Some(stages[i].nextStage)
    else if i + 1 < |stages| then Some(stages[i + 1].name)
    else None
  }

  /** An instance that has completed, or whose stage the definition does not have, stays as it is. */
  predicate Rests(def: Definition, inst: Instance) {
    inst.completed || FirstAt(def.stages, inst.currentStage) == |def.stages|
  }

  function Advanced(def: Definition, inst: Instance): Instance {
    if Rests(def, inst) then inst
    else
      match Successor(def.stages, FirstAt(def.stages, inst.currentStage))
      case Some(stage) => inst.(currentStage := stage)
      case None => inst.(completed := true)
  }

  /** Stage i is the first one with the instance's stage name. */
  predicate StandsAt(stages: seq<Stage>, inst: Instance, i: int) {
    0 <= i < |stages| && stages[i].name == inst.currentStage && forall k :: 0 <= k < i ==> stages[k].name != inst.currentStage
  }

  /** A named next stage wins over the following one; after the last stage without one the instance is complete. */
  function MovedOn(stages: seq<Stage>, inst: Instance, i: int): Instance
    requires 0 <= i < |stages|
  {
    if stages[i].nextStage != "" then inst.(currentStage := stages[i].nextStage)
    else if i + 1 < |stages| then inst.(currentStage := stages[i + 1].name)
    else inst.(completed := true)
  }

  lemma StandsAtFirst(def: Definition, inst: Instance, i: nat)
    requires i < |def.stages| && !inst.completed && StandsAt(def.stages, inst, i)
    ensures FirstAt(def.stages, inst.currentStage) == i && Advanced(def, inst) == MovedOn(def.stages, inst, i)
  {
    var j := FirstAt(def.stages, inst.currentStage);
    hide FirstAt;
    assert j < |def.stages| ==> !(j < i);
  }

  class WorkflowEngine {
    var definitions: map<string, Definition>
    /** By task. */
    var instances: map<string, Instance>

    constructor ()
      ensures definitions == map["gated-pipeline" := GatedPipeline(), "collaborative-handoff" := CollaborativeHandoff()]
      ensures instances == map[]
    {
      definitions := map["gated-pipeline" := GatedPipeline()];
      new;
      definitions := definitions["collaborative-handoff" := CollaborativeHandoff()];
      instances := map[];
    }

    method RegisterDefinition(def: Definition)
      modifies this`definitions
      ensures definitions == old(definitions)[def.name := def]
    {
      definitions := definitions[def.name := def];
    }

    /** A second start for the same task replaces the first instance. */
    method StartWorkflow(workflowName: string, task: string) returns (inst: Option<Instance>)
      modifies this`instances
      ensures inst.Some? <==> workflowName in definitions && definitions[workflowName].stages != []
      ensures inst.None? ==> instances == old(instances)
      ensures inst.Some? ==>
        && inst.value == Instance(workflowName, task, definitions[workflowName].stages[0].name, false)
        && instances == old(instances)[task := inst.value]
        && !Rests(definitions[workflowName], inst.value)
    {
      if workflowName !in definitions || |definitions[workflowName].stages| == 0 {
        return None;
      }
      var started := Instance(workflowName, task, definitions[workflowName].stages[0].name, false);
      instances := instances[task := started];
      return Some(started);
    }

    method AdvanceStage(task: string) returns (stage: string)
      modifies this`instances
      ensures task !in old(instances) || old(instances)[task].name !in definitions ==> stage == "" && instances == old(instances)
      ensures task in old(instances) && old(instances)[task].name in definitions ==>
        var before, def := old(instances)[task], definitions[old(instances)[task].name];
        && instances == old(instances)[task := Advanced(def, before)]
        && (forall i :: 0 <= i < |def.stages| && !before.completed && StandsAt(def.stages, before, i) ==>
              instances[task] == MovedOn(def.stages, before, i))
        && stage == if Rests(def, before) || Advanced(def, before).completed then "" else Advanced(def, before).currentStage
    {
      if task !in instances || instances[task].completed {
        return "";
      }
      var inst := instances[task];
      if inst.name !in definitions {
        return "";
      }
      var def := definitions[inst.name];
      for i := 0 to |def.stages|
        invariant instances == old(instances)
        invariant forall k :: 0 <= k < i ==> def.stages[k].name != inst.currentStage
      {
        var s := def.stages[i];
        if s.name == inst.currentStage {
          assert FirstAt(def.stages, inst.currentStage) == i;
          if s.nextStage != "" {
            instances := instances[task := inst.(currentStage := s.nextStage)];
            return s.nextStage;
          }
          if i + 1 < |def.stages| {
            instances := instances[task := inst.(currentStage := def.stages[i + 1].name)];
            return def.stages[i + 1].name;
          }
          instances := instances[task := inst.(completed := true)];
          return "";
        }
      }
      return "";
    }
  }

  // ---------- whole runs of one instance ----------

  /** The instance after n calls of AdvanceStage, with the definition unchanged in between. */
  function After(def: Definition, inst: Instance, n: nat): Instance {
    if n == 0 then inst else Advanced(def, After(def, inst, n - 1))
  }

  lemma {:induction false} AfterSum(def: Definition, inst: Instance, m: nat, n: nat)
    ensures After(def, After(def, inst, m), n) == After(def, inst, m + n)
  {
    if n != 0 {
      AfterSum(def, inst, m, n - 1);
    }
  }

  lemma {:induction false} RestsForever(def: Definition, inst: Instance, n: nat)
    requires Rests(def, inst)
    ensures After(def, inst, n) == inst
  {
    if n != 0 {
      RestsForever(def, inst, n - 1);
    }
  }

  /** Once completed, always completed and nothing else changes. */
  lemma StaysCompleted(def: Definition, inst: Instance, m: nat, n: nat)
    requires m <= n && After(def, inst, m).completed
    ensures After(def, inst, n) == After(def, inst, m)
  {
    RestsForever(def, After(def, inst, m), n - m);
    AfterSum(def, inst, m, n - m);
  }

  lemma {:induction false} Pigeonhole(values: seq<nat>, n: nat) returns (i: nat, j: nat)
    requires |values| > n && forall k :: 0 <= k < |values| ==> values[k] < n
    ensures i < j < |values| && values[i] == values[j]
  {
    assert values[0] < n;
    if k :| 0 <= k < |values| && values[k] == n - 1 {
      if l :| 0 <= l < |values| && l != k && values[l] == n - 1 {
        return if k < l then k else l, if k < l then l else k;
      }
      i, j := Pigeonhole(values[..k] + values[k + 1..], n - 1);
      return if i < k then i else i + 1, if j < k then j else j + 1;
    } else {
      i, j := Pigeonhole(values, n - 1);
    }
  }

  lemma {:induction false} OnlyStageChanges(def: Definition, inst: Instance, n: nat)
    ensures After(def, inst, n).name == inst.name && After(def, inst, n).task == inst.task
  {
    if n != 0 {
      OnlyStageChanges(def, inst, n - 1);
    }
  }

  lemma RestsBeforeAndAfter(def: Definition, inst: Instance, k: nat, n: nat)
    requires k <= n && Rests(def, After(def, inst, k))
    ensures After(def, inst, n) == After(def, inst, k)
  {
    hide *;
    AfterSum(def, inst, k, n - k);
    RestsForever(def, After(def, inst, k), n - k);
  }

  function PositionAfter(def: Definition, inst: Instance, n: nat): nat {
    FirstAt(def.stages, After(def, inst, n).currentStage)
  }

  lemma SamePositionSameInstance(def: Definition, inst: Instance, i: nat, j: nat)
    requires PositionAfter(def, inst, i) == PositionAfter(def, inst, j)
    requires !Rests(def, After(def, inst, i)) && !Rests(def, After(def, inst, j))
    ensures After(def, inst, i) == After(def, inst, j)
  {
    OnlyStageChanges(def, inst, i);
    OnlyStageChanges(def, inst, j);
    hide After, FirstAt;
    var x, y := After(def, inst, i), After(def, inst, j);
    assert x.currentStage == def.stages[PositionAfter(def, inst, i)].name == y.currentStage;
  }

  /** If an instance ever completes, then it has completed after as many calls as the definition has stages. */
  lemma {:induction false} CompletesInTimeOrNever(def: Definition, inst: Instance, n: nat)
    requires After(def, inst, n).completed
    ensures After(def, inst, |def.stages|).completed
    decreases n
  {
    hide *;
    var size := |def.stages|;
    if n <= size {
      StaysCompleted(def, inst, n, size);
    } else if !After(def, inst, size).completed {
      forall k | 0 <= k <= size ensures !Rests(def, After(def, inst, k)) && PositionAfter(def, inst, k) < size {
        if Rests(def, After(def, inst, k)) {
          RestsBeforeAndAfter(def, inst, k, size);
          RestsBeforeAndAfter(def, inst, k, n);
        }
        AtAStage(def, inst, k);
      }
      var positions := seq(size + 1, k requires 0 <= k <= size => PositionAfter(def, inst, k));
      var i, j := Pigeonhole(positions, size);
      SamePositionSameInstance(def, inst, i, j);
      AfterSum(def, inst, i, n - j);
      AfterSum(def, inst, j, n - j);
      CompletesInTimeOrNever(def, inst, i + n - j);
    }
  }

  lemma AtAStage(def: Definition, inst: Instance, n: nat)
    ensures !Rests(def, After(def, inst, n)) ==> PositionAfter(def, inst, n) < |def.stages|
  {
    hide After, FirstAt;
  }

  predicate DistinctNames(stages: seq<Stage>) {
    forall i, j :: 0 <= i < j < |stages| ==> stages[i].name != stages[j].name
  }

  /** Whatever a stage names as its next stage comes later in the list. */
  predicate NamesLaterStages(stages: seq<Stage>) {
    forall i :: 0 <= i < |stages| && stages[i].nextStage != "" ==> i < FirstAt(stages, stages[i].nextStage) < |stages|
  }

  lemma ForwardStep(def: Definition, inst: Instance)
    requires DistinctNames(def.stages) && NamesLaterStages(def.stages)
    requires !Rests(def, inst)
    ensures var next := Advanced(def, inst);
      !next.completed ==> !Rests(def, next) && FirstAt(def.stages, inst.currentStage) < FirstAt(def.stages, next.currentStage)
  {
    hide FirstAt;
    var at := FirstAt(def.stages, inst.currentStage);
    if def.stages[at].nextStage == "" && at + 1 < |def.stages| {
      assert FirstAt(def.stages, def.stages[at + 1].name) == at + 1;
    }
  }

  /** With distinct names and next stages that come later, every instance at one of the stages completes in time. */
  lemma {:induction false} ForwardCompletes(def: Definition, inst: Instance, n: nat)
    requires DistinctNames(def.stages) && NamesLaterStages(def.stages)
    requires !Rests(def, inst) && n >= |def.stages| - FirstAt(def.stages, inst.currentStage)
    ensures After(def, inst, n).completed
    decreases n
  {
    hide *;
    OneStep(def, inst);
    ForwardStep(def, inst);
    if Advanced(def, inst).completed {
      StaysCompleted(def, inst, 1, n);
    } else {
      OneStep(def, Advanced(def, inst));
      ForwardCompletes(def, Advanced(def, inst), n - 1);
      AfterSum(def, inst, 1, n - 1);
    }
  }

  lemma OneStep(def: Definition, inst: Instance)
    requires !Rests(def, inst)
    ensures After(def, inst, 1) == Advanced(def, inst)
    ensures FirstAt(def.stages, inst.currentStage) < |def.stages|
  {
    hide Advanced, FirstAt;
    assert After(def, inst, 0) == inst;
  }

  lemma RepeatedNameStep(def: Definition, inst: Instance, i: nat, j: nat)
    requires forall k :: 0 <= k < |def.stages| ==> def.stages[k].nextStage == ""
    requires i < j < |def.stages| && def.stages[i].name == def.stages[j].name
    requires !inst.completed && FirstAt(def.stages, inst.currentStage) < j
    ensures !Advanced(def, inst).completed && FirstAt(def.stages, Advanced(def, inst).currentStage) < j
  {
    hide FirstAt;
    var at := FirstAt(def.stages, inst.currentStage);
    assert def.stages[at + 1].name == Advanced(def, inst).currentStage;
  }

  /** A stage name that occurs a second time sends the instance back to its first occurrence, again and again. */
  lemma {:induction false} RepeatedNameLoops(def: Definition, inst: Instance, i: nat, j: nat, n: nat)
    requires forall k :: 0 <= k < |def.stages| ==> def.stages[k].nextStage == ""
    requires i < j < |def.stages| && def.stages[i].name == def.stages[j].name
    requires !inst.completed && FirstAt(def.stages, inst.currentStage) < j
    ensures !After(def, inst, n).completed && FirstAt(def.stages, After(def, inst, n).currentStage) < j
  {
    hide FirstAt, Advanced, Rests;
    if n != 0 {
      RepeatedNameLoops(def, inst, i, j, n - 1);
      RepeatedNameStep(def, After(def, inst, n - 1), i, j);
    }
  }

  /** A definition that only lists its stages completes from its first stage exactly when their names are distinct. */
  lemma ListCompletesIffDistinct(def: Definition, inst: Instance)
    requires def.stages != [] && forall k :: 0 <= k < |def.stages| ==> def.stages[k].nextStage == ""
    requires !inst.completed && inst.currentStage == def.stages[0].name
    ensures (exists n: nat :: After(def, inst, n).completed) <==> DistinctNames(def.stages)
  {
    hide FirstAt, After, Advanced;
    if DistinctNames(def.stages) {
      ForwardCompletes(def, inst, |def.stages|);
      assert After(def, inst, |def.stages|).completed;
    } else {
      var i, j :| 0 <= i < j < |def.stages| && def.stages[i].name == def.stages[j].name;
      forall n: nat ensures !After(def, inst, n).completed {
        RepeatedNameLoops(def, inst, i, j, n);
      }
    }
  }

  /**
   * A route through a definition: each position is the first stage of its name, and the next one bears the name that the stage
   * names as its next, or, if it names none, is the following stage.
   */
  predicate IsRoute(stages: seq<Stage>, route: seq<nat>) {
    && (forall n :: 0 <= n < |route| ==> route[n] < |stages| && forall k :: 0 <= k < route[n] ==> stages[k].name != stages[route[n]].name)
    && (forall n :: 0 < n < |route| ==>
          var at := route[n - 1];
          if stages[at].nextStage != "" then stages[route[n]].name == stages[at].nextStage
          else at + 1 < |stages| && stages[route[n]].name == stages[at + 1].name)
  }

  /** An instance follows every route, with whatever jumps forward or back it holds, one stage with each call. */
  lemma {:induction false} RouteIsFollowed(def: Definition, inst: Instance, route: seq<nat>, n: nat)
    requires IsRoute(def.stages, route) && n < |route|
    requires !inst.completed && inst.currentStage == def.stages[route[0]].name
    ensures After(def, inst, n) == inst.(currentStage := def.stages[route[n]].name)
  {
    hide Advanced, FirstAt;
    if n > 0 {
      RouteIsFollowed(def, inst, route, n - 1);
      var before := After(def, inst, n - 1);
      StandsAtFirst(def, before, route[n - 1]);
    }
  }

  // ---------- gates and reviews ----------

  /** The same stages but for the gates and reviews they require. */
  predicate SamePath(a: seq<Stage>, b: seq<Stage>) {
    |a| == |b| && forall i :: 0 <= i < |a| ==> a[i].name == b[i].name && a[i].nextStage == b[i].nextStage
  }

  lemma SamePosition(a: seq<Stage>, b: seq<Stage>, name: string)
    requires SamePath(a, b)
    ensures FirstAt(a, name) == FirstAt(b, name)
  {
    var i, j := FirstAt(a, name), FirstAt(b, name);
    hide FirstAt;
    assert i < |a| ==> b[i].name == name;
    assert j < |b| ==> a[j].name == name;
  }

  /** Required gates and reviews have no influence: instances advance alike whatever the stages require. */
  lemma {:induction false} RequirementsAreIgnored(a: Definition, b: Definition, inst: Instance, n: nat)
    requires SamePath(a.stages, b.stages)
    ensures After(a, inst, n) == After(b, inst, n)
  {
    hide FirstAt;
    if n > 0 {
      RequirementsAreIgnored(a, b, inst, n - 1);
      SamePosition(a.stages, b.stages, After(a, inst, n - 1).currentStage);
    }
  }

  // ---------- the built-in definitions ----------

  function GatedPipeline(): Definition {
    Definition("gated-pipeline", [
      Stage("implement", [], [], "review"),
      Stage("review", ["monitoring", "coverage"], ["architecture", "security"], "merge"),
      Stage("merge", [], [], "release"),
      Stage("release", [], [], "cleanup"),
      Stage("cleanup", [], [], "")])
  }

  function CollaborativeHandoff(): Definition {
    Definition("collaborative-handoff", [
      Stage("implement", [], [], "checkpoint"),
      Stage("checkpoint", [], [], "handoff"),
      Stage("handoff", [], [], "continue"),
      Stage("continue", [], [], "complete"),
      Stage("complete", [], [], "")])
  }

  /** Each stage but the last names the one that follows it anyway. */
  predicate IsChain(stages: seq<Stage>) {
    forall i :: 0 <= i < |stages| ==> stages[i].nextStage == if i + 1 < |stages| then stages[i + 1].name else ""
  }

  /** A chain of distinct names is walked from end to end: after n calls the instance is at stage n. */
  lemma {:induction false} ChainIsWalked(def: Definition, inst: Instance, n: nat)
    requires def.stages != [] && IsChain(def.stages) && DistinctNames(def.stages)
    requires !inst.completed && inst.currentStage == def.stages[0].name
    requires n <= |def.stages|
    ensures After(def, inst, n)
      == if n < |def.stages| then inst.(currentStage := def.stages[n].name)
         else inst.(currentStage := def.stages[n - 1].name, completed := true)
  {
    if n != 0 {
      ChainIsWalked(def, inst, n - 1);
      assert FirstAt(def.stages, def.stages[n - 1].name) == n - 1;
    }
  }

  /** Both built-in workflows pass all five stages in order and complete with the fifth call, not before. */
  lemma BuiltinsComplete(def: Definition, inst: Instance, n: nat)
    requires def in {GatedPipeline(), CollaborativeHandoff()}
    requires !inst.completed && inst.currentStage == def.stages[0].name
    ensures After(def, inst, n).completed <==> n >= 5
    ensures n < 5 ==> After(def, inst, n).currentStage == def.stages[n].name
  {
    hide After, FirstAt, Advanced;
    assert IsChain(def.stages) && DistinctNames(def.stages);
    ChainIsWalked(def, inst, if n < 5 then n else 5);
    if n >= 5 {
      StaysCompleted(def, inst, 5, n);
    }
  }
}
