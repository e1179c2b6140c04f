/** server/internal/workflow/engine.go: definitions, their validation, and which steps are ready. */
module WorkflowDefinition {
  import opened Graphs
  import opened Steps
  import Kahn

  datatype Definition = Definition(steps: seq<StepDefinition>)

  datatype Status = Pending | Running | Success | Failed | Skipped | Paused | WaitingApproval
  type Statuses = map<Id, Status>

  datatype DefinitionError = MissingId | DuplicateId(id: Id) | UnknownDependency(step: Id, dep: Id) | CyclicGraph

  datatype RunError =
    | NoError
    | Invalid(reason: DefinitionError)
    | EventRejected
    | StepFailed(cause: StepError)
    | Incomplete

  datatype Result = Result(outputs: Outputs, status: Statuses, paused: bool, err: RunError)

  function Shape(def: Definition): (steps: seq<Step>)
    ensures |steps| == |def.steps|
    ensures forall i :: 0 <= i < |steps| ==> steps[i] == Step(def.steps[i].id, def.steps[i].dependsOn)
  {
    seq(|def.steps|, i requires 0 <= i < |def.steps| => Step(def.steps[i].id, def.steps[i].dependsOn))
  }

  function StepIds(def: Definition): set<Id> {
    Ids(Shape(def))
  }

  function Edges(def: Definition): Graph {
    ById(Shape(def))
  }

  /** What `validateDefinition` demands. */
  ghost predicate ValidDefinition(def: Definition) {
    && (forall i :: 0 <= i < |def.steps| ==> def.steps[i].id != Id(""))
    && DistinctIds(Shape(def)) && Resolved(Shape(def)) && Acyclic(Edges(def))
  }

  datatype Verdict = Accepted | Rejected(reason: DefinitionError)

  /** First loop: ids present and distinct. */
  method CheckIds(def: Definition) returns (v: Verdict, seen: set<Id>)
    ensures v.Accepted? <==>
              (forall i :: 0 <= i < |def.steps| ==> def.steps[i].id != Id("")) && DistinctIds(Shape(def))
    ensures v.Accepted? ==> seen == StepIds(def)
  {
    seen := {};
    ghost var steps := Shape(def);
    for i := 0 to |def.steps|
      invariant seen == Ids(steps[..i])
      invariant forall k :: 0 <= k < i ==> def.steps[k].id != Id("")
      invariant forall j, k :: 0 <= j < k < i ==> steps[j].id != steps[k].id
    {
      var id := def.steps[i].id;
      IdsPrefix(steps, i);
      if id == Id("") {
        return Rejected(MissingId), seen;
      }
      if id in seen {
        return Rejected(DuplicateId(id)), seen;
      }
      seen := seen + {id};
    }
    assert steps[..|steps|] == steps;
    v := Accepted;
  }

  /** Second loop: every dependency was seen. */
  method CheckDependencies(def: Definition, seen: set<Id>) returns (v: Verdict)
    requires seen == StepIds(def)
    ensures v.Accepted? <==> Resolved(Shape(def))
  {
    for i := 0 to |def.steps|
      invariant forall k :: 0 <= k < i ==> forall d :: d in Shape(def)[k].dependsOn ==> d in seen
    {
      var deps := def.steps[i].dependsOn;
      for j := 0 to |deps|
        invariant forall k :: 0 <= k < j ==> deps[k] in seen
      {
        if deps[j] !in seen {
          assert deps[j] in Shape(def)[i].dependsOn;
          return Rejected(UnknownDependency(def.steps[i].id, deps[j]));
        }
      }
    }
    v := Accepted;
  }

  method ValidateDefinition(def: Definition) returns (v: Verdict)
    ensures v.Accepted? <==> ValidDefinition(def)
  {
    var seen;
    v, seen := CheckIds(def);
    if v.Rejected? { return; }
    v := CheckDependencies(def, seen);
    if v.Rejected? { return; }
    DistinctGraphs(Shape(def));
    var sorted := Kahn.ValidateDAG(Shape(def));
    v := if sorted.Sorted? then Accepted else Rejected(CyclicGraph);
  }

  lemma IdsPrefix(steps: seq<Step>, i: nat)
    requires i < |steps|
    ensures Ids(steps[..i + 1]) == Ids(steps[..i]) + {steps[i].id}
    ensures forall x :: x in Ids(steps[..i]) <==> exists k :: 0 <= k < i && steps[k].id == x
  {
    IdsSnoc(steps[..i + 1]);
    assert steps[..i + 1][..i] == steps[..i];
    forall x ensures x in Ids(steps[..i]) <==> exists k :: 0 <= k < i && steps[k].id == x {
      if k :| 0 <= k < i && steps[k].id == x { assert steps[..i][k] == steps[k]; }
    }
  }

  predicate Finished(status: Statuses, x: Id) {
    x in status && (status[x] == Success || status[x] == Skipped)
  }

  predicate IsReady(step: StepDefinition, status: Statuses) {
    && step.id in status && status[step.id] == Pending
    && forall d :: d in step.dependsOn ==> Finished(status, d)
  }

  /** The pending steps whose dependencies are finished, in definition order. */
  function Ready(steps: seq<StepDefinition>, status: Statuses): seq<StepDefinition> {
    if steps == [] then []
    else
      var n := |steps| - 1;
      Ready(steps[..n], status) + if IsReady(steps[n], status) then [steps[n]] else []
  }

  method ReadySteps(steps: seq<StepDefinition>, status: Statuses) returns (ready: seq<StepDefinition>)
    ensures ready == Ready(steps, status)
  {
    ready := [];
    for i := 0 to |steps|
      invariant ready == Ready(steps[..i], status)
    {
      var step := steps[i];
      assert steps[..i + 1][..i] == steps[..i];
      if step.id in status && status[step.id] == Pending {
        var ok := true;
        for j := 0 to |step.dependsOn|
          invariant ok <==> forall k :: 0 <= k < j ==> Finished(status, step.dependsOn[k])
        {
          if !Finished(status, step.dependsOn[j]) {
            ok := false;
            break;
          }
        }
        if ok {
          ready := ready + [step];
        }
      }
    }
    assert steps[..|steps|] == steps;
  }

  lemma {:induction false} ReadyMembers(steps: seq<StepDefinition>, status: Statuses)
    ensures forall s :: s in Ready(steps, status) <==> s in steps && IsReady(s, status)
  {
    if steps != [] {
      var n := |steps| - 1;
      ReadyMembers(steps[..n], status);
      assert steps == steps[..n] + [steps[n]];
    }
  }

  function IdsOf(steps: seq<StepDefinition>): (ids: seq<Id>)
    ensures |ids| == |steps| && forall i :: 0 <= i < |ids| ==> ids[i] == steps[i].id
  {
    seq(|steps|, i requires 0 <= i < |steps| => steps[i].id)
  }

  lemma {:induction false} ReadyDistinct(steps: seq<StepDefinition>, status: Statuses)
    requires forall i, j :: 0 <= i < j < |steps| ==> steps[i].id != steps[j].id
    ensures NoRepeats(IdsOf(Ready(steps, status)))
  {
    if steps != [] {
      var n := |steps| - 1;
      var before := Ready(steps[..n], status);
      ReadyDistinct(steps[..n], status);
      ReadyMembers(steps[..n], status);
      forall i | 0 <= i < |before| ensures before[i].id != steps[n].id {
        assert before[i] in before;
        var k :| 0 <= k < n && steps[..n][k] == before[i];
        assert steps[k] == before[i];
      }
    }
  }

  /** No step is ready only when every step has succeeded: an acyclic graph cannot stall. */
  lemma NoStall(def: Definition, status: Statuses)
    requires ValidDefinition(def) && status.Keys == StepIds(def)
    requires forall x :: x in status ==> status[x] == Pending || status[x] == Success
    requires Ready(def.steps, status) == []
    ensures forall x :: x in status ==> status[x] == Success
  {
    var g := Edges(def);
    var stuck := set x | x in status && status[x] == Pending;
    ReadyMembers(def.steps, status);
    forall y | y in stuck ensures HasDepIn(g, y, stuck) {
      var i := ByIdWitness(Shape(def), y);
      var d := BlockedBy(def, status, i);
      assert d in g[y] && d in stuck;
    }
    if stuck != {} {
      StuckSetHasCycle(g, stuck);
    }
    assert forall x :: x in status ==> x !in stuck;
  }

  lemma BlockedBy(def: Definition, status: Statuses, i: nat) returns (d: Id)
    requires Resolved(Shape(def)) && status.Keys == StepIds(def)
    requires i < |def.steps| && !IsReady(def.steps[i], status)
    requires def.steps[i].id in status && status[def.steps[i].id] == Pending
    ensures d in Shape(def)[i].dependsOn && d in status && !Finished(status, d)
  {
    d :| d in def.steps[i].dependsOn && !Finished(status, d);
    assert d in Shape(def)[i].dependsOn;
  }
}
