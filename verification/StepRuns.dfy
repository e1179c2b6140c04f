/** server/internal/workflow/engine.go, `runStep` and `readySteps`, seen from a run: what each logged
    run of a step came from, and which steps a batch takes. */
module StepRuns {
  import opened Graphs
  import opened Steps
  import opened WorkflowDefinition
  import opened RunHistory
  import opened Engine
  import opened CallLog

  /** Dependency `i` is the last one that supplies the field. */
  ghost predicate LastSupplier(dependsOn: seq<Id>, outputs: Outputs, name: string, i: int) {
    && 0 <= i < |dependsOn| && Supplies(outputs, dependsOn[i], name)
    && forall k :: i < k < |dependsOn| ==> !Supplies(outputs, dependsOn[k], name)
  }

  ghost predicate Unsupplied(dependsOn: seq<Id>, outputs: Outputs, name: string) {
    forall k :: 0 <= k < |dependsOn| ==> !Supplies(outputs, dependsOn[k], name)
  }

  /** A field of the input schema is not met: the last dependency that supplies it gives a value of the
      wrong type; or none supplies it, and the initial input has a wrong type there, or lacks it
      although it is required. */
  ghost predicate FieldFails(step: StepDefinition, outputs: Outputs, initial: Record, name: string) {
    && name in step.inputSchema
    && var field := step.inputSchema[name];
       || (exists i :: LastSupplier(step.dependsOn, outputs, name, i)
                       && !MatchesType(outputs[step.dependsOn[i]].fields[name], field.kind))
       || (Unsupplied(step.dependsOn, outputs, name)
           && if name in initial.fields then !MatchesType(initial.fields[name], field.kind) else field.required)
  }

  ghost predicate InputFails(step: StepDefinition, outputs: Outputs, initial: Record) {
    exists name :: FieldFails(step, outputs, initial, name)
  }

  lemma {:induction false} SupplierExists(dependsOn: seq<Id>, outputs: Outputs, name: string) returns (i: int)
    ensures Unsupplied(dependsOn, outputs, name) || LastSupplier(dependsOn, outputs, name, i)
  {
    if dependsOn == [] {
      i := 0;
    } else {
      var n := |dependsOn| - 1;
      if Supplies(outputs, dependsOn[n], name) {
        i := n;
      } else {
        i := SupplierExists(dependsOn[..n], outputs, name);
      }
    }
  }

  lemma FieldExactly(step: StepDefinition, outputs: Outputs, initial: Record, name: string)
    requires name in step.inputSchema
    ensures FieldFails(step, outputs, initial, name) <==>
              var fields := Aggregated(step.dependsOn, outputs, initial).fields;
              if name in fields then !MatchesType(fields[name], step.inputSchema[name].kind)
              else step.inputSchema[name].required
  {
    hide Aggregated, MatchesType;
    var i := SupplierExists(step.dependsOn, outputs, name);
    if Unsupplied(step.dependsOn, outputs, name) {
      InitialShowsThrough(step.dependsOn, outputs, initial, name);
    } else {
      LastSupplierWins(step.dependsOn, outputs, initial, name, i);
    }
  }

  lemma InputFailsExactly(step: StepDefinition, outputs: Outputs, initial: Record)
    ensures InputFails(step, outputs, initial) <==>
              !Validates(step.inputSchema, Aggregated(step.dependsOn, outputs, initial))
  {
    hide FieldFails, Aggregated, MatchesType;
    forall name | name in step.inputSchema
      ensures FieldFails(step, outputs, initial, name) <==>
                var fields := Aggregated(step.dependsOn, outputs, initial).fields;
                if name in fields then !MatchesType(fields[name], step.inputSchema[name].kind)
                else step.inputSchema[name].required
    {
      FieldExactly(step, outputs, initial, name);
    }
    forall name | FieldFails(step, outputs, initial, name) ensures name in step.inputSchema {
      OfTheSchema(step, outputs, initial, name);
    }
  }

  lemma OfTheSchema(step: StepDefinition, outputs: Outputs, initial: Record, name: string)
    requires FieldFails(step, outputs, initial, name)
    ensures name in step.inputSchema
  {
  }

  /** The output has every required field, and no field of a wrong type. */
  ghost predicate Fits(schema: Schema, out: Record) {
    && (forall name :: name in schema && schema[name].required ==> name in out.fields)
    && (forall name :: name in schema && name in out.fields ==> MatchesType(out.fields[name], schema[name].kind))
  }

  /** What a step that was run at moment `t` on these outputs must have returned. */
  ghost predicate RanAs(j: Job, t: nat, step: StepDefinition, base: Outputs, outcome: StepOutcome) {
    && (outcome == Broke(NoRunner) <==> !step.hasRunner)
    && (outcome == Broke(InputInvalid) <==> step.hasRunner && InputFails(step, base, j.initial))
    && (step.hasRunner && !InputFails(step, base, j.initial) ==>
          match j.world.run(t, step.id, base, j.initial)
          case Raised(e) => outcome == Broke(FromRunner(e))
          case Returned(out) => outcome == if Fits(step.outputSchema, out) then Done(out) else Broke(OutputInvalid)
          case ReturnedNil =>
            outcome == if Fits(step.outputSchema, Record(map[])) then Done(Record(map[])) else Broke(OutputInvalid))
  }

  lemma RunStepTold(j: Job, t: nat, step: StepDefinition, base: Outputs)
    ensures RanAs(j, t, step, base, RunStep(j.world, t, step, j.initial, base))
  {
    hide Aggregated, MatchesType, InputFails;
    InputFailsExactly(step, base, j.initial);
    forall out ensures Validates(step.outputSchema, out) <==> Fits(step.outputSchema, out) {}
  }

  /** In every run, each logged run of a step came about so: from the outputs its batch was started
      with, the initial input, and the runner's answer at its own moment. */
  lemma EveryRunTold(j: Job, seeds: Outputs, h: History, ending: Ending, k: nat)
    requires Honest(j, seeds, h, ending) && k < |Calls(seeds, h, ending, j.resumed)|
    requires Calls(seeds, h, ending, j.resumed)[k].Ran?
    ensures var c := Calls(seeds, h, ending, j.resumed)[k]; RanAs(j, k + 1, c.item.step, c.base, c.item.outcome)
  {
    hide Honest, Calls, RunStep, RanAs;
    HonestCalls(j, seeds, h, ending);
    var c := Calls(seeds, h, ending, j.resumed)[k];
    assert TrueCall(j, c, 0 + 1 + k);
    RunStepTold(j, k + 1, c.item.step, c.base);
  }

  /** The outputs a run's log shows for a step hold those of all its dependencies, unchanged to the
      end of the run. */
  lemma {:induction false} BaseHasDependencies(j: Job, seeds: Outputs, h: History, ending: Ending, limit: int, k: nat)
    requires ValidDefinition(j.def) && Kept(j, seeds, h, ending, limit) && seeds.Keys <= StepIds(j.def)
    requires k < |Calls(seeds, h, ending, j.resumed)| && Calls(seeds, h, ending, j.resumed)[k].Ran?
    ensures var c := Calls(seeds, h, ending, j.resumed)[k];
            && c.item.step in j.def.steps && Checkpointed(c.base, OutputsOf(seeds, h))
            && forall d :: d in c.item.step.dependsOn ==> d in c.base
  {
    hide Honest, ValidDefinition, OutputsOf, HonestLaunch, Greedy, MayStart, AllDone, LaunchLog, ReadLog, EndsAs;
    if h.Then? {
      var earlier := Calls(seeds, h.earlier, Quiet, j.resumed);
      HistoryOutputs(j.def, seeds, h, limit);
      if k < |earlier| {
        EarlierKept(j, seeds, h, ending, limit);
        BaseHasDependencies(j, seeds, h.earlier, Quiet, limit, k);
        assert Calls(seeds, h, ending, j.resumed)[k] == earlier[k];
      } else {
        var n := RanIsItem(seeds, h, ending, j.resumed, k);
        ItemReady(j.def, OutputsOf(seeds, h.earlier).Keys, h.items, limit, n);
      }
    }
  }

  lemma EarlierKept(j: Job, seeds: Outputs, h: History, ending: Ending, limit: int)
    requires h.Then? && Kept(j, seeds, h, ending, limit)
    ensures Kept(j, seeds, h.earlier, Quiet, limit)
  {
    hide HonestLaunch, OutputsOf, MayStart, StartStatus, StatusOf;
  }

  /** A run in the last batch's part of the log is one of its items. */
  lemma RanIsItem(seeds: Outputs, h: History, ending: Ending, resumed: Id, k: nat) returns (n: nat)
    requires h.Then? && |Calls(seeds, h.earlier, Quiet, resumed)| <= k < |Calls(seeds, h, ending, resumed)|
    requires Calls(seeds, h, ending, resumed)[k].Ran?
    ensures n < |h.items| && Calls(seeds, h, ending, resumed)[k] == Ran(h.items[n], OutputsOf(seeds, h.earlier))
  {
    hide OutputsOf, LaunchLog;
    n := LaunchIsItem(h.items, OutputsOf(seeds, h.earlier), resumed, k - |Calls(seeds, h.earlier, Quiet, resumed)|);
  }

  lemma {:induction false} LaunchIsItem(items: seq<Item>, base: Outputs, resumed: Id, k: nat) returns (n: nat)
    ensures k < |LaunchLog(items, base, resumed)| && LaunchLog(items, base, resumed)[k].Ran? ==>
              n < |items| && LaunchLog(items, base, resumed)[k] == Ran(items[n], base)
  {
    n := 0;
    if items != [] {
      var last := |items| - 1;
      if k < |LaunchLog(items[..last], base, resumed)| {
        n := LaunchIsItem(items[..last], base, resumed, k);
      } else {
        n := last;
      }
    }
  }

  lemma ItemReady(def: Definition, before: set<Id>, items: seq<Item>, limit: int, n: nat)
    requires ValidDefinition(def) && MayStart(def, before, items, limit) && n < |items|
    ensures items[n].step in def.steps && forall d :: d in items[n].step.dependsOn ==> d in before
  {
    hide Acyclic, MayStartOne;
    assert items[n].step in def.steps && MayStartOne(def, before, items[n].step.id);
    var i :| 0 <= i < |def.steps| && def.steps[i] == items[n].step;
    DistinctLookup(def, i);
    DepsBefore(def, before, items[n].step.id);
  }

  lemma DepsBefore(def: Definition, before: set<Id>, x: Id)
    requires MayStartOne(def, before, x)
    ensures forall d :: d in Deps(Edges(def), x) ==> d in before
  {
  }

  /** A step that waits, with every dependency finished. */
  ghost predicate CouldStart(def: Definition, status: Statuses, a: int) {
    && 0 <= a < |def.steps| && def.steps[a].id in status && status[def.steps[a].id] == Pending
    && forall d :: d in def.steps[a].dependsOn ==> d in status && status[d] == Success
  }

  /** Which of the steps that could start a batch takes: those that come first in the definition. */
  lemma EarlierStepsFirst(j: Job, seeds: Outputs, h: History, ending: Ending, limit: int, a: int, b: int)
    requires h.Then? && Kept(j, seeds, h, ending, limit) && limit > 0
    requires var status := StatusOf(StartStatus(j.def, seeds), h.earlier);
             0 <= a < b && CouldStart(j.def, status, a) && b < |j.def.steps|
    requires exists i :: 0 <= i < |h.items| && h.items[i].step == j.def.steps[b]
    requires ValidDefinition(j.def)
    ensures exists i :: 0 <= i < |h.items| && h.items[i].step == j.def.steps[a]
  {
    hide Honest, Schedule, StatusOf, StartStatus, EndsAs, Acyclic;
    var status := StatusOf(StartStatus(j.def, seeds), h.earlier);
    var ready := Ready(j.def.steps, status);
    var i :| 0 <= i < |h.items| && h.items[i].step == j.def.steps[b];
    assert StepsOf(h.items)[i] == ready[i];
    StepsDiffer(j.def);
    var k := ReadyInOrder(j.def.steps, status, a, b, i);
    assert StepsOf(h.items)[k] == ready[k];
  }

  lemma StepsDiffer(def: Definition)
    requires DistinctIds(Shape(def))
    ensures forall i, j :: 0 <= i < j < |def.steps| ==> def.steps[i].id != def.steps[j].id
  {
    forall i, j | 0 <= i < j < |def.steps| ensures def.steps[i].id != def.steps[j].id {
      assert Shape(def)[i].id != Shape(def)[j].id;
    }
  }

  lemma {:induction false} ReadyInOrder(steps: seq<StepDefinition>, status: Statuses, a: nat, b: nat, i: nat)
      returns (k: nat)
    requires forall x, y :: 0 <= x < y < |steps| ==> steps[x].id != steps[y].id
    requires a < b < |steps| && IsReady(steps[a], status)
    requires i < |Ready(steps, status)| && Ready(steps, status)[i] == steps[b]
    ensures k < i && Ready(steps, status)[k] == steps[a]
  {
    var n := |steps| - 1;
    var before := Ready(steps[..n], status);
    ReadyMembers(steps[..n], status);
    EarlierDiffer(steps, status);
    assert b < n ==> steps[b].id != steps[n].id;
    if b == n {
      assert steps[..n][a] == steps[a];
      k :| 0 <= k < |before| && before[k] == steps[a];
    } else {
      k := ReadyInOrder(steps[..n], status, a, b, i);
    }
  }

  lemma EarlierDiffer(steps: seq<StepDefinition>, status: Statuses)
    requires steps != [] && forall x, y :: 0 <= x < y < |steps| ==> steps[x].id != steps[y].id
    ensures var n := |steps| - 1; forall s :: s in Ready(steps[..n], status) ==> s != steps[n]
  {
    ReadyMembers(steps[..|steps| - 1], status);
  }

  /** And a batch leaves out a step that could start only when the cap is reached or an announcement
      stopped it. */
  lemma NoneLeftOut(j: Job, seeds: Outputs, h: History, ending: Ending, limit: int, a: int)
    requires h.Then? && Kept(j, seeds, h, ending, limit) && limit > 0
    requires CouldStart(j.def, StatusOf(StartStatus(j.def, seeds), h.earlier), a)
    requires |h.items| < limit && (ending.StartRefused? ==> h.read != [])
    ensures exists i :: 0 <= i < |h.items| && h.items[i].step == j.def.steps[a]
  {
    hide Honest, Schedule, StatusOf, StartStatus, EndsAs;
    var status := StatusOf(StartStatus(j.def, seeds), h.earlier);
    ReadyMembers(j.def.steps, status);
    assert j.def.steps[a] in Ready(j.def.steps, status);
    var k :| 0 <= k < |Ready(j.def.steps, status)| && Ready(j.def.steps, status)[k] == j.def.steps[a];
    assert StepsOf(h.items)[k] == j.def.steps[a];
  }
}
