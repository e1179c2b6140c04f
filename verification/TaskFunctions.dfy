/** What a run computes when every step is a function of what it depends on. */
module TaskFunctions {
  import opened Graphs
  import opened Steps
  import opened WorkflowDefinition
  import opened RunHistory
  import opened Engine

  /** A task function: the output of a step from its dependencies' outputs and the initial input. */
  type TaskFunction = (Id, Outputs, Record) -> Record

  function Restrict(outputs: Outputs, deps: seq<Id>): Outputs {
    map d | d in deps && d in outputs :: outputs[d]
  }

  /** Whenever a step of the definition succeeds, its output is the task function's value on its
      dependencies; when it fails is left open. */
  ghost predicate Faithful(w: World, def: Definition, initial: Record, f: TaskFunction) {
    forall t, i, outputs ::
      0 <= i < |def.steps| && RunStep(w, t, def.steps[i], initial, outputs).Done?
      ==> RunStep(w, t, def.steps[i], initial, outputs).output
          == f(def.steps[i].id, Restrict(outputs, def.steps[i].dependsOn), initial)
  }

  /** The outputs are closed under dependencies and each is the task function's value. */
  ghost predicate Grounded(def: Definition, initial: Record, f: TaskFunction, outputs: Outputs) {
    forall x :: x in outputs ==> GroundedAt(def, initial, f, outputs, x)
  }

  ghost predicate GroundedAt(def: Definition, initial: Record, f: TaskFunction, outputs: Outputs, x: Id)
    requires x in outputs
  {
    && x in StepIds(def)
    && (forall d :: d in Deps(Edges(def), x) ==> d in outputs)
    && outputs[x] == f(x, Restrict(outputs, Deps(Edges(def), x)), initial)
  }

  lemma RestrictSame(a: Outputs, b: Outputs, deps: seq<Id>)
    requires forall d :: d in deps ==> d in a && d in b && a[d] == b[d]
    ensures Restrict(a, deps) == Restrict(b, deps)
  {
  }

  ghost predicate Differs(a: Outputs, b: Outputs, x: Id) {
    x in a && x in b && a[x] != b[x]
  }

  /** Two grounded tables that differ at a step differ at one of its dependencies. */
  lemma DifferenceSpreads(def: Definition, initial: Record, f: TaskFunction, a: Outputs, b: Outputs, y: Id)
      returns (d: Id)
    requires Grounded(def, initial, f, a) && Grounded(def, initial, f, b) && Differs(a, b, y)
    ensures d in Deps(Edges(def), y) && Differs(a, b, d)
  {
    var deps := Deps(Edges(def), y);
    assert GroundedAt(def, initial, f, a, y) && GroundedAt(def, initial, f, b, y);
    if forall d :: d in deps ==> !Differs(a, b, d) {
      RestrictSame(a, b, deps);
    }
    d :| d in deps && Differs(a, b, d);
  }

  /** Dependencies determine outputs: two grounded tables agree wherever both are defined. */
  lemma GroundedUnique(def: Definition, initial: Record, f: TaskFunction, a: Outputs, b: Outputs)
    requires Acyclic(Edges(def)) && Grounded(def, initial, f, a) && Grounded(def, initial, f, b)
    ensures forall x :: x in a && x in b ==> a[x] == b[x]
  {
    var g := Edges(def);
    var stuck := set x | x in a && Differs(a, b, x);
    forall y | y in stuck ensures HasDepIn(g, y, stuck) {
      var d := DifferenceSpreads(def, initial, f, a, b, y);
      assert d in stuck;
    }
    if x :| x in a && x in b && a[x] != b[x] {
      assert x in stuck;
      StuckSetHasCycle(g, stuck);
    }
  }

  /** A started step ran on the outputs there were, which hold all its dependencies'. */
  lemma ItemRan(j: Job, base: Outputs, items: seq<Item>, t: nat, limit: int, item: Item) returns (i: nat, u: nat)
    requires ValidDefinition(j.def) && MayStart(j.def, base.Keys, items, limit) && HonestLaunch(j, base, items, t)
    requires item in items
    ensures i < |j.def.steps| && j.def.steps[i] == item.step
            && item.outcome == RunStep(j.world, u, item.step, j.initial, base)
    ensures Deps(Edges(j.def), item.step.id) == item.step.dependsOn
    ensures forall d :: d in item.step.dependsOn ==> d in base
  {
    hide HonestLaunch, Acyclic;
    var n :| 0 <= n < |items| && items[n] == item;
    u := LaunchedAt(j, base, items, t, n);
    i :| 0 <= i < |j.def.steps| && j.def.steps[i] == item.step;
    DistinctLookup(j.def, i);
  }

  /** Outputs that steps really produced are the task function's values, if the seeds were and the
      runners follow it. */
  lemma {:induction false} GenuineGrounded(j: Job, f: TaskFunction, seeds: Outputs, h: History, ending: Ending,
                                           limit: int)
    requires ValidDefinition(j.def) && Faithful(j.world, j.def, j.initial, f) && Grounded(j.def, j.initial, f, seeds)
    requires Schedule(j.def, seeds.Keys, h, limit) && Honest(j, seeds, h, ending)
    ensures Grounded(j.def, j.initial, f, OutputsOf(seeds, h))
  {
    hide ValidDefinition, Faithful, Grounded, HonestLaunch, HonestReads, MayStart, AllDone, Collected, StepIds;
    if h.Then? {
      var base := OutputsOf(seeds, h.earlier);
      GenuineGrounded(j, f, seeds, h.earlier, Quiet, limit);
      GroundedWithin(j.def, j.initial, f, seeds);
      HistoryOutputs(j.def, seeds, h, limit);
      BatchGrounded(j, f, base, h.items, h.read, Moments(h.earlier, j.resumed), limit);
    }
  }

  lemma GroundedWithin(def: Definition, initial: Record, f: TaskFunction, outputs: Outputs)
    requires Grounded(def, initial, f, outputs)
    ensures outputs.Keys <= StepIds(def)
  {
    forall x | x in outputs ensures x in StepIds(def) { assert GroundedAt(def, initial, f, outputs, x); }
  }

  lemma BatchGrounded(j: Job, f: TaskFunction, base: Outputs, items: seq<Item>, read: seq<Item>, t: nat, limit: int)
    requires ValidDefinition(j.def) && Faithful(j.world, j.def, j.initial, f) && Grounded(j.def, j.initial, f, base)
    requires MayStart(j.def, base.Keys, items, limit) && multiset(read) <= multiset(items)
    requires HonestLaunch(j, base, items, t) && Checkpointed(base, Collected(base, read))
    ensures Grounded(j.def, j.initial, f, Collected(base, read))
  {
    hide ValidDefinition, Faithful, HonestLaunch, MayStart, Collected;
    var outputs := Collected(base, read);
    ReadWasStarted(items, read);
    forall x | x in outputs ensures GroundedAt(j.def, j.initial, f, outputs, x) {
      CollectedAt(base, read, x);
      var deps := Deps(Edges(j.def), x);
      if x in base {
        assert GroundedAt(j.def, j.initial, f, base, x);
      } else {
        var k :| 0 <= k < |read| && read[k].step.id == x && read[k].outcome == Done(outputs[x]);
        ItemGrounded(j, f, base, items, t, limit, read[k]);
      }
      RestrictSame(base, outputs, deps);
    }
  }

  lemma ItemGrounded(j: Job, f: TaskFunction, base: Outputs, items: seq<Item>, t: nat, limit: int, item: Item)
    requires ValidDefinition(j.def) && Faithful(j.world, j.def, j.initial, f)
    requires MayStart(j.def, base.Keys, items, limit) && HonestLaunch(j, base, items, t)
    requires item in items && item.outcome.Done?
    ensures item.step.id in StepIds(j.def) && forall d :: d in Deps(Edges(j.def), item.step.id) ==> d in base
    ensures item.outcome.output == f(item.step.id, Restrict(base, Deps(Edges(j.def), item.step.id)), j.initial)
  {
    hide ValidDefinition, HonestLaunch, RunStep;
    var i, u := ItemRan(j, base, items, t, limit, item);
    IdOf(items, item);
    StartedIn(j.def, base.Keys, items, limit, item.step.id);
  }

  /** A world in which nothing goes wrong: every announcement is accepted, and a step that has its
      dependencies' values succeeds. */
  ghost predicate Cooperative(w: World, def: Definition, initial: Record, f: TaskFunction) {
    && (forall t, x :: w.accepts(t, x))
    && (forall i, t, outputs :: 0 <= i < |def.steps| && Grounded(def, initial, f, outputs)
          && (forall d :: d in def.steps[i].dependsOn ==> d in outputs)
          ==> RunStep(w, t, def.steps[i], initial, outputs).Done?)
  }

  /** What a run returns under a task function: its values, and success when nothing goes wrong. */
  lemma RunValues(j: Job, f: TaskFunction, before: Outputs, after: Outputs, limit: int, r: Result, h: History,
                  ending: Ending)
    requires ValidDefinition(j.def) && RunPromise(j, before, after, limit, r, h, ending)
    requires Faithful(j.world, j.def, j.initial, f) && Grounded(j.def, j.initial, f, Seeds(j.def, before))
    ensures Grounded(j.def, j.initial, f, r.outputs)
    ensures Cooperative(j.world, j.def, j.initial, f) ==> r.err.NoError?
  {
    hide ValidDefinition, Faithful, Grounded, Schedule, Greedy, Honest, EndsAs, Seeds, OutputsOf, StatusOf,
         StartStatus, Cooperative;
    var seeds := Seeds(j.def, before);
    GenuineGrounded(j, f, seeds, h, ending, limit);
    if Cooperative(j.world, j.def, j.initial, f) { NothingWrong(j, f, seeds, h, ending, limit); }
  }

  lemma NothingWrong(j: Job, f: TaskFunction, seeds: Outputs, h: History, ending: Ending, limit: int)
    requires ValidDefinition(j.def) && Kept(j, seeds, h, ending, limit) && Cooperative(j.world, j.def, j.initial, f)
    requires Faithful(j.world, j.def, j.initial, f) && Grounded(j.def, j.initial, f, seeds)
    ensures ErrorOf(h, ending).NoError?
  {
    hide ValidDefinition, Faithful, Grounded, HonestLaunch, MayStart, MayStartOne, AllDone, OutputsOf, Greedy;
    NothingRefused(j, seeds, h, ending, limit);
    if h.Then? {
      GenuineGrounded(j, f, seeds, h.earlier, Quiet, limit);
      GroundedWithin(j.def, j.initial, f, seeds);
      HistoryOutputs(j.def, seeds, h, limit);
      ReadWasStarted(h.items, h.read);
      forall i | 0 <= i < |h.read| ensures h.read[i].outcome.Done? {
        NeverBreaks(j, f, OutputsOf(seeds, h.earlier), h.items, Moments(h.earlier, j.resumed), limit, h.read[i]);
      }
      NoErrorAllDone(h.read) by { assert AllDone(h.read) by { AllDoneIs(h.read); } }
    }
  }

  lemma AllDoneIs(read: seq<Item>)
    requires forall i :: 0 <= i < |read| ==> read[i].outcome.Done?
    ensures AllDone(read)
  {
  }

  lemma NothingRefused(j: Job, seeds: Outputs, h: History, ending: Ending, limit: int)
    requires EndsAs(j.def, seeds.Keys, h, ending) && Honest(j, seeds, h, ending) && forall t, x :: j.world.accepts(t, x)
    ensures ending.Quiet?
  {
    hide HonestLaunch, OutputsOf, Moments, LaunchCalls, AllDone, MayStartOne;
    if ending.FinishRefused? { RefusedRead(j, seeds, h, ending); }
  }

  lemma RefusedRead(j: Job, seeds: Outputs, h: History, ending: Ending)
    requires h.Then? && ending.FinishRefused? && Honest(j, seeds, h, ending)
    ensures exists t, x :: !j.world.accepts(t, x)
  {
    hide HonestLaunch, OutputsOf, Moments, LaunchCalls;
    var t := Moments(h.earlier, j.resumed) + LaunchCalls(h.items, j.resumed) + |h.read|;
    assert !j.world.accepts(t, h.read[|h.read| - 1].step.id);
  }

  lemma NeverBreaks(j: Job, f: TaskFunction, base: Outputs, items: seq<Item>, t: nat, limit: int, item: Item)
    requires ValidDefinition(j.def) && Cooperative(j.world, j.def, j.initial, f) && Grounded(j.def, j.initial, f, base)
    requires MayStart(j.def, base.Keys, items, limit) && HonestLaunch(j, base, items, t) && item in items
    ensures item.outcome.Done?
  {
    hide ValidDefinition, Grounded, HonestLaunch, MayStart, RunStep;
    var i, u := ItemRan(j, base, items, t, limit, item);
  }
}
