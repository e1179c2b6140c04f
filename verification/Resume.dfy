/** Resuming from checkpoints (engine.go, `CompletedSteps`): any number of interrupted runs, then
    what one clean run produces. */
module Resume {
  import opened Graphs
  import opened Steps
  import opened WorkflowDefinition
  import opened RunHistory
  import opened Engine
  import opened TaskFunctions

  /** The next run's seeds are what this one had as outputs. */
  lemma CheckpointGrounded(j: Job, before: Outputs, after: Outputs, limit: int, r: Result, h: History, ending: Ending)
    requires RunPromise(j, before, after, limit, r, h, ending)
    ensures Seeds(j.def, after) == r.outputs
  {
    hide Schedule, Greedy, Honest, EndsAs, OutputsOf, StatusOf, StartStatus;
    HistoryOutputs(j.def, Seeds(j.def, before), h, limit);
    SeedsAfter(j.def, before, r.outputs);
  }

  lemma SeedsAfter(def: Definition, before: Outputs, outputs: Outputs)
    requires Checkpointed(Seeds(def, before), outputs) && outputs.Keys <= StepIds(def)
    ensures Seeds(def, before + outputs) == outputs
  {
    forall x ensures x in Seeds(def, before + outputs) <==> x in outputs {
      if x in before && x in StepIds(def) { assert x in Seeds(def, before); }
    }
  }

  /** With every runner following one task function, the outputs of a complete run are determined:
      not by failures, interruptions, parallelism or order. */
  lemma CompleteRunsAgree(def: Definition, initial: Record, f: TaskFunction, a: Outputs, b: Outputs)
    requires ValidDefinition(def)
    requires Grounded(def, initial, f, a) && a.Keys == StepIds(def)
    requires Grounded(def, initial, f, b) && b.Keys == StepIds(def)
    ensures a == b
  {
    GroundedUnique(def, initial, f, a, b);
  }

  /** One attempt of the worker: its parallelism, the paused step it resumes (or the empty id), and
      the world it meets. */
  datatype Try = Try(cap: int, resumed: Id, world: World)

  /** Run again and again, seeded with what the earlier attempts completed, until one succeeds or
      they are used up. A world in which nothing goes wrong anywhere in the list is enough. */
  method RunWithRetries(def: Definition, initial: Record, tries: seq<Try>, ghost f: TaskFunction) returns (r: Result)
    requires |tries| > 0
    requires forall i :: 0 <= i < |tries| ==> Faithful(tries[i].world, def, initial, f)
    ensures r.err.Invalid? <==> !ValidDefinition(def)
    ensures !r.err.Invalid? ==> Grounded(def, initial, f, r.outputs)
    ensures r.err.NoError? ==> r.outputs.Keys == StepIds(def)
    ensures ValidDefinition(def) && (exists i :: 0 <= i < |tries| && Cooperative(tries[i].world, def, initial, f)) ==>
              r.err.NoError?
  {
    hide Faithful, Grounded, ValidDefinition, Seeds, Cooperative;
    var engine := new Engine(0);
    NothingSeeded(def, initial, f, engine.completed);
    r := Attempt(engine, def, initial, tries[0], f);
    for i := 1 to |tries|
      invariant fresh(engine) && Grounded(def, initial, f, Seeds(def, engine.completed))
      invariant r.err.Invalid? <==> !ValidDefinition(def)
      invariant !r.err.Invalid? ==> Grounded(def, initial, f, r.outputs)
      invariant r.err.NoError? ==> r.outputs.Keys == StepIds(def)
      invariant ValidDefinition(def) && !r.err.NoError? ==>
                  forall k :: 0 <= k < i ==> !Cooperative(tries[k].world, def, initial, f)
    {
      if r.err.NoError? { return; }
      r := Attempt(engine, def, initial, tries[i], f);
    }
  }

  lemma NothingSeeded(def: Definition, initial: Record, f: TaskFunction, completed: Outputs)
    ensures completed == map[] ==> Grounded(def, initial, f, Seeds(def, completed))
  {
  }

  /** One run on a grounded checkpoint leaves a grounded checkpoint, and succeeds if nothing goes wrong. */
  method Attempt(engine: Engine, def: Definition, initial: Record, a: Try, ghost f: TaskFunction) returns (r: Result)
    requires Faithful(a.world, def, initial, f) && Grounded(def, initial, f, Seeds(def, engine.completed))
    modifies engine
    ensures Grounded(def, initial, f, Seeds(def, engine.completed))
    ensures r.err.Invalid? <==> !ValidDefinition(def)
    ensures !r.err.Invalid? ==> Grounded(def, initial, f, r.outputs)
    ensures r.err.NoError? ==> r.outputs.Keys == StepIds(def)
    ensures ValidDefinition(def) && Cooperative(a.world, def, initial, f) ==> r.err.NoError?
  {
    hide RunPromise, Faithful, Grounded, ValidDefinition, Seeds, Cooperative;
    engine.maxParallel := a.cap;
    ghost var before, j := engine.completed, Job(def, initial, a.resumed, a.world);
    ghost var h, ending;
    if a.resumed != Id("") {
      r, h, ending := engine.Resume(def, initial, a.resumed, a.world);
    } else {
      r, h, ending := engine.Run(def, initial, a.world);
    }
    if !r.err.Invalid? {
      CheckpointGrounded(j, before, engine.completed, engine.maxParallel, r, h, ending);
      RunValues(j, f, before, engine.completed, engine.maxParallel, r, h, ending);
      SucceededComplete(j, before, engine.completed, engine.maxParallel, r, h, ending);
    }
  }

  lemma SucceededComplete(j: Job, before: Outputs, after: Outputs, limit: int, r: Result, h: History, ending: Ending)
    requires RunPromise(j, before, after, limit, r, h, ending)
    ensures r.err.NoError? ==> r.outputs.Keys == StepIds(j.def)
  {
    hide Kept, OutputsOf, FinalStatus;
  }

  /** The resume property: an interrupted and resumed execution that ends well has exactly the
      outputs of a clean run that ends well; and each ends well once it meets a world in which
      nothing goes wrong. */
  method ResumeEqualsCleanRun(def: Definition, initial: Record, tries: seq<Try>, clean: Try, ghost f: TaskFunction)
      returns (resumed: Result, once: Result)
    requires |tries| > 0 && Faithful(clean.world, def, initial, f)
    requires forall i :: 0 <= i < |tries| ==> Faithful(tries[i].world, def, initial, f)
    ensures resumed.err.NoError? && once.err.NoError? ==> resumed.outputs == once.outputs
    ensures ValidDefinition(def) && Cooperative(clean.world, def, initial, f) ==> once.err.NoError?
    ensures ValidDefinition(def) && (exists i :: 0 <= i < |tries| && Cooperative(tries[i].world, def, initial, f))
            ==> resumed.err.NoError?
  {
    hide Faithful, Grounded, ValidDefinition, Cooperative;
    resumed := RunWithRetries(def, initial, tries, f);
    var only := [clean];
    once := RunWithRetries(def, initial, only, f);
    assert only[0] == clean;
    if resumed.err.NoError? && once.err.NoError? {
      CompleteRunsAgree(def, initial, f, resumed.outputs, once.outputs);
    }
  }
}
