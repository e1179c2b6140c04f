/** server/internal/workflow/engine.go: `runInternal`, the batch scheduler. */
module Engine {
  import opened Graphs
  import opened Steps
  import opened WorkflowDefinition
  import opened RunHistory

  /** What a batch leaves behind. */
  datatype Reading = Reading(status: Statuses, outputs: Outputs, paused: bool, err: RunError)

  /** The launching loop: marks steps running, announces them, and starts them; a rejected
      announcement stops it. */
  method Launch(j: Job, batch: seq<StepDefinition>, t0: nat, status0: Statuses, outputs: Outputs)
      returns (status: Statuses, items: seq<Item>, t: nat, refused: bool)
    ensures StepsOf(items) <= batch && HonestLaunch(j, outputs, items, t0)
    ensures refused <==> |items| < |batch|
    ensures refused ==> batch[|items|].id != j.resumed && !j.world.accepts(t, batch[|items|].id)
    ensures t == t0 + LaunchCalls(items, j.resumed) + if refused then 1 else 0
    ensures status == WithEnding(MarkRunning(status0, items),
                                 if refused then StartRefused(batch[|items|].id) else Quiet)
  {
    hide HonestLaunch, LaunchCalls, MarkRunning, RunStep;
    status, items, t := status0, [], t0;
    LaunchNone(j, outputs, t0, status0);
    for i := 0 to |batch|
      invariant |items| == i && StepsOf(items) <= batch && HonestLaunch(j, outputs, items, t0)
      invariant t == t0 + LaunchCalls(items, j.resumed)
      invariant status == MarkRunning(status0, items)
    {
      var step := batch[i];
      status := status[step.id := Running];
      if step.id != j.resumed {
        t := t + 1;
        if !j.world.accepts(t, step.id) {
          refused := true;
          return;
        }
      }
      t := t + 1;
      var item := Item(step, RunStep(j.world, t, step, j.initial, outputs));
      LaunchOne(j, outputs, items, item, t0, status0);
      items := items + [item];
    }
    refused := false;
  }

  lemma LaunchNone(j: Job, base: Outputs, t: nat, status: Statuses)
    ensures HonestLaunch(j, base, [], t) && LaunchCalls([], j.resumed) == 0 && MarkRunning(status, []) == status
  {
  }

  lemma LaunchOne(j: Job, base: Outputs, items: seq<Item>, item: Item, t: nat, status: Statuses)
    requires HonestLaunch(j, base, items, t) && HonestStart(j, base, item, t + LaunchCalls(items, j.resumed))
    ensures HonestLaunch(j, base, items + [item], t)
    ensures LaunchCalls(items + [item], j.resumed)
            == LaunchCalls(items, j.resumed) + if item.step.id == j.resumed then 1 else 2
    ensures MarkRunning(status, items + [item]) == MarkRunning(status, items)[item.step.id := Running]
  {
    hide RunStep, HonestStart;
    assert (items + [item])[..|items|] == items;
  }

  /** How a batch went: what was started and read, from moment `t` on, and how it ended. */
  ghost predicate Played(j: Job, base: Outputs, batch: seq<StepDefinition>, t: nat, items: seq<Item>, read: seq<Item>,
                         ending: Ending) {
    && StepsOf(items) <= batch && multiset(read) <= multiset(items)
    && HonestLaunch(j, base, items, t)
    && HonestReads(j.world, read, t + LaunchCalls(items, j.resumed), ending.FinishRefused?)
    && (ending.Quiet? ==> multiset(read) == multiset(items))
    && if ending.StartRefused? then
         && read == [] && IsAt(batch, |items|, ending.id) && ending.id != j.resumed
         && !j.world.accepts(t + LaunchCalls(items, j.resumed) + 1, ending.id)
       else |items| == |batch|
  }

  /** Reading one more result. */
  lemma ReadOne(read: seq<Item>, left: seq<Item>, k: nat)
    requires k < |left|
    ensures multiset(read + [left[k]]) + multiset(left[..k] + left[k + 1..]) == multiset(read) + multiset(left)
    ensures HoldsAny(read + [left[k]]) <==> HoldsAny(read) || Holds(left[k])
  {
    var longer := read + [left[k]];
    assert left == left[..k] + [left[k]] + left[k + 1..];
    if HoldsAny(read) {
      var i :| 0 <= i < |read| && Holds(read[i]);
      assert Holds(longer[i]);
    }
    if Holds(left[k]) { assert Holds(longer[|read|]); }
  }

  lemma TablesAfterRead(status: Statuses, outputs: Outputs, read: seq<Item>, item: Item)
    ensures MarkRead(status, read + [item]) == MarkRead(status, read)[item.step.id := ResultStatus(item.outcome)]
    ensures match item.outcome
            case Done(out) =>
              && Collected(outputs, read + [item]) == Collected(outputs, read)[item.step.id := out]
              && LastError(read + [item]) == LastError(read)
            case Broke(e) =>
              && Collected(outputs, read + [item]) == Collected(outputs, read)
              && LastError(read + [item]) == StepFailed(e)
  {
    assert (read + [item])[..|read|] == read;
  }

  lemma ReadNone(status: Statuses, outputs: Outputs)
    ensures MarkRead(status, []) == status && Collected(outputs, []) == outputs && LastError([]) == NoError
            && !HoldsAny([])
  {
  }

  lemma HonestNone(w: World, t: nat)
    ensures HonestReads(w, [], t, false)
  {
  }

  lemma HonestRead(w: World, read: seq<Item>, item: Item, t: nat)
    requires HonestReads(w, read, t, false)
    ensures HonestReads(w, read + [item], t, item.outcome.Done? && !w.accepts(t + 1 + |read|, item.step.id))
  {
  }

  class Engine {
    var maxParallel: int
    var completed: Outputs

    constructor (maxParallel: int)
      ensures this.maxParallel == maxParallel && completed == map[]
    {
      this.maxParallel, completed := maxParallel, map[];
    }

    /** The loop over one batch's results, in any arrival order. Successes enter the outputs and
        the checkpoint at once, also after a failure; a rejected announcement stops it. */
    method Drain(items: seq<Item>, w: World, t0: nat, status0: Statuses, base: Outputs)
        returns (r: Reading, t: nat, ghost read: seq<Item>)
      modifies this`completed
      ensures r.status == MarkRead(status0, read) && r.outputs == Collected(base, read)
      ensures r.paused == HoldsAny(read) && completed == Collected(old(completed), read)
      ensures r.err == if r.err.EventRejected? then EventRejected else LastError(read)
      ensures HonestReads(w, read, t0, r.err.EventRejected?) && t == t0 + |read|
      ensures multiset(read) <= multiset(items)
      ensures !r.err.EventRejected? ==> multiset(read) == multiset(items)
    {
      hide HonestReads, MarkRead, Collected, LastError, HoldsAny;
      r, t, read := Reading(status0, base, false, NoError), t0, [];
      ReadNone(status0, base);
      ReadNone(status0, completed);
      assert HonestReads(w, read, t0, false) by { HonestNone(w, t0); }
      var left := items;
      while |left| > 0
        invariant r.status == MarkRead(status0, read) && r.outputs == Collected(base, read)
        invariant r.paused == HoldsAny(read) && completed == Collected(old(completed), read)
        invariant r.err == LastError(read) && !r.err.EventRejected?
        invariant HonestReads(w, read, t0, false) && t == t0 + |read|
        invariant multiset(read) + multiset(left) == multiset(items)
        decreases |left|
      {
        t := t + 1;
        var k := w.pick(t) % |left|;
        var item := left[k];
        ReadOne(read, left, k);
        left := left[..k] + left[k + 1..];
        ghost var before := read;
        read := read + [item];
        var id := item.step.id;
        HonestRead(w, before, item, t0);
        TablesAfterRead(status0, base, before, item);
        TablesAfterRead(status0, old(completed), before, item);
        match item.outcome
        case Broke(e) =>
          r := Reading(r.status[id := StatusFor(e)], r.outputs, r.paused || OnHold(StatusFor(e)), StepFailed(e));
        case Done(out) =>
          r := Reading(r.status[id := Success], r.outputs[id := out], r.paused, r.err);
          completed := completed[id := out];
          if !w.accepts(t, id) {
            r := r.(err := EventRejected);
            return;
          }
      }
    }

    /** One iteration of the main loop: start the batch, wait, read its results. */
    method RunBatch(j: Job, batch: seq<StepDefinition>, t0: nat, status0: Statuses, outputs0: Outputs)
        returns (r: Reading, t: nat, ghost items: seq<Item>, ghost read: seq<Item>, ghost ending: Ending)
      modifies this`completed
      ensures Played(j, outputs0, batch, t0, items, read, ending)
      ensures r.status == WithEnding(MarkRead(MarkRunning(status0, items), read), ending)
      ensures r.outputs == Collected(outputs0, read) && completed == Collected(old(completed), read)
      ensures r.paused == HoldsAny(read)
      ensures r.err == if ending.Quiet? then LastError(read) else EventRejected
      ensures r.err.NoError? || r.err.EventRejected? || r.err.StepFailed?
      ensures ending.Quiet? ==> t == t0 + LaunchCalls(items, j.resumed) + |read|
    {
      var status, started, t', refused := Launch(j, batch, t0, status0, outputs0);
      t, items := t', started;
      if refused {
        read, ending := [], StartRefused(batch[|items|].id);
        r := Reading(status, outputs0, false, EventRejected);
        return;
      }
      r, t, read := Drain(started, j.world, t, status, outputs0);
      ending := if r.err.EventRejected? then FinishRefused else Quiet;
      NoErrorAllDone(read);
    }

    /** The main loop and the final check. */
    method Loop(j: Job, status0: Statuses, seeds: Outputs) returns (r: Result, ghost h: History, ghost ending: Ending)
      requires ValidDefinition(j.def) && maxParallel > 0
      requires seeds == Seeds(j.def, completed) && status0 == StartStatus(j.def, seeds)
      modifies this`completed
      ensures !r.err.Invalid? && RunPromise(j, old(completed), completed, maxParallel, r, h, ending)
    {
      hide Between, Kept, ValidDefinition, StartStatus, StatusOf, OutputsOf, Moments, Played, Logged, RunPromise, Seeds,
           MarkRead, Collected, MarkRunning, LastError, HoldsAny, LaunchCalls, ErrorOf, Ready, StepIds;
      h, ending := NoBatch, Quiet;
      var status, outputs, paused, t := status0, seeds, false, 0;
      LoopStart(j, completed, seeds, maxParallel);
      while true
        invariant Between(j, seeds, h, maxParallel) && completed == old(completed) + outputs
        invariant status == StatusOf(StartStatus(j.def, seeds), h) && outputs == OutputsOf(seeds, h)
        invariant t == Moments(h, j.resumed) && paused == false
        decreases |StepIds(j.def) - outputs.Keys|
      {
        var ready := ReadySteps(j.def.steps, status);
        if |ready| == 0 {
          break;
        }
        if |ready| > maxParallel {
          ready := ready[..maxParallel];
        }
        var b, t', items, read, last := RunBatch(j, ready, t, status, outputs);
        CollectedOver(old(completed), outputs, read);
        AfterBatch(j, seeds, h, ready, items, read, last, maxParallel);
        h, paused := Logged(h, items, read), paused || b.paused;
        if !b.err.NoError? {
          ending := last;
          r := Result(b.outputs, b.status, paused, b.err);
          StopPromise(j, old(completed), maxParallel, r, h, ending);
          return;
        }
        status, outputs, t := b.status, b.outputs, t';
      }
      NothingReady(j, seeds, h, maxParallel);
      var complete := Complete(status);
      r := Result(outputs, status, paused, if complete then NoError else Incomplete);
      StopPromise(j, old(completed), maxParallel, r, h, ending);
    }

    /** `runInternal`. Whatever the runners, the event handler and the arrival order do, the run
        ends, and keeps its promise about every outcome. */
    method RunInternal(j: Job) returns (r: Result, ghost h: History, ghost ending: Ending)
      modifies this
      ensures maxParallel == if old(maxParallel) <= 0 then 4 else old(maxParallel)
      ensures r.err.Invalid? <==> !ValidDefinition(j.def)
      ensures r.err.Invalid? ==> completed == old(completed) && h == NoBatch && r.outputs == map[] && r.status == map[]
      ensures !r.err.Invalid? ==> RunPromise(j, old(completed), completed, maxParallel, r, h, ending)
    {
      h, ending := NoBatch, Quiet;
      if maxParallel <= 0 {
        maxParallel := 4;
      }
      var v := ValidateDefinition(j.def);
      if v.Rejected? {
        return Result(map[], map[], false, Invalid(v.reason)), NoBatch, Quiet;
      }
      var status := InitialStatus(j.def);
      var outputs;
      status, outputs := SeedCheckpoint(j.def, status, completed);
      r, h, ending := Loop(j, status, outputs);
    }

    /** `Run` and `Resume`: no step is exempt from its announcement, or the paused one is. */
    method Run(def: Definition, initial: Record, w: World) returns (r: Result, ghost h: History, ghost ending: Ending)
      modifies this
      ensures maxParallel == if old(maxParallel) <= 0 then 4 else old(maxParallel)
      ensures r.err.Invalid? <==> !ValidDefinition(def)
      ensures r.err.Invalid? ==> completed == old(completed)
      ensures !r.err.Invalid? ==>
                RunPromise(Job(def, initial, Id(""), w), old(completed), completed, maxParallel, r, h, ending)
    {
      r, h, ending := RunInternal(Job(def, initial, Id(""), w));
    }

    method Resume(def: Definition, initial: Record, paused: Id, w: World)
        returns (r: Result, ghost h: History, ghost ending: Ending)
      modifies this
      ensures maxParallel == if old(maxParallel) <= 0 then 4 else old(maxParallel)
      ensures r.err.Invalid? <==> !ValidDefinition(def)
      ensures r.err.Invalid? ==> completed == old(completed)
      ensures !r.err.Invalid? ==>
                RunPromise(Job(def, initial, paused, w), old(completed), completed, maxParallel, r, h, ending)
    {
      r, h, ending := RunInternal(Job(def, initial, paused, w));
    }
  }

  /** The checkpoint entries that belong to the definition. */
  function Seeds(def: Definition, completed: Outputs): Outputs {
    map x | x in completed && x in StepIds(def) :: completed[x]
  }

  /** What every history keeps to: the order of work, and what really happened. */
  ghost predicate Kept(j: Job, seeds: Outputs, h: History, ending: Ending, limit: int) {
    && Schedule(j.def, seeds.Keys, h, limit) && EndsAs(j.def, seeds.Keys, h, ending)
    && Greedy(j.def, StartStatus(j.def, seeds), h, limit, ending)
    && Honest(j, seeds, h, ending)
  }

  /** What a run promises to every caller, about any outcome: the tables, the error and the
      checkpoint are those of a history that keeps to the order of work and to what happened. */
  ghost predicate RunPromise(j: Job, before: Outputs, after: Outputs, limit: int, r: Result, h: History,
                             ending: Ending) {
    var seeds := Seeds(j.def, before);
    && !r.err.Incomplete?
    && Kept(j, seeds, h, ending, limit)
    && r.outputs == OutputsOf(seeds, h)
    && r.status == FinalStatus(StartStatus(j.def, seeds), h, ending)
    && r.err == ErrorOf(h, ending)
    && r.paused == (h.Then? && HoldsAny(h.read))
    && after == before + r.outputs
    && (r.err.NoError? ==> r.outputs.Keys == StepIds(j.def))
  }

  lemma StopPromise(j: Job, before: Outputs, limit: int, r: Result, h: History, ending: Ending)
    requires Kept(j, Seeds(j.def, before), h, ending, limit) && !r.err.Incomplete?
    requires r.outputs == OutputsOf(Seeds(j.def, before), h)
    requires r.status == WithEnding(StatusOf(StartStatus(j.def, Seeds(j.def, before)), h), ending)
    requires r.err == ErrorOf(h, ending) && (r.paused <==> h.Then? && HoldsAny(h.read))
    requires r.err.NoError? ==> r.outputs.Keys == StepIds(j.def)
    ensures RunPromise(j, before, before + r.outputs, limit, r, h, ending)
  {
    hide Kept, StatusOf, StartStatus, OutputsOf, ErrorOf, HoldsAny;
  }

  /** The main loop's invariant. */
  ghost predicate Between(j: Job, seeds: Outputs, h: History, limit: int) {
    && ValidDefinition(j.def) && limit > 0 && seeds.Keys <= StepIds(j.def)
    && Kept(j, seeds, h, Quiet, limit) && Succeeded(h)
  }

  lemma LoopStart(j: Job, completed: Outputs, seeds: Outputs, limit: int)
    requires ValidDefinition(j.def) && seeds == Seeds(j.def, completed) && limit > 0
    ensures Between(j, seeds, NoBatch, limit) && completed + seeds == completed
    ensures OutputsOf(seeds, NoBatch) == seeds && Moments(NoBatch, j.resumed) == 0
    ensures StatusOf(StartStatus(j.def, seeds), NoBatch) == StartStatus(j.def, seeds)
  {
  }

  /** The history after a batch of which `items` was started. */
  function Logged(h: History, items: seq<Item>, read: seq<Item>): History {
    if items == [] then h else Then(h, items, read)
  }

  /** One more batch: the history stays one that is kept to, and the tables are those it leaves. */
  lemma AfterBatch(j: Job, seeds: Outputs, h: History, batch: seq<StepDefinition>, items: seq<Item>, read: seq<Item>,
                   ending: Ending, limit: int)
    requires Between(j, seeds, h, limit) && batch != []
    requires batch == NextBatch(j.def, StatusOf(StartStatus(j.def, seeds), h), limit)
    requires Played(j, OutputsOf(seeds, h), batch, Moments(h, j.resumed), items, read, ending)
    ensures var start, log := StartStatus(j.def, seeds), Logged(h, items, read);
            && Kept(j, seeds, log, ending, limit)
            && StatusOf(start, log) == MarkRead(MarkRunning(StatusOf(start, h), items), read)
            && OutputsOf(seeds, log) == Collected(OutputsOf(seeds, h), read)
            && (ending.Quiet? ==> Moments(log, j.resumed)
                                  == Moments(h, j.resumed) + LaunchCalls(items, j.resumed) + |read|)
            && ErrorOf(log, ending) == (if ending.Quiet? then LastError(read) else EventRejected)
            && (HoldsAny(read) <==> log.Then? && HoldsAny(log.read))
            && (ending.Quiet? && LastError(read).NoError? ==>
                  && Between(j, seeds, log, limit) && !HoldsAny(read)
                  && |StepIds(j.def) - OutputsOf(seeds, log).Keys| < |StepIds(j.def) - OutputsOf(seeds, h).Keys|)
  {
    hide ValidDefinition, StartStatus, Kept, Between, Played, NextBatch;
    LogTables(j, seeds, h, batch, items, read, ending, limit);
    LogKept(j, seeds, h, batch, items, read, ending, limit);
    if ending.Quiet? && LastError(read).NoError? {
      LogProgress(j, seeds, h, batch, items, read, limit);
    }
  }

  lemma LogTables(j: Job, seeds: Outputs, h: History, batch: seq<StepDefinition>, items: seq<Item>, read: seq<Item>,
                  ending: Ending, limit: int)
    requires Between(j, seeds, h, limit) && batch != []
    requires Played(j, OutputsOf(seeds, h), batch, Moments(h, j.resumed), items, read, ending)
    ensures var start, log := StartStatus(j.def, seeds), Logged(h, items, read);
            && StatusOf(start, log) == MarkRead(MarkRunning(StatusOf(start, h), items), read)
            && OutputsOf(seeds, log) == Collected(OutputsOf(seeds, h), read)
            && (ending.Quiet? ==> Moments(log, j.resumed)
                                  == Moments(h, j.resumed) + LaunchCalls(items, j.resumed) + |read|)
            && ErrorOf(log, ending) == (if ending.Quiet? then LastError(read) else EventRejected)
            && (HoldsAny(read) <==> log.Then? && HoldsAny(log.read))
  {
    hide ValidDefinition, StartStatus, Kept, HonestLaunch, HonestReads;
    if items == [] {
      ReadWasStarted(items, read);
      assert read == [];
      if h.Then? { CollectedAll(OutputsOf(seeds, h.earlier), h.read); }
    }
  }

  lemma LogKept(j: Job, seeds: Outputs, h: History, batch: seq<StepDefinition>, items: seq<Item>, read: seq<Item>,
                ending: Ending, limit: int)
    requires Between(j, seeds, h, limit) && batch != []
    requires batch == NextBatch(j.def, StatusOf(StartStatus(j.def, seeds), h), limit)
    requires Played(j, OutputsOf(seeds, h), batch, Moments(h, j.resumed), items, read, ending)
    ensures Kept(j, seeds, Logged(h, items, read), ending, limit)
  {
    hide ValidDefinition, StartStatus, NextBatch, Honest, Greedy, HonestLaunch, HonestReads, OutputsOf, StatusOf,
         Schedule, EndsAs, Moments, Played, Logged;
    LogOrder(j, seeds, h, batch, items, read, ending, limit);
    assert Honest(j, seeds, h, Quiet) by { KeptHonest(j, seeds, h, limit); }
    LogHonest(j, seeds, h, batch, items, read, ending);
    LogGreedy(j, seeds, h, batch, items, read, ending, limit);
  }

  lemma KeptHonest(j: Job, seeds: Outputs, h: History, limit: int)
    requires Between(j, seeds, h, limit)
    ensures Honest(j, seeds, h, Quiet)
  {
  }

  lemma LogHonest(j: Job, seeds: Outputs, h: History, batch: seq<StepDefinition>, items: seq<Item>, read: seq<Item>,
                  ending: Ending)
    requires Honest(j, seeds, h, Quiet) && batch != []
    requires Played(j, OutputsOf(seeds, h), batch, Moments(h, j.resumed), items, read, ending)
    ensures Honest(j, seeds, Logged(h, items, read), ending)
  {
    hide HonestLaunch, OutputsOf, RunStep;
    if items == [] {
      ReadWasStarted(items, read);
      hide HonestReads, Moments;
    }
  }

  lemma LogGreedy(j: Job, seeds: Outputs, h: History, batch: seq<StepDefinition>, items: seq<Item>, read: seq<Item>,
                  ending: Ending, limit: int)
    requires Between(j, seeds, h, limit) && batch != []
    requires batch == NextBatch(j.def, StatusOf(StartStatus(j.def, seeds), h), limit)
    requires Played(j, OutputsOf(seeds, h), batch, Moments(h, j.resumed), items, read, ending)
    ensures Greedy(j.def, StartStatus(j.def, seeds), Logged(h, items, read), limit, ending)
  {
    hide ValidDefinition, StartStatus, NextBatch, HonestLaunch, HonestReads, Honest, OutputsOf, StatusOf, Moments,
         Schedule, AllDone;
    if items != [] { assert items[0] in multiset(items); }
  }

  /** The order of work is kept. */
  lemma LogOrder(j: Job, seeds: Outputs, h: History, batch: seq<StepDefinition>, items: seq<Item>, read: seq<Item>,
                 ending: Ending, limit: int)
    requires Between(j, seeds, h, limit) && batch != []
    requires batch == NextBatch(j.def, StatusOf(StartStatus(j.def, seeds), h), limit)
    requires Played(j, OutputsOf(seeds, h), batch, Moments(h, j.resumed), items, read, ending)
    ensures Schedule(j.def, seeds.Keys, Logged(h, items, read), limit)
    ensures EndsAs(j.def, seeds.Keys, Logged(h, items, read), ending)
  {
    hide ValidDefinition, StartStatus, NextBatch, HonestLaunch, Honest, Greedy, OutputsOf, StatusOf, Moments, MayStart,
         MayStartOne;
    BatchMayStart(j, seeds, h, batch, limit);
    StartsPart(j.def, seeds.Keys + Started(h), batch, items, limit);
    var none: seq<Item> := [];
    assert multiset(none) == multiset{};
    if items != [] { assert items[0] in multiset(items); }
  }

  /** The first ready steps may be started now. */
  lemma BatchMayStart(j: Job, seeds: Outputs, h: History, batch: seq<StepDefinition>, limit: int)
    requires Between(j, seeds, h, limit)
    requires batch == NextBatch(j.def, StatusOf(StartStatus(j.def, seeds), h), limit)
    ensures Startable(j.def, seeds.Keys + Started(h), batch) && |batch| <= limit
  {
    hide Honest, Greedy, StatusOf, OutputsOf, StartStatus, MayStartOne, Acyclic;
    var status, outputs := StatusOf(StartStatus(j.def, seeds), h), OutputsOf(seeds, h);
    SettledAfter(j.def, seeds, h, limit);
    HistoryOutputs(j.def, seeds, h, limit);
    ReadyPart(j.def, status, batch);
    forall i | 0 <= i < |batch| ensures MayStartOne(j.def, outputs.Keys, batch[i].id) {
      ReadyMayStart(j.def, status, outputs, batch[i]);
    }
  }

  /** Different steps of the definition, each of which may be started once `before` has finished. */
  ghost predicate Startable(def: Definition, before: set<Id>, batch: seq<StepDefinition>) {
    && NoRepeats(IdsOf(batch))
    && forall i :: 0 <= i < |batch| ==> batch[i] in def.steps && MayStartOne(def, before, batch[i].id)
  }

  lemma StartsPart(def: Definition, before: set<Id>, batch: seq<StepDefinition>, items: seq<Item>, limit: int)
    requires Startable(def, before, batch) && |batch| <= limit && StepsOf(items) <= batch
    ensures items != [] ==> MayStart(def, before, items, limit)
    ensures |items| < |batch| ==> MayStartOne(def, before, batch[|items|].id) && batch[|items|].id !in before
    ensures |items| < |batch| ==> batch[|items|].id !in ItemIds(items)
  {
    forall i | 0 <= i < |items| ensures ItemIds(items)[i] == IdsOf(batch)[i] && items[i].step == batch[i] {
      assert StepsOf(items)[i] == batch[i];
    }
  }

  /** Any initial part of the ready list consists of ready steps with distinct ids. */
  lemma ReadyPart(def: Definition, status: Statuses, ready: seq<StepDefinition>)
    requires DistinctIds(Shape(def)) && ready <= Ready(def.steps, status)
    ensures forall i :: 0 <= i < |ready| ==> ready[i] in def.steps && IsReady(ready[i], status)
    ensures NoRepeats(IdsOf(ready))
  {
    var all := Ready(def.steps, status);
    ReadyMembers(def.steps, status);
    forall i, j | 0 <= i < j < |def.steps| ensures def.steps[i].id != def.steps[j].id {
      assert Shape(def)[i].id != Shape(def)[j].id;
    }
    ReadyDistinct(def.steps, status);
    forall i, j | 0 <= i < j < |ready| ensures IdsOf(ready)[i] != IdsOf(ready)[j] {
      assert IdsOf(all)[i] != IdsOf(all)[j];
    }
    forall i | 0 <= i < |ready| ensures ready[i] in all { assert all[i] == ready[i]; }
  }

  lemma ReadyMayStart(def: Definition, status: Statuses, outputs: Outputs, s: StepDefinition)
    requires DistinctIds(Shape(def)) && Settled(def, status, outputs)
    requires s in def.steps && IsReady(s, status)
    ensures MayStartOne(def, outputs.Keys, s.id)
  {
    var i :| 0 <= i < |def.steps| && def.steps[i] == s;
    DistinctLookup(def, i);
    forall d | d in Deps(Edges(def), s.id) ensures d in outputs { assert Finished(status, d); }
  }

  lemma DistinctLookup(def: Definition, i: nat)
    requires DistinctIds(Shape(def)) && i < |def.steps|
    ensures Deps(Edges(def), def.steps[i].id) == def.steps[i].dependsOn
  {
    LastWins(Shape(def), i);
  }

  /** A batch read to its end without an error brings the run nearer to its end. */
  lemma LogProgress(j: Job, seeds: Outputs, h: History, batch: seq<StepDefinition>, items: seq<Item>, read: seq<Item>,
                    limit: int)
    requires Between(j, seeds, h, limit) && batch != [] && LastError(read).NoError?
    requires Kept(j, seeds, Logged(h, items, read), Quiet, limit)
    requires Played(j, OutputsOf(seeds, h), batch, Moments(h, j.resumed), items, read, Quiet)
    ensures var log := Logged(h, items, read);
            && Between(j, seeds, log, limit) && !HoldsAny(read)
            && |StepIds(j.def) - OutputsOf(seeds, log).Keys| < |StepIds(j.def) - OutputsOf(seeds, h).Keys|
  {
    hide ValidDefinition, StartStatus, HonestLaunch, Honest, HonestReads, Greedy, OutputsOf, StatusOf, Moments,
         MayStart, EndsAs, StepIds;
    var log := Logged(h, items, read);
    assert items != [];
    NoErrorAllDone(read);
    HistoryOutputs(j.def, seeds, h, limit);
    HistoryOutputs(j.def, seeds, log, limit);
    var x := ItemIds(items)[0];
    StartedIn(j.def, seeds.Keys + Started(h), items, limit, x);
    FewerLeft(StepIds(j.def), OutputsOf(seeds, h).Keys, OutputsOf(seeds, log).Keys, x) by {
      assert MayStartOne(j.def, seeds.Keys + Started(h), x);
    }
  }

  lemma FewerLeft(all: set<Id>, done: set<Id>, more: set<Id>, x: Id)
    requires done <= more && x in all && x !in done && x in more
    ensures |all - more| < |all - done|
  {
    SubsetCount(all - more, all - done - {x});
  }

  /** When no step is ready, every step has succeeded. */
  lemma NothingReady(j: Job, seeds: Outputs, h: History, limit: int)
    requires Between(j, seeds, h, limit)
    requires Ready(j.def.steps, StatusOf(StartStatus(j.def, seeds), h)) == []
    ensures forall x :: x in StatusOf(StartStatus(j.def, seeds), h) ==>
              StatusOf(StartStatus(j.def, seeds), h)[x] == Success
    ensures OutputsOf(seeds, h).Keys == StepIds(j.def) && Kept(j, seeds, h, Quiet, limit)
    ensures ErrorOf(h, Quiet).NoError? && !(h.Then? && HoldsAny(h.read))
  {
    hide ValidDefinition, StartStatus, Honest, Greedy, Schedule, OutputsOf, StatusOf, Ready, AllDone;
    SettledAfter(j.def, seeds, h, limit);
    NoStall(j.def, StatusOf(StartStatus(j.def, seeds), h));
    if h.Then? { CollectedAll(OutputsOf(seeds, h.earlier), h.read); }
  }

  lemma {:induction false} CollectedOver(c: Outputs, base: Outputs, read: seq<Item>)
    ensures Collected(c + base, read) == c + Collected(base, read)
  {
    if read != [] { CollectedOver(c, base, read[..|read| - 1]); }
  }

  method InitialStatus(def: Definition) returns (status: Statuses)
    ensures status.Keys == StepIds(def) && forall x :: x in status ==> status[x] == Pending
  {
    status := map[];
    ghost var steps := Shape(def);
    for i := 0 to |def.steps|
      invariant status.Keys == Ids(steps[..i]) && forall x :: x in status ==> status[x] == Pending
    {
      IdsPrefix(steps, i);
      status := status[def.steps[i].id := Pending];
    }
    assert steps[..|steps|] == steps;
  }

  /** The seeding loop, over the checkpoint in any map order. */
  method SeedCheckpoint(def: Definition, status0: Statuses, completed: Outputs)
      returns (status: Statuses, outputs: Outputs)
    requires status0.Keys == StepIds(def) && forall x :: x in status0 ==> status0[x] == Pending
    ensures outputs == Seeds(def, completed) && status == StartStatus(def, outputs)
  {
    status, outputs := status0, map[];
    var todo := completed.Keys;
    while todo != {}
      invariant todo <= completed.Keys && status.Keys == StepIds(def)
      invariant forall x :: x in outputs <==> x in completed.Keys - todo && x in StepIds(def)
      invariant forall x :: x in outputs ==> outputs[x] == completed[x]
      invariant forall x :: x in status ==> status[x] == if x in outputs then Success else Pending
      decreases |todo|
    {
      var x :| x in todo;
      todo := todo - {x};
      if x in status {
        status := status[x := Success];
        outputs := outputs[x := completed[x]];
      }
    }
  }

  /** The final check over all statuses. */
  method Complete(status: Statuses) returns (complete: bool)
    ensures complete <==> forall x :: x in status ==> Finished(status, x)
  {
    var todo := status.Keys;
    while todo != {}
      invariant todo <= status.Keys && forall x :: x in status && x !in todo ==> Finished(status, x)
      decreases |todo|
    {
      var x :| x in todo;
      if !Finished(status, x) { return false; }
      todo := todo - {x};
    }
    complete := true;
  }
}
