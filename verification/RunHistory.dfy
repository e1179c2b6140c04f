/** What a run of the workflow engine did: the batches it started, what each step returned, and the
    order in which the results were read. Every call of a runner or of the event handler has a
    moment of its own, counted 1, 2, 3, ... through the run. */
module RunHistory {
  import opened Graphs
  import opened Steps
  import opened WorkflowDefinition

  /** What a run is given; `resumed` is the paused step it resumes, or the empty id. */
  datatype Job = Job(def: Definition, initial: Record, resumed: Id, world: World)

  /** One finished goroutine: a step and what it sent on the channel. */
  datatype Item = Item(step: StepDefinition, outcome: StepOutcome)

  /** Each batch: what was started, in order, and what has been read off the channel, in order. */
  datatype History = NoBatch | Then(earlier: History, items: seq<Item>, read: seq<Item>)

  /** Whether the last call was an announcement that the event handler turned down: of a step about
      to start, or of the success just read. */
  datatype Ending = Quiet | StartRefused(id: Id) | FinishRefused

  function ItemIds(items: seq<Item>): (ids: seq<Id>)
    ensures |ids| == |items| && forall i :: 0 <= i < |ids| ==> ids[i] == items[i].step.id
  {
    seq(|items|, i requires 0 <= i < |items| => items[i].step.id)
  }

  function Started(h: History): set<Id> {
    if h.NoBatch? then {} else Started(h.earlier) + Members(ItemIds(h.items))
  }

  predicate OnHold(s: Status) {
    s == Paused || s == WaitingApproval
  }

  function StatusFor(e: StepError): (s: Status)
    ensures s == Failed || OnHold(s)
    ensures OnHold(s) <==> e == FromRunner(PauseRequested) || e == FromRunner(ApprovalRequested)
  {
    match e
    case FromRunner(PauseRequested) => Paused
    case FromRunner(ApprovalRequested) => WaitingApproval
    case _ => Failed
  }

  function ResultStatus(outcome: StepOutcome): Status {
    match outcome
    case Done(_) => Success
    case Broke(e) => StatusFor(e)
  }

  /** The tables after starting the items, and after reading some results. */
  function MarkRunning(status: Statuses, items: seq<Item>): Statuses {
    if items == [] then status
    else MarkRunning(status, items[..|items| - 1])[items[|items| - 1].step.id := Running]
  }

  function MarkRead(status: Statuses, read: seq<Item>): Statuses {
    if read == [] then status
    else
      var last := read[|read| - 1];
      MarkRead(status, read[..|read| - 1])[last.step.id := ResultStatus(last.outcome)]
  }

  function Collected(outputs: Outputs, read: seq<Item>): Outputs {
    if read == [] then outputs
    else
      var init, last := Collected(outputs, read[..|read| - 1]), read[|read| - 1];
      if last.outcome.Done? then init[last.step.id := last.outcome.output] else init
  }

  /** The error of the last failed step that was read. */
  function LastError(read: seq<Item>): RunError {
    if read == [] then NoError
    else if read[|read| - 1].outcome.Broke? then StepFailed(read[|read| - 1].outcome.error)
    else LastError(read[..|read| - 1])
  }

  predicate Holds(item: Item) {
    item.outcome.Broke? && OnHold(StatusFor(item.outcome.error))
  }

  predicate HoldsAny(read: seq<Item>) {
    exists i :: 0 <= i < |read| && Holds(read[i])
  }

  predicate AllDone(read: seq<Item>) {
    forall i :: 0 <= i < |read| ==> read[i].outcome.Done?
  }

  /** The tables and the error that a history leaves. */
  function OutputsOf(seeds: Outputs, h: History): Outputs {
    if h.NoBatch? then seeds else Collected(OutputsOf(seeds, h.earlier), h.read)
  }

  function StatusOf(start: Statuses, h: History): Statuses {
    if h.NoBatch? then start else MarkRead(MarkRunning(StatusOf(start, h.earlier), h.items), h.read)
  }

  /** A refused start leaves its step marked running. */
  function WithEnding(status: Statuses, ending: Ending): Statuses {
    if ending.StartRefused? then status[ending.id := Running] else status
  }

  function FinalStatus(start: Statuses, h: History, ending: Ending): Statuses {
    WithEnding(StatusOf(start, h), ending)
  }

  /** Where a run starts: the seeded steps have succeeded, the others wait. */
  function StartStatus(def: Definition, seeds: Outputs): Statuses {
    map x | x in StepIds(def) :: if x in seeds then Success else Pending
  }

  /** The first ready steps, as many as the cap allows. */
  function NextBatch(def: Definition, status: Statuses, limit: int): seq<StepDefinition> {
    var ready := Ready(def.steps, status);
    if 0 <= limit < |ready| then ready[..limit] else ready
  }

  function StepsOf(items: seq<Item>): (steps: seq<StepDefinition>)
    ensures |steps| == |items| && forall i :: 0 <= i < |steps| ==> steps[i] == items[i].step
  {
    seq(|items|, i requires 0 <= i < |items| => items[i].step)
  }

  function ErrorOf(h: History, ending: Ending): RunError {
    if !ending.Quiet? then EventRejected else if h.Then? then LastError(h.read) else NoError
  }

  /** How many calls starting the items takes: an announcement and a run each, but no announcement
      of the resumed step. */
  function LaunchCalls(items: seq<Item>, resumed: Id): nat {
    if items == [] then 0
    else LaunchCalls(items[..|items| - 1], resumed) + if items[|items| - 1].step.id == resumed then 1 else 2
  }

  /** The moments used up: each result read is announced once. */
  function Moments(h: History, resumed: Id): nat {
    if h.NoBatch? then 0 else Moments(h.earlier, resumed) + LaunchCalls(h.items, resumed) + |h.read|
  }

  /** From moment `t` on: every start was announced and accepted, and every step returned what its
      runner gave at its own moment. */
  ghost predicate HonestLaunch(j: Job, base: Outputs, items: seq<Item>, t: nat) {
    items == [] ||
      var init, last := items[..|items| - 1], items[|items| - 1];
      && HonestLaunch(j, base, init, t)
      && HonestStart(j, base, last, t + LaunchCalls(init, j.resumed))
  }

  ghost predicate HonestStart(j: Job, base: Outputs, item: Item, t: nat) {
    var announced := if item.step.id == j.resumed then 0 else 1;
    && (item.step.id != j.resumed ==> j.world.accepts(t + 1, item.step.id))
    && item.outcome == RunStep(j.world, t + announced + 1, item.step, j.initial, base)
  }

  /** From moment `t` on: every success read was announced and accepted, except the last one if
      `refused`. Nobody minds what the handler says to a failure. */
  ghost predicate HonestReads(w: World, read: seq<Item>, t: nat, refused: bool) {
    && (forall i :: 0 <= i < |read| && read[i].outcome.Done? ==>
          w.accepts(t + 1 + i, read[i].step.id) == !(refused && i == |read| - 1))
    && (refused ==> read != [] && read[|read| - 1].outcome.Done?)
  }

  /** The history is what the runners and the handler did, moment by moment. */
  ghost predicate Honest(j: Job, seeds: Outputs, h: History, ending: Ending) {
    && (h.Then? ==>
          && Honest(j, seeds, h.earlier, Quiet)
          && HonestLaunch(j, OutputsOf(seeds, h.earlier), h.items, Moments(h.earlier, j.resumed))
          && HonestReads(j.world, h.read, Moments(h.earlier, j.resumed) + LaunchCalls(h.items, j.resumed),
                         ending.FinishRefused?))
    && (ending.StartRefused? ==> ending.id != j.resumed && !j.world.accepts(Moments(h, j.resumed) + 1, ending.id))
  }

  /** What may be started once `before` has finished. */
  ghost predicate MayStart(def: Definition, before: set<Id>, items: seq<Item>, limit: int) {
    && 0 < |items| <= limit && NoRepeats(ItemIds(items))
    && forall i :: 0 <= i < |items| ==> items[i].step in def.steps && MayStartOne(def, before, items[i].step.id)
  }

  ghost predicate MayStartOne(def: Definition, before: set<Id>, x: Id) {
    && x in StepIds(def) && x !in before
    && forall d :: d in Deps(Edges(def), x) ==> d in before
  }

  /** Every started step has been waited for and read. */
  ghost predicate AllRead(h: History) {
    h.Then? ==> multiset(h.read) == multiset(h.items)
  }

  ghost predicate Succeeded(h: History) {
    AllRead(h) && (h.Then? ==> AllDone(h.read))
  }

  /** The promise about the order of work: every batch respects the cap, no step is started twice, no
      seeded step is started, a step starts only after all its dependencies, and a batch only after
      the one before it has succeeded as a whole. */
  ghost predicate Schedule(def: Definition, seeds: set<Id>, h: History, limit: int) {
    h.Then? ==>
      && Schedule(def, seeds, h.earlier, limit) && Succeeded(h.earlier)
      && MayStart(def, seeds + Started(h.earlier), h.items, limit)
      && multiset(h.read) <= multiset(h.items)
  }

  /** How the run may stop: with everything read; at a ready step's announcement, nothing of its own
      batch having been read; or at a success. */
  ghost predicate EndsAs(def: Definition, seeds: set<Id>, h: History, ending: Ending) {
    match ending
    case Quiet => AllRead(h)
    case StartRefused(x) =>
      && (Succeeded(h) || (h.Then? && h.read == []))
      && MayStartOne(def, seeds + if Succeeded(h) then Started(h) else Started(h.earlier), x) && x !in Started(h)
    case FinishRefused => h.Then? && h.read != []
  }

  /** Which of the ready steps are started: the first ones in definition order, as many as the cap
      allows, unless an announcement stops the batch; and that announcement is of the next one. */
  ghost predicate Greedy(def: Definition, start: Statuses, h: History, limit: int, ending: Ending) {
    && (h.Then? ==>
          && Greedy(def, start, h.earlier, limit, Quiet)
          && StepsOf(h.items) <= NextBatch(def, StatusOf(start, h.earlier), limit)
          && (h.read != [] || !ending.StartRefused?
              ==> |h.items| == |NextBatch(def, StatusOf(start, h.earlier), limit)|))
    && (ending.StartRefused? ==>
          if Succeeded(h) then IsAt(NextBatch(def, StatusOf(start, h), limit), 0, ending.id)
          else h.Then? && IsAt(NextBatch(def, StatusOf(start, h.earlier), limit), |h.items|, ending.id))
  }

  predicate IsAt(batch: seq<StepDefinition>, k: nat, x: Id) {
    k < |batch| && batch[k].id == x
  }

  /** How often a step was started. */
  function Starts(h: History, x: Id): nat {
    if h.NoBatch? then 0 else Starts(h.earlier, x) + multiset(ItemIds(h.items))[x]
  }

  lemma {:induction false} NoRepeatsOnce(s: seq<Id>, x: Id)
    requires NoRepeats(s)
    ensures multiset(s)[x] == if x in s then 1 else 0
  {
    if s != [] {
      var n := |s| - 1;
      NoRepeatsOnce(s[..n], x);
      assert s == s[..n] + [s[n]];
    }
  }

  /** In a schedule a step of the definition is started at most once, and never if seeded. */
  lemma {:induction false} StartedOnce(def: Definition, seeds: set<Id>, h: History, limit: int, x: Id)
    requires Schedule(def, seeds, h, limit)
    ensures Starts(h, x) == if x in Started(h) then 1 else 0
    ensures x in Started(h) ==> x in StepIds(def) && x !in seeds
  {
    if h.Then? {
      StartedOnce(def, seeds, h.earlier, limit, x);
      NoRepeatsOnce(ItemIds(h.items), x);
      if x in ItemIds(h.items) { StartedIn(def, seeds + Started(h.earlier), h.items, limit, x); }
    }
  }

  lemma StartedIn(def: Definition, before: set<Id>, items: seq<Item>, limit: int, x: Id)
    requires MayStart(def, before, items, limit) && x in ItemIds(items)
    ensures MayStartOne(def, before, x)
  {
    var i :| 0 <= i < |items| && ItemIds(items)[i] == x;
  }

  /** Everything a started step depends on was seeded or started in an earlier batch. */
  ghost predicate StartedAfter(h: History, seeds: set<Id>, x: Id, d: Id) {
    h.Then? && if x in ItemIds(h.items) then d in seeds + Started(h.earlier) else StartedAfter(h.earlier, seeds, x, d)
  }

  lemma {:induction false} DependenciesFirst(def: Definition, seeds: set<Id>, h: History, limit: int, x: Id, d: Id)
    requires Schedule(def, seeds, h, limit) && x in Started(h) && d in Deps(Edges(def), x)
    ensures StartedAfter(h, seeds, x, d) && d in seeds + Started(h.earlier)
  {
    if x in ItemIds(h.items) {
      StartedIn(def, seeds + Started(h.earlier), h.items, limit, x);
    } else {
      DependenciesFirst(def, seeds, h.earlier, limit, x, d);
    }
  }

  /** What reading leaves of a status: the outcome of a result that was read, else what it was. */
  lemma {:induction false} MarkReadAt(status: Statuses, read: seq<Item>, x: Id)
    ensures MarkRead(status, read).Keys == status.Keys + Members(ItemIds(read))
    ensures x !in ItemIds(read) && x in status ==> MarkRead(status, read)[x] == status[x]
    ensures x in ItemIds(read) ==>
              exists i :: 0 <= i < |read| && read[i].step.id == x
                          && MarkRead(status, read)[x] == ResultStatus(read[i].outcome)
  {
    if read == [] {
      assert Members(ItemIds(read)) == {};
    } else {
      var n := |read| - 1;
      MarkReadAt(status, read[..n], x);
      IdsInit(read);
      if x in ItemIds(read[..n]) && read[n].step.id != x {
        var i :| 0 <= i < n && read[..n][i].step.id == x
            && MarkRead(status, read[..n])[x] == ResultStatus(read[..n][i].outcome);
        assert read[i] == read[..n][i];
      }
    }
  }

  lemma IdsInit(items: seq<Item>)
    requires items != []
    ensures ItemIds(items) == ItemIds(items[..|items| - 1]) + [items[|items| - 1].step.id]
    ensures Members(ItemIds(items)) == Members(ItemIds(items[..|items| - 1])) + {items[|items| - 1].step.id}
  {
    var n := |items| - 1;
    assert ItemIds(items) == ItemIds(items[..n]) + [items[n].step.id];
  }

  lemma {:induction false} MarkRunningAt(status: Statuses, items: seq<Item>, x: Id)
    ensures MarkRunning(status, items).Keys == status.Keys + Members(ItemIds(items))
    ensures x !in ItemIds(items) && x in status ==> MarkRunning(status, items)[x] == status[x]
    ensures x in ItemIds(items) ==> MarkRunning(status, items)[x] == Running
  {
    if items == [] {
      assert Members(ItemIds(items)) == {};
    } else {
      MarkRunningAt(status, items[..|items| - 1], x);
      IdsInit(items);
    }
  }

  /** And of an output: what a successful result brought, else what it was. */
  lemma {:induction false} CollectedAt(outputs: Outputs, read: seq<Item>, x: Id)
    ensures x in Collected(outputs, read) <==> x in outputs || Brought(read, x)
    ensures x in Collected(outputs, read) ==>
              || (x in outputs && Collected(outputs, read)[x] == outputs[x])
              || BroughtBy(read, x, Collected(outputs, read)[x])
    ensures x !in ItemIds(read) && x in outputs ==> Collected(outputs, read)[x] == outputs[x]
  {
    if read != [] {
      var n := |read| - 1;
      CollectedAt(outputs, read[..n], x);
      IdsInit(read);
      BroughtInit(read, x);
    }
  }

  ghost predicate BroughtBy(read: seq<Item>, x: Id, out: Record) {
    exists i :: 0 <= i < |read| && read[i].step.id == x && read[i].outcome == Done(out)
  }

  ghost predicate Brought(read: seq<Item>, x: Id) {
    exists i :: 0 <= i < |read| && read[i].step.id == x && read[i].outcome.Done?
  }

  lemma BroughtInit(read: seq<Item>, x: Id)
    requires read != []
    ensures var last := read[|read| - 1];
            && (Brought(read, x) <==> Brought(read[..|read| - 1], x) || (last.step.id == x && last.outcome.Done?))
            && (last.step.id == x && last.outcome.Done? ==> BroughtBy(read, x, last.outcome.output))
    ensures forall out :: BroughtBy(read[..|read| - 1], x, out) ==> BroughtBy(read, x, out)
  {
    var init := read[..|read| - 1];
    if i :| 0 <= i < |init| && init[i].step.id == x && init[i].outcome.Done? { assert read[i] == init[i]; }
    if i :| 0 <= i < |read| && read[i].step.id == x && read[i].outcome.Done? {
      assert i < |init| ==> init[i] == read[i];
    }
    forall out | BroughtBy(init, x, out) ensures BroughtBy(read, x, out) {
      var i :| 0 <= i < |init| && init[i].step.id == x && init[i].outcome == Done(out);
      assert read[i] == init[i];
    }
  }

  /** When every result read is a success, every step read has an output. */
  lemma {:induction false} CollectedAll(outputs: Outputs, read: seq<Item>)
    requires AllDone(read)
    ensures Collected(outputs, read).Keys == outputs.Keys + Members(ItemIds(read))
    ensures LastError(read) == NoError && !HoldsAny(read)
  {
    if read == [] {
      assert Members(ItemIds(read)) == {};
    } else {
      CollectedAll(outputs, read[..|read| - 1]);
      IdsInit(read);
    }
  }

  lemma {:induction false} NoErrorAllDone(read: seq<Item>)
    ensures LastError(read).NoError? <==> AllDone(read)
    ensures LastError(read).NoError? || LastError(read).StepFailed?
    ensures LastError(read).StepFailed? ==>
              exists i :: 0 <= i < |read| && read[i].outcome == Broke(LastError(read).cause)
  {
    if read != [] {
      var n := |read| - 1;
      NoErrorAllDone(read[..n]);
      if read[n].outcome.Broke? {
        assert read[n].outcome == Broke(LastError(read).cause);
      } else if LastError(read).StepFailed? {
        var i :| 0 <= i < n && read[..n][i].outcome == Broke(LastError(read).cause);
        assert read[i] == read[..n][i];
      } else {
        forall i | 0 <= i < |read| ensures read[i].outcome.Done? {
          if i < n { assert read[i] == read[..n][i]; }
        }
      }
    }
  }

  /** What has been read was started. */
  lemma ReadWasStarted(items: seq<Item>, read: seq<Item>)
    requires multiset(read) <= multiset(items)
    ensures forall i :: 0 <= i < |read| ==> read[i] in items
    ensures Members(ItemIds(read)) <= Members(ItemIds(items))
    ensures multiset(read) == multiset(items) ==> Members(ItemIds(read)) == Members(ItemIds(items))
  {
    forall i | 0 <= i < |read| ensures read[i] in items { assert read[i] in multiset(read); }
    forall x | x in ItemIds(read) ensures x in ItemIds(items) {
      var i :| 0 <= i < |read| && ItemIds(read)[i] == x;
      assert read[i] in multiset(items);
      IdOf(items, read[i]);
    }
    if multiset(read) == multiset(items) {
      forall x | x in ItemIds(items) ensures x in ItemIds(read) {
        var i :| 0 <= i < |items| && ItemIds(items)[i] == x;
        assert items[i] in multiset(read);
        IdOf(read, items[i]);
      }
    }
  }

  lemma IdOf(items: seq<Item>, item: Item)
    requires item in items
    ensures item.step.id in ItemIds(items)
  {
    var i :| 0 <= i < |items| && items[i] == item;
    assert ItemIds(items)[i] == item.step.id;
  }

  ghost predicate Checkpointed(outputs: Outputs, completed: Outputs) {
    forall x :: x in outputs ==> x in completed && completed[x] == outputs[x]
  }

  /** A batch changes no output there was, and adds only its own. */
  lemma BatchOutputs(def: Definition, before: set<Id>, base: Outputs, items: seq<Item>, read: seq<Item>, limit: int)
    requires MayStart(def, before, items, limit) && multiset(read) <= multiset(items) && base.Keys <= before
    ensures Checkpointed(base, Collected(base, read))
            && Collected(base, read).Keys <= base.Keys + Members(ItemIds(items))
    ensures Members(ItemIds(items)) <= StepIds(def)
  {
    hide Collected, ItemIds, Brought, BroughtBy, MayStart;
    ReadWasStarted(items, read);
    forall x | x in base ensures x in Collected(base, read) && Collected(base, read)[x] == base[x] {
      CollectedAt(base, read, x);
      if x in ItemIds(items) { StartedIn(def, before, items, limit, x); }
      assert x in Members(ItemIds(read)) <==> x in ItemIds(read);
    }
    forall x | x in Collected(base, read) ensures x in base.Keys + Members(ItemIds(items)) {
      CollectedAt(base, read, x);
      BroughtIsRead(read, x);
      assert x in Members(ItemIds(read)) <==> x in ItemIds(read);
    }
    forall x | x in ItemIds(items) ensures x in StepIds(def) { StartedIn(def, before, items, limit, x); }
  }

  lemma BroughtIsRead(read: seq<Item>, x: Id)
    ensures Brought(read, x) ==> x in ItemIds(read)
  {
    if i :| 0 <= i < |read| && read[i].step.id == x && read[i].outcome.Done? { assert ItemIds(read)[i] == x; }
  }

  /** A history keeps the seeds, stays within the definition, and has the outputs of all it started
      unless its last batch was not all success. */
  lemma {:induction false} HistoryOutputs(def: Definition, seeds: Outputs, h: History, limit: int)
    requires Schedule(def, seeds.Keys, h, limit) && seeds.Keys <= StepIds(def)
    ensures Checkpointed(seeds, OutputsOf(seeds, h))
            && OutputsOf(seeds, h).Keys <= seeds.Keys + Started(h) <= StepIds(def)
    ensures Succeeded(h) ==> OutputsOf(seeds, h).Keys == seeds.Keys + Started(h)
    ensures h.Then? ==> Checkpointed(OutputsOf(seeds, h.earlier), OutputsOf(seeds, h))
    ensures h.Then? ==> OutputsOf(seeds, h.earlier).Keys == seeds.Keys + Started(h.earlier)
  {
    hide MayStart, AllDone, Collected, Members, StepIds, ItemIds;
    if h.Then? {
      var base := OutputsOf(seeds, h.earlier);
      HistoryOutputs(def, seeds, h.earlier, limit);
      BatchOutputs(def, seeds.Keys + Started(h.earlier), base, h.items, h.read, limit);
      if Succeeded(h) {
        CollectedAll(base, h.read);
        ReadWasStarted(h.items, h.read);
      }
    }
  }

  /** With everything done, a step has succeeded and has an output, or still waits. */
  ghost predicate Settled(def: Definition, status: Statuses, outputs: Outputs) {
    && status.Keys == StepIds(def) && outputs.Keys <= StepIds(def)
    && forall x :: x in status ==> status[x] == if x in outputs then Success else Pending
  }

  lemma {:induction false} SettledAfter(def: Definition, seeds: Outputs, h: History, limit: int)
    requires Schedule(def, seeds.Keys, h, limit) && Succeeded(h) && seeds.Keys <= StepIds(def)
    ensures Settled(def, StatusOf(StartStatus(def, seeds), h), OutputsOf(seeds, h))
  {
    hide MayStart, AllDone, Collected, MarkRead, MarkRunning;
    if h.Then? {
      var base, status := OutputsOf(seeds, h.earlier), StatusOf(StartStatus(def, seeds), h.earlier);
      SettledAfter(def, seeds, h.earlier, limit);
      BatchOutputs(def, seeds.Keys + Started(h.earlier), base, h.items, h.read, limit) by {
        HistoryOutputs(def, seeds, h.earlier, limit);
      }
      SettledBatch(def, status, base, h.items, h.read);
    }
  }

  lemma SettledBatch(def: Definition, status: Statuses, base: Outputs, items: seq<Item>, read: seq<Item>)
    requires Settled(def, status, base) && Members(ItemIds(items)) <= StepIds(def)
    requires multiset(read) == multiset(items) && AllDone(read)
    ensures Settled(def, MarkRead(MarkRunning(status, items), read), Collected(base, read))
  {
    hide Collected, MarkRead, MarkRunning;
    ReadWasStarted(items, read);
    CollectedAll(base, read);
    var after := MarkRead(MarkRunning(status, items), read);
    forall x ensures x in after <==> x in StepIds(def) {
      MarkRunningAt(status, items, x);
      MarkReadAt(MarkRunning(status, items), read, x);
    }
    forall x | x in after ensures after[x] == if x in Collected(base, read) then Success else Pending {
      MarkRunningAt(status, items, x);
      MarkReadAt(MarkRunning(status, items), read, x);
      assert x in Members(ItemIds(read)) <==> x in ItemIds(read);
      assert x in Members(ItemIds(items)) <==> x in ItemIds(items);
    }
  }

  /** Every logged run happened at a moment of its own, on the outputs its batch was started with. */
  lemma {:induction false} LaunchedAt(j: Job, base: Outputs, items: seq<Item>, t: nat, i: nat) returns (u: nat)
    requires HonestLaunch(j, base, items, t) && i < |items|
    ensures t < u <= t + LaunchCalls(items, j.resumed)
    ensures items[i].outcome == RunStep(j.world, u, items[i].step, j.initial, base)
  {
    var n := |items| - 1;
    if i < n {
      u := LaunchedAt(j, base, items[..n], t, i);
    } else {
      u := t + LaunchCalls(items[..n], j.resumed) + if items[n].step.id == j.resumed then 1 else 2;
    }
  }
}
