/** What the promise of a run means: every call of a runner or of the event handler has one moment,
    and every status, output and error of the run is that of a logged call. */
module CallLog {
  import opened Graphs
  import opened Steps
  import opened WorkflowDefinition
  import opened RunHistory
  import opened Engine

  /** One call: an announcement with the handler's verdict, a run of a step on the outputs of its
      moment, or the announcement of a failure, whose verdict nobody minds. */
  datatype Call = Announced(id: Id, accepted: bool) | Ran(item: Item, base: Outputs) | ToldFailure(id: Id)

  function LaunchLog(items: seq<Item>, base: Outputs, resumed: Id): (calls: seq<Call>)
    ensures |calls| == LaunchCalls(items, resumed)
  {
    if items == [] then []
    else
      var last := items[|items| - 1];
      LaunchLog(items[..|items| - 1], base, resumed)
      + (if last.step.id == resumed then [] else [Announced(last.step.id, true)]) + [Ran(last, base)]
  }

  /** The last success read is the refused one, if any is. */
  function ReadLog(read: seq<Item>, refused: bool): (calls: seq<Call>)
    ensures |calls| == |read|
  {
    seq(|read|, i requires 0 <= i < |read| => ReadCall(read[i], !(refused && i == |read| - 1)))
  }

  function ReadCall(item: Item, accepted: bool): Call {
    if item.outcome.Done? then Announced(item.step.id, accepted) else ToldFailure(item.step.id)
  }

  /** All calls of a run in order: call number `k` is made at moment `k + 1`. */
  function Calls(seeds: Outputs, h: History, ending: Ending, resumed: Id): (calls: seq<Call>)
    ensures |calls| == Moments(h, resumed) + if ending.StartRefused? then 1 else 0
  {
    var batches := if h.NoBatch? then []
                   else Calls(seeds, h.earlier, Quiet, resumed) + BatchLog(seeds, h, ending, resumed);
    batches + if ending.StartRefused? then [Announced(ending.id, false)] else []
  }

  function BatchLog(seeds: Outputs, h: History, ending: Ending, resumed: Id): seq<Call>
    requires h.Then?
  {
    LaunchLog(h.items, OutputsOf(seeds, h.earlier), resumed) + ReadLog(h.read, ending.FinishRefused?)
  }

  /** The call went this way at moment `t`. */
  ghost predicate TrueCall(j: Job, c: Call, t: nat) {
    match c
    case Announced(x, accepted) => j.world.accepts(t, x) == accepted
    case Ran(item, base) => item.outcome == RunStep(j.world, t, item.step, j.initial, base)
    case ToldFailure(_) => true
  }

  /** The calls went this way at the moments after `t`, one after the other. */
  ghost predicate TrueLog(j: Job, calls: seq<Call>, t: nat) {
    forall k :: 0 <= k < |calls| ==> TrueCall(j, calls[k], t + 1 + k)
  }

  lemma TrueLogJoin(j: Job, a: seq<Call>, b: seq<Call>, t: nat)
    ensures TrueLog(j, a + b, t) <==> TrueLog(j, a, t) && TrueLog(j, b, t + |a|)
  {
    hide TrueCall;
    if TrueLog(j, a + b, t) {
      forall k | 0 <= k < |a| ensures TrueCall(j, a[k], t + 1 + k) {
        assert (a + b)[k] == a[k];
      }
      forall k | 0 <= k < |b| ensures TrueCall(j, b[k], t + |a| + 1 + k) {
        assert (a + b)[|a| + k] == b[k];
        assert TrueCall(j, (a + b)[|a| + k], t + 1 + (|a| + k));
      }
    }
    if TrueLog(j, a, t) && TrueLog(j, b, t + |a|) {
      forall k | 0 <= k < |a + b| ensures TrueCall(j, (a + b)[k], t + 1 + k) {
        if k >= |a| { assert TrueCall(j, b[k - |a|], t + |a| + 1 + (k - |a|)); }
      }
    }
  }

  lemma TrueOne(j: Job, c: Call, t: nat)
    ensures TrueLog(j, [c], t) <==> TrueCall(j, c, t + 1)
  {
    assert [c][0] == c;
  }

  lemma {:induction false} LaunchHonest(j: Job, base: Outputs, items: seq<Item>, t: nat)
    ensures HonestLaunch(j, base, items, t) <==> TrueLog(j, LaunchLog(items, base, j.resumed), t)
  {
    hide RunStep;
    if items != [] {
      var init, last := items[..|items| - 1], items[|items| - 1];
      var start := if last.step.id == j.resumed then [] else [Announced(last.step.id, true)];
      var u := t + LaunchCalls(init, j.resumed);
      LaunchHonest(j, base, init, t);
      TrueLogJoin(j, LaunchLog(init, base, j.resumed) + start, [Ran(last, base)], t);
      TrueLogJoin(j, LaunchLog(init, base, j.resumed), start, t);
      TrueOne(j, Ran(last, base), u + |start|);
      TrueOne(j, Announced(last.step.id, true), u);
    }
  }

  lemma ReadHonest(j: Job, read: seq<Item>, t: nat, refused: bool)
    requires refused ==> read != [] && read[|read| - 1].outcome.Done?
    ensures HonestReads(j.world, read, t, refused) <==> TrueLog(j, ReadLog(read, refused), t)
  {
    var log := ReadLog(read, refused);
    if TrueLog(j, log, t) {
      forall i | 0 <= i < |read| && read[i].outcome.Done?
        ensures j.world.accepts(t + 1 + i, read[i].step.id) == !(refused && i == |read| - 1)
      {
        assert TrueCall(j, log[i], t + 1 + i);
      }
    }
  }

  /** How a refusal fits the history: an announcement is refused of a step that is not the resumed
      one, or of the success just read. */
  ghost predicate Fits(j: Job, h: History, ending: Ending) {
    && (ending.StartRefused? ==> ending.id != j.resumed)
    && (ending.FinishRefused? && h.Then? ==> h.read != [] && h.read[|h.read| - 1].outcome.Done?)
  }

  /** A history is what really happened exactly when each of its calls is, at the moment that is
      its place in the log. */
  lemma {:induction false} HonestCalls(j: Job, seeds: Outputs, h: History, ending: Ending)
    ensures Honest(j, seeds, h, ending) <==> Fits(j, h, ending) && TrueLog(j, Calls(seeds, h, ending, j.resumed), 0)
    decreases h, ending.StartRefused?
  {
    hide HonestLaunch, HonestReads, OutputsOf, TrueLog, BatchLog;
    if ending.StartRefused? {
      HonestCalls(j, seeds, h, Quiet);
      RefusedLast(j, seeds, h, ending);
    } else if h.Then? {
      var earlier := Calls(seeds, h.earlier, Quiet, j.resumed);
      assert Calls(seeds, h, ending, j.resumed) == earlier + BatchLog(seeds, h, ending, j.resumed);
      HonestCalls(j, seeds, h.earlier, Quiet);
      BatchHonest(j, seeds, h, ending);
      TrueLogJoin(j, earlier, BatchLog(seeds, h, ending, j.resumed), 0);
    } else {
      NothingCalled(j);
    }
  }

  lemma BatchHonest(j: Job, seeds: Outputs, h: History, ending: Ending)
    requires h.Then? && !ending.StartRefused?
    ensures var t := Moments(h.earlier, j.resumed);
            Fits(j, h, ending) && TrueLog(j, BatchLog(seeds, h, ending, j.resumed), t)
            <==> HonestLaunch(j, OutputsOf(seeds, h.earlier), h.items, t)
                 && HonestReads(j.world, h.read, t + LaunchCalls(h.items, j.resumed), ending.FinishRefused?)
  {
    hide HonestLaunch, OutputsOf, TrueLog, LaunchLog, ReadLog, LaunchCalls, Moments;
    var t, launch := Moments(h.earlier, j.resumed), LaunchLog(h.items, OutputsOf(seeds, h.earlier), j.resumed);
    LaunchHonest(j, OutputsOf(seeds, h.earlier), h.items, t);
    TrueLogJoin(j, launch, ReadLog(h.read, ending.FinishRefused?), t);
    if Fits(j, h, ending) { ReadHonest(j, h.read, t + |launch|, ending.FinishRefused?); }
  }

  lemma NothingCalled(j: Job)
    ensures TrueLog(j, [], 0)
  {
  }

  lemma RefusedLast(j: Job, seeds: Outputs, h: History, ending: Ending)
    requires ending.StartRefused?
    ensures TrueLog(j, Calls(seeds, h, ending, j.resumed), 0) <==>
              TrueLog(j, Calls(seeds, h, Quiet, j.resumed), 0)
              && !j.world.accepts(Moments(h, j.resumed) + 1, ending.id)
  {
    hide TrueLog;
    var refused := Announced(ending.id, false);
    assert h.Then? ==> BatchLog(seeds, h, ending, j.resumed) == BatchLog(seeds, h, Quiet, j.resumed);
    assert Calls(seeds, h, ending, j.resumed) == Calls(seeds, h, Quiet, j.resumed) + [refused];
    TrueLogJoin(j, Calls(seeds, h, Quiet, j.resumed), [refused], 0);
    TrueOne(j, refused, Moments(h, j.resumed));
  }

  /** An accepted announcement, a run that succeeded, or an announcement nobody minds. */
  predicate Well(c: Call) {
    match c
    case Announced(_, accepted) => accepted
    case Ran(item, _) => item.outcome.Done?
    case ToldFailure(_) => true
  }

  ghost predicate AllWell(calls: seq<Call>) {
    forall k :: 0 <= k < |calls| ==> Well(calls[k])
  }

  lemma AllWellJoin(a: seq<Call>, b: seq<Call>)
    ensures AllWell(a + b) <==> AllWell(a) && AllWell(b)
  {
    if AllWell(a + b) {
      forall k | 0 <= k < |a| ensures Well(a[k]) { assert (a + b)[k] == a[k]; }
      forall k | 0 <= k < |b| ensures Well(b[k]) { assert (a + b)[|a| + k] == b[k]; }
    }
  }

  lemma {:induction false} LaunchWell(items: seq<Item>, base: Outputs, resumed: Id)
    ensures AllWell(LaunchLog(items, base, resumed)) <==> AllDone(items)
  {
    if items != [] {
      var init, last := items[..|items| - 1], items[|items| - 1];
      var start := if last.step.id == resumed then [] else [Announced(last.step.id, true)];
      LaunchWell(init, base, resumed);
      AllWellJoin(LaunchLog(init, base, resumed) + start, [Ran(last, base)]);
      AllWellJoin(LaunchLog(init, base, resumed), start);
      assert [Ran(last, base)][0] == Ran(last, base);
      assert items == init + [last];
      assert AllDone(items) <==> AllDone(init) && last.outcome.Done? by { AllDoneSnoc(init, last); }
    }
  }

  lemma AllDoneSnoc(init: seq<Item>, last: Item)
    ensures AllDone(init + [last]) <==> AllDone(init) && last.outcome.Done?
  {
    var items := init + [last];
    if AllDone(items) {
      forall i | 0 <= i < |init| ensures init[i].outcome.Done? { assert items[i] == init[i]; }
      assert items[|init|] == last;
    }
  }

  lemma ReadWell(read: seq<Item>, refused: bool)
    requires refused ==> read != [] && read[|read| - 1].outcome.Done?
    ensures AllWell(ReadLog(read, refused)) <==> !refused
  {
    if refused { assert !Well(ReadLog(read, refused)[|read| - 1]); }
  }

  lemma SameDone(items: seq<Item>, read: seq<Item>)
    requires multiset(read) == multiset(items)
    ensures AllDone(read) <==> AllDone(items)
  {
    ReadWasStarted(items, read);
    ReadWasStarted(read, items);
  }

  /** In a history that is kept to, the calls all went well exactly when it succeeded and nothing
      was refused. */
  lemma {:induction false} WellExactly(j: Job, seeds: Outputs, h: History, ending: Ending, limit: int)
    requires Kept(j, seeds, h, ending, limit)
    ensures AllWell(Calls(seeds, h, ending, j.resumed)) <==> ending.Quiet? && Succeeded(h)
  {
    hide HonestLaunch, HonestReads, OutputsOf, MayStart, AllDone, AllWell, MayStartOne, StartStatus, StatusOf,
         NextBatch, BatchLog;
    var refused := if ending.StartRefused? then [Announced(ending.id, false)] else [];
    RefusedIll(ending);
    if h.Then? {
      var earlier := Calls(seeds, h.earlier, Quiet, j.resumed);
      AllWellJoin(earlier + BatchLog(seeds, h, ending, j.resumed), refused);
      AllWellJoin(earlier, BatchLog(seeds, h, ending, j.resumed));
      assert Kept(j, seeds, h.earlier, Quiet, limit);
      WellExactly(j, seeds, h.earlier, Quiet, limit);
      BatchWell(j, seeds, h, ending);
      if ending.Quiet? { SameDone(h.items, h.read); }
    } else {
      AllWellJoin([], refused);
    }
  }

  lemma BatchWell(j: Job, seeds: Outputs, h: History, ending: Ending)
    requires h.Then? && Honest(j, seeds, h, ending)
    ensures AllWell(BatchLog(seeds, h, ending, j.resumed)) <==> AllDone(h.items) && !ending.FinishRefused?
  {
    hide HonestLaunch, OutputsOf, AllDone, AllWell, LaunchLog, ReadLog;
    var launch := LaunchLog(h.items, OutputsOf(seeds, h.earlier), j.resumed);
    AllWellJoin(launch, ReadLog(h.read, ending.FinishRefused?));
    LaunchWell(h.items, OutputsOf(seeds, h.earlier), j.resumed);
    ReadWell(h.read, ending.FinishRefused?);
  }

  lemma RefusedIll(ending: Ending)
    ensures AllWell(if ending.StartRefused? then [Announced(ending.id, false)] else []) <==> !ending.StartRefused?
  {
    if ending.StartRefused? { assert !Well([Announced(ending.id, false)][0]); }
  }

  /** Progress: a run ends without an error exactly when every call in its log went well. */
  lemma SucceedsExactly(j: Job, before: Outputs, after: Outputs, limit: int, r: Result, h: History, ending: Ending)
    requires RunPromise(j, before, after, limit, r, h, ending)
    ensures r.err.NoError? <==> AllWell(Calls(Seeds(j.def, before), h, ending, j.resumed))
  {
    hide Schedule, Greedy, Honest, HonestLaunch, OutputsOf, StatusOf, StartStatus, Seeds, AllWell, Calls;
    WellExactly(j, Seeds(j.def, before), h, ending, limit);
    if h.Then? { NoErrorAllDone(h.read); }
  }

  /** An error is that of a logged call: the last one, an announcement turned down, or a step that
      ran and broke with this cause, the last one read that broke. */
  lemma ErrorTold(j: Job, before: Outputs, after: Outputs, limit: int, r: Result, h: History, ending: Ending)
    requires RunPromise(j, before, after, limit, r, h, ending)
    ensures r.err.NoError? || r.err.StepFailed? || r.err.EventRejected?
    ensures var calls := Calls(Seeds(j.def, before), h, ending, j.resumed);
            && (r.err.EventRejected? <==>
                  calls != [] && calls[|calls| - 1].Announced? && !calls[|calls| - 1].accepted)
            && (r.err.StepFailed? ==> exists k :: 0 <= k < |calls| && BrokeWith(calls[k], r.err.cause))
    ensures r.err.StepFailed? ==> h.Then? && exists i :: LastBroken(h.read, i, r.err.cause)
  {
    hide MayStartOne, Greedy, HonestLaunch, OutputsOf, StatusOf, StartStatus, Seeds, LaunchLog, BatchLog;
    var seeds := Seeds(j.def, before);
    var calls := Calls(seeds, h, ending, j.resumed);
    if h.Then? {
      NoErrorAllDone(h.read);
      LastCall(seeds, h, ending, j.resumed);
      if r.err.StepFailed? {
        var i := LastErrorIs(h.read);
        var k := BrokeLogged(seeds, h, ending, j.resumed, r.err.cause);
      }
    }
  }

  /** Result `i` is the last failure that was read, and its cause is this. */
  ghost predicate LastBroken(read: seq<Item>, i: int, cause: StepError) {
    0 <= i < |read| && read[i].outcome == Broke(cause) && forall k :: i < k < |read| ==> read[k].outcome.Done?
  }

  lemma {:induction false} LastErrorIs(read: seq<Item>) returns (i: nat)
    requires LastError(read).StepFailed?
    ensures LastBroken(read, i, LastError(read).cause)
  {
    var n := |read| - 1;
    if read[n].outcome.Broke? { i := n; } else { i := LastErrorIs(read[..n]); }
  }

  lemma BrokeLogged(seeds: Outputs, h: History, ending: Ending, resumed: Id, cause: StepError) returns (k: nat)
    requires h.Then? && multiset(h.read) <= multiset(h.items)
    requires exists i :: 0 <= i < |h.read| && h.read[i].outcome == Broke(cause)
    ensures k < |Calls(seeds, h, ending, resumed)| && BrokeWith(Calls(seeds, h, ending, resumed)[k], cause)
  {
    hide Calls;
    var i :| 0 <= i < |h.read| && h.read[i].outcome == Broke(cause);
    ReadWasStarted(h.items, h.read);
    var n :| 0 <= n < |h.items| && h.items[n] == h.read[i];
    k := RanLogged(seeds, h, ending, resumed, n);
  }

  predicate BrokeWith(c: Call, cause: StepError) {
    c.Ran? && c.item.outcome == Broke(cause)
  }

  lemma LastCall(seeds: Outputs, h: History, ending: Ending, resumed: Id)
    requires h.Then? && (ending.Quiet? ==> h.items != [] && multiset(h.read) == multiset(h.items))
    requires ending.FinishRefused? ==> h.read != [] && h.read[|h.read| - 1].outcome.Done?
    ensures var calls := Calls(seeds, h, ending, resumed);
            calls != [] && (calls[|calls| - 1].Announced? && !calls[|calls| - 1].accepted <==> !ending.Quiet?)
  {
    hide LaunchLog, OutputsOf;
    if ending.Quiet? { assert h.items[0] in multiset(h.read); }
    assert !ending.StartRefused? ==> |ReadLog(h.read, ending.FinishRefused?)| > 0;
  }

  /** Every started step has a call in the log. */
  lemma {:induction false} LaunchLogged(items: seq<Item>, base: Outputs, resumed: Id, i: nat) returns (k: nat)
    requires i < |items|
    ensures k < |LaunchLog(items, base, resumed)| && LaunchLog(items, base, resumed)[k] == Ran(items[i], base)
  {
    var n := |items| - 1;
    if i < n {
      k := LaunchLogged(items[..n], base, resumed, i);
    } else {
      k := |LaunchLog(items, base, resumed)| - 1;
    }
  }

  lemma RanLogged(seeds: Outputs, h: History, ending: Ending, resumed: Id, i: nat) returns (k: nat)
    requires h.Then? && i < |h.items|
    ensures k < |Calls(seeds, h, ending, resumed)|
    ensures Calls(seeds, h, ending, resumed)[k] == Ran(h.items[i], OutputsOf(seeds, h.earlier))
  {
    hide LaunchLog, ReadLog, OutputsOf;
    k := LaunchLogged(h.items, OutputsOf(seeds, h.earlier), resumed, i);
    k := |Calls(seeds, h.earlier, Quiet, resumed)| + k;
  }

  /** Read as held or failed: the last batch's result of the step says so. */
  ghost predicate BrokeAs(read: seq<Item>, x: Id, s: Status) {
    exists i ::
      && 0 <= i < |read| && read[i].step.id == x && read[i].outcome.Broke?
      && StatusFor(read[i].outcome.error) == s
  }

  predicate Unread(h: History, x: Id) {
    h.Then? && x in ItemIds(h.items) && x !in ItemIds(h.read)
  }

  predicate Stuck(s: Status) {
    s == Failed || OnHold(s)
  }

  /** What one batch makes of the statuses. */
  lemma BatchStatus(def: Definition, status: Statuses, base: Outputs, items: seq<Item>, read: seq<Item>, limit: int,
                    x: Id)
    requires Settled(def, status, base) && MayStart(def, base.Keys, items, limit) && multiset(read) <= multiset(items)
    ensures var after := MarkRead(MarkRunning(status, items), read);
            && (x in after <==> x in StepIds(def))
            && (x in after ==>
                  && (after[x] == Success <==> x in Collected(base, read))
                  && (after[x] == Running <==> x in ItemIds(items) && x !in ItemIds(read))
                  && (after[x] == Pending <==> x !in base && x !in ItemIds(items))
                  && (forall s :: Stuck(s) ==> (after[x] == s <==> BrokeAs(read, x, s))))
  {
    hide MarkRead, MarkRunning, Collected, MayStart, Settled, ItemIds, Brought, BroughtBy, BrokeAs;
    MarkRunningAt(status, items, x);
    MarkReadAt(MarkRunning(status, items), read, x);
    CollectedAt(base, read, x);
    ReadWasStarted(items, read);
    SettledAt(def, status, base, x);
    if x in ItemIds(items) { StartedIn(def, base.Keys, items, limit, x); }
    if x in ItemIds(read) {
      var i :| 0 <= i < |read| && read[i].step.id == x
               && MarkRead(MarkRunning(status, items), read)[x] == ResultStatus(read[i].outcome);
      forall k | 0 <= k < |read| && read[k].step.id == x ensures read[k] == read[i] {
        SameItem(def, base.Keys, items, read, limit, i, k);
      }
      ReadAs(read, x, i);
    } else {
      NotRead(read, x);
    }
  }

  lemma SettledAt(def: Definition, status: Statuses, base: Outputs, x: Id)
    requires Settled(def, status, base)
    ensures (x in status <==> x in StepIds(def)) && (x in base ==> x in status)
    ensures x in status ==> status[x] == if x in base then Success else Pending
  {
  }

  /** A step is started once, so the results read under one id are one result. */
  lemma SameItem(def: Definition, before: set<Id>, items: seq<Item>, read: seq<Item>, limit: int, i: nat, k: nat)
    requires MayStart(def, before, items, limit) && multiset(read) <= multiset(items)
    requires i < |read| && k < |read| && read[i].step.id == read[k].step.id
    ensures read[i] == read[k]
  {
    hide MayStartOne, Members, ItemIds;
    ReadWasStarted(items, read);
    OneItem(items, read[i], read[k]);
  }

  lemma OneItem(items: seq<Item>, x: Item, y: Item)
    requires NoRepeats(ItemIds(items)) && x in items && y in items && x.step.id == y.step.id
    ensures x == y
  {
    var a :| 0 <= a < |items| && items[a] == x;
    var b :| 0 <= b < |items| && items[b] == y;
    assert ItemIds(items)[a] == ItemIds(items)[b];
  }

  lemma ReadAs(read: seq<Item>, x: Id, i: nat)
    requires i < |read| && read[i].step.id == x
    requires forall k :: 0 <= k < |read| && read[k].step.id == x ==> read[k] == read[i]
    ensures Brought(read, x) <==> ResultStatus(read[i].outcome) == Success
    ensures forall s :: Stuck(s) ==> (ResultStatus(read[i].outcome) == s <==> BrokeAs(read, x, s))
    ensures ResultStatus(read[i].outcome) == Success || Stuck(ResultStatus(read[i].outcome))
  {
  }

  lemma NotRead(read: seq<Item>, x: Id)
    requires x !in ItemIds(read)
    ensures !Brought(read, x) && forall s :: !BrokeAs(read, x, s)
  {
    forall i | 0 <= i < |read| ensures read[i].step.id != x { assert ItemIds(read)[i] != x; }
  }

  /** The last batch's result of the step was this error. */
  ghost predicate Reported(h: History, x: Id, e: StepError) {
    h.Then? && exists i :: 0 <= i < |h.read| && h.read[i].step.id == x && h.read[i].outcome == Broke(e)
  }

  /** Neither a pause nor a wait for approval. */
  predicate Fatal(e: StepError) {
    match e
    case FromRunner(PauseRequested) => false
    case FromRunner(ApprovalRequested) => false
    case _ => true
  }

  lemma CauseOfStatus(h: History, x: Id)
    requires h.Then?
    ensures BrokeAs(h.read, x, Paused) <==> Reported(h, x, FromRunner(PauseRequested))
    ensures BrokeAs(h.read, x, WaitingApproval) <==> Reported(h, x, FromRunner(ApprovalRequested))
    ensures BrokeAs(h.read, x, Failed) <==> exists e :: Fatal(e) && Reported(h, x, e)
  {
    if i :| 0 <= i < |h.read| && h.read[i].step.id == x && h.read[i].outcome.Broke? && Fatal(h.read[i].outcome.error) {
      assert Reported(h, x, h.read[i].outcome.error);
    }
  }

  /** What every status of a run means: a success has an output; a paused, waiting or failed step
      reported in the last batch that it pauses, that it waits, or another error; a running one was
      started but not read, or refused at its start; a pending one was neither seeded nor started. */
  lemma StatusTold(j: Job, before: Outputs, after: Outputs, limit: int, r: Result, h: History, ending: Ending, x: Id)
    requires RunPromise(j, before, after, limit, r, h, ending)
    ensures x in r.status <==> x in StepIds(j.def)
    ensures x in r.status ==>
              && (r.status[x] == Success <==> x in r.outputs)
              && (r.status[x] == Running <==> ending == StartRefused(x) || Unread(h, x))
              && (r.status[x] == Pending <==>
                    x !in Seeds(j.def, before) && x !in Started(h) && ending != StartRefused(x))
              && (r.status[x] == Paused <==> Reported(h, x, FromRunner(PauseRequested)))
              && (r.status[x] == WaitingApproval <==> Reported(h, x, FromRunner(ApprovalRequested)))
              && (r.status[x] == Failed <==> exists e :: Fatal(e) && Reported(h, x, e))
  {
    hide RunPromise, BrokeAs, Reported, Seeds, Started, Unread, StepIds;
    StatusByResult(j, before, after, limit, r, h, ending, x);
    assert Stuck(Paused) && Stuck(WaitingApproval) && Stuck(Failed);
    if h.Then? { CauseOfStatus(h, x); } else { NothingReported(h, x); }
  }

  lemma StatusByResult(j: Job, before: Outputs, after: Outputs, limit: int, r: Result, h: History, ending: Ending,
                       x: Id)
    requires RunPromise(j, before, after, limit, r, h, ending)
    ensures x in r.status <==> x in StepIds(j.def)
    ensures x in r.status ==>
              && (r.status[x] == Success <==> x in r.outputs)
              && (r.status[x] == Running <==> ending == StartRefused(x) || Unread(h, x))
              && (r.status[x] == Pending <==>
                    x !in Seeds(j.def, before) && x !in Started(h) && ending != StartRefused(x))
              && (forall s :: Stuck(s) ==> (r.status[x] == s <==> h.Then? && BrokeAs(h.read, x, s)))
  {
    hide Greedy, Honest, StartStatus, OutputsOf, StatusOf, MayStart, Settled, AllDone;
    var seeds := Seeds(j.def, before);
    var start := StartStatus(j.def, seeds);
    StatusBefore(j.def, seeds, h, limit, x);
    assert r.status == WithEnding(StatusOf(start, h), ending);
    if ending.StartRefused? && ending.id == x {
      RefusedUnread(j.def, seeds, h, ending, limit);
    }
  }

  lemma NothingReported(h: History, x: Id)
    ensures h.NoBatch? ==> forall e :: !Reported(h, x, e)
  {
  }

  lemma StatusBefore(def: Definition, seeds: Outputs, h: History, limit: int, x: Id)
    requires Schedule(def, seeds.Keys, h, limit) && seeds.Keys <= StepIds(def)
    ensures var status := StatusOf(StartStatus(def, seeds), h);
            && (x in status <==> x in StepIds(def))
            && (x in status ==>
                  && (status[x] == Success <==> x in OutputsOf(seeds, h))
                  && (status[x] == Running <==> Unread(h, x))
                  && (status[x] == Pending <==> x !in seeds && x !in Started(h))
                  && (forall s :: Stuck(s) ==> (status[x] == s <==> h.Then? && BrokeAs(h.read, x, s))))
  {
    hide StartStatus, Collected, MarkRead, MarkRunning, MayStart, AllDone, BrokeAs;
    if h.Then? {
      SettledAfter(def, seeds, h.earlier, limit);
      HistoryOutputs(def, seeds, h, limit);
      BatchStatus(def, StatusOf(StartStatus(def, seeds), h.earlier), OutputsOf(seeds, h.earlier), h.items, h.read,
                  limit, x);
    } else {
      SettledAfter(def, seeds, h, limit);
    }
  }

  /** The refused step has no output and no result. */
  lemma RefusedUnread(def: Definition, seeds: Outputs, h: History, ending: Ending, limit: int)
    requires Schedule(def, seeds.Keys, h, limit) && seeds.Keys <= StepIds(def)
    requires ending.StartRefused? && EndsAs(def, seeds.Keys, h, ending)
    ensures ending.id in StepIds(def) && ending.id !in OutputsOf(seeds, h) && ending.id !in Started(h)
    ensures h.Then? ==> forall s :: !BrokeAs(h.read, ending.id, s)
  {
    hide MayStart, AllDone, OutputsOf, BrokeAs;
    HistoryOutputs(def, seeds, h, limit);
    if h.Then? {
      ReadWasStarted(h.items, h.read);
      assert ending.id !in Members(ItemIds(h.read));
      NotRead(h.read, ending.id);
    }
  }

  /** A run reports a pause exactly when some step is on hold. */
  lemma PausedExactly(j: Job, before: Outputs, after: Outputs, limit: int, r: Result, h: History, ending: Ending)
    requires RunPromise(j, before, after, limit, r, h, ending)
    ensures r.paused <==> exists x :: x in r.status && OnHold(r.status[x])
  {
    hide Greedy, Honest, Schedule, EndsAs, OutputsOf, StatusOf, StartStatus, FinalStatus, Seeds;
    if r.paused {
      var i :| 0 <= i < |h.read| && Holds(h.read[i]);
      var x := h.read[i].step.id;
      StatusTold(j, before, after, limit, r, h, ending, x);
      ReadInDefinition(j.def, Seeds(j.def, before).Keys, h, limit, i);
      assert Reported(h, x, h.read[i].outcome.error);
    }
    if x :| x in r.status && OnHold(r.status[x]) {
      StatusTold(j, before, after, limit, r, h, ending, x);
      var e := FromRunner(if r.status[x] == Paused then PauseRequested else ApprovalRequested);
      assert Reported(h, x, e);
      var i :| 0 <= i < |h.read| && h.read[i].step.id == x && h.read[i].outcome == Broke(e);
      assert Holds(h.read[i]);
    }
  }

  lemma ReadInDefinition(def: Definition, seeds: set<Id>, h: History, limit: int, i: nat)
    requires h.Then? && i < |h.read| && Schedule(def, seeds, h, limit)
    ensures h.read[i].step.id in StepIds(def)
  {
    ReadWasStarted(h.items, h.read);
    IdOf(h.items, h.read[i]);
    StartedIn(def, seeds + Started(h.earlier), h.items, limit, h.read[i].step.id);
  }

  /** In every run a step is started only when all its dependencies are success, and they stay so. */
  lemma StartsOnlyOnSuccess(j: Job, before: Outputs, after: Outputs, limit: int, r: Result, h: History, ending: Ending,
                            x: Id, d: Id)
    requires RunPromise(j, before, after, limit, r, h, ending)
    requires x in Started(h) && d in Deps(Edges(j.def), x)
    ensures d in r.status && r.status[d] == Success && StartedAfter(h, Seeds(j.def, before).Keys, x, d)
  {
    hide Greedy, Honest, StatusOf, StartStatus, EndsAs, StartedAfter, Seeds;
    var seeds := Seeds(j.def, before);
    SeedsWithin(j.def, before);
    DependenciesFirst(j.def, seeds.Keys, h, limit, x, d);
    HistoryOutputs(j.def, seeds, h, limit);
    StatusTold(j, before, after, limit, r, h, ending, d);
  }

  lemma SeedsWithin(def: Definition, before: Outputs)
    ensures Seeds(def, before).Keys <= StepIds(def)
  {
  }

  /** Where an output comes from: it was seeded, or it is what a logged run of its step produced. */
  lemma {:induction false} OutputTold(def: Definition, seeds: Outputs, h: History, ending: Ending, limit: int,
                                      resumed: Id, x: Id)
    requires Schedule(def, seeds.Keys, h, limit) && seeds.Keys <= StepIds(def) && x in OutputsOf(seeds, h)
    ensures var out := OutputsOf(seeds, h)[x];
            if x in seeds then out == seeds[x]
            else
              var calls := Calls(seeds, h, ending, resumed);
              exists k :: 0 <= k < |calls| && Produced(calls[k], x, out)
  {
    hide MayStart, AllDone, Collected, Calls, StepIds, Produced;
    HistoryOutputs(def, seeds, h, limit);
    if x !in seeds {
      var base := OutputsOf(seeds, h.earlier);
      CollectedAt(base, h.read, x);
      if x in base {
        OutputTold(def, seeds, h.earlier, Quiet, limit, resumed, x);
        LogGrows(seeds, h, ending, resumed);
      } else {
        BroughtLogged(seeds, h, ending, resumed, x);
      }
    }
  }

  lemma LogGrows(seeds: Outputs, h: History, ending: Ending, resumed: Id)
    requires h.Then?
    ensures Calls(seeds, h.earlier, Quiet, resumed) <= Calls(seeds, h, ending, resumed)
  {
    hide LaunchLog, ReadLog, OutputsOf;
  }

  lemma BroughtLogged(seeds: Outputs, h: History, ending: Ending, resumed: Id, x: Id)
    requires h.Then? && multiset(h.read) <= multiset(h.items) && x in OutputsOf(seeds, h)
    requires BroughtBy(h.read, x, OutputsOf(seeds, h)[x])
    ensures var calls := Calls(seeds, h, ending, resumed);
            exists k :: 0 <= k < |calls| && Produced(calls[k], x, OutputsOf(seeds, h)[x])
  {
    hide Calls, OutputsOf;
    var out := OutputsOf(seeds, h)[x];
    var i :| 0 <= i < |h.read| && h.read[i].step.id == x && h.read[i].outcome == Done(out);
    ReadWasStarted(h.items, h.read);
    var n :| 0 <= n < |h.items| && h.items[n] == h.read[i];
    var k := RanLogged(seeds, h, ending, resumed, n);
    assert Produced(Calls(seeds, h, ending, resumed)[k], x, out);
  }

  predicate Produced(c: Call, x: Id, out: Record) {
    c.Ran? && c.item.step.id == x && c.item.outcome == Done(out)
  }
}
