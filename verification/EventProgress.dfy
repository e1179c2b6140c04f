/** server/internal/handler/task_event.go: the loop never hangs. Whatever is published or dropped
    before, its own steps bring it to the end of what it can send. */
module EventProgress {
  import opened EventStream

  /** A step of the goroutine or of the main loop: not the answer of the catch-up query, and not the
      client's. */
  predicate Own(step: Step) {
    step != Query && step != QueryFails && step != Cancel
  }

  ghost predicate Waits(s: State, after: int) {
    forall step :: Own(step) ==> !Enabled(s, after, step)
  }

  /** Where goroutine and main loop can stand together. */
  predicate Standing(s: State, after: int) {
    && (s.worker != Buffering ==> s.stop)
    && (s.stop ==> s.main != CatchUp && !s.main.History?)
    && (s.main.Joining? || s.main == Failing ==> s.stop)
    && (s.main.Live? || s.main.Flushing? ==> s.worker == Detached)
    && (s.main.History? ==> s.main.k <= Rows(after, s.main.upTo))
    && (s.main.Flushing? ==> s.main.k <= |s.buffer|)
  }

  /** A bound on how many own steps are left: a waiting value can be buffered and then flushed. */
  function Left(s: State, after: int): int {
    2 * |s.chan| + (match s.worker case Buffering => 2 case Draining => 1 case Detached => 0)
    + match s.main
      case CatchUp => 5 + |s.buffer|
      case History(q, k) => 4 + |s.buffer| + Rows(after, q) - k
      case Joining(_) => 3 + |s.buffer|
      case Flushing(_, k) => 2 + |s.buffer| - k
      case Live(_) => 1
      case Failing => 1
      case Returned => 0
  }

  lemma StepStands(s: State, after: int, step: Step)
    requires Standing(s, after) && Enabled(s, after, step)
    ensures Standing(Take(s, after, step), after)
  {
  }

  /** Every own step brings the end nearer. */
  lemma OwnStepDescends(s: State, after: int, step: Step)
    requires Standing(s, after) && Enabled(s, after, step) && Own(step)
    ensures var t := Take(s, after, step);
            && 0 <= Left(t, after) < Left(s, after) && t.last == s.last
            && (s.main != CatchUp ==> t.main != CatchUp)
            && (s.main == Failing && s.emitted == [] ==> (t.main == Failing || t.main == Returned) && t.emitted == [])
            && (Listening(s) ==> Listening(t))
  {
  }

  /** The two wait only for the query, for the next value on a quiet live stream, or for nothing. */
  lemma WaitsWhere(s: State, after: int)
    requires Standing(s, after) && Waits(s, after) && s.main != CatchUp
    ensures s.main == Returned || (s.main.Live? && s.chan == [])
  {
    assert Own(EmitRow) && Own(CloseStop) && Own(SeeStop) && Own(Receive) && Own(DrainEnd) && Own(Join);
    assert Own(FlushOne) && Own(FlushEnd) && Own(Emit) && Own(Abort);
  }

  /** A run of own steps. */
  ghost predicate OwnRun(trace: seq<State>, after: int) {
    |trace| > 0 && forall k :: 0 <= k < |trace| - 1 ==> Goes(trace[k], after, trace[k + 1])
  }

  ghost predicate Goes(s: State, after: int, t: State) {
    exists step :: Own(step) && Enabled(s, after, step) && t == Take(s, after, step)
  }

  lemma GoesOn(s: State, after: int, t: State)
    requires Standing(s, after) && Goes(s, after, t)
    ensures Standing(t, after) && 0 <= Left(t, after) < Left(s, after) && t.last == s.last
    ensures Listening(s) ==> Listening(t)
    ensures s.main == Failing && s.emitted == [] ==> (t.main == Failing || t.main == Returned) && t.emitted == []
    ensures s.main == Returned && s.emitted == [] ==> t.main == Returned && t.emitted == []
    ensures forall start :: Inv(s, after, start) ==> Inv(t, after, start)
  {
    hide Take, Enabled, Left, Inv;
    var step :| Own(step) && Enabled(s, after, step) && t == Take(s, after, step);
    StepStands(s, after, step);
    OwnStepDescends(s, after, step);
    ReturnedStays(s, after, step);
    forall start | Inv(s, after, start) ensures Inv(t, after, start) { StepKeeps(s, after, start, step); }
  }

  lemma ReturnedStays(s: State, after: int, step: Step)
    requires Standing(s, after) && Enabled(s, after, step)
    ensures s.main == Returned ==> Take(s, after, step).main == Returned && Take(s, after, step).emitted == s.emitted
  {
  }

  /** However the selects choose: the own steps are bounded in number, and when none is left the
      stream is live and quiet, or has returned after a failed query. */
  lemma {:induction false} EveryOwnRunSettles(trace: seq<State>, after: int)
    requires OwnRun(trace, after) && Standing(trace[0], after)
    requires Listening(trace[0]) || (trace[0].main == Failing && trace[0].emitted == [])
    ensures var s, end := trace[0], trace[|trace| - 1];
            && |trace| - 1 <= Left(s, after) - Left(end, after) && Left(end, after) >= 0
            && Standing(end, after) && end.last == s.last
            && (forall start :: Inv(s, after, start) ==> Inv(end, after, start))
            && (Waits(end, after) ==> Ends(s, end))
    ensures Listening(trace[0]) ==> Listening(trace[|trace| - 1])
    ensures !Listening(trace[0]) ==>
              var end := trace[|trace| - 1]; (end.main == Failing || end.main == Returned) && end.emitted == []
    decreases |trace|
  {
    hide Waits, Goes, Left, Inv, Standing;
    var n := |trace| - 1;
    if n > 0 {
      assert Goes(trace[n - 1], after, trace[n]);
      EveryOwnRunSettles(trace[..n], after);
      GoesOn(trace[n - 1], after, trace[n]);
    } else {
      LeftIsBound(trace[0], after);
    }
    EndsWhere(trace[0], trace[n], after);
  }

  ghost predicate Ends(s: State, end: State) {
    if Listening(s) then end.main.Live? && end.chan == [] else end.main == Returned && end.emitted == []
  }

  lemma LeftIsBound(s: State, after: int)
    requires Standing(s, after)
    ensures Left(s, after) >= 0
  {
  }

  lemma EndsWhere(s: State, end: State, after: int)
    requires Standing(end, after) && end.main != CatchUp
    requires if Listening(s) then Listening(end) else end.main == Failing || (end.main == Returned && end.emitted == [])
    ensures Waits(end, after) ==> Ends(s, end)
  {
    if Waits(end, after) { WaitsWhere(end, after); }
  }

  lemma {:induction false} Finishes(s: State, after: int) returns (trace: seq<State>)
    requires Standing(s, after)
    ensures OwnRun(trace, after) && trace[0] == s && Waits(trace[|trace| - 1], after)
    decreases Left(s, after)
  {
    hide Take, Enabled, Own, Left, Standing;
    LeftIsBound(s, after);
    if step :| Own(step) && Enabled(s, after, step) {
      OwnStepDescends(s, after, step);
      StepStands(s, after, step);
      var rest := Finishes(Take(s, after, step), after);
      trace := [s] + rest;
      forall k | 0 <= k < |trace| - 1 ensures Goes(trace[k], after, trace[k + 1]) {
        if k > 0 { assert Goes(rest[k - 1], after, rest[k]); }
      }
    } else {
      trace := [s];
    }
  }

  /** A step of the loop, or anything that happens to the table and the channel: atomic publications,
      commits with a later broadcast in any order, drops. */
  ghost predicate AnyNext(s: State, after: int, t: State) {
    LoopStep(s, after, t) || t == s.(last := t.last, chan := t.chan)
  }

  lemma PublishersAreAny(s: State, after: int, t: State)
    ensures AtomicNext(s, after, t) || LooseNext(s, after, t) ==> AnyNext(s, after, t)
  {
  }

  /** Where a run can bring the loop. */
  predicate Reached(s: State, after: int) {
    Standing(s, after) && (s.main == CatchUp || s.main == Failing ==> s.emitted == [])
  }

  lemma AnyReaches(s: State, after: int, t: State)
    requires Reached(s, after) && AnyNext(s, after, t)
    ensures Reached(t, after)
  {
    hide Standing;
    if LoopStep(s, after, t) {
      var step :| Enabled(s, after, step) && t == Take(s, after, step);
      StepStands(s, after, step);
    } else {
      StandsApart(s, after, t);
    }
  }

  lemma StandsApart(s: State, after: int, t: State)
    requires Standing(s, after) && t == s.(last := t.last, chan := t.chan)
    ensures Standing(t, after)
  {
  }

  lemma {:induction false} EveryRunReaches(trace: seq<State>, after: int, i: nat)
    requires i < |trace| && Init(trace[0])
    requires forall k :: 0 <= k < |trace| - 1 ==> AnyNext(trace[k], after, trace[k + 1])
    ensures Reached(trace[i], after)
  {
    if i > 0 {
      hide Reached, AnyNext;
      EveryRunReaches(trace, after, i - 1);
      AnyReaches(trace[i - 1], after, trace[i]);
    }
  }

  /** Progress: in every run, whatever publishers do, from any state in which the query has been
      answered and the stream has not returned, own steps alone lead to a quiet live stream, or after
      a failed query to a return with nothing sent. */
  lemma Progress(trace: seq<State>, after: int, i: nat) returns (way: seq<State>)
    requires i < |trace| && Init(trace[0])
    requires forall k :: 0 <= k < |trace| - 1 ==> AnyNext(trace[k], after, trace[k + 1])
    requires Listening(trace[i]) || trace[i].main == Failing
    ensures OwnRun(way, after) && way[0] == trace[i] && |way| - 1 <= Left(trace[i], after)
    ensures Ends(trace[i], way[|way| - 1]) && way[|way| - 1].last == trace[i].last
    ensures forall start :: Inv(trace[i], after, start) ==> Inv(way[|way| - 1], after, start)
  {
    hide Left, Waits, AnyNext, Goes, Inv;
    EveryRunReaches(trace, after, i);
    way := Finishes(trace[i], after);
    EveryOwnRunSettles(way, after);
  }

  /** With atomic publication the quiet stream has then sent after+1, after+2, ... up to the end of
      the table. */
  lemma AtomicProgress(trace: seq<State>, after: int, i: nat) returns (way: seq<State>)
    requires i < |trace| && Init(trace[0]) && after <= trace[0].last
    requires forall k :: 0 <= k < |trace| - 1 ==> AtomicNext(trace[k], after, trace[k + 1])
    requires Listening(trace[i])
    ensures OwnRun(way, after) && way[0] == trace[i]
    ensures var end := way[|way| - 1];
            GapFree(end, after) && Base(after) + |end.emitted| == trace[i].last
  {
    hide AtomicNext, AnyNext, Init, Inv, Goes, GapFree;
    forall k | 0 <= k < |trace| - 1 ensures AnyNext(trace[k], after, trace[k + 1]) {
      PublishersAreAny(trace[k], after, trace[k + 1]);
    }
    AtomicRunsGapFree(trace, after, i);
    way := Progress(trace, after, i);
    InvGapFree(way[|way| - 1], after, trace[0].last);
    QuietIsComplete(way[|way| - 1], after, trace[0].last);
  }

  /** A client that goes away ends the stream, and a stream that has returned sends nothing more. */
  lemma CancelReturns(s: State, after: int)
    requires s.main.Live?
    ensures Enabled(s, after, Cancel) && Take(s, after, Cancel).main == Returned
    ensures Take(s, after, Cancel).emitted == s.emitted
  {
  }

  lemma {:induction false} ReturnedIsFinal(trace: seq<State>, after: int, i: nat, j: nat)
    requires i <= j < |trace| && trace[i].main == Returned
    requires forall k :: 0 <= k < |trace| - 1 ==> AnyNext(trace[k], after, trace[k + 1])
    ensures trace[j].main == Returned && trace[j].emitted == trace[i].emitted
  {
    if i < j {
      hide AnyNext;
      ReturnedIsFinal(trace, after, i, j - 1);
      assert AnyNext(trace[j - 1], after, trace[j]);
      StaysReturned(trace[j - 1], after, trace[j]);
    }
  }

  lemma StaysReturned(s: State, after: int, t: State)
    requires s.main == Returned && AnyNext(s, after, t)
    ensures t.main == Returned && t.emitted == s.emitted
  {
  }
}
