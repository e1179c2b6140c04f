/** server/internal/handler/task_event.go, `streamEventsLoop`, with its publisher: the handover of
    one channel from the buffering goroutine to the main loop, as interleaved steps. */
module EventStream {
  /** Capacity of a subscriber's channel. */
  const CAPACITY: nat := 100

  /** What a broadcast does to one subscriber: a full channel drops the event. */
  function Delivered<E>(chan: seq<E>, event: E): seq<E> {
    if |chan| < CAPACITY then chan + [event] else chan
  }

  datatype Worker = Buffering | Draining | Detached

  /** Where the main function stands. `History(upTo, k)`: the catch-up query saw the numbers up
      to `upTo` and `k` of its rows have been emitted. */
  datatype Main =
    | CatchUp
    | History(upTo: int, k: nat)
    | Joining(upTo: int)
    | Flushing(upTo: int, k: nat)
    | Live(upTo: int)
    | Failing
    | Returned

  /** Events are known by their sequence numbers; `last` is the last number in the table. */
  datatype State = State(
    last: int, chan: seq<int>, worker: Worker, stop: bool, buffer: seq<int>,
    main: Main, maxSeq: int, emitted: seq<int>)

  /** The loop starts on a fresh subscription. */
  ghost predicate Init(s: State) {
    && s.last >= 0 && s.chan == [] && s.worker == Buffering && !s.stop && s.buffer == []
    && s.main == CatchUp && s.maxSeq == -1 && s.emitted == []
  }

  /** Numbers greater than `after` are catch-up rows; numbering starts at one. */
  function Base(after: int): int {
    if after < 0 then 0 else after
  }

  /** How many rows the catch-up query returns when it sees numbers up to `upTo`. */
  function Rows(after: int, upTo: int): nat {
    if upTo <= Base(after) then 0 else upTo - Base(after)
  }

  datatype Step =
    | Receive          // the goroutine takes a value off the channel
    | SeeStop          // the goroutine's select picks the closed stop channel
    | DrainEnd         // the goroutine finds the channel empty and returns
    | Query | QueryFails
    | EmitRow | CloseStop | Join
    | FlushOne | FlushEnd
    | Emit             // the live loop forwards a value
    | Cancel | Abort

  predicate Enabled(s: State, after: int, step: Step) {
    match step
    case Receive => s.worker != Detached && s.chan != []
    case SeeStop => s.worker == Buffering && s.stop
    case DrainEnd => s.worker == Draining && s.chan == []
    case Query => s.main == CatchUp
    case QueryFails => s.main == CatchUp
    case EmitRow => s.main.History? && s.main.k < Rows(after, s.main.upTo)
    case CloseStop => s.main.History? && s.main.k == Rows(after, s.main.upTo)
    case Join => s.main.Joining? && s.worker == Detached
    case FlushOne => s.main.Flushing? && s.main.k < |s.buffer|
    case FlushEnd => s.main.Flushing? && s.main.k == |s.buffer|
    case Emit => s.main.Live? && s.chan != []
    case Cancel => s.main.Live?
    case Abort => s.main == Failing && s.worker == Detached
  }

  function Max(a: int, b: int): int {
    if a > b then a else b
  }

  function Take(s: State, after: int, step: Step): State
    requires Enabled(s, after, step)
  {
    match step
    case Receive => s.(buffer := s.buffer + [s.chan[0]], chan := s.chan[1..])
    case SeeStop => s.(worker := Draining)
    case DrainEnd => s.(worker := Detached)
    case Query => s.(main := History(s.last, 0))
    case QueryFails => s.(main := Failing, stop := true)
    case EmitRow =>
      var row := Base(after) + 1 + s.main.k;
      s.(main := History(s.main.upTo, s.main.k + 1), emitted := s.emitted + [row], maxSeq := Max(s.maxSeq, row))
    case CloseStop => s.(stop := true, main := Joining(s.main.upTo))
    case Join => s.(main := Flushing(s.main.upTo, 0))
    case FlushOne =>
      var event := s.buffer[s.main.k];
      var next := s.(main := Flushing(s.main.upTo, s.main.k + 1));
      if event > s.maxSeq then next.(emitted := s.emitted + [event], maxSeq := event) else next
    case FlushEnd => s.(main := Live(s.main.upTo))
    case Emit => s.(emitted := s.emitted + [s.chan[0]], chan := s.chan[1..])
    case Cancel => s.(main := Returned)
    case Abort => s.(main := Returned)
  }

  /** `CreateEvent` as one atomic step: number, insert and broadcast together. */
  function Publish(s: State): State {
    s.(last := s.last + 1, chan := Delivered(s.chan, s.last + 1))
  }

  ghost predicate LoopStep(s: State, after: int, s': State) {
    exists step :: Enabled(s, after, step) && s' == Take(s, after, step)
  }

  /** From the catch-up query on, until the loop ends: what is published now reaches the client
      through the channel or not at all. */
  predicate Listening(s: State) {
    s.main.History? || s.main.Joining? || s.main.Flushing? || s.main.Live?
  }

  /** Premise of the gap-free run: publishing is atomic and, once the catch-up query has been made,
      finds room in the channel. */
  ghost predicate AtomicNext(s: State, after: int, s': State) {
    LoopStep(s, after, s') || ((Listening(s) ==> |s.chan| < CAPACITY) && s' == Publish(s))
  }

  /** What the code gives without that premise: a committed number is broadcast later, in any
      order, and may be dropped. */
  ghost predicate LooseNext(s: State, after: int, s': State) {
    || LoopStep(s, after, s')
    || s' == s.(last := s.last + 1)
    || exists x :: 1 <= x <= s.last && s' == s.(chan := Delivered(s.chan, x))
  }

  /** The numbers `from + 1, from + 2, ...` up to `upTo`. */
  predicate Run(s: seq<int>, from: int, upTo: int) {
    from <= upTo && |s| == upTo - from && forall i :: 0 <= i < |s| ==> s[i] == from + 1 + i
  }

  /** The emission so far has no gap and no repeat. */
  predicate GapFree(s: State, after: int) {
    forall i :: 0 <= i < |s.emitted| ==> s.emitted[i] == Base(after) + 1 + i
  }

  /** The account of a run that subscribed when the table ended at `start`. */
  ghost predicate Inv(s: State, after: int, start: int) {
    var base := Base(after);
    && base <= start <= s.last
    && (s.worker == Detached ==> s.stop)
    && (s.worker == Draining ==> s.stop)
    && (s.stop ==> s.main != CatchUp && !s.main.History?)
    && (s.main.Joining? || s.main == Failing ==> s.stop)
    && (s.main.Live? || s.main.Flushing? ==> s.worker == Detached)
    && match s.main
       case CatchUp => Within(s.buffer + s.chan, start, s.last) && s.emitted == [] && s.maxSeq == -1
       case History(q, k) =>
         Pending(s, start, q) && k <= q - base && Run(s.emitted, base, base + k) && Seen(s)
       case Joining(q) =>
         Pending(s, start, q) && Run(s.emitted, base, q) && Seen(s)
         && (s.worker == Detached ==> Covered(s, q) <= |s.buffer|)
       case Flushing(q, k) =>
         Pending(s, start, q) && Covered(s, q) <= |s.buffer| && k <= |s.buffer|
         && Run(s.emitted, base, q + Max(0, k - Covered(s, q))) && Seen(s)
       case Live(q) => Run(s.emitted, base, s.last - |s.chan|) && Run(s.chan, s.last - |s.chan|, s.last)
       case Failing => s.emitted == []
       case Returned => exists e :: Run(s.emitted, base, e)
  }

  predicate Within(s: seq<int>, from: int, upTo: int) {
    forall i :: 0 <= i < |s| ==> from < s[i] <= upTo
  }

  /** How many of the values sent since the subscription the query at `q` has seen as rows. */
  function Covered(s: State, q: int): int {
    |s.buffer + s.chan| - (s.last - q)
  }

  /** The values sent since the subscription: some that the query has seen, then all later ones. */
  ghost predicate Pending(s: State, start: int, q: int) {
    var all, m := s.buffer + s.chan, Covered(s, q);
    start <= q <= s.last && 0 <= m <= |all| && Within(all[..m], start, q) && Run(all[m..], q, s.last)
  }

  /** `maxSeq` is the last emitted number, or -1. */
  predicate Seen(s: State) {
    s.maxSeq == if s.emitted == [] then -1 else s.emitted[|s.emitted| - 1]
  }

  lemma RunSnoc(s: seq<int>, from: int, upTo: int)
    requires Run(s, from, upTo)
    ensures Run(s + [upTo + 1], from, upTo + 1)
  {
  }

  lemma InvGapFree(s: State, after: int, start: int)
    requires Inv(s, after, start)
    ensures GapFree(s, after)
  {
  }

  lemma PublishKeeps(s: State, after: int, start: int)
    requires Inv(s, after, start) && (Listening(s) ==> |s.chan| < CAPACITY)
    ensures Inv(Publish(s), after, start)
  {
    var n := s.last + 1;
    if |s.chan| < CAPACITY {
      assert s.buffer + (s.chan + [n]) == (s.buffer + s.chan) + [n];
      if s.main.History? || s.main.Joining? || s.main.Flushing? { SentKeeps(s, start, s.main.upTo); }
      if s.main.Live? { RunSnoc(s.chan, s.last - |s.chan|, s.last); }
    }
  }

  lemma SentKeeps(s: State, start: int, q: int)
    requires Pending(s, start, q) && |s.chan| < CAPACITY
    ensures Pending(Publish(s), start, q) && Covered(Publish(s), q) == Covered(s, q)
  {
    var all, m := s.buffer + s.chan, Covered(s, q);
    var more := Publish(s).buffer + Publish(s).chan;
    assert more == all + [s.last + 1];
    assert more[..m] == all[..m] && more[m..] == all[m..] + [s.last + 1];
    RunSnoc(all[m..], q, s.last);
  }

  lemma StepKeeps(s: State, after: int, start: int, step: Step)
    requires Inv(s, after, start) && Enabled(s, after, step)
    ensures Inv(Take(s, after, step), after, start)
  {
    match step
    case Receive => ReceiveKeeps(s, after, start);
    case EmitRow => RowKeeps(s, after, start);
    case FlushOne => FlushKeeps(s, after, start);
    case FlushEnd => LiveBegins(s, after, start);
    case Emit => EmitKeeps(s, after, start);
    case _ => QuietStepKeeps(s, after, start, step);
  }

  lemma ReceiveKeeps(s: State, after: int, start: int)
    requires Inv(s, after, start) && Enabled(s, after, Receive)
    ensures Inv(Take(s, after, Receive), after, start)
  {
    hide Run;
    assert s.buffer + s.chan == (s.buffer + [s.chan[0]]) + s.chan[1..];
  }

  lemma RowKeeps(s: State, after: int, start: int)
    requires Inv(s, after, start) && Enabled(s, after, EmitRow)
    ensures Inv(Take(s, after, EmitRow), after, start)
  {
    RunSnoc(s.emitted, Base(after), Base(after) + s.main.k);
  }

  lemma EmitKeeps(s: State, after: int, start: int)
    requires Inv(s, after, start) && Enabled(s, after, Emit)
    ensures Inv(Take(s, after, Emit), after, start)
  {
    RunSnoc(s.emitted, Base(after), s.last - |s.chan|);
  }

  /** The steps that neither receive nor send. */
  lemma QuietStepKeeps(s: State, after: int, start: int, step: Step)
    requires Inv(s, after, start) && Enabled(s, after, step)
    requires step in {SeeStop, DrainEnd, Query, QueryFails, CloseStop, Join, Cancel, Abort}
    ensures Inv(Take(s, after, step), after, start)
  {
    var all := s.buffer + s.chan;
    if step == DrainEnd { assert all == s.buffer; }
    if step == Query {
      assert all[..|all|] == all && all[|all|..] == [];
      assert Pending(Take(s, after, step), start, s.last);
    }
    if step == Abort { assert Run(s.emitted, Base(after), Base(after)); }
  }

  lemma FlushKeeps(s: State, after: int, start: int)
    requires Inv(s, after, start) && Enabled(s, after, FlushOne)
    ensures Inv(Take(s, after, FlushOne), after, start)
  {
    var q, k := s.main.upTo, s.main.k;
    var m, all := Covered(s, q), s.buffer + s.chan;
    assert all[k] == s.buffer[k];
    if k < m {
      assert all[..m][k] == s.buffer[k];
    } else {
      assert all[m..][k - m] == s.buffer[k];
      RunSnoc(s.emitted, Base(after), q + k - m);
    }
  }

  /** When the flush ends, the channel holds exactly what comes next. */
  lemma LiveBegins(s: State, after: int, start: int)
    requires Inv(s, after, start) && Enabled(s, after, FlushEnd)
    ensures Inv(Take(s, after, FlushEnd), after, start)
  {
    var all, m := s.buffer + s.chan, Covered(s, s.main.upTo);
    forall i | 0 <= i < |s.chan| ensures s.chan[i] == s.last - |s.chan| + 1 + i {
      assert all[m..][|s.buffer| - m + i] == s.chan[i];
    }
  }

  lemma NextKeeps(s: State, after: int, start: int, s': State)
    requires Inv(s, after, start) && AtomicNext(s, after, s')
    ensures Inv(s', after, start)
  {
    hide Inv, Take, Enabled, Publish;
    if LoopStep(s, after, s') {
      var step :| Enabled(s, after, step) && s' == Take(s, after, step);
      StepKeeps(s, after, start, step);
    } else {
      PublishKeeps(s, after, start);
    }
  }

  lemma InitInv(s: State, after: int)
    requires Init(s) && after <= s.last
    ensures Inv(s, after, s.last)
  {
    assert Run([], Base(after), Base(after));
  }

  /** Every interleaving: from a subscription at which `after` is not ahead of the table, the
      emission is always after+1, after+2, ... without gap or repeat. */
  lemma {:induction false} AtomicRunsGapFree(trace: seq<State>, after: int, i: nat)
    requires i < |trace| && Init(trace[0]) && after <= trace[0].last
    requires forall k :: 0 <= k < |trace| - 1 ==> AtomicNext(trace[k], after, trace[k + 1])
    ensures Inv(trace[i], after, trace[0].last) && GapFree(trace[i], after)
  {
    hide Inv, Init, AtomicNext, GapFree;
    if i == 0 {
      InitInv(trace[0], after);
    } else {
      AtomicRunsGapFree(trace, after, i - 1);
      NextKeeps(trace[i - 1], after, trace[0].last, trace[i]);
    }
    InvGapFree(trace[i], after, trace[0].last);
  }

  /** Nothing waiting: a quiet live stream has emitted everything in the table. */
  lemma QuietIsComplete(s: State, after: int, start: int)
    requires Inv(s, after, start) && s.main.Live? && s.chan == []
    ensures |s.emitted| == s.last - Base(after)
  {
  }

  predicate Increasing(s: seq<int>) {
    forall i, j :: 0 <= i < j < |s| ==> s[i] < s[j]
  }

  predicate Positive(s: seq<int>) {
    forall i :: 0 <= i < |s| ==> s[i] >= 1
  }

  /** Without atomic publishing: until the buffer has been flushed the emission is increasing. */
  ghost predicate LooseInv(s: State, after: int) {
    && s.last >= 0
    && Positive(s.chan) && Positive(s.buffer)
    && (s.main == CatchUp ==> s.emitted == [] && s.maxSeq == -1)
    && (s.main == Failing ==> s.emitted == [])
    && (s.main.History? ==>
          s.main.k <= Rows(after, s.main.upTo) && Run(s.emitted, Base(after), Base(after) + s.main.k) && Seen(s))
    && (s.main.Joining? || s.main.Flushing? ==> Increasing(s.emitted) && Seen(s))
  }

  ghost predicate BeforeLive(s: State) {
    !s.main.Live? && s.main != Returned
  }

  lemma LooseStepKeeps(s: State, after: int, step: Step)
    requires LooseInv(s, after) && Enabled(s, after, step)
    ensures LooseInv(Take(s, after, step), after)
    ensures step == FlushEnd ==> Increasing(Take(s, after, step).emitted)
  {
    match step
    case EmitRow => RunSnoc(s.emitted, Base(after), Base(after) + s.main.k);
    case _ =>
  }

  lemma {:induction false} LooseRunsIncrease(trace: seq<State>, after: int, i: nat)
    requires i < |trace| && Init(trace[0])
    requires forall k :: 0 <= k < |trace| - 1 ==> LooseNext(trace[k], after, trace[k + 1])
    ensures LooseInv(trace[i], after)
    ensures BeforeLive(trace[i]) ==> Increasing(trace[i].emitted)
  {
    hide LooseInv, Init, LooseNext;
    if i == 0 {
      LooseInit(trace[0], after);
    } else {
      LooseRunsIncrease(trace, after, i - 1);
      LooseNextKeeps(trace[i - 1], after, trace[i]);
    }
    LooseIncreasing(trace[i], after);
  }

  lemma LooseInit(s: State, after: int)
    requires Init(s)
    ensures LooseInv(s, after)
  {
  }

  lemma LooseIncreasing(s: State, after: int)
    requires LooseInv(s, after)
    ensures BeforeLive(s) ==> Increasing(s.emitted)
  {
  }

  lemma LooseNextKeeps(s: State, after: int, s': State)
    requires LooseInv(s, after) && LooseNext(s, after, s')
    ensures LooseInv(s', after)
  {
    if LoopStep(s, after, s') {
      hide LooseInv, Take, Enabled;
      var step :| Enabled(s, after, step) && s' == Take(s, after, step);
      LooseStepKeeps(s, after, step);
    }
  }

  ghost predicate LoopTrace(trace: seq<State>, after: int) {
    forall k :: 0 <= k < |trace| - 1 ==> LoopStep(trace[k], after, trace[k + 1])
  }

  lemma StepBy(s: State, after: int, step: Step)
    requires Enabled(s, after, step)
    ensures LoopStep(s, after, Take(s, after, step))
  {
  }

  /** The loop's end game with nothing arriving: stop, detach, join. */
  lemma Detach(s: State, after: int) returns (way: seq<State>)
    requires s.main.History? && Enabled(s, after, CloseStop) && s.worker == Buffering && !s.stop && s.chan == []
    ensures |way| == 5 && way[0] == s && LoopTrace(way, after)
    ensures way[4] == s.(stop := true, worker := Detached, main := Flushing(s.main.upTo, 0))
  {
    var s1 := Take(s, after, CloseStop);
    var s2 := Take(s1, after, SeeStop);
    var s3 := Take(s2, after, DrainEnd);
    var s4 := Take(s3, after, Join);
    StepBy(s, after, CloseStop);
    StepBy(s1, after, SeeStop);
    StepBy(s2, after, DrainEnd);
    StepBy(s3, after, Join);
    way := [s, s1, s2, s3, s4];
  }

  /** Atomic publishing is needed: with a late broadcast the live loop repeats a number that the
      history has already sent. */
  lemma LateBroadcastRepeats() returns (trace: seq<State>)
    ensures |trace| > 0 && Init(trace[0])
    ensures forall k :: 0 <= k < |trace| - 1 ==> LooseNext(trace[k], 0, trace[k + 1])
    ensures trace[|trace| - 1].emitted == [1, 1]
  {
    var s0 := State(0, [], Buffering, false, [], CatchUp, -1, []);
    var s1 := s0.(last := 1);
    var s2 := Take(s1, 0, Query);
    var s3 := Take(s2, 0, EmitRow);
    StepBy(s1, 0, Query);
    StepBy(s2, 0, EmitRow);
    var way := Detach(s3, 0);
    var live := Take(way[4], 0, FlushEnd);
    StepBy(way[4], 0, FlushEnd);
    var late := live.(chan := Delivered(live.chan, 1));
    var repeated := Take(late, 0, Emit);
    StepBy(late, 0, Emit);
    trace := [s0, s1, s2] + way + [live, late, repeated];
    forall k | 0 <= k < |trace| - 1 ensures LooseNext(trace[k], 0, trace[k + 1]) {
      if 3 <= k < 7 { assert LoopStep(way[k - 3], 0, way[k - 2]); }
    }
  }

  /** The bound on `after` is needed: a client that asks for more than the table holds at
      subscription can be sent a number it asked to skip, for every such request. */
  lemma AskingAheadBreaks(after: int, start: int) returns (trace: seq<State>)
    requires 0 <= start < after
    ensures |trace| > 0 && Init(trace[0]) && trace[0].last == start
    ensures forall k :: 0 <= k < |trace| - 1 ==> AtomicNext(trace[k], after, trace[k + 1])
    ensures !GapFree(trace[|trace| - 1], after)
  {
    var s0 := State(start, [], Buffering, false, [], CatchUp, -1, []);
    var s1 := Publish(s0);
    var s2 := Take(s1, after, Receive);
    StepBy(s1, after, Receive);
    assert s2.buffer == [start + 1] && s2.chan == [];
    var s3 := Take(s2, after, Query);
    StepBy(s2, after, Query);
    var way := Detach(s3, after);
    var sent := Take(way[4], after, FlushOne);
    StepBy(way[4], after, FlushOne);
    trace := [s0, s1, s2] + way + [sent];
    forall k | 0 <= k < |trace| - 1 ensures AtomicNext(trace[k], after, trace[k + 1]) {
      if 3 <= k < 7 { assert LoopStep(way[k - 3], after, way[k - 2]); }
    }
    assert sent.emitted == [start + 1] && sent.emitted[0] == start + 1;
  }
}
