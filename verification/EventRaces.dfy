/** server/internal/handler/task_event.go against server/internal/repository/task_event.go: what the
    loop sends when a row is committed first and broadcast later, and when a channel overflows. */
module EventRaces {
  import opened EventStream

  /** The numbers `from + 1` up to `upTo`. */
  function Range(from: int, upTo: int): (r: seq<int>)
    ensures |r| == if upTo <= from then 0 else upTo - from
    ensures forall i :: 0 <= i < |r| ==> r[i] == from + 1 + i
  {
    if upTo <= from then [] else seq(upTo - from, i => from + 1 + i)
  }

  lemma RangeSnoc(from: int, upTo: int)
    requires from <= upTo
    ensures Range(from, upTo) + [upTo + 1] == Range(from, upTo + 1)
  {
  }

  lemma RangeTail(from: int, upTo: int)
    requires from < upTo
    ensures Range(from, upTo)[0] == from + 1 && Range(from, upTo)[1..] == Range(from + 1, upTo)
  {
  }

  lemma RangeSplit(from: int, mid: int, upTo: int)
    requires from <= mid <= upTo
    ensures Range(from, upTo) == Range(from, mid) + Range(mid, upTo)
  {
  }

  /** The loop's state, and how far the table's rows have been broadcast. */
  datatype Racing = Racing(s: State, sent: int)

  /** A row is committed, or the next committed one is broadcast into a channel with room. */
  ghost predicate RaceNext(r: Racing, after: int, r': Racing) {
    || (LoopStep(r.s, after, r'.s) && r'.sent == r.sent)
    || r' == r.(s := r.s.(last := r.s.last + 1))
    || (r.sent < r.s.last && |r.s.chan| < CAPACITY && r' == Racing(r.s.(chan := r.s.chan + [r.sent + 1]), r.sent + 1))
  }

  /** What the history and the first `k` buffered values have sent, when the query saw numbers up to
      `q` and the first value to arrive was `first + 1`: without any row to compare with, the loop
      sends every buffered value, also those the client asked to skip. */
  function Flushed(base: int, first: int, q: int, k: nat): seq<int> {
    if q > base then Range(base, Max(q, first + k)) else Range(first, first + k)
  }

  /** The account of a run that began with `start` rows of which `first` had been broadcast. */
  ghost predicate RaceInv(r: Racing, after: int, start: int, first: int) {
    var s, base := r.s, Base(after);
    && base <= start <= s.last && 0 <= first <= start && first <= r.sent <= s.last
    && (s.worker == Detached ==> s.stop)
    && (s.worker == Draining ==> s.stop)
    && (s.stop ==> s.main != CatchUp && !s.main.History?)
    && (s.main.Live? || s.main.Flushing? ==> s.worker == Detached)
    && match s.main
       case CatchUp => Arriving(r, first) && s.emitted == [] && s.maxSeq == -1
       case History(q, k) =>
         Arriving(r, first) && start <= q && k <= q - base && s.emitted == Range(base, base + k) && Seen(s)
       case Joining(q) => Arriving(r, first) && start <= q && s.emitted == Range(base, q) && Seen(s)
       case Flushing(q, k) =>
         Arriving(r, first) && start <= q && k <= |s.buffer| && s.emitted == Flushed(base, first, q, k) && Seen(s)
       case Live(q) =>
         && start <= q
         && var detached := first + |s.buffer|; var reached := r.sent - |s.chan|;
            && detached <= reached && s.chan == Range(reached, r.sent)
            && s.emitted == Flushed(base, first, q, |s.buffer|) + Range(detached, reached)
       case Failing => s.emitted == []
       case Returned => true
  }

  ghost predicate Arriving(r: Racing, first: int) {
    r.s.buffer + r.s.chan == Range(first, r.sent)
  }

  lemma RangeParts(a: seq<int>, b: seq<int>, from: int, upTo: int)
    requires a + b == Range(from, upTo) && from <= upTo
    ensures a == Range(from, from + |a|) && b == Range(from + |a|, upTo) && from + |a| + |b| == upTo
  {
    var all := Range(from, upTo);
    assert |all| == |a| + |b|;
    assert all[..|a|] == a && all[|a|..] == b;
  }

  lemma ArrivingParts(r: Racing, first: int)
    requires Arriving(r, first) && first <= r.sent
    ensures r.s.buffer == Range(first, first + |r.s.buffer|) && r.s.chan == Range(first + |r.s.buffer|, r.sent)
    ensures first + |r.s.buffer| + |r.s.chan| == r.sent
  {
    RangeParts(r.s.buffer, r.s.chan, first, r.sent);
  }

  lemma RaceStepKeeps(r: Racing, after: int, start: int, first: int, step: Step)
    requires RaceInv(r, after, start, first) && Enabled(r.s, after, step)
    ensures RaceInv(r.(s := Take(r.s, after, step)), after, start, first)
  {
    match step
    case Receive => RaceReceive(r, after, start, first);
    case EmitRow => RaceEmitRow(r, after, start, first);
    case FlushOne => RaceFlush(r, after, start, first);
    case FlushEnd => RaceFlushEnd(r, after, start, first);
    case Emit => RaceEmit(r, after, start, first);
    case Join => RaceJoin(r, after, start, first);
    case _ => RaceOther(r, after, start, first, step);
  }

  lemma RaceReceive(r: Racing, after: int, start: int, first: int)
    requires RaceInv(r, after, start, first) && Enabled(r.s, after, Receive)
    ensures RaceInv(r.(s := Take(r.s, after, Receive)), after, start, first)
  {
    hide Range, Flushed;
    assert r.s.buffer + r.s.chan == (r.s.buffer + [r.s.chan[0]]) + r.s.chan[1..];
  }

  lemma RaceEmitRow(r: Racing, after: int, start: int, first: int)
    requires RaceInv(r, after, start, first) && Enabled(r.s, after, EmitRow)
    ensures RaceInv(r.(s := Take(r.s, after, EmitRow)), after, start, first)
  {
    hide Range, Flushed;
    RangeSnoc(Base(after), Base(after) + r.s.main.k);
  }

  lemma RaceFlushEnd(r: Racing, after: int, start: int, first: int)
    requires RaceInv(r, after, start, first) && Enabled(r.s, after, FlushEnd)
    ensures RaceInv(r.(s := Take(r.s, after, FlushEnd)), after, start, first)
  {
    ArrivingParts(r, first);
    hide Range, Flushed, Arriving;
    assert r.s.emitted + Range(first + |r.s.buffer|, first + |r.s.buffer|) == r.s.emitted;
  }

  lemma RaceEmit(r: Racing, after: int, start: int, first: int)
    requires RaceInv(r, after, start, first) && Enabled(r.s, after, Emit)
    ensures RaceInv(r.(s := Take(r.s, after, Emit)), after, start, first)
  {
    hide Range, Flushed;
    var s, reached := r.s, r.sent - |r.s.chan|;
    RangeTail(reached, r.sent);
    RangeSnoc(first + |s.buffer|, reached);
    assert s.emitted + [reached + 1]
        == Flushed(Base(after), first, s.main.upTo, |s.buffer|) + (Range(first + |s.buffer|, reached) + [reached + 1]);
  }

  lemma RaceJoin(r: Racing, after: int, start: int, first: int)
    requires RaceInv(r, after, start, first) && Enabled(r.s, after, Join)
    ensures RaceInv(r.(s := Take(r.s, after, Join)), after, start, first)
  {
    var q, base := r.s.main.upTo, Base(after);
    if q == base { assert Range(base, q) == Range(first, first); }
  }

  lemma RaceOther(r: Racing, after: int, start: int, first: int, step: Step)
    requires RaceInv(r, after, start, first) && Enabled(r.s, after, step)
    requires step in {SeeStop, DrainEnd, Query, QueryFails, CloseStop, Cancel, Abort}
    ensures RaceInv(r.(s := Take(r.s, after, step)), after, start, first)
  {
    hide Flushed;
  }

  /** What one more buffered value adds, compared with the last number sent. */
  lemma FlushedLast(base: int, first: int, q: int, k: nat)
    requires 0 <= first <= q && base <= q
    ensures var f := Flushed(base, first, q, k);
            var last := if f == [] then -1 else f[|f| - 1];
            Flushed(base, first, q, k + 1) == if first + k + 1 > last then f + [first + k + 1] else f
  {
    RangeSnoc(first, first + k);
    if first + k >= q { RangeSnoc(base, first + k); }
  }

  lemma RaceFlush(r: Racing, after: int, start: int, first: int)
    requires RaceInv(r, after, start, first) && Enabled(r.s, after, FlushOne)
    ensures RaceInv(r.(s := Take(r.s, after, FlushOne)), after, start, first)
  {
    hide Range, Flushed;
    var s, base, q, k := r.s, Base(after), r.s.main.upTo, r.s.main.k;
    ArrivingParts(r, first);
    assert s.buffer[k] == first + k + 1;
    FlushedLast(base, first, q, k);
  }

  lemma RacePublishKeeps(r: Racing, after: int, start: int, first: int)
    requires RaceInv(r, after, start, first) && r.sent < r.s.last
    ensures RaceInv(Racing(r.s.(chan := r.s.chan + [r.sent + 1]), r.sent + 1), after, start, first)
  {
    hide Range, Flushed;
    assert (r.s.buffer + r.s.chan) + [r.sent + 1] == r.s.buffer + (r.s.chan + [r.sent + 1]);
    RangeSnoc(first, r.sent);
    if r.s.main.Live? { RangeSnoc(r.sent - |r.s.chan|, r.sent); }
  }

  lemma RaceNextKeeps(r: Racing, after: int, start: int, first: int, r': Racing)
    requires RaceInv(r, after, start, first) && RaceNext(r, after, r')
    ensures RaceInv(r', after, start, first)
  {
    if r' == r.(s := r.s.(last := r.s.last + 1)) {
    } else if LoopStep(r.s, after, r'.s) && r'.sent == r.sent {
      hide RaceInv, Take, Enabled;
      var step :| Enabled(r.s, after, step) && r'.s == Take(r.s, after, step);
      RaceStepKeeps(r, after, start, first, step);
      assert r' == r.(s := Take(r.s, after, step));
    } else {
      hide RaceInv;
      RacePublishKeeps(r, after, start, first);
    }
  }

  /** Every interleaving of commits, later broadcasts in order, and the loop. */
  lemma {:induction false} EveryRace(trace: seq<Racing>, after: int, i: nat)
    requires i < |trace| && Init(trace[0].s) && after <= trace[0].s.last && 0 <= trace[0].sent <= trace[0].s.last
    requires forall k :: 0 <= k < |trace| - 1 ==> RaceNext(trace[k], after, trace[k + 1])
    ensures RaceInv(trace[i], after, trace[0].s.last, trace[0].sent)
  {
    hide RaceInv, RaceNext, Init;
    if i == 0 {
      RaceInit(trace[0], after);
    } else {
      EveryRace(trace, after, i - 1);
      RaceNextKeeps(trace[i - 1], after, trace[0].s.last, trace[0].sent, trace[i]);
    }
  }

  lemma RaceInit(r: Racing, after: int)
    requires Init(r.s) && after <= r.s.last && 0 <= r.sent <= r.s.last
    ensures RaceInv(r, after, r.s.last, r.sent)
  {
  }

  /** What a live stream has sent, in full: history and flush, then everything broadcast after the
      goroutine detached. A number is sent a second time exactly when the query had seen it and it was
      broadcast after that. */
  lemma LiveRepeats(trace: seq<Racing>, after: int, i: nat, x: int)
    requires i < |trace| && Init(trace[0].s) && after <= trace[0].s.last && 0 <= trace[0].sent <= trace[0].s.last
    requires forall k :: 0 <= k < |trace| - 1 ==> RaceNext(trace[k], after, trace[k + 1])
    requires trace[i].s.main.Live? && trace[i].s.main.upTo > Base(after)
    ensures var s, base := trace[i].s, Base(after);
            var q, detached, reached := s.main.upTo, trace[0].sent + |s.buffer|, trace[i].sent - |s.chan|;
            && s.emitted == Range(base, Max(q, detached)) + Range(detached, reached)
            && (multiset(s.emitted)[x] >= 2 <==> base < x <= q && detached < x <= reached)
            && multiset(s.emitted)[x] <= 2
  {
    hide RaceNext, Init, Range, RaceInv;
    EveryRace(trace, after, i);
    LiveFacts(trace[i], after, trace[0].s.last, trace[0].sent);
    var s := trace[i].s;
    var detached := trace[0].sent + |s.buffer|;
    TwoRanges(Base(after), s.main.upTo, detached, trace[i].sent - |s.chan|, x);
  }

  /** When the query saw nothing new, nothing is sent twice, but the stream starts with what had not
      been broadcast at the subscription, whether the client asked for it or not. */
  lemma LiveWithoutRows(trace: seq<Racing>, after: int, i: nat)
    requires i < |trace| && Init(trace[0].s) && after <= trace[0].s.last && 0 <= trace[0].sent <= trace[0].s.last
    requires forall k :: 0 <= k < |trace| - 1 ==> RaceNext(trace[k], after, trace[k + 1])
    requires trace[i].s.main.Live? && trace[i].s.main.upTo == Base(after)
    ensures trace[i].s.emitted == Range(trace[0].sent, trace[i].sent - |trace[i].s.chan|)
  {
    hide RaceNext, Init, Range;
    EveryRace(trace, after, i);
    RangeSplit(trace[0].sent, trace[0].sent + |trace[i].s.buffer|, trace[i].sent - |trace[i].s.chan|);
  }

  lemma LiveFacts(r: Racing, after: int, start: int, first: int)
    requires RaceInv(r, after, start, first) && r.s.main.Live? && r.s.main.upTo > Base(after)
    ensures var detached, reached := first + |r.s.buffer|, r.sent - |r.s.chan|;
            && detached <= reached
            && r.s.emitted == Range(Base(after), Max(r.s.main.upTo, detached)) + Range(detached, reached)
  {
    hide Range, Arriving;
  }

  lemma TwoRanges(base: int, q: int, detached: int, reached: int, x: int)
    requires base < q && detached <= reached
    ensures var m := multiset(Range(base, Max(q, detached)) + Range(detached, reached));
            (m[x] >= 2 <==> base < x <= q && detached < x <= reached) && m[x] <= 2
  {
    hide Range;
    RangeCounts(base, Max(q, detached), x);
    RangeCounts(detached, reached, x);
  }

  lemma {:induction false} RangeCounts(from: int, upTo: int, x: int)
    ensures multiset(Range(from, upTo))[x] == if from < x <= upTo then 1 else 0
    decreases if upTo <= from then 0 else upTo - from
  {
    if from < upTo {
      RangeCounts(from, upTo - 1, x);
      RangeSnoc(from, upTo - 1);
    } else {
      assert Range(from, upTo) == [];
    }
  }

  /** The main loop and the goroutine stand where the code can bring them. */
  ghost predicate Placed(s: State, after: int) {
    match s.main
    case History(q, k) => s.worker == Buffering && !s.stop && k <= Rows(after, q)
    case Joining(_) => s.stop
    case Flushing(_, k) => s.worker == Detached && k <= |s.buffer|
    case Live(_) => true
    case _ => false
  }

  /** The step that brings the loop nearer to a quiet live stream. */
  function Forward(s: State, after: int): Step {
    match s.main
    case History(q, k) => if k < Rows(after, q) then EmitRow else CloseStop
    case Joining(_) =>
      if s.worker == Buffering then SeeStop
      else if s.worker == Detached then Join
      else if s.chan != [] then Receive else DrainEnd
    case Flushing(_, k) => if k < |s.buffer| then FlushOne else FlushEnd
    case _ => Emit
  }

  /** How far off that is: the stages still to come, and what is left of this one. */
  function Stage(s: State): nat {
    match s.main
    case History(_, _) => 5
    case Joining(_) => if s.worker == Buffering then 4 else if s.worker == Draining then 3 else 2
    case Flushing(_, _) => 1
    case _ => 0
  }

  function Left(s: State, after: int): int {
    match s.main
    case History(q, k) => Rows(after, q) - k
    case Joining(_) => |s.chan|
    case Flushing(_, k) => |s.buffer| - k
    case _ => |s.chan|
  }

  predicate Quiet(s: State) {
    s.main.Live? && s.chan == []
  }

  /** `x` will not be sent unless it is published again. */
  ghost predicate Missing(s: State, x: int) {
    && x !in s.emitted && x !in s.chan && (s.main.Live? || x !in s.buffer)
    && (s.main.History? ==> s.main.upTo < x)
  }

  lemma ForwardGoes(s: State, after: int, x: int)
    requires Placed(s, after) && Missing(s, x) && !Quiet(s)
    ensures Enabled(s, after, Forward(s, after))
    ensures var t := Take(s, after, Forward(s, after));
            && Placed(t, after) && Missing(t, x) && t.last == s.last
            && (Stage(t) < Stage(s) || (Stage(t) == Stage(s) && 0 <= Left(t, after) < Left(s, after)))
  {
  }

  /** Left to itself the loop comes to a quiet live stream. */
  lemma {:induction false} ReachesQuiet(s: State, after: int, x: int) returns (trace: seq<State>)
    requires Placed(s, after) && Missing(s, x)
    ensures |trace| > 0 && trace[0] == s && LoopTrace(trace, after)
    ensures var end := trace[|trace| - 1]; Quiet(end) && Missing(end, x) && end.last == s.last
    decreases Stage(s), Left(s, after)
  {
    if Quiet(s) {
      trace := [s];
    } else {
      hide Placed, Missing, Enabled, Take;
      ForwardGoes(s, after, x);
      var t := Take(s, after, Forward(s, after));
      StepBy(s, after, Forward(s, after));
      var rest := ReachesQuiet(t, after, x);
      trace := [s] + rest;
      forall k | 0 <= k < |trace| - 1 ensures LoopStep(trace[k], after, trace[k + 1]) {
        if k > 0 { assert LoopStep(rest[k - 1], after, rest[k]); }
      }
    }
  }

  lemma NothingBeyond(s: State, after: int, start: int)
    requires Inv(s, after, start) && Listening(s)
    ensures Placed(s, after) && Missing(s, s.last + 1)
  {
    if !s.main.Live? {
      var q := s.main.upTo;
      var all, m := s.buffer + s.chan, Covered(s, q);
      forall i | 0 <= i < |all| ensures all[i] <= s.last {
        if i < m { assert all[..m][i] == all[i]; } else { assert all[m..][i - m] == all[i]; }
      }
      forall y | y in s.buffer || y in s.chan ensures y <= s.last { assert y in all; }
    }
  }

  /** The other half of the premise: in every state that a run can reach from the catch-up query on, a
      publication dropped by a full channel has a continuation, itself without a drop, that leaves a
      gap. */
  lemma DropLeavesGap(trace: seq<State>, after: int, i: nat) returns (more: seq<State>)
    requires i < |trace| && Init(trace[0]) && after <= trace[0].last
    requires forall k :: 0 <= k < |trace| - 1 ==> AtomicNext(trace[k], after, trace[k + 1])
    requires Listening(trace[i]) && |trace[i].chan| >= CAPACITY
    ensures |more| > 0 && more[0] == Publish(trace[i])
    ensures forall k :: 0 <= k < |more| - 1 ==> AtomicNext(more[k], after, more[k + 1])
    ensures !GapFree(more[|more| - 1], after)
  {
    hide Init, AtomicNext, Inv, Placed, Missing, LoopStep, GapFree;
    var s := trace[i];
    var x := s.last + 1;
    AtomicRunsGapFree(trace, after, i);
    NothingBeyond(s, after, trace[0].last);
    InvBase(s, after, trace[0].last);
    DroppedIsMissing(s, after, x);
    var way := ReachesQuiet(Publish(s), after, x);
    var quiet := way[|way| - 1];
    var next := Publish(quiet);
    var sent := Take(next, after, Emit);
    StepBy(next, after, Emit);
    SentAfter(quiet, after, x);
    more := way + [next, sent];
    forall k | 0 <= k < |more| - 1 ensures AtomicNext(more[k], after, more[k + 1]) {
      if k < |way| - 1 {
        LoopIsAtomic(way[k], after, way[k + 1]);
      } else if k == |way| - 1 {
        PublishIsAtomic(quiet, after);
      } else {
        LoopIsAtomic(next, after, sent);
      }
    }
  }

  lemma InvBase(s: State, after: int, start: int)
    requires Inv(s, after, start)
    ensures Base(after) <= s.last
  {
  }

  lemma DroppedIsMissing(s: State, after: int, x: int)
    requires Placed(s, after) && Missing(s, x) && |s.chan| >= CAPACITY
    ensures Placed(Publish(s), after) && Missing(Publish(s), x)
  {
  }

  lemma LoopIsAtomic(s: State, after: int, t: State)
    requires LoopStep(s, after, t)
    ensures AtomicNext(s, after, t)
  {
  }

  lemma PublishIsAtomic(s: State, after: int)
    requires s.chan == []
    ensures AtomicNext(s, after, Publish(s))
  {
  }

  /** The next number is sent although `x` is missing. */
  lemma SentAfter(s: State, after: int, x: int)
    requires Quiet(s) && Missing(s, x) && s.last == x && Base(after) < x
    ensures !GapFree(Take(Publish(s), after, Emit), after)
  {
    var t := Take(Publish(s), after, Emit);
    assert t.emitted == s.emitted + [x + 1] && t.emitted[|t.emitted| - 1] == x + 1;
    assert x !in t.emitted;
    if GapFree(t, after) { SentBefore(t, after, x); }
  }

  lemma SentBefore(s: State, after: int, x: int)
    requires GapFree(s, after) && s.emitted != [] && s.emitted[|s.emitted| - 1] == x + 1 && Base(after) < x
    ensures x in s.emitted
  {
    assert s.emitted[|s.emitted| - 2] == x;
  }

  /** Such states exist for every request: query at once, then publish until the channel is full. */
  lemma {:induction false} Fills(start: nat, after: int, n: nat) returns (trace: seq<State>)
    requires after <= start && n <= CAPACITY
    ensures |trace| == n + 2 && Init(trace[0]) && trace[0].last == start
    ensures forall k :: 0 <= k < |trace| - 1 ==> AtomicNext(trace[k], after, trace[k + 1])
    ensures Listening(trace[n + 1]) && |trace[n + 1].chan| == n
  {
    if n == 0 {
      var s := State(start, [], Buffering, false, [], CatchUp, -1, []);
      StepBy(s, after, Query);
      trace := [s, Take(s, after, Query)];
    } else {
      var before := Fills(start, after, n - 1);
      trace := before + [Publish(before[n])];
      hide LoopStep, Init;
      forall k | 0 <= k < |trace| - 1 ensures AtomicNext(trace[k], after, trace[k + 1]) {
        if k < n { assert AtomicNext(before[k], after, before[k + 1]); }
      }
    }
  }

  /** So for every request there is a run with one dropped publication and a gap. */
  lemma FullChannelGaps(start: nat, after: int) returns (trace: seq<State>, drop: nat)
    requires after <= start
    ensures drop < |trace| - 1 && Init(trace[0]) && trace[0].last == start
    ensures Listening(trace[drop]) && trace[drop + 1] == Publish(trace[drop])
    ensures forall k :: 0 <= k < |trace| - 1 && k != drop ==> AtomicNext(trace[k], after, trace[k + 1])
    ensures !GapFree(trace[|trace| - 1], after)
  {
    hide Init, AtomicNext, Listening, GapFree, Publish;
    var x := Fills(start, after, CAPACITY);
    drop := CAPACITY + 1;
    var y := DropLeavesGap(x, after, drop);
    trace := x + y;
    forall k | 0 <= k < |trace| - 1 && k != drop ensures AtomicNext(trace[k], after, trace[k + 1]) {
      if k < drop {
        assert AtomicNext(x[k], after, x[k + 1]);
      } else {
        assert AtomicNext(y[k - |x|], after, y[k - |x| + 1]);
      }
    }
  }
}
