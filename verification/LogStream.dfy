/** server/internal/handler/workflow.go, `streamLogsLoop`: the same handover without sequence
    numbers and without a final drain. */
module LogStream {
  datatype Worker = Buffering | Detached

  datatype Main =
    | Tailing
    | Emitting(k: nat)
    | Joining
    | Flushing(k: nat)
    | Live
    | Failing
    | Returned

  /** `sent` records every value the publisher got into the channel, `live` every value the main
      loop took off it; `history` is what `tail` returned. */
  datatype State<V> = State(
    chan: seq<V>, closed: bool, worker: Worker, stop: bool, buffer: seq<V>, history: seq<V>,
    main: Main, emitted: seq<V>, sent: seq<V>, live: seq<V>)

  ghost predicate Init<V>(s: State<V>) {
    && s.chan == [] && s.worker == Buffering && !s.stop && s.buffer == [] && s.history == []
    && s.main == Tailing && s.emitted == [] && s.sent == [] && s.live == []
  }

  datatype Step<V> =
    | Send(value: V) | Close
    | Receive | ReceiveClosed | SeeStop
    | Tail(rows: seq<V>) | TailFails
    | EmitRow | CloseStop | Join
    | FlushOne | FlushEnd
    | Emit | EmitClosed | Cancel | Abort

  predicate Enabled<V>(s: State<V>, step: Step<V>) {
    match step
    case Send(_) => !s.closed
    case Close => !s.closed
    case Receive => s.worker == Buffering && s.chan != []
    case ReceiveClosed => s.worker == Buffering && s.chan == [] && s.closed
    case SeeStop => s.worker == Buffering && s.stop
    case Tail(_) => s.main == Tailing
    case TailFails => s.main == Tailing
    case EmitRow => s.main.Emitting? && s.main.k < |s.history|
    case CloseStop => s.main.Emitting? && s.main.k == |s.history|
    case Join => s.main == Joining && s.worker == Detached
    case FlushOne => s.main.Flushing? && s.main.k < |s.buffer|
    case FlushEnd => s.main.Flushing? && s.main.k == |s.buffer|
    case Emit => s.main == Live && s.chan != []
    case EmitClosed => s.main == Live && s.chan == [] && s.closed
    case Cancel => s.main == Live
    case Abort => s.main == Failing && s.worker == Detached
  }

  function Take<V>(s: State<V>, step: Step<V>): State<V>
    requires Enabled(s, step)
  {
    match step
    case Send(v) => s.(chan := s.chan + [v], sent := s.sent + [v])
    case Close => s.(closed := true)
    case Receive => s.(buffer := s.buffer + [s.chan[0]], chan := s.chan[1..])
    case ReceiveClosed => s.(worker := Detached)
    case SeeStop => s.(worker := Detached)
    case Tail(rows) => s.(history := rows, main := Emitting(0))
    case TailFails => s.(stop := true, main := Failing)
    case EmitRow => s.(emitted := s.emitted + [s.history[s.main.k]], main := Emitting(s.main.k + 1))
    case CloseStop => s.(stop := true, main := Joining)
    case Join => s.(main := Flushing(0))
    case FlushOne => s.(emitted := s.emitted + [s.buffer[s.main.k]], main := Flushing(s.main.k + 1))
    case FlushEnd => s.(main := Live)
    case Emit => s.(emitted := s.emitted + [s.chan[0]], live := s.live + [s.chan[0]], chan := s.chan[1..])
    case EmitClosed => s.(main := Returned)
    case Cancel => s.(main := Returned)
    case Abort => s.(main := Returned)
  }

  /** The goroutine and the main loop never both stand ready to receive. */
  predicate OneReceiver<V>(s: State<V>) {
    s.main == Live ==> s.worker == Detached
  }

  /** Nothing received is lost, doubled or reordered: what the publisher got in is what was
      buffered, then what was taken live, then what still waits. */
  predicate Conserved<V(==)>(s: State<V>) {
    s.sent == s.buffer + s.live + s.chan
  }

  /** The emission is a prefix of the history followed by the delivered values in order. */
  predicate InOrder<V(==)>(s: State<V>) {
    s.emitted <= s.history + s.sent
  }

  ghost predicate Inv<V>(s: State<V>) {
    && Conserved(s) && OneReceiver(s)
    && (s.main == Tailing ==> s.history == [])
    && (s.main.Emitting? || s.main == Tailing ==> !s.stop)
    && (s.main == Joining || s.main == Failing ==> s.stop)
    && (s.worker == Detached && !s.closed ==> s.stop)
    && match s.main
       case Tailing => s.emitted == [] && s.live == []
       case Emitting(k) => k <= |s.history| && s.emitted == s.history[..k] && s.live == []
       case Joining => s.emitted == s.history && s.live == []
       case Flushing(k) =>
         k <= |s.buffer| && s.emitted == s.history + s.buffer[..k] && s.live == [] && s.worker == Detached
       case Live => s.emitted == s.history + s.buffer + s.live
       case Failing => s.emitted == [] && s.live == []
       case Returned => s.worker == Detached && (s.emitted == [] || s.emitted == s.history + s.buffer + s.live)
  }

  lemma StepKeeps<V>(s: State<V>, step: Step<V>)
    requires Inv(s) && Enabled(s, step)
    ensures Inv(Take(s, step))
  {
    match step
    case Send(v) => SendKeeps(s, v);
    case Receive => ReceiveKeeps(s);
    case Emit => EmitKeeps(s);
    case EmitRow => RowKeeps(s);
    case FlushOne => FlushKeeps(s);
    case _ => QuietStepKeeps(s, step);
  }

  lemma SendKeeps<V>(s: State<V>, v: V)
    requires Inv(s) && Enabled(s, Send(v))
    ensures Inv(Take(s, Send(v)))
  {
    assert s.buffer + s.live + (s.chan + [v]) == (s.buffer + s.live + s.chan) + [v];
  }

  lemma ReceiveKeeps<V>(s: State<V>)
    requires Inv(s) && Enabled(s, Receive)
    ensures Inv(Take(s, Receive))
  {
    assert s.live == [];
    assert (s.buffer + [s.chan[0]]) + [] + s.chan[1..] == s.buffer + [] + s.chan;
  }

  lemma EmitKeeps<V>(s: State<V>)
    requires Inv(s) && Enabled(s, Emit)
    ensures Inv(Take(s, Emit))
  {
    assert s.buffer + (s.live + [s.chan[0]]) + s.chan[1..] == s.buffer + s.live + s.chan;
    assert s.history + s.buffer + (s.live + [s.chan[0]]) == (s.history + s.buffer + s.live) + [s.chan[0]];
  }

  lemma RowKeeps<V>(s: State<V>)
    requires Inv(s) && Enabled(s, EmitRow)
    ensures Inv(Take(s, EmitRow))
  {
    assert s.history[..s.main.k + 1] == s.history[..s.main.k] + [s.history[s.main.k]];
  }

  lemma FlushKeeps<V>(s: State<V>)
    requires Inv(s) && Enabled(s, FlushOne)
    ensures Inv(Take(s, FlushOne))
  {
    assert s.history + s.buffer[..s.main.k + 1] == (s.history + s.buffer[..s.main.k]) + [s.buffer[s.main.k]];
  }

  /** The steps that move no value. */
  lemma QuietStepKeeps<V>(s: State<V>, step: Step<V>)
    requires Inv(s) && Enabled(s, step)
    requires !step.Send? && !step.Receive? && !step.Emit? && !step.EmitRow? && !step.FlushOne?
    ensures Inv(Take(s, step))
  {
    match step
    case FlushEnd =>
      assert s.buffer[..|s.buffer|] == s.buffer && s.history + s.buffer + [] == s.history + s.buffer;
    case Join => assert s.history + s.buffer[..0] == s.history;
    case CloseStop => assert s.history[..|s.history|] == s.history;
    case _ =>
  }

  lemma InvInOrder<V>(s: State<V>)
    requires Inv(s)
    ensures InOrder(s)
  {
    var all := s.history + s.sent;
    assert all == s.history + s.buffer + s.live + s.chan;
    match s.main
    case Emitting(k) => assert all[..k] == s.history[..k];
    case Flushing(k) => assert all[..|s.history| + k] == s.history + s.buffer[..k];
    case _ =>
  }

  /** Every interleaving and every choice of the selects. */
  lemma {:induction false} EveryRun<V>(trace: seq<State<V>>, steps: seq<Step<V>>, i: nat)
    requires |trace| == |steps| + 1 && i < |trace| && Init(trace[0])
    requires forall k :: 0 <= k < |steps| ==> Enabled(trace[k], steps[k]) && trace[k + 1] == Take(trace[k], steps[k])
    ensures OneReceiver(trace[i]) && InOrder(trace[i]) && Conserved(trace[i])
    ensures Inv(trace[i])
  {
    if i > 0 {
      EveryRun(trace, steps, i - 1);
      StepKeeps(trace[i - 1], steps[i - 1]);
    }
    InvInOrder(trace[i]);
  }

  /** What `tail` has returned so far, and what the publisher has sent. */
  function Fetched<V>(steps: seq<Step<V>>): seq<V> {
    if steps == [] then []
    else if steps[|steps| - 1].Tail? then steps[|steps| - 1].rows
    else Fetched(steps[..|steps| - 1])
  }

  function Published<V>(steps: seq<Step<V>>): seq<V> {
    if steps == [] then []
    else Published(steps[..|steps| - 1]) + if steps[|steps| - 1].Send? then [steps[|steps| - 1].value] else []
  }

  /** The records are those of the run's steps. */
  lemma {:induction false} Recorded<V>(trace: seq<State<V>>, steps: seq<Step<V>>, i: nat)
    requires |trace| == |steps| + 1 && i < |trace| && Init(trace[0])
    requires forall k :: 0 <= k < |steps| ==> Enabled(trace[k], steps[k]) && trace[k + 1] == Take(trace[k], steps[k])
    ensures trace[i].history == Fetched(steps[..i]) && trace[i].sent == Published(steps[..i])
  {
    hide Take, Enabled, Fetched, Published;
    if i > 0 {
      Recorded(trace, steps, i - 1);
      assert steps[..i] == steps[..i - 1] + [steps[i - 1]];
      StepRecords(trace[i - 1], steps[..i - 1], steps[i - 1]);
    } else {
      assert steps[..0] == [];
      NothingRecorded<V>();
    }
  }

  lemma NothingRecorded<V>()
    ensures Fetched<V>([]) == [] && Published<V>([]) == []
  {
  }

  lemma StepRecords<V>(s: State<V>, before: seq<Step<V>>, step: Step<V>)
    requires Enabled(s, step)
    ensures Take(s, step).history == if step.Tail? then step.rows else s.history
    ensures Take(s, step).sent == s.sent + if step.Send? then [step.value] else []
    ensures Fetched(before + [step]) == if step.Tail? then step.rows else Fetched(before)
    ensures Published(before + [step]) == Published(before) + if step.Send? then [step.value] else []
  {
    assert (before + [step])[..|before|] == before;
  }

  /** A quiet live loop has emitted the history and everything sent. */
  lemma QuietIsComplete<V>(s: State<V>)
    requires Inv(s) && s.main == Live && s.chan == []
    ensures s.emitted == s.history + s.sent
  {
    assert s.sent == s.buffer + s.live;
    assert s.history + (s.buffer + s.live) == s.history + s.buffer + s.live;
  }

  /** A step of the goroutine or of the main loop: not the publisher's, not the client's, and not the
      answer of `tail`. */
  predicate Own<V>(step: Step<V>) {
    !step.Send? && !step.Close? && !step.Cancel? && !step.Tail? && !step.TailFails?
  }

  /** Nothing is left to do until the publisher or the client does something. */
  ghost predicate Waits<V(!new)>(s: State<V>) {
    forall step: Step<V> :: Own(step) ==> !Enabled(s, step)
  }

  /** A bound on how many own steps are left: a waiting value can be buffered and then flushed. */
  function Left<V>(s: State<V>): int {
    2 * |s.chan| + (if s.worker == Buffering then 1 else 0)
    + match s.main
      case Tailing => 5 + |s.buffer|
      case Emitting(k) => 4 + |s.buffer| + |s.history| - k
      case Joining => 3 + |s.buffer|
      case Flushing(k) => 2 + |s.buffer| - k
      case Live => 1
      case Failing => 1
      case Returned => 0
  }

  /** Every own step brings the end nearer, and leaves what was fetched and sent as it is. */
  lemma OwnStepDescends<V>(s: State<V>, step: Step<V>)
    requires Inv(s) && Enabled(s, step) && Own(step)
    ensures var t := Take(s, step);
            && 0 <= Left(t) < Left(s) && t.history == s.history && t.sent == s.sent && t.closed == s.closed
  {
  }

  /** After `tail` has answered, the two wait only when the stream is live and quiet on an open
      channel, or has returned and let go of the channel. */
  lemma WaitsWhere<V(!new)>(s: State<V>)
    requires Inv(s) && s.main != Tailing && Waits(s)
    ensures s.main == Returned || (s.main == Live && s.chan == [] && !s.closed)
  {
    assert !Enabled(s, Step.SeeStop) && !Enabled(s, Step.ReceiveClosed) && !Enabled(s, Step.Join);
    assert !Enabled(s, Step.EmitRow) && !Enabled(s, Step.CloseStop) && !Enabled(s, Step.FlushOne);
    assert !Enabled(s, Step.FlushEnd) && !Enabled(s, Step.Emit) && !Enabled(s, Step.EmitClosed);
    assert !Enabled(s, Step.Abort);
  }

  /** A run of own steps. */
  ghost predicate OwnRun<V>(trace: seq<State<V>>, steps: seq<Step<V>>) {
    && |trace| == |steps| + 1
    && forall k :: 0 <= k < |steps| ==> Goes(trace[k], steps[k], trace[k + 1])
  }

  predicate Goes<V(==)>(s: State<V>, step: Step<V>, t: State<V>) {
    Own(step) && Enabled(s, step) && t == Take(s, step)
  }

  /** How a stream ends whose `tail` has answered with `rows` and into which `sent` was published, if
      nobody sends, closes or cancels any more. */
  ghost predicate EndsWith<V>(s: State<V>, end: State<V>, rows: seq<V>, sent: seq<V>) {
    if s.main == Failing then end.main == Returned && end.emitted == []
    else
      && end.emitted == rows + sent
      && if s.closed then end.main == Returned else end.main == Live && end.chan == []
  }

  /** What an own run keeps true on the way there. */
  ghost predicate OnTheWay<V>(s: State<V>, t: State<V>) {
    && Inv(t) && t.history == s.history && t.sent == s.sent && t.closed == s.closed && t.main != Tailing
    && if s.main == Failing then t.main == Failing || (t.main == Returned && t.emitted == [])
       else t.main != Failing && (t.main == Returned ==> s.closed && t.emitted == s.history + s.sent)
  }

  lemma OwnStepOnTheWay<V>(s: State<V>, t: State<V>, step: Step<V>)
    requires OnTheWay(s, t) && Enabled(t, step) && Own(step)
    ensures OnTheWay(s, Take(t, step))
  {
    StepKeeps(t, step);
    OwnStepDescends(t, step);
    if step.EmitClosed? {
      QuietIsComplete(t);
    }
  }

  /** However the selects choose: the two take at most so many steps, and when they can take no more
      the stream has sent everything. */
  lemma {:induction false} EveryOwnRunSettles<V(!new)>(trace: seq<State<V>>, steps: seq<Step<V>>)
    requires OwnRun(trace, steps) && Inv(trace[0]) && trace[0].main != Tailing && trace[0].main != Returned
    ensures |steps| <= Left(trace[0]) - Left(trace[|steps|]) && Left(trace[|steps|]) >= 0
    ensures OnTheWay(trace[0], trace[|steps|])
    ensures Waits(trace[|steps|]) ==> EndsWith(trace[0], trace[|steps|], trace[0].history, trace[0].sent)
  {
    hide Waits, Take, Enabled, Own, Left, Inv;
    var n := |steps|;
    if n > 0 {
      assert Goes(trace[n - 1], steps[n - 1], trace[n]);
      OwnRunInit(trace, steps);
      EveryOwnRunSettles(trace[..n], steps[..n - 1]);
      OwnStepOnTheWay(trace[0], trace[n - 1], steps[n - 1]);
      OwnStepDescends(trace[n - 1], steps[n - 1]);
    } else {
      LeftIsBound(trace[0]);
    }
    WaitingIsSettled(trace[0], trace[n]);
  }

  lemma OwnRunInit<V>(trace: seq<State<V>>, steps: seq<Step<V>>)
    requires OwnRun(trace, steps) && steps != []
    ensures OwnRun(trace[..|steps|], steps[..|steps| - 1])
  {
    hide Goes;
    forall k | 0 <= k < |steps| - 1
      ensures Goes(trace[..|steps|][k], steps[..|steps| - 1][k], trace[..|steps|][k + 1])
    {
      assert Goes(trace[k], steps[k], trace[k + 1]);
    }
  }

  lemma LeftIsBound<V>(s: State<V>)
    requires Inv(s)
    ensures Left(s) >= 0
  {
  }

  lemma WaitingIsSettled<V(!new)>(s: State<V>, end: State<V>)
    requires OnTheWay(s, end)
    ensures Waits(end) ==> EndsWith(s, end, s.history, s.sent)
  {
    if Waits(end) {
      WaitsWhere(end);
      if end.main == Live { QuietIsComplete(end); }
    }
  }

  /** So from every state past `tail`, finitely many own steps bring the stream there. */
  lemma {:induction false} Finishes<V(!new)>(s: State<V>) returns (trace: seq<State<V>>, steps: seq<Step<V>>)
    requires Inv(s)
    ensures OwnRun(trace, steps) && trace[0] == s && Waits(trace[|steps|])
    decreases Left(s)
  {
    hide Inv, Take, Enabled, Own, Left;
    LeftIsBound(s);
    if step: Step<V> :| Own(step) && Enabled(s, step) {
      OwnStepDescends(s, step);
      StepKeeps(s, step);
      var t := Take(s, step);
      var more, rest := Finishes(t);
      trace, steps := [s] + more, [step] + rest;
      forall k | 0 <= k < |steps| ensures Goes(trace[k], steps[k], trace[k + 1]) {
        if k > 0 { assert Goes(more[k - 1], rest[k - 1], more[k]); }
      }
    } else {
      trace, steps := [s], [];
    }
  }

  /** Progress: in every run, from any state in which `tail` has answered and the stream has not
      returned, own steps alone lead to an end: a failed `tail` to an error, a closed channel to a
      return, an open one to a quiet live stream, and the last two with the rows and then everything
      published sent. */
  lemma Progress<V(!new)>(trace: seq<State<V>>, steps: seq<Step<V>>, i: nat)
      returns (way: seq<State<V>>, own: seq<Step<V>>)
    requires |trace| == |steps| + 1 && i < |trace| && Init(trace[0])
    requires forall k :: 0 <= k < |steps| ==> Enabled(trace[k], steps[k]) && trace[k + 1] == Take(trace[k], steps[k])
    requires trace[i].main != Tailing && trace[i].main != Returned
    ensures OwnRun(way, own) && way[0] == trace[i] && |own| <= Left(trace[i])
    ensures EndsWith(trace[i], way[|own|], Fetched(steps[..i]), Published(steps[..i]))
  {
    hide Inv, Take, Enabled, Left, Waits;
    EveryRun(trace, steps, i);
    Recorded(trace, steps, i);
    way, own := Finishes(trace[i]);
    EveryOwnRunSettles(way, own);
  }

  /** A client that goes away ends the stream, and a stream that has returned emits nothing more. */
  lemma {:induction false} ReturnedIsFinal<V>(trace: seq<State<V>>, steps: seq<Step<V>>, i: nat, j: nat)
    requires |trace| == |steps| + 1 && i <= j < |trace|
    requires forall k :: 0 <= k < |steps| ==> Enabled(trace[k], steps[k]) && trace[k + 1] == Take(trace[k], steps[k])
    requires trace[i].main == Returned || (i > 0 && steps[i - 1].Cancel?)
    ensures trace[j].main == Returned && trace[j].emitted == trace[i].emitted
  {
    if i < j { ReturnedIsFinal(trace, steps, i, j - 1); }
  }
}
