/** server/internal/chat/store.go: what each call leaves in the tables. A call's request is kept to
    its commit, a commit writes what was asked and nothing else, and the events of a conversation are
    the committed batches in commit order. */
module ChatEffects {
  import opened ChatStore

  /** What a call asks for. */
  datatype Request =
    | Claim(id: string, conv: string, message: string, lease: int)
    | Finish(id: string, status: Status)
    | Append(conv: string, batch: seq<Event>)

  function RequestOf(tx: Tx): Request {
    match tx
    case ClaimStart(id, c, m, l) => Claim(id, c, m, l)
    case ClaimLocked(id, c, m, l, _) => Claim(id, c, m, l)
    case ClaimFresh(id, c, m, l, _) => Claim(id, c, m, l)
    case ClaimInserted(id, c, m, l) => Claim(id, c, m, l)
    case FinishStart(id, st) => Finish(id, st)
    case FinishMarked(id, st, _) => Finish(id, st)
    case FinishFreed(id, st, _, _) => Finish(id, st)
    case AppendStart(c, b) => Append(c, b)
    case AppendLocked(c, b) => Append(c, b)
    case AppendNumbered(c, b, _) => Append(c, b)
  }

  /** The request with which the open transaction `x` began. */
  function Asked(steps: seq<Step>, x: nat): Request {
    if steps == [] then Append("", [])
    else
      var last := steps[|steps| - 1];
      if last.Begin? && last.x == x then RequestOf(last.tx) else Asked(steps[..|steps| - 1], x)
  }

  lemma StepKeepsRequest(s: State, step: Step, y: nat)
    requires Enabled(s, step) && y in Take(s, step).txs
    ensures if step.Begin? && step.x == y then Take(s, step).txs[y] == step.tx
            else y in s.txs && RequestOf(Take(s, step).txs[y]) == RequestOf(s.txs[y])
  {
  }

  /** In every run an open transaction still carries the request it began with. */
  lemma {:induction false} RequestKept(trace: seq<State>, steps: seq<Step>, i: nat, x: nat)
    requires Run(trace, steps) && i < |trace| && x in trace[i].txs
    ensures RequestOf(trace[i].txs[x]) == Asked(steps[..i], x)
  {
    hide RequestOf, Enabled, Take;
    if i > 0 {
      StepKeepsRequest(trace[i - 1], steps[i - 1], x);
      assert steps[..i][..i - 1] == steps[..i - 1];
      if !(steps[i - 1].Begin? && steps[i - 1].x == x) { RequestKept(trace, steps, i - 1, x); }
    }
  }

  /** The step writes the tables of an open transaction. */
  predicate Commits(s: State, step: Step) {
    && step.Advance? && step.x in s.txs
    && (s.txs[step.x].ClaimInserted? || s.txs[step.x].FinishFreed? || s.txs[step.x].AppendNumbered?)
  }

  /** The same events, numbers aside. */
  ghost predicate SameContents(a: seq<Event>, b: seq<Event>) {
    |a| == |b| && forall i :: 0 <= i < |a| ==> a[i].turn == b[i].turn && a[i].body == b[i].body
  }

  ghost predicate ConvsKept(a: Db, b: Db, but: string) {
    a.convs.Keys == b.convs.Keys && forall c :: c in a.convs && c != but ==> b.convs[c] == a.convs[c]
  }

  ghost predicate TurnsKept(a: Db, b: Db, but: string) {
    forall t :: t != but ==> (t in a.turns <==> t in b.turns) && (t in a.turns ==> b.turns[t] == a.turns[t])
  }

  ghost predicate TxsKept(s: State, t: State, x: nat) {
    t.txs.Keys == s.txs.Keys - {x} && forall y :: y in t.txs ==> t.txs[y] == s.txs[y]
  }

  /** A committed append: the batch stands at the end of its conversation, numbered on; nothing else
      is touched. */
  lemma AppendStores(s: State, x: nat)
    requires Inv(s) && x in s.txs && s.txs[x].AppendNumbered?
    ensures var tx, t := s.txs[x], AdvanceTx(s, x);
            && tx.conv in s.db.convs && TxsKept(s, t, x)
            && ConvsKept(s.db, t.db, tx.conv) && t.db.turns == s.db.turns
            && var was, now := s.db.convs[tx.conv], t.db.convs[tx.conv];
               now.active == was.active && |now.events| == |was.events| + |tx.batch|
               && now.events[..|was.events|] == was.events
               && SameContents(now.events[|was.events|..], tx.batch) && NumberedFromOne(now.events)
  {
    assert TxOk(s.db, s.txs[x]);
  }

  /** A committed claim: the turn is in the table as asked for, running and not cancelled, and has the
      slot. */
  lemma ClaimStores(s: State, x: nat)
    requires Inv(s) && x in s.txs && s.txs[x].ClaimInserted?
    ensures var tx, t := s.txs[x], AdvanceTx(s, x);
            && tx.conv in s.db.convs && tx.id !in s.db.turns && TxsKept(s, t, x)
            && TurnsKept(s.db, t.db, tx.id) && ConvsKept(s.db, t.db, tx.conv)
            && tx.id in t.db.turns && t.db.turns[tx.id] == Turn(tx.conv, tx.message, Running, tx.lease, false)
            && t.db.convs[tx.conv] == Conv(tx.id, s.db.convs[tx.conv].events)
  {
    assert TxOk(s.db, s.txs[x]);
  }

  /** A committed finish: the turn has the status asked for and is otherwise as it was, its slot is
      free if it had one, and no event and no other turn is touched. */
  lemma FinishStores(s: State, x: nat)
    requires Inv(s) && x in s.txs && s.txs[x].FinishFreed?
    ensures var tx, t := s.txs[x], AdvanceTx(s, x);
            && tx.id in s.db.turns && TxsKept(s, t, x)
            && var was := s.db.turns[tx.id];
               was.conv in s.db.convs && TurnsKept(s.db, t.db, tx.id) && ConvsKept(s.db, t.db, was.conv)
               && tx.id in t.db.turns
               && t.db.turns[tx.id] == Turn(was.conv, was.message, tx.status, was.lease, was.cancel)
               && var c := s.db.convs[was.conv];
                  t.db.convs[was.conv] == Conv(if c.active == tx.id then "" else c.active, c.events)
  {
    assert TxOk(s.db, s.txs[x]);
  }

  /** Every other step of a transaction writes nothing. The calls outside transactions write one
      field: a lease or a cancel request of a running turn, or a new empty conversation. */
  lemma OthersWriteLittle(s: State, step: Step)
    requires Inv(s) && Enabled(s, step) && !Commits(s, step)
    ensures var a, b := s.db, Take(s, step).db;
            match step
            case Create(c) =>
              && a.turns == b.turns && b.convs.Keys == a.convs.Keys + {c} && b.convs[c] == Conv("", [])
              && forall d :: d in a.convs ==> b.convs[d] == a.convs[d]
            case RenewLease(t, until) => TouchedOnly(a, b, t, (u: Turn) => u.(lease := until))
            case RequestCancel(t) => TouchedOnly(a, b, t, (u: Turn) => u.(cancel := true))
            case _ => a == b
  {
  }

  ghost predicate TouchedOnly(a: Db, b: Db, t: string, change: Turn -> Turn) {
    && a.convs == b.convs && TurnsKept(a, b, t) && (t in a.turns <==> t in b.turns)
    && (t in a.turns ==> b.turns[t] == if a.turns[t].status == Running then change(a.turns[t]) else a.turns[t])
  }

  /** What step `k` of a run adds to the events of `c`: the batch of a committing append to it. */
  function Stored(trace: seq<State>, steps: seq<Step>, c: string, k: nat): seq<Event>
    requires k < |steps| && k < |trace|
  {
    if !Commits(trace[k], steps[k]) then []
    else
      match Asked(steps[..k], steps[k].x)
      case Append(conv, batch) => if conv == c then batch else []
      case _ => []
  }

  function Joined(trace: seq<State>, steps: seq<Step>, c: string, i: nat): seq<Event>
    requires i <= |steps| <= |trace|
  {
    if i == 0 then [] else Joined(trace, steps, c, i - 1) + Stored(trace, steps, c, i - 1)
  }

  ghost predicate HoldsBatches(db: Db, c: string, batches: seq<Event>) {
    if c in db.convs then SameContents(db.convs[c].events, batches) else batches == []
  }

  /** In every run the events of a conversation are the batches of the committed appends to it, joined
      in commit order. */
  lemma {:induction false} EventsAreBatches(trace: seq<State>, steps: seq<Step>, c: string, i: nat)
    requires Run(trace, steps) && i < |trace| && forall k :: 0 <= k < |steps| ==> Proper(steps[k])
    ensures HoldsBatches(trace[i].db, c, Joined(trace, steps, c, i))
  {
    hide Asked, Proper, Enabled, Take, HoldsBatches;
    if i > 0 {
      EventsAreBatches(trace, steps, c, i - 1);
      EveryRun(trace, steps, i - 1);
      StepStores(trace, steps, c, i - 1);
    } else {
      assert HoldsBatches(trace[0].db, c, []) by { NothingHeld(c); }
    }
  }

  lemma NothingHeld(c: string)
    ensures HoldsBatches(Db(map[], map[]), c, [])
  {
  }

  lemma StepStores(trace: seq<State>, steps: seq<Step>, c: string, k: nat)
    requires Run(trace, steps) && k < |steps| && Inv(trace[k])
    ensures forall before :: HoldsBatches(trace[k].db, c, before) ==>
              HoldsBatches(trace[k + 1].db, c, before + Stored(trace, steps, c, k))
  {
    hide Asked, Inv, Take, AdvanceTx;
    var s, step := trace[k], steps[k];
    assert trace[k + 1] == Take(s, step) && Enabled(s, step);
    var stored := Stored(trace, steps, c, k);
    if Commits(s, step) {
      RequestKept(trace, steps, k, step.x);
      CommitAdds(s, step, c);
    } else {
      OthersAddNothing(s, step, c);
    }
    forall before | HoldsBatches(s.db, c, before) ensures HoldsBatches(trace[k + 1].db, c, before + stored) {
      Lengthens(s.db, trace[k + 1].db, c, before, stored);
    }
  }

  /** `b` has the events of `a` in `c`, and then these. */
  ghost predicate Adds(a: Db, b: Db, c: string, more: seq<Event>) {
    if c in a.convs then
      && c in b.convs && |b.convs[c].events| == |a.convs[c].events| + |more|
      && b.convs[c].events[..|a.convs[c].events|] == a.convs[c].events
      && SameContents(b.convs[c].events[|a.convs[c].events|..], more)
    else more == [] && (c in b.convs ==> b.convs[c].events == [])
  }

  lemma Lengthens(a: Db, b: Db, c: string, before: seq<Event>, more: seq<Event>)
    requires HoldsBatches(a, c, before) && Adds(a, b, c, more)
    ensures HoldsBatches(b, c, before + more)
  {
    if c in a.convs {
      var was, now := a.convs[c].events, b.convs[c].events;
      forall i | 0 <= i < |now|
        ensures now[i].turn == (before + more)[i].turn && now[i].body == (before + more)[i].body
      {
        if i < |was| { assert now[..|was|][i] == was[i]; } else { assert now[|was|..][i - |was|] == now[i]; }
      }
    }
  }

  lemma CommitAdds(s: State, step: Step, c: string)
    requires Inv(s) && Enabled(s, step) && Commits(s, step)
    ensures var r := RequestOf(s.txs[step.x]);
            Adds(s.db, Take(s, step).db, c, if r.Append? && r.conv == c then r.batch else [])
  {
    hide Inv, AdvanceTx;
    assert Take(s, step) == AdvanceTx(s, step.x);
    match s.txs[step.x]
    case AppendNumbered(_, _, _) => AppendStores(s, step.x);
    case ClaimInserted(_, _, _, _) => ClaimStores(s, step.x);
    case FinishFreed(_, _, _, _) => FinishStores(s, step.x);
  }

  lemma OthersAddNothing(s: State, step: Step, c: string)
    requires Inv(s) && Enabled(s, step) && !Commits(s, step)
    ensures Adds(s.db, Take(s, step).db, c, [])
  {
    hide Inv, Take;
    OthersWriteLittle(s, step);
  }

  /** A transaction that is let alone: up to `n` of its steps. */
  function Alone(s: State, x: nat, n: nat): State
    decreases n
  {
    if n == 0 || x !in s.txs then s else Alone(AdvanceTx(s, x), x, n - 1)
  }

  /** None of these steps has to wait for a lock. */
  predicate Unhindered(s: State, x: nat, n: nat)
    decreases n
  {
    n == 0 || x !in s.txs || (Enabled(s, Advance(x)) && Unhindered(AdvanceTx(s, x), x, n - 1))
  }

  predicate Grantable(db: Db, id: string, c: string, message: string) {
    c in db.convs && db.convs[c].active == "" && !MessageKnown(db, c, message) && id !in db.turns
  }

  /** What a call has done, told by its request. */
  ghost predicate Done(a: Db, b: Db, r: Request) {
    match r
    case Claim(id, c, m, l) =>
      if Grantable(a, id, c, m) then
        && TurnsKept(a, b, id) && ConvsKept(a, b, c) && id in b.turns && b.turns[id] == Turn(c, m, Running, l, false)
        && b.convs[c] == Conv(id, a.convs[c].events)
      else a == b
    case Finish(id, st) =>
      if id in a.turns then
        var was := a.turns[id];
        && TurnsKept(a, b, id) && ConvsKept(a, b, was.conv) && was.conv in a.convs && id in b.turns
        && b.turns[id] == Turn(was.conv, was.message, st, was.lease, was.cancel)
        && b.convs[was.conv] == Conv(if a.convs[was.conv].active == id then "" else a.convs[was.conv].active,
                                     a.convs[was.conv].events)
      else a == b
    case Append(c, batch) =>
      if c in a.convs then
        && ConvsKept(a, b, c) && a.turns == b.turns && b.convs[c].active == a.convs[c].active
        && Adds(a, b, c, batch) && NumberedFromOne(b.convs[c].events)
      else a == b
  }

  /** The locks it will ask for are free. */
  predicate LocksFree(s: State, x: nat)
    requires x in s.txs
  {
    match s.txs[x]
    case ClaimStart(id, c, _, _) => NoneHoldsConv(s, c) && NoneHoldsTurn(s, id)
    case ClaimLocked(id, _, _, _, _) => NoneHoldsTurn(s, id)
    case ClaimFresh(id, _, _, _, _) => NoneHoldsTurn(s, id)
    case FinishStart(id, _) => NoneHoldsTurn(s, id) && (id in s.db.turns ==> NoneHoldsConv(s, s.db.turns[id].conv))
    case FinishMarked(_, _, c) => NoneHoldsConv(s, c)
    case AppendStart(c, _) => NoneHoldsConv(s, c)
    case _ => true
  }

  predicate NoneHoldsConv(s: State, c: string) {
    forall y :: y in s.txs ==> !HoldsConv(s.txs[y], c)
  }

  predicate NoneHoldsTurn(s: State, t: string) {
    forall y :: y in s.txs ==> !HoldsTurn(s.txs[y], t)
  }

  function StepsLeft(tx: Tx): nat {
    match tx
    case ClaimStart(_, _, _, _) => 4
    case ClaimLocked(_, _, _, _, _) => 3
    case ClaimFresh(_, _, _, _, _) => 2
    case ClaimInserted(_, _, _, _) => 1
    case FinishStart(_, _) => 3
    case FinishMarked(_, _, _) => 2
    case FinishFreed(_, _, _, _) => 1
    case AppendStart(_, _) => 3
    case AppendLocked(_, _) => 2
    case AppendNumbered(_, _, _) => 1
  }

  /** A call that no lock holds up runs to its end and has done what its request says: a claim is
      granted exactly when its conversation exists, has no active turn and does not know the message,
      and its turn id is new; a finish is of a turn that exists; an append is to a conversation that
      exists; and otherwise nothing has changed. */
  lemma {:induction false} RunsAlone(s: State, x: nat)
    requires Inv(s) && x in s.txs && LocksFree(s, x)
    ensures var t := Alone(s, x, StepsLeft(s.txs[x]));
            Unhindered(s, x, StepsLeft(s.txs[x])) && TxsKept(s, t, x) && Done(s.db, t.db, RequestOf(s.txs[x]))
    decreases StepsLeft(s.txs[x])
  {
    hide Inv, AdvanceTx, Enabled, Done, LocksFree, TxsKept;
    var t := AdvanceTx(s, x);
    NotBlocked(s, x);
    if Commits(s, Advance(x)) {
      CommitDoes(s, x);
    } else if x in t.txs {
      MovesOn(s, x);
      RunsAlone(t, x);
      SameRest(s, t, Alone(t, x, StepsLeft(t.txs[x])), x);
    } else {
      GivesUp(s, x);
    }
  }

  lemma NotBlocked(s: State, x: nat)
    requires Inv(s) && x in s.txs && LocksFree(s, x)
    ensures Enabled(s, Advance(x))
  {
  }

  lemma CommitDoes(s: State, x: nat)
    requires Inv(s) && x in s.txs && Commits(s, Advance(x))
    ensures StepsLeft(s.txs[x]) == 1 && x !in AdvanceTx(s, x).txs
    ensures TxsKept(s, AdvanceTx(s, x), x) && Done(s.db, AdvanceTx(s, x).db, RequestOf(s.txs[x]))
  {
    hide AdvanceTx;
    assert TxOk(s.db, s.txs[x]);
    match s.txs[x]
    case AppendNumbered(_, _, _) => AppendStores(s, x);
    case ClaimInserted(_, _, _, _) => ClaimStores(s, x);
    case FinishFreed(_, _, _, _) => FinishStores(s, x);
  }

  /** A step that keeps the transaction open writes nothing and takes it one step on. */
  lemma MovesOn(s: State, x: nat)
    requires Inv(s) && x in s.txs && LocksFree(s, x) && !Commits(s, Advance(x)) && x in AdvanceTx(s, x).txs
    ensures var t := AdvanceTx(s, x);
            && Inv(t) && LocksFree(t, x) && t.db == s.db && RequestOf(t.txs[x]) == RequestOf(s.txs[x])
            && StepsLeft(t.txs[x]) == StepsLeft(s.txs[x]) - 1 && t.txs == s.txs[x := t.txs[x]]
  {
    NotBlocked(s, x);
    AdvanceMoves(s, x);
  }

  /** A transaction that gives up had nothing to do. */
  lemma GivesUp(s: State, x: nat)
    requires Inv(s) && x in s.txs && !Commits(s, Advance(x)) && x !in AdvanceTx(s, x).txs
    ensures TxsKept(s, AdvanceTx(s, x), x) && Done(s.db, AdvanceTx(s, x).db, RequestOf(s.txs[x]))
    ensures AdvanceTx(s, x).db == s.db
  {
    assert TxOk(s.db, s.txs[x]);
  }

  lemma SameRest(s: State, t: State, end: State, x: nat)
    requires x in t.txs && t.txs == s.txs[x := t.txs[x]] && TxsKept(t, end, x)
    ensures TxsKept(s, end, x)
  {
  }
}
