/** server/internal/chat/store.go: turns and events of conversations, written by any number of API
    instances. Transactions run as interleaved steps; a transaction's writes become visible when it
    commits, a row it has locked stays as it is until then, and it may roll back at any point. */
module ChatStore {
  import opened Numbering

  datatype Status = Running | Completed | Failed | Cancelled

  datatype Turn = Turn(conv: string, message: string, status: Status, lease: int, cancel: bool)
  datatype Event = Event(number: int, turn: string, body: string)

  /** `active` is the running turn's id, empty when there is none. */
  datatype Conv = Conv(active: string, events: seq<Event>)

  datatype Db = Db(convs: map<string, Conv>, turns: map<string, Turn>)

  /** Where a transaction stands. */
  datatype Tx =
    // ClaimTurn(id, conv, message)
    | ClaimStart(id: string, conv: string, message: string, lease: int)
    | ClaimLocked(id: string, conv: string, message: string, lease: int, active: string)
    | ClaimFresh(id: string, conv: string, message: string, lease: int, active: string)
    | ClaimInserted(id: string, conv: string, message: string, lease: int)
    // FinishTurn(id, status)
    | FinishStart(id: string, status: Status)
    | FinishMarked(id: string, status: Status, conv: string)
    | FinishFreed(id: string, status: Status, conv: string, active: string)
    // AppendEvents(conv, events)
    | AppendStart(conv: string, batch: seq<Event>)
    | AppendLocked(conv: string, batch: seq<Event>)
    | AppendNumbered(conv: string, batch: seq<Event>, last: int)

  datatype State = State(db: Db, txs: map<nat, Tx>)

  /** Which conversation row the transaction holds locked. */
  predicate HoldsConv(tx: Tx, c: string) {
    match tx
    case ClaimLocked(_, conv, _, _, _) => conv == c
    case ClaimFresh(_, conv, _, _, _) => conv == c
    case ClaimInserted(_, conv, _, _) => conv == c
    case FinishFreed(_, _, conv, _) => conv == c
    case AppendLocked(conv, _) => conv == c
    case AppendNumbered(conv, _, _) => conv == c
    case _ => false
  }

  /** Which turn row, existing or being inserted, it holds. */
  predicate HoldsTurn(tx: Tx, t: string) {
    match tx
    case ClaimInserted(id, _, _, _) => id == t
    case FinishMarked(id, _, _) => id == t
    case FinishFreed(id, _, _, _) => id == t
    case _ => false
  }

  predicate ConvFree(s: State, c: string) {
    forall x :: x in s.txs ==> !HoldsConv(s.txs[x], c)
  }

  predicate TurnFree(s: State, t: string) {
    forall x :: x in s.txs ==> !HoldsTurn(s.txs[x], t)
  }

  predicate MessageKnown(db: Db, c: string, message: string) {
    exists t :: t in db.turns && db.turns[t].conv == c && db.turns[t].message == message
  }

  function Numbers(events: seq<Event>): (r: seq<int>)
    ensures |r| == |events| && forall i :: 0 <= i < |r| ==> r[i] == events[i].number
  {
    seq(|events|, i requires 0 <= i < |events| => events[i].number)
  }

  /** The batch with the numbers `last + 1, last + 2, ...`. */
  function Numbered(batch: seq<Event>, last: int): (r: seq<Event>)
    ensures |r| == |batch|
    ensures forall i :: 0 <= i < |r| ==> r[i] == batch[i].(number := last + 1 + i)
  {
    seq(|batch|, i requires 0 <= i < |batch| => batch[i].(number := last + 1 + i))
  }

  datatype Step =
    | Begin(x: nat, tx: Tx)
    | Advance(x: nat)
    | Rollback(x: nat)
    | Create(conv: string)
    | RenewLease(turn: string, until: int)
    | RequestCancel(turn: string)

  predicate Fresh(tx: Tx) {
    tx.ClaimStart? || tx.FinishStart? || tx.AppendStart?
  }

  predicate Enabled(s: State, step: Step) {
    match step
    case Begin(x, tx) => x !in s.txs && Fresh(tx)
    case Rollback(x) => x in s.txs
    case Create(c) => c !in s.db.convs
    case RenewLease(t, _) => TurnFree(s, t)
    case RequestCancel(t) => TurnFree(s, t)
    case Advance(x) =>
      x in s.txs &&
      match s.txs[x]
      case ClaimStart(_, c, _, _) => ConvFree(s, c)
      case ClaimFresh(id, _, _, _, _) => id in s.db.turns || TurnFree(s, id)
      case FinishStart(id, _) => TurnFree(s, id)
      case FinishMarked(_, _, c) => ConvFree(s, c)
      case AppendStart(c, _) => ConvFree(s, c)
      case _ => true
  }

  /** `UPDATE ... WHERE id = ? AND status = 'running'`. */
  function UpdateRunning(db: Db, t: string, turn: Turn): Db {
    if t in db.turns && db.turns[t].status == Running then db.(turns := db.turns[t := turn]) else db
  }

  function Drop(s: State, x: nat): State {
    s.(txs := s.txs - {x})
  }

  function Put(s: State, x: nat, tx: Tx): State {
    s.(txs := s.txs[x := tx])
  }

  /** The effects of the three commits. */
  function Claimed(db: Db, id: string, c: string, message: string, lease: int): Db
    requires c in db.convs
  {
    Db(db.convs[c := db.convs[c].(active := id)], db.turns[id := Turn(c, message, Running, lease, false)])
  }

  function Finished(db: Db, id: string, status: Status, c: string, active: string): Db
    requires c in db.convs && id in db.turns
  {
    Db(db.convs[c := db.convs[c].(active := active)], db.turns[id := db.turns[id].(status := status)])
  }

  function Appended(db: Db, c: string, batch: seq<Event>, last: int): Db
    requires c in db.convs
  {
    db.(convs := db.convs[c := db.convs[c].(events := db.convs[c].events + Numbered(batch, last))])
  }

  /** One statement of a transaction, with its error exits as roll backs. */
  function AdvanceTx(s: State, x: nat): State
    requires x in s.txs
  {
    match s.txs[x]
    case ClaimStart(id, c, m, l) =>
      if c !in s.db.convs then Drop(s, x)                       // ErrNotFound
      else Put(s, x, ClaimLocked(id, c, m, l, s.db.convs[c].active))
    case ClaimLocked(id, c, m, l, a) =>
      if MessageKnown(s.db, c, m) then Drop(s, x)               // ErrDuplicate
      else if a != "" then Drop(s, x)                           // ErrTurnInProgress
      else Put(s, x, ClaimFresh(id, c, m, l, a))
    case ClaimFresh(id, c, m, l, a) =>
      if id in s.db.turns then Drop(s, x)                       // primary key violation
      else Put(s, x, ClaimInserted(id, c, m, l))
    case ClaimInserted(id, c, m, l) =>
      if c !in s.db.convs then Drop(s, x) else Drop(s, x).(db := Claimed(s.db, id, c, m, l))
    case FinishStart(id, st) =>
      if id !in s.db.turns then Drop(s, x)                      // ErrNotFound
      else Put(s, x, FinishMarked(id, st, s.db.turns[id].conv))
    case FinishMarked(id, st, c) =>
      if c !in s.db.convs then Drop(s, x)
      else Put(s, x, FinishFreed(id, st, c, if s.db.convs[c].active == id then "" else s.db.convs[c].active))
    case FinishFreed(id, st, c, a) =>
      if c !in s.db.convs || id !in s.db.turns then Drop(s, x) else Drop(s, x).(db := Finished(s.db, id, st, c, a))
    case AppendStart(c, b) =>
      if c !in s.db.convs then Drop(s, x)                       // ErrNotFound
      else Put(s, x, AppendLocked(c, b))
    case AppendLocked(c, b) =>
      if c !in s.db.convs then Drop(s, x)
      else Put(s, x, AppendNumbered(c, b, Highest(Numbers(s.db.convs[c].events))))
    case AppendNumbered(c, b, last) =>
      if c !in s.db.convs then Drop(s, x) else Drop(s, x).(db := Appended(s.db, c, b, last))
  }

  function Take(s: State, step: Step): State
    requires Enabled(s, step)
  {
    match step
    case Begin(x, tx) => Put(s, x, tx)
    case Advance(x) => AdvanceTx(s, x)
    case Rollback(x) => Drop(s, x)
    case Create(c) => s.(db := s.db.(convs := s.db.convs[c := Conv("", [])]))
    case RenewLease(t, until) =>
      s.(db := if t in s.db.turns then UpdateRunning(s.db, t, s.db.turns[t].(lease := until)) else s.db)
    case RequestCancel(t) =>
      s.(db := if t in s.db.turns then UpdateRunning(s.db, t, s.db.turns[t].(cancel := true)) else s.db)
  }

  /** What the callers promise: turn ids are not empty and a turn finishes with a final status. */
  predicate Proper(step: Step) {
    step.Begin? ==>
      && (step.tx.ClaimStart? ==> step.tx.id != "")
      && (step.tx.FinishStart? ==> step.tx.status != Running)
  }

  /** The promise of the store about a conversation's turns. */
  ghost predicate OneRunning(db: Db) {
    && (forall c :: c in db.convs && db.convs[c].active != "" ==> RunningIn(db, db.convs[c].active, c))
    && (forall t :: t in db.turns && db.turns[t].status == Running ==>
          t != "" && db.turns[t].conv in db.convs && db.convs[db.turns[t].conv].active == t)
  }

  predicate RunningIn(db: Db, t: string, c: string) {
    t in db.turns && db.turns[t].conv == c && db.turns[t].status == Running
  }

  predicate SameMessage(db: Db, t: string, u: string) {
    && t in db.turns && u in db.turns
    && db.turns[t].conv == db.turns[u].conv && db.turns[t].message == db.turns[u].message
  }

  /** A client message makes at most one turn. */
  ghost predicate OneTurnPerMessage(db: Db) {
    forall t, u :: SameMessage(db, t, u) ==> t == u
  }

  /** Events are numbered 1, 2, 3, ... in commit order. */
  ghost predicate GapFree(db: Db) {
    forall c :: c in db.convs ==> NumberedFromOne(db.convs[c].events)
  }

  predicate NumberedFromOne(events: seq<Event>) {
    forall i :: 0 <= i < |events| ==> events[i].number == i + 1
  }

  ghost predicate DbOk(db: Db) {
    OneRunning(db) && OneTurnPerMessage(db) && GapFree(db)
    && forall t :: t in db.turns ==> db.turns[t].conv in db.convs
  }

  /** What a transaction in flight knows about the rows it holds. */
  ghost predicate TxOk(db: Db, tx: Tx) {
    match tx
    case ClaimStart(id, _, _, _) => id != ""
    case ClaimLocked(id, c, _, _, a) => id != "" && c in db.convs && db.convs[c].active == a
    case ClaimFresh(id, c, m, _, a) =>
      id != "" && c in db.convs && db.convs[c].active == "" && !MessageKnown(db, c, m)
    case ClaimInserted(id, c, m, _) =>
      id != "" && c in db.convs && db.convs[c].active == "" && !MessageKnown(db, c, m) && id !in db.turns
    case FinishStart(_, st) => st != Running
    case FinishMarked(id, st, c) => st != Running && id in db.turns && db.turns[id].conv == c
    case FinishFreed(id, st, c, a) =>
      && st != Running && id in db.turns && db.turns[id].conv == c && c in db.convs
      && a == if db.convs[c].active == id then "" else db.convs[c].active
    case AppendStart(_, _) => true
    case AppendLocked(c, _) => c in db.convs
    case AppendNumbered(c, _, last) => c in db.convs && last == |db.convs[c].events|
  }

  ghost predicate Exclusive(txs: map<nat, Tx>) {
    && (forall x, y, c :: x in txs && y in txs && HoldsConv(txs[x], c) && HoldsConv(txs[y], c) ==> x == y)
    && (forall x, y, t :: x in txs && y in txs && HoldsTurn(txs[x], t) && HoldsTurn(txs[y], t) ==> x == y)
  }

  ghost predicate Inv(s: State) {
    && DbOk(s.db) && Exclusive(s.txs)
    && forall x :: x in s.txs ==> TxOk(s.db, s.txs[x])
  }

  /** Two databases look the same to a transaction that holds none of the rows that differ. */
  ghost predicate SameFor(a: Db, b: Db, tx: Tx) {
    && (forall c :: c in a.convs ==> c in b.convs)
    && (forall c :: c in a.convs && HoldsConv(tx, c) ==>
          b.convs[c] == a.convs[c] && (forall m :: MessageKnown(b, c, m) ==> MessageKnown(a, c, m)))
    && (forall t :: t in a.turns ==> t in b.turns && b.turns[t].conv == a.turns[t].conv)
    && (forall t :: t in b.turns && t !in a.turns ==> !HoldsTurn(tx, t))
  }

  lemma TxKept(a: Db, b: Db, tx: Tx)
    requires TxOk(a, tx) && SameFor(a, b, tx)
    ensures TxOk(b, tx)
  {
    match tx
    case ClaimFresh(id, c, m, l, act) => assert HoldsConv(tx, c);
    case ClaimInserted(id, c, m, l) => assert HoldsConv(tx, c) && HoldsTurn(tx, id);
    case ClaimLocked(id, c, m, l, act) => assert HoldsConv(tx, c);
    case FinishFreed(id, st, c, act) => assert HoldsConv(tx, c);
    case AppendLocked(c, bt) => assert HoldsConv(tx, c);
    case AppendNumbered(c, bt, last) => assert HoldsConv(tx, c);
    case _ =>
  }

  lemma ClaimCommit(db: Db, id: string, c: string, m: string, l: int)
    requires DbOk(db) && TxOk(db, ClaimInserted(id, c, m, l))
    ensures DbOk(Claimed(db, id, c, m, l))
    ensures forall tx :: !HoldsConv(tx, c) && !HoldsTurn(tx, id) ==> SameFor(db, Claimed(db, id, c, m, l), tx)
  {
    var next := Claimed(db, id, c, m, l);
    forall k, m' | k != c && MessageKnown(next, k, m') ensures MessageKnown(db, k, m') {
      var t :| t in next.turns && next.turns[t].conv == k && next.turns[t].message == m';
      assert t != id && t in db.turns;
    }
    forall t, u | SameMessage(next, t, u) ensures t == u {
      if t in db.turns { NotKnown(db, c, m, t); }
      if u in db.turns { NotKnown(db, c, m, u); }
      assert t != id && u != id ==> SameMessage(db, t, u);
    }
  }

  lemma NotKnown(db: Db, c: string, m: string, t: string)
    requires !MessageKnown(db, c, m) && t in db.turns
    ensures db.turns[t].conv != c || db.turns[t].message != m
  {
  }

  lemma FinishCommit(db: Db, id: string, st: Status, c: string, a: string)
    requires DbOk(db) && TxOk(db, FinishFreed(id, st, c, a))
    ensures DbOk(Finished(db, id, st, c, a))
    ensures forall tx :: !HoldsConv(tx, c) && !HoldsTurn(tx, id) ==> SameFor(db, Finished(db, id, st, c, a), tx)
  {
    var next := Finished(db, id, st, c, a);
    forall t ensures t in next.turns <==> t in db.turns {}
    forall t | t in db.turns
      ensures next.turns[t].conv == db.turns[t].conv && next.turns[t].message == db.turns[t].message {}
    SameMessages(db, next);
    forall t, u | SameMessage(next, t, u) ensures t == u { assert SameMessage(db, t, u); }
  }

  lemma SameMessages(a: Db, b: Db)
    requires a.turns.Keys == b.turns.Keys
    requires forall t :: t in a.turns ==> a.turns[t].conv == b.turns[t].conv && a.turns[t].message == b.turns[t].message
    ensures forall c, m :: MessageKnown(b, c, m) ==> MessageKnown(a, c, m)
  {
    forall c, m | MessageKnown(b, c, m) ensures MessageKnown(a, c, m) {
      var t :| t in b.turns && b.turns[t].conv == c && b.turns[t].message == m;
      assert t in a.turns;
    }
  }

  lemma AppendCommit(db: Db, c: string, b: seq<Event>, last: int)
    requires DbOk(db) && TxOk(db, AppendNumbered(c, b, last))
    ensures DbOk(Appended(db, c, b, last))
    ensures forall tx :: !HoldsConv(tx, c) ==> SameFor(db, Appended(db, c, b, last), tx)
  {
    var next := Appended(db, c, b, last);
    SameMessages(db, next);
    forall t, u | SameMessage(next, t, u) ensures t == u { assert SameMessage(db, t, u); }
  }

  lemma TouchKeeps(db: Db, t: string, turn: Turn)
    requires DbOk(db) && t in db.turns
    requires turn.conv == db.turns[t].conv && turn.message == db.turns[t].message && turn.status == db.turns[t].status
    ensures DbOk(UpdateRunning(db, t, turn))
    ensures forall tx :: SameFor(db, UpdateRunning(db, t, turn), tx)
  {
    var next := UpdateRunning(db, t, turn);
    SameMessages(db, next);
    forall u, v | SameMessage(next, u, v) ensures u == v { assert SameMessage(db, u, v); }
  }

  lemma BeginOrDrop(s: State, x: nat)
    requires Inv(s)
    ensures Inv(Drop(s, x))
    ensures forall tx :: x !in s.txs && Fresh(tx) && TxOk(s.db, tx) ==> Inv(Put(s, x, tx))
  {
  }

  /** A transaction moves on without writing: it may take one more row that nobody holds. */
  lemma PutKeeps(s: State, x: nat, tx: Tx)
    requires Inv(s) && x in s.txs && TxOk(s.db, tx)
    requires forall c :: HoldsConv(tx, c) ==> HoldsConv(s.txs[x], c) || ConvFree(s, c)
    requires forall t :: HoldsTurn(tx, t) ==> HoldsTurn(s.txs[x], t) || TurnFree(s, t)
    ensures Inv(Put(s, x, tx))
  {
  }

  /** A transaction commits: the others hold none of the rows it changed. */
  lemma CommitKeeps(s: State, x: nat, next: Db)
    requires Inv(s) && x in s.txs && DbOk(next)
    requires forall y :: y in s.txs && y != x ==> SameFor(s.db, next, s.txs[y])
    ensures Inv(Drop(s, x).(db := next))
  {
    forall y | y in s.txs && y != x ensures TxOk(next, s.txs[y]) {
      TxKept(s.db, next, s.txs[y]);
    }
  }

  lemma AdvanceCommits(s: State, x: nat)
    requires Inv(s) && x in s.txs
    requires s.txs[x].ClaimInserted? || s.txs[x].FinishFreed? || s.txs[x].AppendNumbered?
    ensures Inv(AdvanceTx(s, x))
  {
    assert TxOk(s.db, s.txs[x]);
    match s.txs[x]
    case ClaimInserted(id, c, m, l) =>
      ClaimCommit(s.db, id, c, m, l);
      assert HoldsConv(s.txs[x], c) && HoldsTurn(s.txs[x], id);
      CommitKeeps(s, x, Claimed(s.db, id, c, m, l));
    case FinishFreed(id, st, c, a) =>
      FinishCommit(s.db, id, st, c, a);
      assert HoldsConv(s.txs[x], c) && HoldsTurn(s.txs[x], id);
      CommitKeeps(s, x, Finished(s.db, id, st, c, a));
    case AppendNumbered(c, b, last) =>
      AppendCommit(s.db, c, b, last);
      assert HoldsConv(s.txs[x], c);
      CommitKeeps(s, x, Appended(s.db, c, b, last));
  }

  lemma AdvanceMoves(s: State, x: nat)
    requires Inv(s) && Enabled(s, Advance(x))
    requires !(s.txs[x].ClaimInserted? || s.txs[x].FinishFreed? || s.txs[x].AppendNumbered?)
    ensures Inv(AdvanceTx(s, x))
  {
    hide DbOk, Exclusive;
    assert TxOk(s.db, s.txs[x]);
    BeginOrDrop(s, x);
    var next := AdvanceTx(s, x);
    if next != Drop(s, x) {
      if s.txs[x].AppendLocked? { NumberedNow(s, s.txs[x].conv); }
      PutKeeps(s, x, next.txs[x]);
    }
  }

  lemma NumberedNow(s: State, c: string)
    requires Inv(s) && c in s.db.convs
    ensures Highest(Numbers(s.db.convs[c].events)) == |s.db.convs[c].events|
  {
    HighestFromOne(Numbers(s.db.convs[c].events));
  }

  lemma OtherStepKeeps(s: State, step: Step)
    requires Inv(s) && Enabled(s, step) && Proper(step) && !step.Advance?
    ensures Inv(Take(s, step))
  {
    match step
    case Begin(x, tx) => BeginOrDrop(s, x);
    case Rollback(x) => BeginOrDrop(s, x);
    case Create(c) => CreateKeeps(s, c);
    case RenewLease(t, until) =>
      if t in s.db.turns { TouchedKeeps(s, t, s.db.turns[t].(lease := until)); }
    case RequestCancel(t) =>
      if t in s.db.turns { TouchedKeeps(s, t, s.db.turns[t].(cancel := true)); }
  }

  lemma CreateKeeps(s: State, c: string)
    requires Inv(s) && c !in s.db.convs
    ensures Inv(Take(s, Create(c)))
  {
    var next := s.db.(convs := s.db.convs[c := Conv("", [])]);
    SameMessages(s.db, next);
    forall t, u | SameMessage(next, t, u) ensures t == u { assert SameMessage(s.db, t, u); }
    forall x | x in s.txs ensures TxOk(next, s.txs[x]) {
      assert TxOk(s.db, s.txs[x]);
      TxKept(s.db, next, s.txs[x]);
    }
  }

  lemma TouchedKeeps(s: State, t: string, turn: Turn)
    requires Inv(s) && t in s.db.turns
    requires turn.conv == s.db.turns[t].conv && turn.message == s.db.turns[t].message
             && turn.status == s.db.turns[t].status
    ensures Inv(s.(db := UpdateRunning(s.db, t, turn)))
  {
    TouchKeeps(s.db, t, turn);
    forall x | x in s.txs ensures TxOk(UpdateRunning(s.db, t, turn), s.txs[x]) {
      TxKept(s.db, UpdateRunning(s.db, t, turn), s.txs[x]);
    }
  }

  ghost predicate Init(s: State) {
    s == State(Db(map[], map[]), map[])
  }

  /** A run by any number of instances, in any interleaving. */
  ghost predicate Run(trace: seq<State>, steps: seq<Step>) {
    && |trace| == |steps| + 1 && Init(trace[0])
    && forall k :: 0 <= k < |steps| ==> Enabled(trace[k], steps[k]) && trace[k + 1] == Take(trace[k], steps[k])
  }

  /** In every state of every run: `active_turn_id` is non-empty exactly when that turn is its
      conversation's one running turn, a client message has at most one turn, and every
      conversation's events are numbered from one without a gap. */
  lemma {:induction false} EveryRun(trace: seq<State>, steps: seq<Step>, i: nat)
    requires Run(trace, steps) && i < |trace| && forall k :: 0 <= k < |steps| ==> Proper(steps[k])
    ensures Inv(trace[i])
    ensures OneRunning(trace[i].db) && OneTurnPerMessage(trace[i].db) && GapFree(trace[i].db)
  {
    if i > 0 {
      EveryRun(trace, steps, i - 1);
      var s, step := trace[i - 1], steps[i - 1];
      if step.Advance? {
        if s.txs[step.x].ClaimInserted? || s.txs[step.x].FinishFreed? || s.txs[step.x].AppendNumbered? {
          AdvanceCommits(s, step.x);
        } else {
          AdvanceMoves(s, step.x);
        }
      } else {
        OtherStepKeeps(s, step);
      }
    }
  }

  /** The running turns of a conversation are at most one, and it is the active one. */
  lemma RunningIsActive(db: Db, c: string, t: string)
    requires OneRunning(db) && c in db.convs
    ensures RunningIn(db, t, c) <==> t != "" && db.convs[c].active == t
  {
  }

  /** A finishing turn frees the slot if and only if the slot is its own: a late finish of an old
      turn leaves a newer turn in place. */
  lemma FinishFreesOnlyItself(s: State, x: nat)
    requires Inv(s) && x in s.txs && s.txs[x].FinishFreed?
    ensures var tx := s.txs[x];
            var was, now := s.db.convs[tx.conv].active, AdvanceTx(s, x).db.convs[tx.conv].active;
            && now == (if was == tx.id then "" else was)
            && AdvanceTx(s, x).db.turns[tx.id].status == tx.status
  {
    assert TxOk(s.db, s.txs[x]);
  }

  /** Turns and events are never lost, whatever step comes. */
  lemma NothingLost(s: State, step: Step)
    requires Inv(s) && Enabled(s, step)
    ensures s.db.turns.Keys <= Take(s, step).db.turns.Keys
    ensures forall c :: c in s.db.convs ==>
              c in Take(s, step).db.convs && s.db.convs[c].events <= Take(s, step).db.convs[c].events
  {
    if step.Advance? { assert TxOk(s.db, s.txs[step.x]); }
  }

  /** The lock order admits no deadlock: while any transaction is open, some can advance. */
  lemma NoDeadlock(s: State) returns (y: nat)
    requires Inv(s) && s.txs != map[]
    ensures Enabled(s, Advance(y))
  {
    var x :| x in s.txs;
    if Enabled(s, Advance(x)) { return x; }
    match s.txs[x]
    case ClaimStart(_, c, _, _) => y := ConvHolderAdvances(s, c);
    case AppendStart(c, _) => y := ConvHolderAdvances(s, c);
    case FinishMarked(_, _, c) => y := ConvHolderAdvances(s, c);
    case ClaimFresh(id, _, _, _, _) =>
      y :| y in s.txs && HoldsTurn(s.txs[y], id);
      assert TxOk(s.db, s.txs[y]);
    case FinishStart(id, _) =>
      y :| y in s.txs && HoldsTurn(s.txs[y], id);
      if s.txs[y].FinishMarked? && !ConvFree(s, s.txs[y].conv) {
        y := ConvHolderAdvances(s, s.txs[y].conv);
      }
  }

  lemma ConvHolderAdvances(s: State, c: string) returns (y: nat)
    requires Inv(s) && !ConvFree(s, c)
    ensures Enabled(s, Advance(y))
  {
    y :| y in s.txs && HoldsConv(s.txs[y], c);
    if s.txs[y].ClaimFresh? && s.txs[y].id !in s.db.turns && !TurnFree(s, s.txs[y].id) {
      var id := s.txs[y].id;
      y :| y in s.txs && HoldsTurn(s.txs[y], id);
      assert TxOk(s.db, s.txs[y]);
    }
  }

  /** The premise on statuses is needed: finishing the active turn as running frees its slot. */
  lemma FinishAsRunningBreaks(db: Db, c: string, t: string)
    requires OneRunning(db) && c in db.convs && RunningIn(db, t, c)
    ensures !OneRunning(Finished(db, t, Running, c, ""))
  {
    var next := Finished(db, t, Running, c, "");
    assert t in next.turns && next.turns[t].status == Running;
  }

  /** So is the premise on ids: the empty id means "no turn". */
  lemma EmptyIdBreaks(db: Db, c: string, m: string, l: int)
    requires c in db.convs
    ensures !OneRunning(Claimed(db, "", c, m, l))
  {
    var next := Claimed(db, "", c, m, l);
    assert "" in next.turns && next.turns[""].status == Running;
  }
}
