/** server/internal/middleware/ratelimit.go: how many requests any window lets through while cleanup
    runs, and for exactly which configurations that keeps to the promised bound. */
module RateWindows {
  import opened RateLimit
  import opened RateKeys

  /** The least time after its last refill at which a bucket is taken away. */
  const AGE: int := STALE + 1

  /** What one refill can add at most, however many intervals it makes up for. */
  function Cap(c: Config): int {
    if c.rate <= c.burst then c.rate else c.burst
  }

  /** The most that `lives` further buckets and `refills` intervals can grant. If `partial`, the first
      bucket was filled before the window and has given one token away. */
  function Budget(c: Config, partial: bool, lives: nat, refills: nat): int {
    (lives + 1) * c.burst + refills * Cap(c) - if partial then 1 else 0
  }

  /** The earliest moment by which that many can have come, the window's first request being at `start`. */
  function Clock(c: Config, partial: bool, start: int, lives: nat, refills: nat): int {
    start + lives * AGE + refills * c.interval - if partial then c.interval - 1 else 0
  }

  lemma BudgetGrows(c: Config, partial: bool, lives: nat, refills: nat, n: nat)
    ensures Budget(c, partial, lives + 1, refills) == Budget(c, partial, lives, refills) + c.burst
    ensures Budget(c, partial, lives, refills + n) == Budget(c, partial, lives, refills) + n * Cap(c)
  {
    Distribute(lives + 1, 1, c.burst);
    Distribute(refills, n, Cap(c));
  }

  lemma ClockGrows(c: Config, partial: bool, start: int, lives: nat, refills: nat, n: nat)
    ensures Clock(c, partial, start, lives + 1, refills) == Clock(c, partial, start, lives, refills) + AGE
    ensures Clock(c, partial, start, lives, refills + n) == Clock(c, partial, start, lives, refills) + n * c.interval
  {
    Distribute(lives, 1, AGE);
    Distribute(refills, n, c.interval);
  }

  lemma Distribute(x: int, y: int, z: int)
    ensures (x + y) * z == x * z + y * z
  {
  }

  /** The account of a window: nothing asked yet, or the facts about the buckets it has used. */
  datatype Tally = Unused | Used(partial: bool, start: int, lives: nat, refills: nat, fill: int)

  ghost predicate Accounts(c: Config, t: Tally, e: Entry, granted: int, from: int, now: int) {
    && (e.Present? ==> 0 <= e.bucket.tokens < c.burst && e.bucket.lastFill <= now)
    && match t
       case Unused => granted == 0
       case Used(partial, start, lives, refills, fill) =>
         && from <= start <= now && fill <= now
         && Clock(c, partial, start, lives, refills) <= fill
         && (lives > 0 ==> start + (lives - 1) * AGE <= fill)
         && (if e.Present? then
               e.bucket.lastFill == fill && granted + e.bucket.tokens <= Budget(c, partial, lives, refills)
             else
               fill + AGE <= now && granted <= Budget(c, partial, lives, refills))
  }

  /** A refill after `n` whole intervals adds at most `n` times the cap. */
  lemma RefillAtMost(c: Config, b: Bucket, now: int) returns (n: nat)
    requires c.interval > 0 && c.rate > 0 && c.burst >= 1 && b.tokens >= 0 && b.lastFill <= now
    ensures var f := Refilled(c, b, now);
            && f.tokens <= b.tokens + n * Cap(c)
            && b.lastFill + n * c.interval <= f.lastFill <= now
            && (n == 0 ==> f == b && now - b.lastFill < c.interval)
            && (n > 0 ==> f.lastFill == now && f.tokens <= c.burst)
  {
    var a := now - b.lastFill;
    QuotientAtLeast(a, c.interval, 0);
    n := Quotient(a, c.interval);
    QuotientAtLeast(a, c.interval, n);
    if n == 0 {
      QuotientAtLeast(a, c.interval, 1);
    } else {
      Scale(1, n, c.rate);
      Scale(1, n, c.burst);
    }
  }

  /** A request of the key keeps the account. */
  lemma AskAccounts(c: Config, t: Tally, e: Entry, granted: int, from: int, before: int, now: int) returns (u: Tally)
    requires c.interval > 0 && c.rate > 0 && c.burst >= 1 && from <= now && before <= now
    requires Accounts(c, t, e, granted, from, before)
    ensures var v := Serve(c, e, now);
            Accounts(c, u, Present(v.bucket), granted + (if v.allowed then 1 else 0), from, now) && u.Used?
  {
    hide Gain, Budget, Clock;
    ServeBelow(c, e, now);
    match e
    case Missing => u := CreateAccounts(c, t, granted, from, before, now);
    case Present(b) =>
      var n := RefillAtMost(c, b, now);
      hide Refilled;
      match t
      case Unused => u := FirstAccounts(c, b, n, from, now);
      case Used(partial, start, lives, refills, fill) =>
        u := Used(partial, start, lives, refills + n, Refilled(c, b, now).lastFill);
        BudgetGrows(c, partial, lives, refills, n);
        ClockGrows(c, partial, start, lives, refills, n);
        if n > 0 { Scale(1, n, c.interval); }
  }

  /** The window's first request, on a bucket that is there: either refilled now, or filled less than
      an interval ago and one token short. */
  lemma FirstAccounts(c: Config, b: Bucket, n: nat, from: int, now: int) returns (u: Tally)
    requires c.interval > 0 && c.rate > 0 && c.burst >= 1 && from <= now
    requires 0 <= b.tokens < c.burst && b.lastFill <= now
    requires var f := Refilled(c, b, now);
             && 0 <= f.tokens && (n == 0 ==> f == b && now - b.lastFill < c.interval)
             && (n > 0 ==> f.lastFill == now && f.tokens <= c.burst)
    ensures var v := Serve(c, Present(b), now);
            u.Used? && (0 <= v.bucket.tokens < c.burst ==>
                          Accounts(c, u, Present(v.bucket), if v.allowed then 1 else 0, from, now))
  {
    hide Refilled;
    u := Used(n == 0, now, 0, 0, Refilled(c, b, now).lastFill);
  }

  /** A request that finds its bucket gone. */
  lemma CreateAccounts(c: Config, t: Tally, granted: int, from: int, before: int, now: int) returns (u: Tally)
    requires c.interval > 0 && c.burst >= 1 && from <= now && before <= now
    requires Accounts(c, t, Missing, granted, from, before)
    ensures u.Used? && Accounts(c, u, Present(Bucket(c.burst - 1, now)), granted + 1, from, now)
  {
    match t
    case Unused =>
      u := Used(false, now, 0, 0, now);
    case Used(partial, start, lives, refills, fill) =>
      hide Budget, Clock;
      u := Used(partial, start, lives + 1, refills, now);
      BudgetGrows(c, partial, lives, refills, 0);
      ClockGrows(c, partial, start, lives, refills, 0);
      if lives > 0 { Distribute(lives - 1, 1, AGE); }
  }

  /** A cleanup tick keeps it. */
  lemma SweepAccounts(c: Config, t: Tally, e: Entry, granted: int, from: int, before: int, now: int, key: string)
    requires c.interval > 0 && before <= now
    requires Accounts(c, t, e, granted, from, before)
    ensures Accounts(c, t, EntryStep(c, e, Sweep(now), key, true), granted, from, now)
  {
    hide Budget, Clock;
  }

  /** One more operation. */
  lemma OpAccounts(c: Config, t: Tally, e: Entry, granted: int, from: int, op: Op, key: string) returns (u: Tally)
    requires c.interval > 0 && c.rate > 0 && c.burst >= 1 && from <= op.now && Accounts(c, t, e, granted, from, op.now)
    ensures var allowed := op.Ask? && op.key == key && Serve(c, e, op.now).allowed;
            Accounts(c, u, EntryStep(c, e, op, key, true), granted + if allowed then 1 else 0, from, op.now)
  {
    hide Accounts, Serve;
    if op.Sweep? {
      u := t;
      SweepAccounts(c, t, e, granted, from, op.now, op.now, key);
    } else if op.key == key {
      u := AskAccounts(c, t, e, granted, from, op.now, op.now);
    } else {
      u := t;
    }
  }

  /** The whole window. */
  lemma {:induction false} WindowAccounts(c: Config, ops: seq<Op>, more: seq<Op>, key: string, from: int, now: int)
      returns (t: Tally)
    requires c.interval > 0 && c.rate > 0 && c.burst >= 1 && OpsTimely(ops + more)
    requires forall i :: 0 <= i < |more| ==> from <= more[i].now <= now
    requires forall i :: 0 <= i < |ops| ==> ops[i].now <= now
    ensures Accounts(c, t, Lookup(After(c, ops + more, true), key), AllowedIn(c, ops, more, key, true), from, now)
  {
    SplitTimely(ops, more);
    if more == [] {
      assert ops + more == ops;
      EntriesTimely(c, ops, now, true);
      t := Unused;
    } else {
      var init, last := more[..|more| - 1], more[|more| - 1];
      assert ops + more == (ops + init) + [last] && more == init + [last];
      SplitTimely(ops + init, [last]);
      BeforeLast(ops, more);
      var u := WindowAccounts(c, ops, init, key, from, last.now);
      hide After, AllowedIn, Accounts, OpsTimely;
      EntrySnoc(c, ops + init, last, key, true);
      AllowedSnoc(c, ops, init, last, key, true);
      t := OpAccounts(c, u, Lookup(After(c, ops + init, true), key), AllowedIn(c, ops, init, key, true), from, last,
                      key);
      LaterAccounts(c, t, Lookup(After(c, ops + more, true), key), AllowedIn(c, ops, more, key, true), from, last.now,
                    now);
    }
  }

  lemma BeforeLast(ops: seq<Op>, more: seq<Op>)
    requires OpsTimely(ops + more) && more != []
    ensures forall i :: 0 <= i < |ops| ==> ops[i].now <= more[|more| - 1].now
    ensures forall i :: 0 <= i < |more| ==> more[i].now <= more[|more| - 1].now
  {
    SplitTimely(ops, more);
  }

  lemma LaterAccounts(c: Config, t: Tally, e: Entry, granted: int, from: int, now: int, later: int)
    requires Accounts(c, t, e, granted, from, now) && now <= later
    ensures Accounts(c, t, e, granted, from, later)
  {
    hide Budget, Clock;
  }

  /** How long after the window's start the bucket that follows a partial one is gone again, `lives`
      buckets later. */
  function Spread(c: Config, lives: nat): int
    requires lives >= 1
  {
    (lives - 1) * AGE + if AGE >= c.interval then AGE - c.interval + 1 else 0
  }

  /** `lives` buckets in a row, each drained and swept as soon as it is stale, stay within the bound:
      after a full first bucket, after a partial one that is refilled once, and after a partial one
      that is not. */
  predicate Tight(c: Config, lives: nat)
    requires c.interval > 0 && lives >= 1
  {
    && lives * c.burst <= Gain(c, lives * AGE) + c.rate
    && lives * c.burst - 1 + Cap(c) <= Gain(c, lives * AGE + 1) + c.rate
    && lives * c.burst - 1 <= Gain(c, Spread(c, lives)) + c.rate
  }

  /** What the account allows is within the bound. */
  lemma TallyBound(c: Config, partial: bool, start: int, lives: nat, refills: nat, from: int, span: int)
    requires c.interval > 0 && c.rate > 0 && c.burst >= 1 && span >= 0
    requires from <= start <= from + span && Clock(c, partial, start, lives, refills) <= from + span
    requires lives > 0 ==> start + (lives - 1) * AGE <= from + span && Tight(c, lives)
    ensures Budget(c, partial, lives, refills) <= c.burst + Gain(c, span) + c.rate
  {
    hide Gain;
    Distribute(lives, 1, c.burst);
    Scale(Cap(c), c.rate, refills);
    Commute(Cap(c), refills);
    Commute(c.rate, refills);
    Scale(0, lives, AGE);
    GainMonotone(c, 0, span);
    GainZero(c);
    if !partial {
      FullBound(c, lives, refills, span);
    } else if refills > 0 {
      PartialBound(c, lives, refills, span);
    } else if lives > 0 {
      Scale(0, lives - 1, AGE);
      Distribute(lives - 1, 1, AGE);
      GainMonotone(c, Spread(c, lives), span);
    }
  }

  lemma Commute(x: int, y: int)
    ensures x * y == y * x
  {
  }

  lemma GainOf(c: Config, n: nat)
    requires c.interval > 0
    ensures Gain(c, n * c.interval) == n * c.rate && n * c.interval >= 0
  {
    QuotientExact(n, c.interval);
  }

  lemma FullBound(c: Config, lives: nat, refills: nat, span: int)
    requires c.interval > 0 && c.rate > 0 && lives * AGE >= 0
    requires lives * AGE + refills * c.interval <= span
    ensures refills * c.rate + Gain(c, lives * AGE) <= Gain(c, span)
  {
    hide Gain;
    GainOf(c, refills);
    GainSum(c, refills * c.interval, lives * AGE);
    GainMonotone(c, refills * c.interval + lives * AGE, span);
  }

  lemma PartialBound(c: Config, lives: nat, refills: nat, span: int)
    requires c.interval > 0 && c.rate > 0 && lives * AGE >= 0 && refills > 0
    requires lives * AGE + refills * c.interval - (c.interval - 1) <= span
    ensures (refills - 1) * c.rate + Gain(c, lives * AGE + 1) <= Gain(c, span)
    ensures (refills - 1) * Cap(c) <= (refills - 1) * c.rate
    ensures refills * Cap(c) == (refills - 1) * Cap(c) + Cap(c)
    ensures Gain(c, lives * AGE + 1) >= 0
  {
    hide Gain;
    Distribute(refills - 1, 1, c.interval);
    Distribute(refills - 1, 1, Cap(c));
    GainOf(c, refills - 1);
    GainSum(c, (refills - 1) * c.interval, lives * AGE + 1);
    GainMonotone(c, (refills - 1) * c.interval + lives * AGE + 1, span);
    GainMonotone(c, 0, lives * AGE + 1);
    GainZero(c);
    Scale(Cap(c), c.rate, refills - 1);
    Commute(Cap(c), refills - 1);
    Commute(c.rate, refills - 1);
  }

  /** In every run with cleanup, a key gets at most burst + (floor(T / interval) + 1) * rate requests
      through in any window of length T. */
  ghost predicate WindowBounded(c: Config)
    requires c.interval > 0
  {
    forall ops, more, key, from, span :: BoundedIn(c, ops, more, key, from, span)
  }

  ghost predicate BoundedIn(c: Config, ops: seq<Op>, more: seq<Op>, key: string, from: int, span: int)
    requires c.interval > 0
  {
    OpsTimely(ops + more) && span >= 0 && (forall i :: 0 <= i < |more| ==> from <= more[i].now <= from + span) ==>
      AllowedIn(c, ops, more, key, true) <= c.burst + Gain(c, span) + c.rate
  }

  ghost predicate AllTight(c: Config)
    requires c.interval > 0
  {
    forall k :: k >= 1 ==> Tight(c, k)
  }

  /** The condition on the configuration, checked before the limiter is made: draining as fast as
      buckets go stale is no faster than the rate, and stays within the bound over one full cycle. A
      limiter whose burst is not positive grants one request per bucket, the one that makes it. */
  predicate WindowSafe(c: Config)
    requires c.interval > 0
  {
    if c.burst >= 1 then
      c.interval * c.burst <= AGE * c.rate && forall k :: 1 <= k <= c.interval ==> Tight(c, k)
    else
      c.interval <= AGE * c.rate && forall k :: 0 <= k < c.interval ==> Sparse(c, k)
  }

  /** One request and `k` more, each for a new bucket, stay within the bound. */
  predicate Sparse(c: Config, k: nat)
    requires c.interval > 0
  {
    k + 1 <= c.burst + Gain(c, k * AGE) + c.rate
  }

  lemma TightBounds(c: Config, ops: seq<Op>, more: seq<Op>, key: string, from: int, span: int)
    requires c.interval > 0 && c.burst >= 1 && c.rate > 0 && AllTight(c) && OpsTimely(ops + more) && span >= 0
    requires forall i :: 0 <= i < |more| ==> from <= more[i].now <= from + span
    ensures AllowedIn(c, ops, more, key, true) <= c.burst + Gain(c, span) + c.rate
  {
    hide AllowedIn, Tight, Gain, Clock, Budget;
    GainMonotone(c, 0, span);
    GainZero(c);
    if more != [] {
      SplitTimely(ops, more);
      assert forall i :: 0 <= i < |ops| ==> ops[i].now <= more[0].now;
      var t := WindowAccounts(c, ops, more, key, from, from + span);
      if t.Used? {
        TallyBound(c, t.partial, t.start, t.lives, t.refills, from, span);
      }
    } else {
      assert AllowedIn(c, ops, [], key, true) == 0 by { NothingAllowed(c, ops, key); }
    }
  }

  lemma NothingAllowed(c: Config, ops: seq<Op>, key: string)
    requires c.interval > 0
    ensures AllowedIn(c, ops, [], key, true) == 0
  {
  }

  ghost predicate Spans(ops: seq<Op>, lo: int, hi: int) {
    OpsTimely(ops) && lo <= hi && forall i :: 0 <= i < |ops| ==> lo <= ops[i].now <= hi
  }

  /** From `ops` on, `more` takes place between `lo` and `hi`, grants this much and leaves this entry. */
  ghost predicate Story(c: Config, ops: seq<Op>, more: seq<Op>, lo: int, hi: int, granted: int, e: Entry)
    requires c.interval > 0
  {
    Spans(more, lo, hi) && AllowedIn(c, ops, more, "", true) == granted && Lookup(After(c, ops + more, true), "") == e
  }

  lemma {:induction false} AllowedJoin(c: Config, ops: seq<Op>, x: seq<Op>, y: seq<Op>, key: string)
    requires c.interval > 0
    ensures AllowedIn(c, ops, x + y, key, true) == AllowedIn(c, ops, x, key, true) + AllowedIn(c, ops + x, y, key, true)
  {
    if y == [] {
      assert x + y == x;
      NothingAllowed(c, ops + x, key);
    } else {
      hide AllowedIn, After;
      var init, last := y[..|y| - 1], y[|y| - 1];
      AllowedJoin(c, ops, x, init, key);
      assert y == init + [last] && x + y == (x + init) + [last] && ops + (x + init) == (ops + x) + init;
      AllowedSnoc(c, ops, x + init, last, key, true);
      AllowedSnoc(c, ops + x, init, last, key, true);
    }
  }

  lemma SpansJoin(x: seq<Op>, y: seq<Op>, lo: int, mid: int, mid': int, hi: int)
    requires Spans(x, lo, mid) && Spans(y, mid', hi) && mid <= mid'
    ensures Spans(x + y, lo, hi)
  {
  }

  lemma StoryJoin(c: Config, ops: seq<Op>, x: seq<Op>, y: seq<Op>, lo: int, mid: int, mid': int, hi: int, g: int,
                  h: int, d: Entry, e: Entry)
    requires c.interval > 0 && mid <= mid'
    requires Story(c, ops, x, lo, mid, g, d) && Story(c, ops + x, y, mid', hi, h, e)
    ensures Story(c, ops, x + y, lo, hi, g + h, e)
  {
    hide AllowedIn, After, Spans;
    AllowedJoin(c, ops, x, y, "");
    SpansJoin(x, y, lo, mid, mid', hi);
    assert ops + (x + y) == (ops + x) + y;
  }

  /** Requests at one moment take what is there, while no whole interval has passed. */
  lemma {:induction false} Drain(c: Config, ops: seq<Op>, b: Bucket, now: int, n: nat)
    requires c.interval > 0 && Lookup(After(c, ops, true), "") == Present(b) && n <= b.tokens
             && Gain(c, now - b.lastFill) <= 0
    ensures Story(c, ops, AsksAt(now, n), now, now, n, Present(b.(tokens := b.tokens - n)))
  {
    hide After, Gain, Story, AsksAt, Serve;
    if n == 0 {
      NoAsks(c, ops, now);
    } else {
      var left := Present(b.(tokens := b.tokens - (n - 1)));
      Drain(c, ops, b, now, n - 1);
      StoryEntry(c, ops, AsksAt(now, n - 1), now, now, n - 1, left);
      OneAsk(c, ops + AsksAt(now, n - 1), now);
      TakeOne(c, left.bucket, now);
      StoryJoin(c, ops, AsksAt(now, n - 1), [Ask("", now)], now, now, now, now, n - 1, 1, left,
                Present(b.(tokens := b.tokens - n)));
      AsksAtStep(now, n);
    }
  }

  lemma NoAsks(c: Config, ops: seq<Op>, now: int)
    requires c.interval > 0
    ensures Story(c, ops, AsksAt(now, 0), now, now, 0, Lookup(After(c, ops, true), ""))
  {
    hide After;
    assert ops + AsksAt(now, 0) == ops;
    NothingAllowed(c, ops, "");
  }

  lemma TakeOne(c: Config, b: Bucket, now: int)
    requires c.interval > 0 && b.tokens > 0 && Gain(c, now - b.lastFill) <= 0
    ensures Serve(c, Present(b), now) == Verdict(true, b.(tokens := b.tokens - 1))
  {
    hide Gain;
  }

  lemma AsksAtStep(now: int, n: nat)
    requires n > 0
    ensures AsksAt(now, n) == AsksAt(now, n - 1) + [Ask("", now)]
  {
  }

  lemma OneAsk(c: Config, ops: seq<Op>, now: int)
    requires c.interval > 0
    ensures var v := Serve(c, Lookup(After(c, ops, true), ""), now);
            Story(c, ops, [Ask("", now)], now, now, if v.allowed then 1 else 0, Present(v.bucket))
  {
    hide After, Serve, AllowedIn;
    EntrySnoc(c, ops, Ask("", now), "", true);
    assert [] + [Ask("", now)] == [Ask("", now)] && ops + [] == ops;
    AllowedSnoc(c, ops, [], Ask("", now), "", true);
    NothingAllowed(c, ops, "");
  }

  /** A new bucket grants its burst at once. */
  lemma FreshBurst(c: Config, ops: seq<Op>, now: int)
    requires c.interval > 0 && c.burst >= 1 && Lookup(After(c, ops, true), "") == Missing
    ensures Story(c, ops, AsksAt(now, c.burst), now, now, c.burst, Present(Bucket(0, now)))
  {
    hide After, AllowedIn, Story;
    OneAsk(c, ops, now);
    OneAskLeaves(c, ops, now);
    GainZero(c);
    Drain(c, ops + [Ask("", now)], Bucket(c.burst - 1, now), now, c.burst - 1);
    StoryJoin(c, ops, [Ask("", now)], AsksAt(now, c.burst - 1), now, now, now, now, 1, c.burst - 1,
              Present(Bucket(c.burst - 1, now)), Present(Bucket(0, now)));
    AsksJoin(now, c.burst - 1);
  }

  lemma OneAskLeaves(c: Config, ops: seq<Op>, now: int)
    requires c.interval > 0
    ensures Lookup(After(c, ops + [Ask("", now)], true), "")
            == Present(Serve(c, Lookup(After(c, ops, true), ""), now).bucket)
  {
    hide After, Serve;
    EntrySnoc(c, ops, Ask("", now), "", true);
  }

  /** A drained bucket, one interval later. */
  lemma RefilledBurst(c: Config, ops: seq<Op>, fill: int)
    requires c.interval > 0 && c.burst >= 1 && c.rate > 0 && Lookup(After(c, ops, true), "") == Present(Bucket(0, fill))
    ensures var now := fill + c.interval; Story(c, ops, AsksAt(now, Cap(c)), now, now, Cap(c), Present(Bucket(0, now)))
  {
    hide After, AllowedIn, Story;
    var now := fill + c.interval;
    GainZero(c);
    GainOneMore(c, 0);
    OneAsk(c, ops, now);
    OneAskLeaves(c, ops, now);
    Drain(c, ops + [Ask("", now)], Bucket(Cap(c) - 1, now), now, Cap(c) - 1);
    StoryJoin(c, ops, [Ask("", now)], AsksAt(now, Cap(c) - 1), now, now, now, now, 1, Cap(c) - 1,
              Present(Bucket(Cap(c) - 1, now)), Present(Bucket(0, now)));
    AsksJoin(now, Cap(c) - 1);
  }

  /** Swept as soon as it is stale, and drained anew, `k` times, from `first` on. */
  function Lives(c: Config, first: int, k: nat): seq<Op> {
    if k == 0 then []
    else Lives(c, first, k - 1)
         + ([Sweep(first + (k - 1) * AGE)] + AsksAt(first + (k - 1) * AGE, if c.burst >= 0 then c.burst else 0))
  }

  lemma SweptAway(c: Config, ops: seq<Op>, b: Bucket, now: int)
    requires c.interval > 0 && Lookup(After(c, ops, true), "") == Present(b) && b.lastFill + AGE <= now
    ensures Story(c, ops, [Sweep(now)], now, now, 0, Missing)
    ensures Lookup(After(c, ops + [Sweep(now)], true), "") == Missing
  {
    hide After, AllowedIn;
    EntrySnoc(c, ops, Sweep(now), "", true);
    assert [] + [Sweep(now)] == [Sweep(now)];
    AllowedSnoc(c, ops, [], Sweep(now), "", true);
    NothingAllowed(c, ops, "");
  }

  lemma OneLife(c: Config, ops: seq<Op>, b: Bucket, now: int)
    requires c.interval > 0 && c.burst >= 1 && Lookup(After(c, ops, true), "") == Present(b) && b.lastFill + AGE <= now
    ensures Story(c, ops, [Sweep(now)] + AsksAt(now, c.burst), now, now, c.burst, Present(Bucket(0, now)))
  {
    hide After, AllowedIn, Story;
    SweptAway(c, ops, b, now);
    FreshBurst(c, ops + [Sweep(now)], now);
    StoryJoin(c, ops, [Sweep(now)], AsksAt(now, c.burst), now, now, now, now, 0, c.burst, Missing,
              Present(Bucket(0, now)));
  }

  lemma {:induction false} LivesGrant(c: Config, ops: seq<Op>, b: Bucket, first: int, k: nat)
    requires c.interval > 0 && c.burst >= 1 && k >= 1
    requires Lookup(After(c, ops, true), "") == Present(b) && b.lastFill + AGE <= first
    ensures var last := first + (k - 1) * AGE;
            Story(c, ops, Lives(c, first, k), first, last, k * c.burst, Present(Bucket(0, last)))
  {
    hide After, AllowedIn, Story;
    var last := first + (k - 1) * AGE;
    if k == 1 {
      OneLife(c, ops, b, first);
      assert Lives(c, first, 0) + ([Sweep(first)] + AsksAt(first, c.burst)) == [Sweep(first)] + AsksAt(first, c.burst);
    } else {
      LivesGrant(c, ops, b, first, k - 1);
      var before := last - AGE;
      StoryEntry(c, ops, Lives(c, first, k - 1), first, before, (k - 1) * c.burst, Present(Bucket(0, before)));
      OneLife(c, ops + Lives(c, first, k - 1), Bucket(0, before), last);
      StoryJoin(c, ops, Lives(c, first, k - 1), [Sweep(last)] + AsksAt(last, c.burst), first, before, last, last,
                (k - 1) * c.burst, c.burst, Present(Bucket(0, before)), Present(Bucket(0, last)));
      Distribute(k - 1, 1, c.burst);
    }
  }

  lemma StoryEntry(c: Config, ops: seq<Op>, more: seq<Op>, lo: int, hi: int, granted: int, e: Entry)
    requires c.interval > 0 && Story(c, ops, more, lo, hi, granted, e)
    ensures Lookup(After(c, ops + more, true), "") == e
  {
  }

  /** A story that grants too much refutes the bound. */
  lemma StoryBreaks(c: Config, ops: seq<Op>, more: seq<Op>, lo: int, hi: int, granted: int, e: Entry)
    requires c.interval > 0 && Story(c, ops, more, lo, hi, granted, e) && |ops| <= 1
             && (forall i :: 0 <= i < |ops| ==> ops[i].now <= lo)
    requires granted > c.burst + Gain(c, hi - lo) + c.rate
    ensures !WindowBounded(c)
  {
    hide AllowedIn, Gain;
    assert !BoundedIn(c, ops, more, "", lo, hi - lo);
  }

  /** A full first bucket, then `k` more. */
  lemma FullLivesBreak(c: Config, k: nat)
    requires c.interval > 0 && c.burst >= 1 && k >= 1 && k * c.burst > Gain(c, k * AGE) + c.rate
    ensures !WindowBounded(c)
  {
    hide Story, Lives, AsksAt, WindowBounded, Gain;
    var x := AsksAt(0, c.burst);
    NothingYet(c);
    FreshBurst(c, [], 0);
    StoryEntry(c, [], x, 0, 0, c.burst, Present(Bucket(0, 0)));
    LivesGrant(c, [] + x, Bucket(0, 0), AGE, k);
    Distribute(k - 1, 1, AGE);
    StoryJoin(c, [], x, Lives(c, AGE, k), 0, 0, AGE, k * AGE, c.burst, k * c.burst, Present(Bucket(0, 0)),
              Present(Bucket(0, k * AGE)));
    StoryBreaks(c, [], x + Lives(c, AGE, k), 0, k * AGE, c.burst + k * c.burst, Present(Bucket(0, k * AGE)));
  }

  lemma NothingYet(c: Config)
    requires c.interval > 0
    ensures Lookup(After(c, [], true), "") == Missing
  {
  }

  /** A first bucket filled just less than an interval before the window. */
  function Early(c: Config): seq<Op> {
    [Ask("", 1 - c.interval)]
  }

  lemma EarlyBucket(c: Config)
    requires c.interval > 0 && c.burst >= 1
    ensures Lookup(After(c, Early(c), true), "") == Present(Bucket(c.burst - 1, 1 - c.interval))
    ensures Story(c, Early(c), AsksAt(0, c.burst - 1), 0, 0, c.burst - 1, Present(Bucket(0, 1 - c.interval)))
  {
    hide Story, AsksAt, After, AllowedIn;
    NothingYet(c);
    assert [] + Early(c) == Early(c);
    OneAskLeaves(c, [], 1 - c.interval);
    QuotientAtLeast(c.interval - 1, c.interval, 1);
    QuotientAtLeast(c.interval - 1, c.interval, 0);
    Drain(c, Early(c), Bucket(c.burst - 1, 1 - c.interval), 0, c.burst - 1);
  }

  /** That bucket drained, refilled once, and `k` more. */
  lemma RefilledLivesBreak(c: Config, k: nat)
    requires c.interval > 0 && c.burst >= 1 && c.rate > 0 && k >= 1
    requires k * c.burst - 1 + Cap(c) > Gain(c, k * AGE + 1) + c.rate
    ensures !WindowBounded(c)
  {
    hide Story, Lives, AsksAt, WindowBounded, Gain, After, AllowedIn;
    var x, y, z := AsksAt(0, c.burst - 1), AsksAt(1, Cap(c)), Lives(c, 1 + AGE, k);
    var fill := Present(Bucket(0, 1 - c.interval));
    EarlyBucket(c);
    StoryEntry(c, Early(c), x, 0, 0, c.burst - 1, fill);
    RefilledBurst(c, Early(c) + x, 1 - c.interval);
    StoryJoin(c, Early(c), x, y, 0, 0, 1, 1, c.burst - 1, Cap(c), fill, Present(Bucket(0, 1)));
    StoryEntry(c, Early(c), x + y, 0, 1, c.burst - 1 + Cap(c), Present(Bucket(0, 1)));
    LivesGrant(c, Early(c) + (x + y), Bucket(0, 1), 1 + AGE, k);
    Distribute(k - 1, 1, AGE);
    var last := Present(Bucket(0, 1 + k * AGE));
    StoryJoin(c, Early(c), x + y, z, 0, 1, 1 + AGE, 1 + k * AGE, c.burst - 1 + Cap(c), k * c.burst,
              Present(Bucket(0, 1)), last);
    StoryBreaks(c, Early(c), x + y + z, 0, 1 + k * AGE, c.burst - 1 + Cap(c) + k * c.burst, last);
  }

  /** That bucket drained, swept at the first moment possible, and `k` more. */
  lemma SweptLivesBreak(c: Config, k: nat)
    requires c.interval > 0 && c.burst >= 1 && c.rate > 0 && k >= 1
    requires k * c.burst - 1 > Gain(c, Spread(c, k)) + c.rate
    ensures !WindowBounded(c)
  {
    hide Story, Lives, AsksAt, WindowBounded, Gain, After, AllowedIn;
    var u := Spread(c, 1);
    var x, z := AsksAt(0, c.burst - 1), Lives(c, u, k);
    var fill, last := Present(Bucket(0, 1 - c.interval)), Present(Bucket(0, Spread(c, k)));
    EarlyBucket(c);
    StoryEntry(c, Early(c), x, 0, 0, c.burst - 1, fill);
    LivesGrant(c, Early(c) + x, Bucket(0, 1 - c.interval), u, k);
    StoryJoin(c, Early(c), x, z, 0, 0, u, Spread(c, k), c.burst - 1, k * c.burst, fill, last);
    StoryBreaks(c, Early(c), x + z, 0, Spread(c, k), c.burst - 1 + k * c.burst, last);
  }

  /** A rate that is not positive cannot make up for a second bucket. */
  lemma NoRateBreaks(c: Config)
    requires c.interval > 0 && c.burst >= 1 && c.rate <= 0
    ensures !WindowBounded(c)
  {
    QuotientMonotone(0, AGE, c.interval);
    Scale(0, Quotient(AGE, c.interval), -c.rate);
    FullLivesBreak(c, 1);
  }

  lemma LooseBreaks(c: Config, k: nat)
    requires c.interval > 0 && c.burst >= 1 && k >= 1 && !Tight(c, k)
    ensures !WindowBounded(c)
  {
    hide WindowBounded, Gain, Spread;
    if c.rate <= 0 {
      NoRateBreaks(c);
    } else if k * c.burst > Gain(c, k * AGE) + c.rate {
      FullLivesBreak(c, k);
    } else if k * c.burst - 1 + Cap(c) > Gain(c, k * AGE + 1) + c.rate {
      RefilledLivesBreak(c, k);
    } else {
      SweptLivesBreak(c, k);
    }
  }

  /** Over a whole cycle of `interval` buckets the gain is exact. */
  lemma GainCycle(c: Config, x: int, n: nat)
    requires c.interval > 0 && x >= 0
    ensures n * c.interval >= 0 && Gain(c, x + n * c.interval) == Gain(c, x) + n * c.rate
    decreases n
  {
    Scale(0, n, c.interval);
    if n > 0 {
      GainCycle(c, x, n - 1);
      Distribute(n - 1, 1, c.interval);
      Distribute(n - 1, 1, c.rate);
      Scale(0, n - 1, c.interval);
      GainOneMore(c, x + (n - 1) * c.interval);
    }
  }

  lemma TightCycle(c: Config, k: nat)
    requires c.interval > 0 && k >= 1 && Tight(c, k) && c.interval * c.burst <= AGE * c.rate
    ensures Tight(c, k + c.interval)
  {
    hide Gain;
    Distribute(k, c.interval, c.burst);
    Distribute(k, c.interval, AGE);
    GainCycle(c, k * AGE, AGE);
    GainCycle(c, k * AGE + 1, AGE);
    GainCycle(c, Spread(c, k), AGE);
    assert Spread(c, k + c.interval) == Spread(c, k) + AGE * c.interval;
  }

  lemma {:induction false} SafeIsTight(c: Config, k: nat)
    requires c.interval > 0 && c.burst >= 1 && WindowSafe(c) && k >= 1
    ensures Tight(c, k)
    decreases k
  {
    hide Tight;
    if k > c.interval {
      SafeIsTight(c, k - c.interval);
      TightCycle(c, k - c.interval);
    }
  }

  /** Draining faster than the rate breaks the bound in the end. */
  lemma TooFastBreaks(c: Config)
    requires c.interval > 0 && c.burst >= 1 && c.rate > 0 && c.interval * c.burst > AGE * c.rate
    ensures !WindowBounded(c)
  {
    hide WindowBounded, Gain;
    var n := c.rate + 1;
    var k := n * c.interval;
    Scale(1, n, c.interval);
    assert k * AGE == n * AGE * c.interval;
    GainZero(c);
    Scale(0, n, AGE);
    GainCycle(c, 0, n * AGE);
    Cycles(c, n);
    FullLivesBreak(c, k);
  }

  lemma Cycles(c: Config, n: nat)
    requires n == c.rate + 1 && c.interval * c.burst > AGE * c.rate
    ensures n * c.interval * c.burst > n * AGE * c.rate + c.rate
  {
    Scale(AGE * c.rate + 1, c.interval * c.burst, n);
    assert n * c.interval * c.burst == (c.interval * c.burst) * n;
    assert n * AGE * c.rate == (AGE * c.rate) * n;
    Distribute(AGE * c.rate, 1, n);
  }

  /** With cleanup running, the window bound holds in every run exactly for the safe configurations. */
  lemma WindowExact(c: Config)
    requires c.interval > 0
    ensures WindowBounded(c) <==> WindowSafe(c)
  {
    if c.burst >= 1 { FilledExact(c); } else { SparseExact(c); }
  }

  lemma FilledExact(c: Config)
    requires c.interval > 0 && c.burst >= 1
    ensures WindowBounded(c) <==> WindowSafe(c)
  {
    hide Tight, BoundedIn;
    if WindowSafe(c) {
      SafeRate(c);
      forall k | k >= 1 ensures Tight(c, k) { SafeIsTight(c, k); }
      forall ops, more, key, from, span ensures BoundedIn(c, ops, more, key, from, span) {
        TightBoundedIn(c, ops, more, key, from, span);
      }
    } else if c.rate <= 0 {
      NoRateBreaks(c);
    } else if c.interval * c.burst > AGE * c.rate {
      TooFastBreaks(c);
    } else {
      var k :| 1 <= k <= c.interval && !Tight(c, k);
      LooseBreaks(c, k);
    }
  }

  lemma SparseExact(c: Config)
    requires c.interval > 0 && c.burst <= 0
    ensures WindowBounded(c) <==> WindowSafe(c)
  {
    hide Sparse, BoundedIn;
    if WindowSafe(c) {
      SparseRate(c);
      forall ops, more, key, from, span ensures BoundedIn(c, ops, more, key, from, span) {
        SparseBoundedIn(c, ops, more, key, from, span);
      }
    } else if !Sparse(c, 0) {
      VisitsBreak(c, 0);
    } else if c.interval > AGE * c.rate {
      SparseRate(c);
      VisitsTooFast(c);
    } else {
      var k :| 0 <= k < c.interval && !Sparse(c, k);
      VisitsBreak(c, k);
    }
  }

  lemma SparseRate(c: Config)
    requires c.interval > 0 && c.burst <= 0 && Sparse(c, 0)
    ensures c.rate >= 1
  {
    GainZero(c);
  }

  lemma {:induction false} SafeIsSparse(c: Config, k: nat)
    requires c.interval > 0 && c.burst <= 0 && WindowSafe(c)
    ensures Sparse(c, k)
    decreases k
  {
    hide Gain;
    if k >= c.interval {
      SafeIsSparse(c, k - c.interval);
      Scale(0, k - c.interval, AGE);
      GainCycle(c, (k - c.interval) * AGE, AGE);
      assert k * AGE == (k - c.interval) * AGE + AGE * c.interval;
    }
  }

  /** The account of a window when only new buckets grant anything. */
  ghost predicate SparseAccounts(e: Entry, granted: int, from: int, now: int) {
    && granted >= 0 && from <= now
    && (e.Present? ==> e.bucket.tokens <= 0 && e.bucket.lastFill <= now)
    && (granted > 0 ==>
          if e.Present? then from + (granted - 1) * AGE <= e.bucket.lastFill else from + granted * AGE <= now)
  }

  /** One more operation: a request on a bucket is turned down, and a new one comes after a sweep. */
  lemma SparseStep(c: Config, e: Entry, granted: int, from: int, now: int, op: Op, key: string)
    requires c.interval > 0 && c.burst <= 0 && now <= op.now && SparseAccounts(e, granted, from, now)
    ensures var allowed := op.Ask? && op.key == key && Serve(c, e, op.now).allowed;
            SparseAccounts(EntryStep(c, e, op, key, true), granted + if allowed then 1 else 0, from, op.now)
  {
    hide Gain;
    Distribute(granted - 1, 1, AGE);
  }

  lemma {:induction false} SparseEntry(c: Config, ops: seq<Op>, key: string, now: int)
    requires c.interval > 0 && c.burst <= 0 && OpsTimely(ops) && forall i :: 0 <= i < |ops| ==> ops[i].now <= now
    ensures var e := Lookup(After(c, ops, true), key); e.Present? ==> e.bucket.tokens <= 0 && e.bucket.lastFill <= now
  {
    if ops != [] {
      var init, last := ops[..|ops| - 1], ops[|ops| - 1];
      SparseEntry(c, init, key, last.now);
      hide After, OpsTimely;
      assert ops == init + [last];
      EntrySnoc(c, init, last, key, true);
      SparseStep(c, Lookup(After(c, init, true), key), 0, last.now, last.now, last, key);
    }
  }

  lemma {:induction false} SparseWindow(c: Config, ops: seq<Op>, more: seq<Op>, key: string, from: int, now: int)
    requires c.interval > 0 && c.burst <= 0 && OpsTimely(ops + more) && from <= now
    requires forall i :: 0 <= i < |more| ==> from <= more[i].now <= now
    requires forall i :: 0 <= i < |ops| ==> ops[i].now <= now
    ensures SparseAccounts(Lookup(After(c, ops + more, true), key), AllowedIn(c, ops, more, key, true), from, now)
  {
    SplitTimely(ops, more);
    if more == [] {
      assert ops + more == ops;
      SparseEntry(c, ops, key, now);
    } else {
      var init, last := more[..|more| - 1], more[|more| - 1];
      assert ops + more == (ops + init) + [last] && more == init + [last];
      SplitTimely(ops + init, [last]);
      BeforeLast(ops, more);
      SparseWindow(c, ops, init, key, from, last.now);
      hide After, AllowedIn, SparseAccounts, OpsTimely;
      EntrySnoc(c, ops + init, last, key, true);
      AllowedSnoc(c, ops, init, last, key, true);
      SparseStep(c, Lookup(After(c, ops + init, true), key), AllowedIn(c, ops, init, key, true), from, last.now, last,
                 key);
      SparseLater(Lookup(After(c, ops + more, true), key), AllowedIn(c, ops, more, key, true), from, last.now, now);
    }
  }

  lemma SparseLater(e: Entry, granted: int, from: int, now: int, later: int)
    requires SparseAccounts(e, granted, from, now) && now <= later
    ensures SparseAccounts(e, granted, from, later)
  {
  }

  lemma SparseBoundedIn(c: Config, ops: seq<Op>, more: seq<Op>, key: string, from: int, span: int)
    requires c.interval > 0 && c.burst <= 0 && c.rate >= 1 && WindowSafe(c)
    ensures BoundedIn(c, ops, more, key, from, span)
  {
    hide AllowedIn, OpsTimely, After, Gain, WindowSafe;
    if OpsTimely(ops + more) && span >= 0 && forall i :: 0 <= i < |more| ==> from <= more[i].now <= from + span {
      var g := AllowedIn(c, ops, more, key, true);
      if more == [] {
        NothingAllowed(c, ops, key);
      } else {
        EarlierOps(ops, more, from + span);
        SparseWindow(c, ops, more, key, from, from + span);
      }
      SparseSpan(c, Lookup(After(c, ops + more, true), key), g, from, span);
    }
  }

  lemma EarlierOps(ops: seq<Op>, more: seq<Op>, now: int)
    requires OpsTimely(ops + more) && more != [] && more[0].now <= now
    ensures forall i :: 0 <= i < |ops| ==> ops[i].now <= now
  {
    SplitTimely(ops, more);
    assert forall i :: 0 <= i < |ops| ==> ops[i].now <= more[0].now;
  }

  /** What the account allows is within the bound. */
  lemma SparseSpan(c: Config, e: Entry, granted: nat, from: int, span: int)
    requires c.interval > 0 && c.burst <= 0 && c.rate >= 1 && WindowSafe(c) && span >= 0
    requires granted == 0 || SparseAccounts(e, granted, from, from + span)
    ensures granted <= c.burst + Gain(c, span) + c.rate
  {
    hide Gain, WindowSafe;
    var k := if granted == 0 then 0 else granted - 1;
    SafeIsSparse(c, k);
    Scale(0, k, AGE);
    Distribute(granted - 1, 1, AGE);
    GainMonotone(c, k * AGE, span);
  }

  /** A request, and then `k` times a sweep of its bucket and one more, as early as can be. */
  function Visits(k: nat): seq<Op> {
    if k == 0 then [Ask("", 0)] else Visits(k - 1) + ([Sweep(k * AGE)] + [Ask("", k * AGE)])
  }

  lemma {:induction false} VisitsGrant(c: Config, k: nat)
    requires c.interval > 0
    ensures Story(c, [], Visits(k), 0, k * AGE, k + 1, Present(Bucket(c.burst - 1, k * AGE)))
  {
    hide After, AllowedIn, Story;
    if k == 0 {
      NothingYet(c);
      OneAsk(c, [], 0);
    } else {
      var before, now := (k - 1) * AGE, k * AGE;
      var b := Bucket(c.burst - 1, before);
      VisitsGrant(c, k - 1);
      Distribute(k - 1, 1, AGE);
      StoryEntry(c, [], Visits(k - 1), 0, before, k, Present(b));
      assert [] + Visits(k - 1) == Visits(k - 1);
      SweptAway(c, Visits(k - 1), b, now);
      OneAsk(c, Visits(k - 1) + [Sweep(now)], now);
      StoryJoin(c, Visits(k - 1), [Sweep(now)], [Ask("", now)], now, now, now, now, 0, 1, Missing,
                Present(Bucket(c.burst - 1, now)));
      StoryJoin(c, [], Visits(k - 1), [Sweep(now)] + [Ask("", now)], 0, before, now, now, k, 1, Present(b),
                Present(Bucket(c.burst - 1, now)));
    }
  }

  lemma VisitsBreak(c: Config, k: nat)
    requires c.interval > 0 && !Sparse(c, k)
    ensures !WindowBounded(c)
  {
    hide Story, WindowBounded, Gain;
    VisitsGrant(c, k);
    StoryBreaks(c, [], Visits(k), 0, k * AGE, k + 1, Present(Bucket(c.burst - 1, k * AGE)));
  }

  /** Buckets that come faster than the rate break the bound in the end. */
  lemma VisitsTooFast(c: Config)
    requires c.interval > 0 && c.burst <= 0 && c.rate >= 1 && c.interval > AGE * c.rate
    ensures !WindowBounded(c)
  {
    hide WindowBounded, Gain;
    var k := c.rate * c.interval;
    Scale(0, c.rate, c.interval);
    Scale(0, c.rate, AGE);
    GainZero(c);
    GainCycle(c, 0, c.rate * AGE);
    assert k * AGE == (c.rate * AGE) * c.interval;
    Scale(AGE * c.rate + 1, c.interval, c.rate);
    assert (AGE * c.rate + 1) * c.rate == (c.rate * AGE) * c.rate + c.rate;
    Commute(c.interval, c.rate);
    VisitsBreak(c, k);
  }

  lemma SafeRate(c: Config)
    requires c.interval > 0 && c.burst >= 1 && c.interval * c.burst <= AGE * c.rate
    ensures c.rate > 0
  {
    Scale(1, c.burst, c.interval);
    Commute(c.burst, c.interval);
  }

  lemma TightBoundedIn(c: Config, ops: seq<Op>, more: seq<Op>, key: string, from: int, span: int)
    requires c.interval > 0 && c.burst >= 1 && c.rate > 0 && AllTight(c)
    ensures BoundedIn(c, ops, more, key, from, span)
  {
    hide AllTight, AllowedIn, Gain, OpsTimely;
    if OpsTimely(ops + more) && span >= 0 && forall i :: 0 <= i < |more| ==> from <= more[i].now <= from + span {
      TightBounds(c, ops, more, key, from, span);
    }
  }

  /** In particular when a bucket that has just become stale is full again. */
  lemma StaleIsFullSafe(c: Config)
    requires c.interval > 0 && StaleIsFull(c)
    ensures WindowSafe(c) && WindowBounded(c)
  {
    hide WindowBounded, Tight;
    PositiveRate(c, AGE);
    FullCycle(c);
    forall k | 1 <= k <= c.interval ensures Tight(c, k) { StaleIsFullTight(c, k); }
    WindowExact(c);
  }

  lemma FullCycle(c: Config)
    requires c.interval > 0 && c.rate > 0 && Gain(c, AGE) >= c.burst
    ensures c.interval * c.burst <= AGE * c.rate
  {
    var q := Quotient(AGE, c.interval);
    QuotientAtLeast(AGE, c.interval, 0);
    QuotientAtLeast(AGE, c.interval, q);
    Scale(c.burst, q * c.rate, c.interval);
    Scale(q * c.interval, AGE, c.rate);
    assert (q * c.rate) * c.interval == (q * c.interval) * c.rate;
    Commute(c.burst, c.interval);
  }

  lemma {:induction false} GainTimes(c: Config, x: int, k: nat)
    requires c.interval > 0 && c.rate >= 0 && x >= 0
    ensures k * x >= 0 && k * Gain(c, x) <= Gain(c, k * x)
    decreases k
  {
    Scale(0, k, x);
    if k == 0 {
      GainZero(c);
    } else {
      GainTimes(c, x, k - 1);
      Distribute(k - 1, 1, x);
      Distribute(k - 1, 1, Gain(c, x));
      GainSum(c, (k - 1) * x, x);
    }
  }

  lemma StaleIsFullTight(c: Config, k: nat)
    requires c.interval > 0 && StaleIsFull(c) && c.rate > 0 && k >= 1
    ensures Tight(c, k)
  {
    hide Gain;
    GainTimes(c, AGE, k);
    Scale(c.burst, Gain(c, AGE), k);
    Commute(k, c.burst);
    Commute(k, Gain(c, AGE));
    GainMonotone(c, k * AGE, k * AGE + 1);
    Distribute(k - 1, 1, AGE);
    Scale(0, k - 1, AGE);
    GainOneMore(c, Spread(c, k));
    GainMonotone(c, k * AGE, Spread(c, k) + c.interval);
  }

  /** The limiter that the server's router makes: 60 requests a second, bursts of 120. */
  lemma ServerLimiterBounded()
    ensures WindowBounded(Config(60, 120, 1_000_000_000))
  {
    StaleIsFullSafe(Config(60, 120, 1_000_000_000));
  }
}
