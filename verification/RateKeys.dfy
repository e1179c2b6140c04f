/** server/internal/middleware/ratelimit.go: one key among many, with cleanup running. */
module RateKeys {
  import opened RateLimit

  /** The times at which a key asks. */
  function TimesOf(ops: seq<Op>, key: string): seq<int> {
    if ops == [] then []
    else
      var last := ops[|ops| - 1];
      TimesOf(ops[..|ops| - 1], key) + if last.Ask? && last.key == key then [last.now] else []
  }

  /** How many of a key's requests in `more`, coming after `ops`, are allowed. */
  function AllowedIn(c: Config, ops: seq<Op>, more: seq<Op>, key: string, evict: bool): nat
    requires c.interval > 0
  {
    if more == [] then 0
    else
      var n := |more| - 1;
      AllowedIn(c, ops, more[..n], key, evict)
      + if more[n].Ask? && more[n].key == key && Answer(c, ops + more[..n], key, more[n].now, evict) then 1 else 0
  }

  /** What the key's own requests, in isolation, make of its entry. */
  function OwnAfter(c: Config, e: Entry, times: seq<int>): Entry
    requires c.interval > 0
  {
    if times == [] then e else Present(BucketAfter(c, Serve(c, e, times[0]).bucket, times[1..]))
  }

  function OwnGranted(c: Config, e: Entry, times: seq<int>): nat
    requires c.interval > 0
  {
    if times == [] then 0
    else
      var v := Serve(c, e, times[0]);
      (if v.allowed then 1 else 0) + Granted(c, v.bucket, times[1..])
  }

  lemma OwnSnoc(c: Config, e: Entry, times: seq<int>, now: int)
    requires c.interval > 0
    ensures var v := Serve(c, OwnAfter(c, e, times), now);
            && OwnAfter(c, e, times + [now]) == Present(v.bucket)
            && OwnGranted(c, e, times + [now]) == OwnGranted(c, e, times) + if v.allowed then 1 else 0
  {
    var next := times + [now];
    if times == [] {
      assert next[1..] == [];
    } else {
      assert next[1..] == times[1..] + [now];
      assert next[1..][..|times| - 1] == times[1..];
    }
  }

  lemma TimesSnoc(ops: seq<Op>, last: Op, key: string)
    ensures TimesOf(ops + [last], key) == TimesOf(ops, key) + if last.Ask? && last.key == key then [last.now] else []
  {
    assert (ops + [last])[..|ops|] == ops;
  }

  lemma AllowedSnoc(c: Config, ops: seq<Op>, more: seq<Op>, last: Op, key: string, evict: bool)
    requires c.interval > 0
    ensures AllowedIn(c, ops, more + [last], key, evict)
         == AllowedIn(c, ops, more, key, evict)
            + if last.Ask? && last.key == key && Answer(c, ops + more, key, last.now, evict) then 1 else 0
  {
    assert (more + [last])[..|more|] == more;
  }

  /** The operations that concern a key: its own requests, and the cleanup ticks. */
  function OwnOps(ops: seq<Op>, key: string): seq<Op> {
    if ops == [] then []
    else
      var last := ops[|ops| - 1];
      OwnOps(ops[..|ops| - 1], key) + if last.Sweep? || last.key == key then [last] else []
  }

  lemma OwnOpsSnoc(ops: seq<Op>, last: Op, key: string)
    ensures OwnOps(ops + [last], key) == OwnOps(ops, key) + if last.Sweep? || last.key == key then [last] else []
  {
    assert (ops + [last])[..|ops|] == ops;
  }

  lemma {:induction false} OwnOpsJoin(ops: seq<Op>, more: seq<Op>, key: string)
    ensures OwnOps(ops + more, key) == OwnOps(ops, key) + OwnOps(more, key)
  {
    if more == [] {
      assert ops + more == ops;
    } else {
      var init, last := more[..|more| - 1], more[|more| - 1];
      OwnOpsJoin(ops, init, key);
      OwnOpsSnoc(ops + init, last, key);
      assert ops + more == (ops + init) + [last];
    }
  }

  /** What one operation makes of a key's entry. */
  function EntryStep(c: Config, e: Entry, op: Op, key: string, evict: bool): Entry
    requires c.interval > 0
  {
    match op
    case Ask(k, now) => if k == key then Present(Serve(c, e, now).bucket) else e
    case Sweep(now) => if evict && e.Present? && e.bucket.lastFill < now - STALE then Missing else e
  }

  lemma EntrySnoc(c: Config, ops: seq<Op>, op: Op, key: string, evict: bool)
    requires c.interval > 0
    ensures Lookup(After(c, ops + [op], evict), key) == EntryStep(c, Lookup(After(c, ops, evict), key), op, key, evict)
  {
    hide After, Serve;
    SnocAsk(c, ops, op, evict);
  }

  /** Keys do not interfere: a key's entry depends on its own requests and the cleanup ticks only. */
  lemma {:induction false} KeysIndependent(c: Config, ops: seq<Op>, key: string, evict: bool)
    requires c.interval > 0
    ensures Lookup(After(c, ops, evict), key) == Lookup(After(c, OwnOps(ops, key), evict), key)
  {
    if ops != [] {
      var init, last := ops[..|ops| - 1], ops[|ops| - 1];
      KeysIndependent(c, init, key, evict);
      hide After, OwnOps, EntryStep;
      assert ops == init + [last];
      OwnOpsSnoc(init, last, key);
      EntrySnoc(c, init, last, key, evict);
      EntrySnoc(c, OwnOps(init, key), last, key, evict);
      OthersSkip(c, Lookup(After(c, init, evict), key), last, key, evict);
      assert OwnOps(init, key) + [] == OwnOps(init, key);
    }
  }

  lemma OthersSkip(c: Config, e: Entry, op: Op, key: string, evict: bool)
    requires c.interval > 0
    ensures op.Ask? && op.key != key ==> EntryStep(c, e, op, key, evict) == e
  {
  }

  /** And so do its grants. */
  lemma {:induction false} GrantsIndependent(c: Config, ops: seq<Op>, more: seq<Op>, key: string, evict: bool)
    requires c.interval > 0
    ensures AllowedIn(c, ops, more, key, evict) == AllowedIn(c, OwnOps(ops, key), OwnOps(more, key), key, evict)
  {
    if more != [] {
      var init, last := more[..|more| - 1], more[|more| - 1];
      GrantsIndependent(c, ops, init, key, evict);
      hide After, OwnOps, AllowedIn, Serve;
      assert more == init + [last];
      AllowedSnoc(c, ops, init, last, key, evict);
      OwnOpsSnoc(init, last, key);
      if last.Sweep? || last.key == key {
        AllowedSnoc(c, OwnOps(ops, key), OwnOps(init, key), last, key, evict);
        OwnOpsJoin(ops, init, key);
        KeysIndependent(c, ops + init, key, evict);
      } else {
        assert OwnOps(init, key) + [] == OwnOps(init, key);
      }
    }
  }

  /** No tick in `more` takes the key's bucket away. */
  ghost predicate Survives(c: Config, ops: seq<Op>, more: seq<Op>, key: string, evict: bool)
    requires c.interval > 0
  {
    forall i :: 0 <= i < |more| && more[i].Sweep? ==>
      Lookup(After(c, ops + more[..i + 1], evict), key) == Lookup(After(c, ops + more[..i], evict), key)
  }

  lemma AlwaysSurvives(c: Config, ops: seq<Op>, more: seq<Op>, key: string)
    requires c.interval > 0
    ensures Survives(c, ops, more, key, false)
  {
    hide After;
    forall i | 0 <= i < |more| && more[i].Sweep?
      ensures Lookup(After(c, ops + more[..i + 1], false), key) == Lookup(After(c, ops + more[..i], false), key)
    {
      assert ops + more[..i + 1] == (ops + more[..i]) + [more[i]];
      EntrySnoc(c, ops + more[..i], more[i], key, false);
    }
  }

  lemma SurvivesInit(c: Config, ops: seq<Op>, more: seq<Op>, last: Op, key: string, evict: bool)
    requires c.interval > 0 && Survives(c, ops, more + [last], key, evict)
    ensures Survives(c, ops, more, key, evict)
    ensures last.Sweep? ==>
              Lookup(After(c, ops + (more + [last]), evict), key) == Lookup(After(c, ops + more, evict), key)
  {
    hide After;
    var all := more + [last];
    assert all[..|more|] == more && all[..|all|] == all && all[|more|] == last;
    forall i | 0 <= i < |more| && more[i].Sweep?
      ensures Lookup(After(c, ops + more[..i + 1], evict), key) == Lookup(After(c, ops + more[..i], evict), key)
    {
      assert all[i] == more[i] && all[..i + 1] == more[..i + 1] && all[..i] == more[..i];
    }
  }

  /** While its bucket stays, a key's entry and grants are what its requests make of the one bucket. */
  lemma {:induction false} OneBucket(c: Config, ops: seq<Op>, more: seq<Op>, key: string, evict: bool)
    requires c.interval > 0 && Survives(c, ops, more, key, evict)
    ensures var e := Lookup(After(c, ops, evict), key);
            && Lookup(After(c, ops + more, evict), key) == OwnAfter(c, e, TimesOf(more, key))
            && AllowedIn(c, ops, more, key, evict) == OwnGranted(c, e, TimesOf(more, key))
  {
    if more == [] {
      assert ops + more == ops;
    } else {
      hide After, TimesOf, AllowedIn, OwnAfter, OwnGranted, Survives;
      var init, last := more[..|more| - 1], more[|more| - 1];
      assert more == init + [last] && ops + more == (ops + init) + [last];
      SurvivesInit(c, ops, init, last, key, evict);
      OneBucket(c, ops, init, key, evict);
      EntrySnoc(c, ops + init, last, key, evict);
      TimesSnoc(init, last, key);
      AllowedSnoc(c, ops, init, last, key, evict);
      OwnSnoc(c, Lookup(After(c, ops, evict), key), TimesOf(init, key), last.now);
      assert TimesOf(init, key) + [] == TimesOf(init, key);
    }
  }

  lemma {:induction false} TimesTimely(ops: seq<Op>, key: string)
    requires OpsTimely(ops)
    ensures Timely(TimesOf(ops, key))
    ensures forall i :: 0 <= i < |TimesOf(ops, key)| ==>
              ops != [] && ops[0].now <= TimesOf(ops, key)[i] <= ops[|ops| - 1].now
  {
    if ops != [] {
      TimesTimely(ops[..|ops| - 1], key);
    }
  }

  /** A key gets at most burst + floor(T / interval) * rate requests through within T of its bucket's
      creation, cleanup running or not. */
  lemma KeyBoundSinceCreation(c: Config, ops: seq<Op>, more: seq<Op>, key: string, evict: bool)
    requires c.interval > 0 && c.burst >= 1 && c.rate >= 0 && OpsTimely(more)
    requires Lookup(After(c, ops, evict), key).Missing? && Survives(c, ops, more, key, evict)
    ensures var times := TimesOf(more, key);
            times != [] ==> AllowedIn(c, ops, more, key, evict) <= c.burst + Gain(c, times[|times| - 1] - times[0])
  {
    hide After, AllowedIn, Survives, Gain;
    var times := TimesOf(more, key);
    OneBucket(c, ops, more, key, evict);
    TimesTimely(more, key);
    if times != [] {
      CreationBoundHolds(c, times[0], times[1..]);
    }
  }

  /** Without cleanup it gets at most burst + (floor(T / interval) + 1) * rate in any window of a run. */
  lemma KeyBoundWithoutCleanup(c: Config, ops: seq<Op>, more: seq<Op>, key: string, from: int, span: int)
    requires c.interval > 0 && c.burst >= 1 && c.rate >= 0 && OpsTimely(ops + more) && span >= 0
    requires forall i :: 0 <= i < |more| ==> from <= more[i].now <= from + span
    ensures AllowedIn(c, ops, more, key, false) <= c.burst + Gain(c, span) + c.rate
  {
    var times := TimesOf(more, key);
    SplitTimely(ops, more);
    TimesTimely(more, key);
    AlwaysSurvives(c, ops, more, key);
    OneBucket(c, ops, more, key, false);
    hide After, TimesOf, AllowedIn, OpsTimely, Gain;
    if times == [] {
      GainMonotone(c, 0, span);
      GainZero(c);
    } else {
      EntriesTimely(c, ops, times[0], false);
      WindowBound(c, Lookup(After(c, ops, false), key), times, from, span);
    }
  }

  lemma SplitTimely(ops: seq<Op>, more: seq<Op>)
    requires OpsTimely(ops + more)
    ensures OpsTimely(ops) && OpsTimely(more)
    ensures forall i, j :: 0 <= i < |ops| && 0 <= j < |more| ==> ops[i].now <= more[j].now
  {
    var all := ops + more;
    assert forall i :: 0 <= i < |ops| ==> all[i] == ops[i];
    assert forall j :: 0 <= j < |more| ==> all[|ops| + j] == more[j];
  }

  ghost predicate AllBelow(c: Config, m: Buckets, now: int) {
    forall k :: k in m ==> 0 <= m[k].tokens < c.burst && m[k].lastFill <= now
  }

  /** Every bucket keeps at least one token missing: the request that filled it took one. */
  lemma {:induction false} EntriesTimely(c: Config, ops: seq<Op>, now: int, evict: bool)
    requires c.interval > 0 && c.burst >= 1 && OpsTimely(ops)
    requires forall i :: 0 <= i < |ops| ==> ops[i].now <= now
    ensures AllBelow(c, After(c, ops, evict), now)
  {
    if ops != [] {
      var init, last := ops[..|ops| - 1], ops[|ops| - 1];
      EntriesTimely(c, init, last.now, evict);
      if last.Ask? {
        ServeBelow(c, Lookup(After(c, init, evict), last.key), last.now);
      }
    }
  }

  lemma ServeBelow(c: Config, e: Entry, now: int)
    requires c.interval > 0 && c.burst >= 1 && (e.Present? ==> 0 <= e.bucket.tokens <= c.burst)
    ensures 0 <= Serve(c, e, now).bucket.tokens < c.burst
    ensures e.Present? && e.bucket.lastFill <= now ==> Serve(c, e, now).bucket.lastFill <= now
    ensures e.Missing? ==> Serve(c, e, now).bucket.lastFill == now
  {
    hide Gain;
  }
}
