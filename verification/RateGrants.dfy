/** server/internal/middleware/ratelimit.go: what the limiter owes a caller. The bounds elsewhere say
    how much it lets through at most; these say how much it does let through. */
module RateGrants {
  import opened RateLimit

  function Min(a: int, b: int): int {
    if a < b then a else b
  }

  /** `n` requests at one moment. */
  function AtOnce(now: int, n: nat): (times: seq<int>)
    ensures |times| == n && forall i :: 0 <= i < n ==> times[i] == now
  {
    seq(n, _ => now)
  }

  /** Of requests at one moment exactly as many are granted as there are tokens: those there were and
      those the whole intervals since the last refill have brought, up to the burst. The rest stays,
      and the moment counts as a refill exactly when it brought any. */
  lemma {:induction false} BurstExact(c: Config, b: Bucket, now: int, n: nat)
    requires c.interval > 0 && c.burst >= 1 && c.rate >= 0 && Within(c, b) && b.lastFill <= now
    ensures var there := Min(c.burst, b.tokens + Gain(c, now - b.lastFill));
            && Granted(c, b, AtOnce(now, n)) == Min(n, there)
            && (n > 0 ==> BucketAfter(c, b, AtOnce(now, n))
                          == Bucket(there - Min(n, there), if Gain(c, now - b.lastFill) > 0 then now else b.lastFill))
  {
    hide Gain;
    GainMonotone(c, 0, now - b.lastFill);
    GainZero(c);
    if n > 0 {
      BurstExact(c, b, now, n - 1);
      assert AtOnce(now, n)[..n - 1] == AtOnce(now, n - 1);
      if n == 1 {
        assert AtOnce(now, 0) == [];
      }
    }
  }

  /** A new key gets its burst. */
  lemma NewKeyBurst(c: Config, now: int, n: nat)
    requires c.interval > 0 && c.burst >= 1 && c.rate >= 0 && n >= 1
    ensures GrantedFromCreation(c, now, AtOnce(now, n - 1)) == Min(n, c.burst)
  {
    GainZero(c);
    BurstExact(c, Bucket(c.burst - 1, now), now, n - 1);
  }

  /** When the last refill was, told from the request times alone. */
  function FillTime(c: Config, fill: int, times: seq<int>): int
    requires c.interval > 0
  {
    if times == [] then fill
    else
      var before, last := FillTime(c, fill, times[..|times| - 1]), times[|times| - 1];
      if Gain(c, last - before) > 0 then last else before
  }

  /** What the refills have brought in all. */
  function Credit(c: Config, fill: int, times: seq<int>): int
    requires c.interval > 0
  {
    if times == [] then 0
    else
      var init, last := times[..|times| - 1], times[|times| - 1];
      var gain := Gain(c, last - FillTime(c, fill, init));
      Credit(c, fill, init) + if gain > 0 then gain else 0
  }

  /** No refill is cut at the burst. */
  ghost predicate Uncut(c: Config, b: Bucket, times: seq<int>)
    requires c.interval > 0
  {
    forall i :: 0 <= i < |times| ==> UncutAt(c, b, times, i)
  }

  ghost predicate UncutAt(c: Config, b: Bucket, times: seq<int>, i: nat)
    requires c.interval > 0 && i < |times|
  {
    b.tokens + Credit(c, b.lastFill, times[..i + 1]) - Granted(c, b, times[..i]) <= c.burst
  }

  /** Then nothing is lost: grants and tokens left are what was there and what the refills brought. */
  lemma {:induction false} GrantsExactly(c: Config, b: Bucket, times: seq<int>)
    requires c.interval > 0 && Uncut(c, b, times)
    ensures Granted(c, b, times) + BucketAfter(c, b, times).tokens == b.tokens + Credit(c, b.lastFill, times)
    ensures BucketAfter(c, b, times).lastFill == FillTime(c, b.lastFill, times)
  {
    hide Gain;
    if times != [] {
      var n := |times| - 1;
      UncutInit(c, b, times);
      GrantsExactly(c, b, times[..n]);
      assert UncutAt(c, b, times, n);
      assert times[..n + 1] == times;
    }
  }

  lemma UncutInit(c: Config, b: Bucket, times: seq<int>)
    requires c.interval > 0 && times != [] && Uncut(c, b, times)
    ensures Uncut(c, b, times[..|times| - 1])
  {
    var init := times[..|times| - 1];
    forall i | 0 <= i < |init| ensures UncutAt(c, b, init, i) {
      assert UncutAt(c, b, times, i);
      assert init[..i + 1] == times[..i + 1] && init[..i] == times[..i];
    }
  }
}
