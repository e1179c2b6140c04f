/** server/internal/middleware/ratelimit.go: the token bucket with eviction. Times and durations
    are nanoseconds; the clock is a parameter of each call. */
module RateLimit {
  /** Ten minutes: how long a bucket may go without a refill before cleanup removes it. */
  const STALE: int := 10 * 60 * 1_000_000_000

  datatype Config = Config(rate: int, burst: int, interval: int)
  datatype Bucket = Bucket(tokens: int, lastFill: int)
  datatype Entry = Missing | Present(bucket: Bucket)
  datatype Verdict = Verdict(allowed: bool, bucket: Bucket)

  /** Go's integer division truncates toward zero. */
  function Quotient(a: int, b: int): int
    requires b > 0
  {
    if a >= 0 then a / b else -((-a) / b)
  }

  /** Tokens that the whole intervals of a span bring. */
  function Gain(c: Config, span: int): int
    requires c.interval > 0
  {
    Quotient(span, c.interval) * c.rate
  }

  function Refill(c: Config, b: Bucket, now: int): int
    requires c.interval > 0
  {
    Gain(c, now - b.lastFill)
  }

  function Refilled(c: Config, b: Bucket, now: int): Bucket
    requires c.interval > 0
  {
    var refill := Refill(c, b, now);
    if refill > 0 then Bucket(if b.tokens + refill > c.burst then c.burst else b.tokens + refill, now) else b
  }

  /** One call of `Allow` as it concerns the caller's own bucket. */
  function Serve(c: Config, e: Entry, now: int): Verdict
    requires c.interval > 0
  {
    match e
    case Missing => Verdict(true, Bucket(c.burst - 1, now))
    case Present(b) =>
      var f := Refilled(c, b, now);
      if f.tokens <= 0 then Verdict(false, f) else Verdict(true, f.(tokens := f.tokens - 1))
  }

  type Buckets = map<string, Bucket>

  function Lookup(m: Buckets, key: string): Entry {
    if key in m then Present(m[key]) else Missing
  }

  /** What cleanup keeps. */
  function Swept(m: Buckets, now: int): Buckets {
    map k | k in m && m[k].lastFill >= now - STALE :: m[k]
  }

  class RateLimiter {
    const c: Config
    var buckets: Buckets

    constructor (c: Config)
      ensures this.c == c && buckets == map[]
    {
      this.c, buckets := c, map[];
    }

    method Allow(key: string, now: int) returns (allowed: bool)
      requires c.interval > 0
      modifies this
      ensures var v := Serve(c, old(Lookup(buckets, key)), now);
              allowed == v.allowed && buckets == old(buckets)[key := v.bucket]
    {
      if key !in buckets {
        buckets := buckets[key := Bucket(c.burst - 1, now)];
        return true;
      }
      var b := buckets[key];
      var elapsed := now - b.lastFill;
      var refill := Quotient(elapsed, c.interval) * c.rate;
      if refill > 0 {
        b := b.(tokens := b.tokens + refill);
        if b.tokens > c.burst {
          b := b.(tokens := c.burst);
        }
        b := b.(lastFill := now);
      }
      if b.tokens <= 0 {
        buckets := buckets[key := b];
        return false;
      }
      buckets := buckets[key := b.(tokens := b.tokens - 1)];
      allowed := true;
    }

    /** One tick of `cleanup`, over the buckets in any map order. */
    method Cleanup(now: int)
      modifies this
      ensures buckets == Swept(old(buckets), now)
    {
      var cutoff := now - STALE;
      var todo := buckets.Keys;
      while todo != {}
        invariant todo <= buckets.Keys <= old(buckets).Keys
        invariant forall k :: k in old(buckets) ==>
                    (k in buckets <==> k in todo || old(buckets)[k].lastFill >= cutoff)
        invariant forall k :: k in buckets ==> buckets[k] == old(buckets)[k]
        decreases |todo|
      {
        var k :| k in todo;
        todo := todo - {k};
        if buckets[k].lastFill < cutoff {
          buckets := buckets - {k};
        }
      }
    }
  }

  lemma Scale(x: int, y: int, k: int)
    requires x <= y && k >= 0
    ensures x * k <= y * k
  {
  }

  /** `q` whole intervals fit exactly when they are not longer than the span. */
  lemma QuotientAtLeast(a: int, d: int, q: int)
    requires d > 0 && a >= 0 && q >= 0
    ensures q * d <= a <==> q <= Quotient(a, d)
  {
    var w := a / d;
    assert w * d <= a < w * d + d;
    if q <= w {
      Scale(q, w, d);
    } else {
      Scale(w + 1, q, d);
      assert (w + 1) * d == w * d + d;
    }
  }

  lemma QuotientSum(a: int, b: int, d: int)
    requires d > 0 && a >= 0 && b >= 0
    ensures Quotient(a, d) + Quotient(b, d) <= Quotient(a + b, d)
  {
    var x, y := Quotient(a, d), Quotient(b, d);
    QuotientAtLeast(a, d, 0);
    QuotientAtLeast(b, d, 0);
    QuotientAtLeast(a, d, x);
    QuotientAtLeast(b, d, y);
    assert (x + y) * d == x * d + y * d;
    QuotientAtLeast(a + b, d, x + y);
  }

  lemma QuotientMonotone(a: int, b: int, d: int)
    requires d > 0 && 0 <= a <= b
    ensures 0 <= Quotient(a, d) <= Quotient(b, d)
  {
    QuotientAtLeast(a, d, 0);
    QuotientAtLeast(a, d, Quotient(a, d));
    QuotientAtLeast(b, d, Quotient(a, d));
  }

  /** Both directions of time are cut toward zero alike. */
  lemma QuotientOdd(a: int, d: int)
    requires d > 0
    ensures Quotient(-a, d) == -Quotient(a, d)
  {
  }

  lemma QuotientZero(d: int)
    requires d > 0
    ensures Quotient(0, d) == 0
  {
  }

  lemma QuotientExact(q: int, d: int)
    requires d > 0 && q >= 0
    ensures q * d >= 0 && Quotient(q * d, d) == q
  {
    Scale(0, q, d);
    QuotientAtLeast(q * d, d, q);
    var w := Quotient(q * d, d);
    QuotientAtLeast(q * d, d, w);
    assert (q + 1) * d == q * d + d;
    if w > q { Scale(q + 1, w, d); }
  }

  lemma QuotientOneMore(a: int, d: int)
    requires d > 0 && a >= 0
    ensures Quotient(a + d, d) == Quotient(a, d) + 1
  {
    var w, v := Quotient(a, d), Quotient(a + d, d);
    QuotientAtLeast(a, d, 0);
    QuotientAtLeast(a, d, w);
    assert (w + 1) * d == w * d + d;
    QuotientAtLeast(a + d, d, w + 1);
    QuotientAtLeast(a + d, d, v);
    assert (v - 1) * d == v * d - d;
    QuotientAtLeast(a, d, v - 1);
  }

  lemma GainSum(c: Config, a: int, b: int)
    requires c.interval > 0 && c.rate >= 0 && a >= 0 && b >= 0
    ensures Gain(c, a) + Gain(c, b) <= Gain(c, a + b)
  {
    QuotientSum(a, b, c.interval);
    var x, y := Quotient(a, c.interval), Quotient(b, c.interval);
    Scale(x + y, Quotient(a + b, c.interval), c.rate);
    assert (x + y) * c.rate == x * c.rate + y * c.rate;
  }

  lemma GainMonotone(c: Config, a: int, b: int)
    requires c.interval > 0 && c.rate >= 0 && 0 <= a <= b
    ensures 0 <= Gain(c, a) <= Gain(c, b)
  {
    QuotientMonotone(a, b, c.interval);
    Scale(0, Quotient(a, c.interval), c.rate);
    Scale(Quotient(a, c.interval), Quotient(b, c.interval), c.rate);
  }

  lemma GainZero(c: Config)
    requires c.interval > 0
    ensures Gain(c, 0) == 0
  {
    QuotientZero(c.interval);
  }

  lemma GainOneMore(c: Config, a: int)
    requires c.interval > 0 && a >= 0
    ensures Gain(c, a + c.interval) == Gain(c, a) + c.rate
  {
    QuotientOneMore(a, c.interval);
    var w := Quotient(a, c.interval);
    assert (w + 1) * c.rate == w * c.rate + c.rate;
  }

  /** No gain over a span means less than one interval has passed. */
  lemma NoGain(c: Config, a: int)
    requires c.interval > 0 && c.rate > 0 && a >= 0 && Gain(c, a) <= 0
    ensures a < c.interval
  {
    if a >= c.interval {
      QuotientAtLeast(a, c.interval, 1);
      Scale(1, Quotient(a, c.interval), c.rate);
    }
  }

  predicate Timely(times: seq<int>) {
    forall i, j :: 0 <= i < j < |times| ==> times[i] <= times[j]
  }

  /** The bucket after serving requests at these times, starting from `b`. */
  function BucketAfter(c: Config, b: Bucket, times: seq<int>): Bucket
    requires c.interval > 0
  {
    if times == [] then b
    else Serve(c, Present(BucketAfter(c, b, times[..|times| - 1])), times[|times| - 1]).bucket
  }

  /** How many of them are allowed. */
  function Granted(c: Config, b: Bucket, times: seq<int>): nat
    requires c.interval > 0
  {
    if times == [] then 0
    else
      var n := |times| - 1;
      Granted(c, b, times[..n])
      + if Serve(c, Present(BucketAfter(c, b, times[..n])), times[n]).allowed then 1 else 0
  }

  predicate Within(c: Config, b: Bucket) {
    0 <= b.tokens <= c.burst
  }

  /** Tokens stay within 0..burst. */
  lemma ServeWithin(c: Config, e: Entry, now: int)
    requires c.interval > 0 && c.burst >= 1 && (e.Present? ==> Within(c, e.bucket))
    ensures Within(c, Serve(c, e, now).bucket)
  {
  }

  lemma {:induction false} TokensWithin(c: Config, b: Bucket, times: seq<int>)
    requires c.interval > 0 && c.burst >= 1 && Within(c, b)
    ensures Within(c, BucketAfter(c, b, times))
  {
    if times != [] {
      var n := |times| - 1;
      TokensWithin(c, b, times[..n]);
      ServeWithin(c, Present(BucketAfter(c, b, times[..n])), times[n]);
    }
  }

  lemma RefillGain(c: Config, b: Bucket, b0: int, now: int)
    requires c.interval > 0 && c.rate >= 0 && b0 <= b.lastFill <= now
    ensures var f := Refilled(c, b, now);
            && b.lastFill <= f.lastFill <= now
            && f.tokens + Gain(c, b.lastFill - b0) <= b.tokens + Gain(c, f.lastFill - b0)
  {
    hide Gain;
    GainSum(c, b.lastFill - b0, now - b.lastFill);
  }

  /** What is granted plus what is left never exceeds what was there plus what whole intervals
      since the last fill have brought. */
  lemma {:induction false} GrantsFollowRefills(c: Config, b: Bucket, times: seq<int>)
    requires c.interval > 0 && c.rate >= 0
    requires Timely(times) && forall i :: 0 <= i < |times| ==> b.lastFill <= times[i]
    ensures var f := BucketAfter(c, b, times);
            && b.lastFill <= f.lastFill && (times != [] ==> f.lastFill <= times[|times| - 1])
            && (times == [] ==> f == b)
            && Granted(c, b, times) + f.tokens <= b.tokens + Gain(c, f.lastFill - b.lastFill)
  {
    hide Gain;
    if times == [] {
      GainZero(c);
    } else {
      var n := |times| - 1;
      GrantsFollowRefills(c, b, times[..n]);
      RefillGain(c, BucketAfter(c, b, times[..n]), b.lastFill, times[n]);
    }
  }

  /** Requests counted from a bucket's creation: the first creates it, `times` follow. */
  function GrantedFromCreation(c: Config, t0: int, times: seq<int>): nat
    requires c.interval > 0
  {
    1 + Granted(c, Bucket(c.burst - 1, t0), times)
  }

  ghost predicate CreationBound(c: Config)
    requires c.interval > 0
  {
    forall t0, times: seq<int> :: CreationBoundAt(c, t0, times)
  }

  /** At most burst + floor(T / interval) * rate, T being the time since creation. */
  ghost predicate CreationBoundAt(c: Config, t0: int, times: seq<int>)
    requires c.interval > 0
  {
    FromCreation(t0, times) ==>
      GrantedFromCreation(c, t0, times) <= c.burst + Gain(c, Last(t0, times) - t0)
  }

  predicate FromCreation(t0: int, times: seq<int>) {
    Timely(times) && forall i :: 0 <= i < |times| ==> t0 <= times[i]
  }

  function Last(t0: int, times: seq<int>): int {
    if times == [] then t0 else times[|times| - 1]
  }

  lemma CreationBoundHolds(c: Config, t0: int, times: seq<int>)
    requires c.interval > 0 && c.burst >= 1 && c.rate >= 0
    ensures CreationBoundAt(c, t0, times)
  {
    hide Gain;
    if FromCreation(t0, times) {
      var b := Bucket(c.burst - 1, t0);
      GrantsFollowRefills(c, b, times);
      TokensWithin(c, b, times);
      GainMonotone(c, BucketAfter(c, b, times).lastFill - t0, Last(t0, times) - t0);
    }
  }

  /** The bound since creation holds for every history exactly when the burst is positive and
      the rate is not negative. */
  lemma CreationBoundExact(c: Config)
    requires c.interval > 0
    ensures CreationBound(c) <==> c.burst >= 1 && c.rate >= 0
  {
    if c.burst >= 1 && c.rate >= 0 {
      forall t0, times: seq<int> ensures CreationBoundAt(c, t0, times) {
        CreationBoundHolds(c, t0, times);
      }
    } else if c.burst <= 0 {
      GainZero(c);
      assert !CreationBoundAt(c, 0, []);
    } else {
      NegativeRateBreaks(c);
    }
  }

  lemma NegativeRateBreaks(c: Config)
    requires c.interval > 0 && c.burst >= 1 && c.rate < 0
    ensures exists times: seq<int> :: !CreationBoundAt(c, 0, times)
  {
    var q := c.burst + 1;
    QuotientExact(q, c.interval);
    Scale(c.rate, -1, q);
    assert q * c.rate == c.rate * q;
    assert Gain(c, q * c.interval) <= -q;
    hide Gain;
    assert !CreationBoundAt(c, 0, [q * c.interval]);
  }

  /** Any window: from whatever entry, the requests at `times` get at most
      burst + rate * (floor(T / interval) + 1) grants, T being the span of the window. */
  lemma WindowBound(c: Config, e: Entry, times: seq<int>, from: int, span: int)
    requires c.interval > 0 && c.burst >= 1 && c.rate >= 0 && times != []
    requires e.Present? ==> Within(c, e.bucket) && e.bucket.lastFill <= times[0]
    requires Timely(times) && from <= times[0] && times[|times| - 1] <= from + span
    ensures var v := Serve(c, e, times[0]);
            (if v.allowed then 1 else 0) + Granted(c, v.bucket, times[1..]) <= c.burst + Gain(c, span) + c.rate
  {
    hide Gain, Serve;
    var v := Serve(c, e, times[0]);
    var rest := times[1..];
    ServeWithin(c, e, times[0]);
    FirstServed(c, e, times[0]);
    GrantsFollowRefills(c, v.bucket, rest);
    TokensWithin(c, v.bucket, rest);
    WindowGain(c, v.bucket, BucketAfter(c, v.bucket, rest).lastFill, times[0], span);
  }

  lemma WindowGain(c: Config, b: Bucket, last: int, first: int, span: int)
    requires c.interval > 0 && c.rate >= 0 && b.lastFill <= first && span >= 0
    requires b.lastFill <= last <= first + span
    requires c.rate > 0 ==> first - b.lastFill < c.interval
    ensures Gain(c, last - b.lastFill) <= Gain(c, span) + c.rate
  {
    if c.rate > 0 {
      hide Gain;
      GainMonotone(c, last - b.lastFill, span + c.interval);
      GainOneMore(c, span);
    }
  }

  /** After the first request of a window the bucket was filled less than an interval ago. */
  lemma FirstServed(c: Config, e: Entry, now: int)
    requires c.interval > 0 && c.burst >= 1 && c.rate >= 0
    requires e.Present? ==> Within(c, e.bucket) && e.bucket.lastFill <= now
    ensures var v := Serve(c, e, now);
            && (if v.allowed then 1 else 0) + v.bucket.tokens <= c.burst
            && v.bucket.lastFill <= now
            && (c.rate > 0 ==> now - v.bucket.lastFill < c.interval)
  {
    hide Gain;
    if e.Present? && c.rate > 0 && Refill(c, e.bucket, now) <= 0 {
      NoGain(c, now - e.bucket.lastFill);
    }
  }

  /** Requests and cleanup ticks in the order in which the mutex lets them through. */
  datatype Op = Ask(key: string, now: int) | Sweep(now: int)

  ghost predicate OpsTimely(ops: seq<Op>) {
    forall i, j :: 0 <= i < j < |ops| ==> ops[i].now <= ops[j].now
  }

  /** The table after the operations; without eviction the sweeps do nothing. */
  function After(c: Config, ops: seq<Op>, evict: bool): Buckets
    requires c.interval > 0
  {
    if ops == [] then map[]
    else
      var n := |ops| - 1;
      var m := After(c, ops[..n], evict);
      match ops[n]
      case Ask(k, now) => m[k := Serve(c, Lookup(m, k), now).bucket]
      case Sweep(now) => if evict then Swept(m, now) else m
  }

  /** The answer to a request made after the operations. */
  function Answer(c: Config, ops: seq<Op>, key: string, now: int, evict: bool): bool
    requires c.interval > 0
  {
    Serve(c, Lookup(After(c, ops, evict), key), now).allowed
  }

  ghost predicate EvictionInvisible(c: Config)
    requires c.interval > 0
  {
    forall ops, key, now :: OpsTimely(ops + [Ask(key, now)]) ==>
      Answer(c, ops, key, now, true) == Answer(c, ops, key, now, false)
  }

  /** By the time a bucket is stale, whole intervals have refilled it completely. */
  predicate StaleIsFull(c: Config)
    requires c.interval > 0
  {
    c.burst >= 1 && Gain(c, STALE + 1) >= c.burst
  }

  /** The limiter with eviction stands for the one without: what it still has agrees, and what
      it has lost is stale. */
  ghost predicate Stands(c: Config, evicting: Buckets, keeping: Buckets, now: int) {
    && evicting.Keys <= keeping.Keys
    && (forall k :: k in keeping ==> Within(c, keeping[k]) && keeping[k].lastFill <= now)
    && (forall k :: k in evicting ==> evicting[k] == keeping[k])
    && (forall k :: k in keeping && k !in evicting ==> now - keeping[k].lastFill > STALE)
  }

  /** A stale bucket serves exactly as a new one. */
  lemma StaleServesAsNew(c: Config, b: Bucket, now: int)
    requires c.interval > 0 && StaleIsFull(c) && Within(c, b) && now - b.lastFill > STALE
    ensures Serve(c, Present(b), now) == Serve(c, Missing, now)
  {
    PositiveRate(c, STALE + 1);
    hide Gain;
    GainMonotone(c, STALE + 1, now - b.lastFill);
  }

  lemma PositiveRate(c: Config, span: int)
    requires c.interval > 0 && span >= 0 && Gain(c, span) > 0
    ensures c.rate > 0
  {
    QuotientMonotone(0, span, c.interval);
    if c.rate <= 0 { Scale(0, Quotient(span, c.interval), -c.rate); }
  }

  lemma StandsAnswer(c: Config, evicting: Buckets, keeping: Buckets, key: string, now: int)
    requires c.interval > 0 && StaleIsFull(c) && Stands(c, evicting, keeping, now)
    ensures Serve(c, Lookup(evicting, key), now) == Serve(c, Lookup(keeping, key), now)
  {
    if key in keeping && key !in evicting {
      StaleServesAsNew(c, keeping[key], now);
    }
  }

  lemma StandsStep(c: Config, evicting: Buckets, keeping: Buckets, op: Op)
    requires c.interval > 0 && StaleIsFull(c) && Stands(c, evicting, keeping, op.now)
    ensures match op
            case Ask(k, now) =>
              Stands(c, evicting[k := Serve(c, Lookup(evicting, k), now).bucket],
                     keeping[k := Serve(c, Lookup(keeping, k), now).bucket], now)
            case Sweep(now) => Stands(c, Swept(evicting, now), keeping, now)
  {
    match op
    case Ask(k, now) =>
      StandsAnswer(c, evicting, keeping, k, now);
      ServeWithin(c, Lookup(keeping, k), now);
    case Sweep(now) =>
  }

  lemma {:induction false} EvictionStands(c: Config, ops: seq<Op>, now: int)
    requires c.interval > 0 && StaleIsFull(c) && OpsTimely(ops)
    requires forall i :: 0 <= i < |ops| ==> ops[i].now <= now
    ensures Stands(c, After(c, ops, true), After(c, ops, false), now)
  {
    if ops != [] {
      var n := |ops| - 1;
      EvictionStands(c, ops[..n], ops[n].now);
      StandsStep(c, After(c, ops[..n], true), After(c, ops[..n], false), ops[n]);
    }
  }

  lemma SnocAsk(c: Config, ops: seq<Op>, op: Op, evict: bool)
    requires c.interval > 0
    ensures op.Ask? ==> After(c, ops + [op], evict)
                        == After(c, ops, evict)[op.key := Serve(c, Lookup(After(c, ops, evict), op.key), op.now).bucket]
    ensures op.Sweep? ==> After(c, ops + [op], evict)
                          == if evict then Swept(After(c, ops, evict), op.now) else After(c, ops, evict)
  {
    assert (ops + [op])[..|ops|] == ops;
  }

  /** Drain a bucket at time zero, sweep it just after it became stale, and come back. */
  function DrainThenSweep(c: Config): seq<Op> {
    AsksAt(0, if c.burst >= 1 then c.burst else 1) + [Sweep(STALE + 1)]
  }

  function AsksAt(now: int, n: nat): (ops: seq<Op>)
    ensures |ops| == n && forall i :: 0 <= i < n ==> ops[i] == Ask("", now)
  {
    if n == 0 then [] else AsksAt(now, n - 1) + [Ask("", now)]
  }

  /** Repeated requests at the bucket's fill time take one token each. */
  lemma {:induction false} RepeatedAsks(c: Config, ops: seq<Op>, now: int, evict: bool, n: nat)
    requires c.interval > 0
    requires Lookup(After(c, ops, evict), "").Present? && After(c, ops, evict)[""].lastFill == now
    requires n == 0 || n <= After(c, ops, evict)[""].tokens
    ensures After(c, ops + AsksAt(now, n), evict)
            == After(c, ops, evict)["" := Bucket(After(c, ops, evict)[""].tokens - n, now)]
  {
    hide After, AsksAt;
    AsksStep(ops, now, n);
    if n > 0 {
      RepeatedAsks(c, ops, now, evict, n - 1);
      var before := ops + AsksAt(now, n - 1);
      SnocAsk(c, before, Ask("", now), evict);
      SameMoment(c, After(c, before, evict)[""]);
    }
  }

  lemma AsksStep(ops: seq<Op>, now: int, n: nat)
    ensures ops + AsksAt(now, 0) == ops
    ensures n > 0 ==> ops + AsksAt(now, n) == ops + AsksAt(now, n - 1) + [Ask("", now)]
  {
  }

  lemma SameMoment(c: Config, b: Bucket)
    requires c.interval > 0 && b.tokens > 0
    ensures Serve(c, Present(b), b.lastFill) == Verdict(true, Bucket(b.tokens - 1, b.lastFill))
  {
    GainZero(c);
  }

  /** The bucket that the draining requests leave. */
  function DrainedBucket(c: Config): Bucket {
    Bucket(if c.burst >= 1 then 0 else c.burst - 1, 0)
  }

  lemma FirstAsk(c: Config, evict: bool)
    requires c.interval > 0
    ensures After(c, [Ask("", 0)], evict) == map["" := Bucket(c.burst - 1, 0)]
  {
    assert [Ask("", 0)][..0] == [];
  }

  lemma DrainedBefore(c: Config, evict: bool)
    requires c.interval > 0
    ensures After(c, AsksAt(0, if c.burst >= 1 then c.burst else 1), evict) == map["" := DrainedBucket(c)]
  {
    hide After, AsksAt;
    var n := if c.burst >= 1 then c.burst else 1;
    FirstAsk(c, evict);
    RepeatedAsks(c, [Ask("", 0)], 0, evict, n - 1);
    AsksJoin(0, n - 1);
  }

  /** What the drained limiter holds after the sweep, with and without eviction. */
  lemma Drained(c: Config)
    requires c.interval > 0
    ensures After(c, DrainThenSweep(c), true) == map[]
    ensures After(c, DrainThenSweep(c), false) == map["" := DrainedBucket(c)]
  {
    hide After;
    var asks := AsksAt(0, if c.burst >= 1 then c.burst else 1);
    DrainedBefore(c, true);
    DrainedBefore(c, false);
    SnocAsk(c, asks, Sweep(STALE + 1), true);
    SnocAsk(c, asks, Sweep(STALE + 1), false);
    assert Swept(map["" := DrainedBucket(c)], STALE + 1) == map[];
  }

  lemma {:induction false} AsksJoin(now: int, n: nat)
    ensures [Ask("", now)] + AsksAt(now, n) == AsksAt(now, n + 1)
  {
    if n == 0 {
      assert AsksAt(now, 1) == AsksAt(now, 0) + [Ask("", now)];
    } else {
      AsksJoin(now, n - 1);
    }
  }

  /** If a stale bucket is not full, the comeback after the sweep is answered differently. */
  lemma EvictionShows(c: Config)
    requires c.interval > 0 && !StaleIsFull(c)
    ensures !EvictionInvisible(c)
  {
    var now := STALE + 1;
    var base := DrainThenSweep(c);
    var gain := Gain(c, now);
    Drained(c);
    hide Gain, After;
    if c.burst <= 0 || gain <= 0 {
      Shows(c, base, now);
    } else {
      RefilledShows(c, base);
    }
  }

  /** The kept bucket has refilled to some tokens, but fewer than the new one's burst. */
  lemma RefilledShows(c: Config, base: seq<Op>)
    requires c.interval > 0 && base == DrainThenSweep(c) && 0 < Gain(c, STALE + 1) < c.burst
    requires After(c, base, true) == map[] && After(c, base, false) == map["" := Bucket(0, 0)]
    ensures !EvictionInvisible(c)
  {
    hide After, Gain;
    var now := STALE + 1;
    var gain := Gain(c, now);
    var once := base + [Ask("", now)];
    SnocAsk(c, base, Ask("", now), false);
    SnocAsk(c, base, Ask("", now), true);
    assert After(c, once, false) == map["" := Bucket(gain - 1, now)];
    assert After(c, once, true) == map["" := Bucket(c.burst - 1, now)];
    RepeatedAsks(c, once, now, false, gain - 1);
    RepeatedAsks(c, once, now, true, gain - 1);
    GainZero(c);
    Shows(c, once + AsksAt(now, gain - 1), now);
  }

  lemma Shows(c: Config, ops: seq<Op>, now: int)
    requires c.interval > 0
    requires forall i :: 0 <= i < |ops| ==> ops[i].now <= now
    requires OpsTimely(ops)
    requires Answer(c, ops, "", now, true) != Answer(c, ops, "", now, false)
    ensures !EvictionInvisible(c)
  {
    assert OpsTimely(ops + [Ask("", now)]);
  }

  /** Eviction cannot be observed, in any run, exactly when a bucket that has just become stale
      is full again; in particular when floor(10min / interval) * rate is at least the burst. */
  lemma EvictionExact(c: Config)
    requires c.interval > 0
    ensures EvictionInvisible(c) <==> StaleIsFull(c)
  {
    if StaleIsFull(c) {
      forall ops, key, now | OpsTimely(ops + [Ask(key, now)])
        ensures Answer(c, ops, key, now, true) == Answer(c, ops, key, now, false)
      {
        TimelyInit(ops, Ask(key, now));
        EvictionStands(c, ops, now);
        StandsAnswer(c, After(c, ops, true), After(c, ops, false), key, now);
      }
    } else {
      EvictionShows(c);
    }
  }

  lemma TimelyInit(ops: seq<Op>, last: Op)
    requires OpsTimely(ops + [last])
    ensures OpsTimely(ops) && forall i :: 0 <= i < |ops| ==> ops[i].now <= last.now
  {
    var all := ops + [last];
    assert all[|ops|] == last;
    assert forall i :: 0 <= i < |ops| ==> all[i] == ops[i];
  }

  lemma TenMinutesSuffice(c: Config)
    requires c.interval > 0 && c.burst >= 1 && Gain(c, STALE) >= c.burst
    ensures StaleIsFull(c)
  {
    PositiveRate(c, STALE);
    GainMonotone(c, STALE, STALE + 1);
  }
}
