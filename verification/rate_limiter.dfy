/** Per-client token-bucket admission control in front of every route. Times are seconds as
    exact reals, standing in for Go's `time.Time` and `float64` seconds. */
module RateLimiter {
  import opened Results
  import opened Decimal

  /** `RateLimiterConfig` without its client-identification function, which is a parameter here. */
  datatype Config = Config(capacity: real, refillRate: real)

  /** `Limiter`: one token bucket. */
  datatype Bucket = Bucket(tokens: real, capacity: real, refillRate: real, lastTimestamp: real)

  /** The bucket invariant: the balance lies between empty and full. */
  ghost predicate Valid(b: Bucket) {
    0.0 <= b.tokens <= b.capacity
  }

  /** `NewRateLimiter`: a bucket created at `now` starts full. */
  function NewBucket(cfg: Config, now: real): (b: Bucket)
    ensures b.tokens == b.capacity == cfg.capacity
    ensures b.refillRate == cfg.refillRate && b.lastTimestamp == now
    ensures cfg.capacity >= 0.0 ==> Valid(b)
  {
    Bucket(cfg.capacity, cfg.capacity, cfg.refillRate, now)
  }

  function Min(a: real, b: real): real {
    if a <= b then a else b
  }

  /** Tokens earned between the last refill and `now`. */
  function Earned(b: Bucket, now: real): real {
    (now - b.lastTimestamp) * b.refillRate
  }

  /** `refill`: credits the tokens earned since the last refill, capped at capacity, and moves the
      timestamp to `now` only when something was earned. */
  function Refill(b: Bucket, now: real): (r: Bucket)
    ensures r.capacity == b.capacity && r.refillRate == b.refillRate
    ensures Earned(b, now) <= 0.0 ==> r == b
    ensures Earned(b, now) > 0.0 ==> r.lastTimestamp == now
    ensures Earned(b, now) > 0.0 ==> r.tokens <= b.capacity
    ensures Earned(b, now) > 0.0 ==>
      r.tokens == b.capacity || r.tokens == b.tokens + Earned(b, now)
    ensures Earned(b, now) > 0.0 ==> r.tokens <= b.tokens + Earned(b, now)
    ensures b.tokens <= b.capacity ==> b.tokens <= r.tokens
  {
    var add := Earned(b, now);
    if add > 0.0 then b.(tokens := Min(b.capacity, b.tokens + add), lastTimestamp := now)
    else b
  }

  /** The outcome of one `allow` call: the decision and the bucket afterwards. */
  datatype Admission = Admission(allowed: bool, bucket: Bucket)

  /** `allow`: refill, then withdraw exactly one token if at least one is available. */
  function Allow(b: Bucket, now: real): (r: Admission)
    ensures r.allowed <==> Refill(b, now).tokens >= 1.0
    ensures r.allowed ==> r.bucket == Refill(b, now).(tokens := Refill(b, now).tokens - 1.0)
    ensures !r.allowed ==> r.bucket == Refill(b, now)
  {
    var refilled := Refill(b, now);
    if refilled.tokens >= 1.0 then Admission(true, refilled.(tokens := refilled.tokens - 1.0))
    else Admission(false, refilled)
  }

  /** Refill and allow keep the balance within `0..capacity`. */
  lemma AllowPreservesValid(b: Bucket, now: real)
    requires Valid(b)
    ensures Valid(Refill(b, now))
    ensures Valid(Allow(b, now).bucket)
  {
  }

  /** Outcomes of `n` consecutive `allow` calls, all at the same instant `now`. */
  function AllowMany(b: Bucket, now: real, n: nat): (r: seq<bool>)
    ensures |r| == n
    decreases n
  {
    if n == 0 then []
    else
      var a := Allow(b, now);
      [a.allowed] + AllowMany(a.bucket, now, n - 1)
  }

  /** Without time advancing, a bucket holding `t >= 0` tokens admits exactly the first `floor(t)`
      calls and denies every later one. */
  lemma {:induction false} BurstAdmitsFloorOfTokens(b: Bucket, n: nat)
    requires b.tokens >= 0.0
    ensures forall i :: 0 <= i < n ==> (AllowMany(b, b.lastTimestamp, n)[i] <==> i < b.tokens.Floor)
    decreases n
  {
    if n > 0 {
      var now := b.lastTimestamp;
      assert Earned(b, now) == 0.0;
      var a := Allow(b, now);
      var rest := AllowMany(a.bucket, now, n - 1);
      assert AllowMany(b, now, n) == [a.allowed] + rest;
      if a.allowed {
        assert a.bucket.tokens == b.tokens - 1.0;
        assert a.bucket.tokens.Floor == b.tokens.Floor - 1;
      } else {
        assert b.tokens.Floor == 0;
      }
      assert a.bucket.lastTimestamp == now;
      BurstAdmitsFloorOfTokens(a.bucket, n - 1);
    }
  }

  /** A fresh bucket therefore admits exactly `floor(capacity)` calls made at its creation time. */
  lemma FreshBurst(cfg: Config, now: real, n: nat)
    requires cfg.capacity >= 0.0
    ensures forall i :: 0 <= i < n ==> (AllowMany(NewBucket(cfg, now), now, n)[i] <==> i < cfg.capacity.Floor)
  {
    BurstAdmitsFloorOfTokens(NewBucket(cfg, now), n);
  }

  /** What the middleware does with one request. */
  datatype Verdict =
    | Pass
      /** 429 with body error `error`; `limit` feeds `X-RateLimit-Limit`, `retryAfter` is the
          `retry_after` duration in nanoseconds and `X-RateLimit-Reset` is it in seconds. */
    | Deny(status: int, error: string, limit: real, retryAfter: Option<int>)

  const TooManyRequests: int := 429
  const RateLimitExceeded: string := "Rate limit exceeded"

  /** `time.Duration(1000/refillRate)`: Go's conversion of a `float64` to an integer truncates
      toward zero; a value outside the 64-bit range (including the infinity of a division by zero)
      has no defined result. */
  function RetryAfterMillis(refillRate: real): (r: Option<int>)
    ensures refillRate == 0.0 ==> r.None?
    ensures r.Some? ==> refillRate != 0.0 && MinInt64 <= r.value <= MaxInt64
    ensures r.Some? && refillRate > 0.0 ==>
      r.value >= 0 && r.value as real <= 1000.0 / refillRate < r.value as real + 1.0
    ensures r.Some? && refillRate < 0.0 ==>
      r.value <= 0 && r.value as real - 1.0 < 1000.0 / refillRate <= r.value as real
  {
    if refillRate == 0.0 then None
    else
      var q := 1000.0 / refillRate;
      var t := if q >= 0.0 then q.Floor else -((-q).Floor);
      if MinInt64 <= t <= MaxInt64 then Some(t) else None
  }

  const TwoTo64: int := 0x1_0000_0000_0000_0000

  /** Go's `int64` multiplication keeps the product modulo 2^64, read as a signed number. */
  function WrapInt64(x: int): (r: int)
    ensures MinInt64 <= r <= MaxInt64
    ensures (x - r) % TwoTo64 == 0
    ensures MinInt64 <= x <= MaxInt64 ==> r == x
  {
    var m := x % TwoTo64;
    if m > MaxInt64 then m - TwoTo64 else m
  }

  const NanosPerMilli: int := 1_000_000

  /** `retryAfter := time.Duration(1000/refillRate) * time.Millisecond`, in nanoseconds: the
      millisecond count scaled by 10^6 with 64-bit wrap-around. */
  function RetryAfter(refillRate: real): (r: Option<int>)
    ensures r.Some? <==> RetryAfterMillis(refillRate).Some?
    ensures r.Some? ==> MinInt64 <= r.value <= MaxInt64
    ensures r.Some? ==> (RetryAfterMillis(refillRate).value * NanosPerMilli - r.value) % TwoTo64 == 0
    ensures r.Some? && RetryAfterMillis(refillRate).value * NanosPerMilli <= MaxInt64 && refillRate > 0.0 ==>
      r.value == RetryAfterMillis(refillRate).value * NanosPerMilli && r.value >= 0
  {
    match RetryAfterMillis(refillRate)
    case None => None
    case Some(ms) => Some(WrapInt64(ms * NanosPerMilli))
  }

  /** A refill rate of 10^-10 tokens per second gives 10^13 ms, whose nanosecond count overflows
      and wraps to a negative duration. */
  lemma RetryAfterWraps(rate: real)
    requires rate == 0.0000000001
    ensures RetryAfterMillis(rate) == Some(10_000_000_000_000)
    ensures RetryAfter(rate) == Some(-8_446_744_073_709_551_616)
  {
    assert 1000.0 / rate == 10_000_000_000_000.0;
  }

  /** A rate of one token per second gives a retry hint of exactly one second. */
  lemma RetryAfterOneSecond()
    ensures RetryAfter(1.0) == Some(1_000_000_000)
  {
  }

  /** The client-to-bucket map (`sync.Map`) after a request and the verdict on it. */
  datatype Decision = Decision(verdict: Verdict, buckets: map<string, Bucket>)

  /** The middleware returned by `RateLimiter`: find or create the client's bucket, try to take a
      token, and either pass the request on or answer 429. */
  function Handle(buckets: map<string, Bucket>, cfg: Config, client: string, now: real): (r: Decision)
    ensures r.buckets.Keys == buckets.Keys + {client}
    ensures forall c :: c in buckets && c != client ==> r.buckets[c] == buckets[c]
    ensures client in buckets ==> r.buckets[client] == Allow(buckets[client], now).bucket
    ensures client !in buckets ==> r.buckets[client] == Allow(NewBucket(cfg, now), now).bucket
    ensures r.verdict.Pass? <==>
      Allow(if client in buckets then buckets[client] else NewBucket(cfg, now), now).allowed
    ensures r.verdict.Deny? ==>
      r.verdict == Deny(TooManyRequests, RateLimitExceeded, cfg.capacity, RetryAfter(cfg.refillRate))
  {
    var bucket := if client in buckets then buckets[client] else NewBucket(cfg, now);
    var a := Allow(bucket, now);
    var verdict := if a.allowed then Pass
                   else Deny(TooManyRequests, RateLimitExceeded, cfg.capacity, RetryAfter(cfg.refillRate));
    Decision(verdict, buckets[client := a.bucket])
  }

  /** Capacity 3, refill 1/s, five requests from one client in the same instant: 200 200 200 429 429. */
  lemma BasicRateLimitingExample(client: string, now: real)
    ensures var cfg := Config(3.0, 1.0);
      var d1 := Handle(map[], cfg, client, now);
      var d2 := Handle(d1.buckets, cfg, client, now);
      var d3 := Handle(d2.buckets, cfg, client, now);
      var d4 := Handle(d3.buckets, cfg, client, now);
      var d5 := Handle(d4.buckets, cfg, client, now);
      d1.verdict.Pass? && d2.verdict.Pass? && d3.verdict.Pass? && d4.verdict.Deny? && d5.verdict.Deny?
  {
  }

  /** Capacity 1, refill 1/s: allowed, denied, one second later allowed again, then denied. */
  lemma RefillExample(client: string, t: real)
    ensures var cfg := Config(1.0, 1.0);
      var d1 := Handle(map[], cfg, client, t);
      var d2 := Handle(d1.buckets, cfg, client, t);
      var d3 := Handle(d2.buckets, cfg, client, t + 1.0);
      var d4 := Handle(d3.buckets, cfg, client, t + 1.0);
      d1.verdict.Pass? && d2.verdict.Deny? && d3.verdict.Pass? && d4.verdict.Deny?
  {
  }

  /** Two clients drain their own buckets: the second client's requests are unaffected by the first's. */
  lemma ClientsAreIndependent(buckets: map<string, Bucket>, cfg: Config, a: string, b: string, now: real)
    requires a != b
    ensures Handle(Handle(buckets, cfg, a, now).buckets, cfg, b, now).verdict == Handle(buckets, cfg, b, now).verdict
  {
  }
}
