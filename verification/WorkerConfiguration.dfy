/** The worker's validated configuration and its retry backoff. */
module WorkerConfiguration {
  import opened Common

  datatype Config = Config(
    concurrency: int,
    leaseSeconds: int,
    renewalSeconds: int,
    handlerTimeoutSeconds: int,
    pollIntervalMs: int,
    backoffBaseMs: int,
    backoffCapMs: int,
    shutdownGraceMs: int)

  const DEFAULT_WORKER_CONFIG := Config(1, 60, 20, 300, 1000, 1000, 60_000, 10_000)

  predicate IntegerIn(value: int, min: int, max: int) {
    min <= value <= max
  }

  /** The name of the first field out of its range, or the configuration itself. */
  function ResolveWorkerConfig(c: Config): Result<Config, string> {
    if !IntegerIn(c.concurrency, 1, 10) then Err("concurrency")
    else if !IntegerIn(c.leaseSeconds, 1, 3600) then Err("leaseSeconds")
    else if !IntegerIn(c.renewalSeconds, 1, c.leaseSeconds) then Err("renewalSeconds")
    else if !IntegerIn(c.handlerTimeoutSeconds, 1, 3600) then Err("handlerTimeoutSeconds")
    else if !IntegerIn(c.pollIntervalMs, 1, 3_600_000) then Err("pollIntervalMs")
    else if !IntegerIn(c.backoffBaseMs, 0, 3_600_000) then Err("backoffBaseMs")
    else if !IntegerIn(c.backoffCapMs, c.backoffBaseMs, 86_400_000) then Err("backoffCapMs")
    else if !IntegerIn(c.shutdownGraceMs, 0, 3_600_000) then Err("shutdownGraceMs")
    else Ok(c)
  }

  function Pow2(n: nat): nat {
    if n == 0 then 1 else 2 * Pow2(n - 1)
  }

  /** A draw of the jitter source, in [0, 1). */
  type Draw = r: real | 0.0 <= r < 1.0 witness 0.0

  function Exponential(attempt: int, c: Config): int {
    Min(c.backoffCapMs, c.backoffBaseMs * Pow2(if attempt <= 1 then 0 else attempt - 1))
  }

  function BackoffDelay(attempt: int, c: Config, random: Draw): int {
    var exponential := Exponential(attempt, c);
    Min(c.backoffCapMs, exponential + Jitter(Min(exponential, c.backoffBaseMs), random))
  }

  function Jitter(bound: int, random: Draw): int {
    (random * (bound as real)).Floor
  }

  lemma JitterRange(bound: nat, random: Draw)
    ensures 0 <= Jitter(bound, random) <= bound
    ensures bound > 0 ==> Jitter(bound, random) < bound
  {
    ShareRange(random, bound as real);
    FloorRange(random * (bound as real), bound);
  }

  lemma ShareRange(r: Draw, b: real)
    requires 0.0 <= b
    ensures 0.0 <= r * b <= b && (b > 0.0 ==> r * b < b)
  {
    assert (1.0 - r) * b == b - r * b;
    if b > 0.0 { assert (1.0 - r) * b > 0.0; }
  }

  lemma FloorRange(x: real, bound: nat)
    requires 0.0 <= x <= bound as real && (bound > 0 ==> x < bound as real)
    ensures 0 <= x.Floor <= bound && (bound > 0 ==> x.Floor < bound)
  {
  }

  /** The delay lies between the capped exponential and the cap, and below the next exponential step. */
  lemma DelayRange(attempt: int, c: Config, random: Draw)
    requires attempt >= 1 && 0 <= c.backoffBaseMs <= c.backoffCapMs
    ensures Exponential(attempt, c) <= BackoffDelay(attempt, c, random) <= c.backoffCapMs
    ensures BackoffDelay(attempt, c, random) <= c.backoffBaseMs * Pow2(attempt - 1) + c.backoffBaseMs
    ensures BackoffDelay(attempt, c, random) <= Exponential(attempt + 1, c)
  {
    hide Exponential, Pow2, Jitter;
    ExponentialRange(attempt, c);
    JitterRange(Min(Exponential(attempt, c), c.backoffBaseMs), random);
    var jitter := Jitter(Min(Exponential(attempt, c), c.backoffBaseMs), random);
    assert BackoffDelay(attempt, c, random) == Min(c.backoffCapMs, Exponential(attempt, c) + jitter);
    hide BackoffDelay;
    AddJitter(c.backoffBaseMs, c.backoffCapMs, c.backoffBaseMs * Pow2(attempt - 1), jitter);
  }

  lemma AddJitter(base: nat, cap: int, product: int, jitter: int)
    requires base <= cap && base <= product && 0 <= jitter <= base
    ensures var e, d := Min(cap, product), Min(cap, Min(cap, product) + jitter);
            e <= d <= cap && d <= product + base && d <= Min(cap, 2 * product)
  {
  }

  lemma ExponentialRange(attempt: int, c: Config)
    requires attempt >= 1 && 0 <= c.backoffBaseMs <= c.backoffCapMs
    ensures 0 <= Exponential(attempt, c) <= c.backoffCapMs
    ensures c.backoffBaseMs <= Exponential(attempt, c) <= c.backoffBaseMs * Pow2(attempt - 1)
    ensures Exponential(attempt + 1, c) == Min(c.backoffCapMs, 2 * (c.backoffBaseMs * Pow2(attempt - 1)))
    ensures Exponential(attempt, c) == Min(c.backoffCapMs, c.backoffBaseMs * Pow2(attempt - 1))
  {
    Pow2Positive(attempt - 1);
    AtLeastOnce(c.backoffBaseMs, Pow2(attempt - 1));
  }

  lemma AtLeastOnce(base: nat, p: nat)
    requires p >= 1
    ensures base <= base * p
  {
  }

  lemma {:induction false} Pow2Positive(n: nat)
    ensures Pow2(n) >= 1
  {
    if n > 0 { Pow2Positive(n - 1); }
  }

  /** Whatever the jitter draws, a later attempt never waits less than an earlier one. */
  lemma DelayMonotone(attempt: int, c: Config, random: Draw, random': Draw)
    requires attempt >= 1 && 0 <= c.backoffBaseMs <= c.backoffCapMs
    ensures BackoffDelay(attempt, c, random) <= BackoffDelay(attempt + 1, c, random')
  {
    DelayRange(attempt, c, random);
    DelayRange(attempt + 1, c, random');
  }

  /** The waiting time of the first |draws| retries. */
  function TotalDelay(c: Config, draws: seq<Draw>): int {
    if draws == [] then 0
    else TotalDelay(c, draws[..|draws| - 1]) + BackoffDelay(|draws|, c, draws[|draws| - 1])
  }

  lemma Distribute(base: nat, cap: nat, p: nat, k: nat)
    ensures base * (p - 1 + (k - 1)) + (base * p + base) == base * (2 * p - 1 + k)
    ensures k * cap == (k - 1) * cap + cap
  {
  }

  lemma {:induction false} TotalDelayBound(c: Config, draws: seq<Draw>)
    requires 0 <= c.backoffBaseMs <= c.backoffCapMs
    ensures 0 <= TotalDelay(c, draws) <= |draws| * c.backoffCapMs
    ensures TotalDelay(c, draws) <= c.backoffBaseMs * (Pow2(|draws|) - 1 + |draws|)
  {
    var k := |draws|;
    if k > 0 {
      TotalDelayBound(c, draws[..k - 1]);
      DelayRange(k, c, draws[k - 1]);
      Pow2Positive(k - 1);
      ExponentialRange(k, c);
      Distribute(c.backoffBaseMs, c.backoffCapMs, Pow2(k - 1), k);
      assert Pow2(k) == 2 * Pow2(k - 1);
      hide Pow2, BackoffDelay, Exponential;
    }
  }

  // ---------------------------------------------------------------- exactly which values

  /** The bounds every field is checked against. */
  lemma AcceptedExactly(c: Config)
    ensures ResolveWorkerConfig(c) == Ok(c) <==>
              && 1 <= c.concurrency <= 10
              && 1 <= c.leaseSeconds <= 3600
              && 1 <= c.renewalSeconds <= c.leaseSeconds
              && 1 <= c.handlerTimeoutSeconds <= 3600
              && 1 <= c.pollIntervalMs <= 3_600_000
              && 0 <= c.backoffBaseMs <= 3_600_000
              && c.backoffBaseMs <= c.backoffCapMs <= 86_400_000
              && 0 <= c.shutdownGraceMs <= 3_600_000
    ensures ResolveWorkerConfig(c).Ok? ==> ResolveWorkerConfig(c).value == c
  {
  }

  /** The jitter is the whole part of the draw's share of the smaller of the exponential and the base. */
  lemma DelayIs(attempt: int, c: Config, random: Draw, jitter: int)
    requires attempt >= 1 && 0 <= c.backoffBaseMs <= c.backoffCapMs
    requires var e := Min(c.backoffCapMs, c.backoffBaseMs * Pow2(attempt - 1));
             jitter as real <= random * (Min(e, c.backoffBaseMs) as real) < jitter as real + 1.0
    ensures BackoffDelay(attempt, c, random) == Min(c.backoffCapMs, Min(c.backoffCapMs, c.backoffBaseMs * Pow2(attempt - 1)) + jitter)
  {
    hide Exponential, Pow2;
    ExponentialRange(attempt, c);
    FloorIs(random * (Min(Exponential(attempt, c), c.backoffBaseMs) as real), jitter);
  }

  lemma FloorIs(x: real, n: int)
    requires n as real <= x < n as real + 1.0
    ensures x.Floor == n
  {
  }

  /** A draw whose share of m is exactly j. */
  lemma DrawOf(j: nat, m: nat) returns (r: Draw)
    requires j < m
    ensures r * (m as real) == j as real
  {
    r := (j as real) / (m as real);
  }

  /**
   * For some draw the delay is d exactly when d lies in the jitter's range above the capped exponential:
   * one of as many values as the smaller of exponential and base, cut at the cap.
   */
  lemma DelaysReachedExactly(attempt: int, c: Config, d: int)
    requires attempt >= 1 && 0 <= c.backoffBaseMs <= c.backoffCapMs
    ensures var e := Min(c.backoffCapMs, c.backoffBaseMs * Pow2(attempt - 1));
            var m := Min(e, c.backoffBaseMs);
            (exists random: Draw :: BackoffDelay(attempt, c, random) == d) <==>
              d == e || (e < d < e + m && d <= c.backoffCapMs)
  {
    hide Exponential, Pow2, BackoffDelay;
    ExponentialRange(attempt, c);
    var e := Min(c.backoffCapMs, c.backoffBaseMs * Pow2(attempt - 1));
    var m := Min(e, c.backoffBaseMs);
    if random: Draw :| BackoffDelay(attempt, c, random) == d {
      JitterRange(m, random);
      var jitter := Jitter(m, random);
      DelayIs(attempt, c, random, jitter);
    }
    if e <= d < e + m && d <= c.backoffCapMs {
      var random := DrawOf(d - e, m);
      DelayIs(attempt, c, random, d - e);
    }
    if d == e && m == 0 {
      DelayIs(attempt, c, 0.0, 0);
    }
  }
}
