// How long to wait when a provider's quota is exhausted: exponential backoff with a
// deterministic jitter, or the provider's own hint. Numbers are exact reals.
module QuotaRetry {
  import opened Options

  function Ceil(x: real): int {
    -(-x).Floor
  }

  function Min(a: int, b: int): int { if a < b then a else b }
  function Max(a: int, b: int): int { if a > b then a else b }

  function Pow(f: real, n: nat): real {
    if n == 0 then 1.0 else f * Pow(f, n - 1)
  }

  // ---- Jitter

  function Digits(n: nat): string {
    (if n < 10 then "" else Digits(n / 10)) + ["0123456789"[n % 10]]
  }

  // What charCodeAt gives, index by index: section 6.1.4 of ECMA-262 has two code units for a
  // character outside the basic plane.
  function CharCodes(s: string): seq<nat> {
    if s == "" then []
    else
      var code := s[0] as int;
      (if code < 0x1_0000 then [code] else [0xD800 + (code - 0x1_0000) / 0x400, 0xDC00 + (code - 0x1_0000) % 0x400])
        + CharCodes(s[1..])
  }

  // The running 32-bit hash of a seed.
  function Hash(seed: seq<nat>): (h: nat)
    ensures h < 0x1_0000_0000
  {
    if seed == [] then 0
    else (Hash(seed[..|seed| - 1]) * 31 + seed[|seed| - 1]) % 0x1_0000_0000
  }

  method DeterministicJitter(taskId: string, retryCount: nat, maxJitterMs: int) returns (jitter: int)
    ensures jitter == JitterOf(taskId, retryCount, maxJitterMs)
  {
    if maxJitterMs <= 0 {
      return 0;
    }
    var hash := 0;
    var seed := CharCodes(taskId + ":" + Digits(retryCount));
    for i := 0 to |seed|
      invariant hash == Hash(seed[..i])
    {
      assert seed[..i + 1][..i] == seed[..i];
      hash := (hash * 31 + seed[i]) % 0x1_0000_0000;
    }
    assert seed[..|seed|] == seed;
    return hash % (maxJitterMs + 1);
  }

  function JitterOf(taskId: string, retryCount: nat, maxJitterMs: int): (jitter: int)
    ensures 0 <= jitter && (jitter <= maxJitterMs || jitter == 0)
  {
    if maxJitterMs <= 0 then 0 else Hash(CharCodes(taskId + ":" + Digits(retryCount))) % (maxJitterMs + 1)
  }

  // ---- Backoff

  // None stands for a number that is not finite; hint: what the error message said.
  datatype BackoffOptions = BackoffOptions(
    taskId: string, retryCount: real, baseDelayMs: real, maxDelayMs: real, factor: Option<real>,
    jitterRatio: Option<real>, hint: Option<int>)

  datatype Backoff = Backoff(cooldownMs: int, retryHintMs: Option<int>, exponentialMs: int, jitterMs: int)

  function BaseDelay(o: BackoffOptions): int { Max(1000, o.baseDelayMs.Floor) }
  function MaxDelay(o: BackoffOptions): int { Max(BaseDelay(o), o.maxDelayMs.Floor) }
  function RetryCount(o: BackoffOptions): nat { Max(0, o.retryCount.Floor) }
  function Factor(o: BackoffOptions): real { if o.factor.Some? && o.factor.value > 1.0 then o.factor.value else 2.0 }
  function JitterRatio(o: BackoffOptions): (ratio: real)
    ensures 0.0 <= ratio <= 1.0
  {
    if o.jitterRatio.Some? && o.jitterRatio.value >= 0.0
    then if o.jitterRatio.value < 1.0 then o.jitterRatio.value else 1.0
    else 0.2
  }

  function Exponential(base: int, max: int, factor: real, retryCount: nat): int {
    Min(max, Ceil(base as real * Pow(factor, retryCount)))
  }

  function Share(delayMs: int, ratio: real): (share: int)
    requires delayMs >= 0 && ratio >= 0.0
    ensures share >= 0
  {
    ProductIsNotNegative(delayMs as real, ratio);
    (delayMs as real * ratio).Floor
  }

  // The backoff of an error that names no positive delay: between the two delays, with the
  // jitter within its share of it.
  predicate IsJittered(o: BackoffOptions, b: Backoff)
    requires b.exponentialMs >= 0
  {
    var share := Share(b.exponentialMs, JitterRatio(o));
    && BaseDelay(o) <= b.cooldownMs <= MaxDelay(o)
    && 0 <= b.jitterMs <= share
    && b.cooldownMs == Min(MaxDelay(o), b.exponentialMs + b.jitterMs)
    && b.jitterMs == JitterOf(o.taskId, RetryCount(o), share)
  }

  // With a hint the wait is the longer of it and the backoff, and not jittered.
  predicate FollowsHint(b: Backoff, hint: int) {
    && b.jitterMs == 0 && b.cooldownMs >= hint && b.cooldownMs >= b.exponentialMs
    && (b.cooldownMs == hint || b.cooldownMs == b.exponentialMs)
  }

  method Jittered(o: BackoffOptions, exponentialMs: int) returns (b: Backoff)
    requires BaseDelay(o) <= exponentialMs <= MaxDelay(o) && (o.hint.Some? ==> o.hint.value <= 0)
    ensures b.exponentialMs == exponentialMs && b.retryHintMs == o.hint && IsJittered(o, b)
  {
    var maxDelayMs := MaxDelay(o);
    var preJitterMs := Min(maxDelayMs, Max(exponentialMs, if o.hint.Some? then o.hint.value else 0));
    assert preJitterMs == exponentialMs;
    var maxJitterMs := Share(preJitterMs, JitterRatio(o));
    var jitterMs := DeterministicJitter(o.taskId, RetryCount(o), maxJitterMs);
    b := Backoff(Min(maxDelayMs, preJitterMs + jitterMs), o.hint, exponentialMs, jitterMs);
  }

  method ComputeQuotaBackoff(o: BackoffOptions) returns (b: Backoff)
    ensures b.exponentialMs == Exponential(BaseDelay(o), MaxDelay(o), Factor(o), RetryCount(o))
    ensures BaseDelay(o) <= b.exponentialMs <= MaxDelay(o) && b.retryHintMs == o.hint
    ensures if o.hint.Some? && o.hint.value > 0 then FollowsHint(b, o.hint.value) else IsJittered(o, b)
  {
    var exponentialMs := Exponential(BaseDelay(o), MaxDelay(o), Factor(o), RetryCount(o));
    ExponentialIsBounded(BaseDelay(o), MaxDelay(o), Factor(o), RetryCount(o));
    if o.hint.Some? && o.hint.value > 0 {
      return Backoff(Max(exponentialMs, o.hint.value), o.hint, exponentialMs, 0);
    }
    b := Jittered(o, exponentialMs);
  }

  lemma ProductIsNotNegative(a: real, b: real)
    requires a >= 0.0 && b >= 0.0
    ensures a * b >= 0.0 && (a * b).Floor >= 0
  {
  }

  lemma {:induction false} PowIsAtLeastOne(f: real, n: nat)
    requires f >= 1.0
    ensures Pow(f, n) >= 1.0
  {
    if n > 0 {
      PowIsAtLeastOne(f, n - 1);
      ProductGrows(f, Pow(f, n - 1));
    }
  }

  lemma ProductGrows(f: real, x: real)
    requires f >= 1.0 && x >= 0.0
    ensures f * x >= x
  {
    assert f * x == x + (f - 1.0) * x;
  }

  lemma CeilIsMonotone(x: real, y: real)
    requires x <= y
    ensures Ceil(x) <= Ceil(y)
  {
  }

  lemma ExponentialIsBounded(base: int, max: int, factor: real, n: nat)
    requires 0 <= base <= max && factor >= 1.0
    ensures base <= Exponential(base, max, factor, n) <= max
  {
    PowIsAtLeastOne(factor, n);
    ProductGrows(Pow(factor, n), base as real);
    CeilIsMonotone(base as real, base as real * Pow(factor, n));
  }

  // One retry more never shortens the backoff.
  lemma ExponentialGrows(base: int, max: int, factor: real, n: nat)
    requires 0 <= base && factor > 1.0
    ensures Exponential(base, max, factor, n) <= Exponential(base, max, factor, n + 1)
  {
    PowIsAtLeastOne(factor, n);
    var x := base as real * Pow(factor, n);
    ProductIsNotNegative(base as real, Pow(factor, n));
    ProductGrows(factor, x);
    assert base as real * Pow(factor, n + 1) == factor * x;
    CeilIsMonotone(x, factor * x);
  }

  lemma {:induction false} ExponentialGrowsOverall(base: int, max: int, factor: real, m: nat, n: nat)
    requires 0 <= base && factor > 1.0 && m <= n
    ensures Exponential(base, max, factor, m) <= Exponential(base, max, factor, n)
    decreases n
  {
    if m < n {
      ExponentialGrowsOverall(base, max, factor, m, n - 1);
      ExponentialGrows(base, max, factor, n - 1);
    }
  }

  // Bernoulli's inequality.
  lemma {:induction false} PowOutgrowsLine(f: real, n: nat)
    requires f > 1.0
    ensures Pow(f, n) >= 1.0 + n as real * (f - 1.0)
  {
    if n > 0 {
      PowOutgrowsLine(f, n - 1);
      var line := 1.0 + (n - 1) as real * (f - 1.0);
      ProductIsNotNegative((n - 1) as real, f - 1.0);
      ProductIsNotNegative(f, Pow(f, n - 1) - line);
      assert f * Pow(f, n - 1) >= f * line;
      ProductIsNotNegative((f - 1.0) * (n - 1) as real, f - 1.0);
      assert f * line == line + (f - 1.0) * line;
      assert (f - 1.0) * line == (f - 1.0) + (f - 1.0) * ((n - 1) as real * (f - 1.0));
    }
  }

  lemma CeilIsAbove(x: real)
    ensures Ceil(x) as real >= x
  {
  }

  lemma QuotientTimes(a: real, b: real)
    requires a >= 0.0 && b > 0.0
    ensures a / b >= 0.0 && a / b * b == a
  {
  }

  lemma ProductIsMonotone(a: real, b: real, c: real)
    requires a >= b && c >= 0.0
    ensures a * c >= b * c
  {
    assert a * c - b * c == (a - b) * c;
    ProductIsNotNegative(a - b, c);
  }

  ghost predicate AtLongest(base: int, max: int, factor: real, k: nat) {
    Exponential(base, max, factor, k) == max
  }

  // After finitely many retries the longest delay is reached, and kept.
  lemma MaxDelayIsReached(base: int, max: int, factor: real) returns (n: nat)
    requires 0 < base <= max && factor > 1.0
    ensures forall k :: k >= n ==> AtLongest(base, max, factor, k)
  {
    var q := max as real / (factor - 1.0);
    QuotientTimes(max as real, factor - 1.0);
    CeilIsAbove(q);
    n := Ceil(q);
    PowOutgrowsLine(factor, n);
    ProductIsMonotone(n as real, q, factor - 1.0);
    assert Pow(factor, n) >= max as real;
    ProductGrows(base as real, Pow(factor, n));
    CeilIsMonotone(max as real, base as real * Pow(factor, n));
    forall k: nat | k >= n ensures AtLongest(base, max, factor, k) {
      ExponentialGrowsOverall(base, max, factor, n, k);
    }
  }

  // ---- A time of day as a hint

  const DAY_MS := 86_400_000

  function TimeOfDay(hour12: int, minute: int, pm: bool): int {
    ((hour12 % 12) + (if pm then 12 else 0)) * 3_600_000 + minute * 60_000
  }

  // Whether it is that time of day after the delay.
  predicate Strikes(now: int, delay: int, time: int) {
    (now + delay) % DAY_MS == time
  }

  // The delay until the clock next shows the time: never zero, at most a day.
  // now: milliseconds of local time, at a fixed offset from UTC.
  method ClockRetryDelayMs(hour12: int, minute: int, pm: bool, now: int) returns (delayMs: Option<int>)
    ensures delayMs.Some? <==> 1 <= hour12 <= 12 && 0 <= minute <= 59
    ensures delayMs.Some? ==>
      && 0 < delayMs.value <= DAY_MS
      && Strikes(now, delayMs.value, TimeOfDay(hour12, minute, pm))
      && forall d :: 0 < d < delayMs.value ==> !Strikes(now, d, TimeOfDay(hour12, minute, pm))
  {
    if hour12 < 1 || hour12 > 12 || minute < 0 || minute > 59 {
      return None;
    }
    var hour24 := hour12 % 12;
    if pm {
      hour24 := hour24 + 12;
    }
    var nextRetryAt := now - now % DAY_MS + hour24 * 3_600_000 + minute * 60_000;
    if nextRetryAt <= now {
      nextRetryAt := nextRetryAt + DAY_MS;
    }
    var delay := nextRetryAt - now;
    ClockFacts(now, TimeOfDay(hour12, minute, pm), delay);
    return Some(delay);
  }

  lemma ClockFacts(now: int, time: int, delay: int)
    requires 0 <= time < DAY_MS
    requires delay == time - now % DAY_MS + if time <= now % DAY_MS then DAY_MS else 0
    ensures 0 < delay <= DAY_MS && Strikes(now, delay, time)
    ensures forall d :: 0 < d < delay ==> !Strikes(now, d, time)
  {
    var day := now / DAY_MS;
    assert now == day * DAY_MS + now % DAY_MS;
    forall d | 0 < d <= delay ensures Strikes(now, d, time) <==> d == delay {
      var r := now % DAY_MS + d;
      if r < DAY_MS {
        assert (now + d) % DAY_MS == r;
      } else {
        assert now + d == (day + 1) * DAY_MS + (r - DAY_MS);
        if r - DAY_MS < DAY_MS { assert (now + d) % DAY_MS == r - DAY_MS; }
      }
    }
  }
}
