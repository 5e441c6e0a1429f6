/** How long to wait between attempts. Durations are in nanoseconds. */
module RetryIntervals {
  import opened Durations
  import opened Text
  import opened Wrappers

  const MIN_ATTEMPTS := 1
  const MAX_ATTEMPTS := 10
  const DEFAULT_ATTEMPTS := 3
  const INT64_LIMIT := 0x8000_0000_0000_0000

  datatype Policy = Disabled | Static | Backoff

  datatype Retries = Retries(policy: Policy, maxAttempts: int, interval: int, maxInterval: int)

  /** The settings that were given, if any. `isEmpty` means that there are no settings at all. */
  datatype Settings = Settings(
    isEmpty: bool, kind: Option<string>, maxAttempts: Option<int>, interval: Option<string>,
    maxInterval: Option<string>)

  function Or<T>(given: Option<T>, default: T): T {
    if given.Some? then given.value else default
  }

  /** Methods that aren't guaranteed to be idempotent aren't retried unless there are settings. Otherwise the default
      is a backoff. A kind that isn't recognized is an error. */
  function PolicyOf(httpMethod: string, s: Settings): Option<Policy> {
    var kind := Lower(TrimSpace(Or(s.kind, "backoff")));
    if (httpMethod == "PATCH" || httpMethod == "POST") && s.isEmpty then Some(Disabled)
    else if kind == "none" || kind == "disabled" then Some(Disabled)
    else if kind == "static" then Some(Static)
    else if kind == "backoff" then Some(Backoff)
    else None
  }

  lemma PolicyMeaning(httpMethod: string, s: Settings)
    ensures var policy, isDefault := PolicyOf(httpMethod, s), s.isEmpty && httpMethod in {"PATCH", "POST"};
      && (isDefault ==> policy == Some(Disabled))
      && (!isDefault && s.kind == None ==> policy == Some(Backoff))
      && (!isDefault && s.kind.Some? ==>
            var kind := Lower(TrimSpace(s.kind.value));
            && (policy == Some(Disabled) <==> kind in {"none", "disabled"})
            && (policy == Some(Static) <==> kind == "static")
            && (policy == Some(Backoff) <==> kind == "backoff"))
  {
    assert TrimSpace("backoff") == "backoff" && Lower("backoff") == "backoff";
  }

  /** What's guaranteed to all the code that uses a retry policy. */
  predicate IsSound(r: Retries) {
    && MIN_ATTEMPTS <= r.maxAttempts <= MAX_ATTEMPTS
    && (r.policy.Disabled? <==> r.maxAttempts == 1)
    && (!r.policy.Disabled? ==> MILLISECOND <= r.interval <= MINUTE)
    && (r.policy.Backoff? ==> r.interval < r.maxInterval <= 5 * MINUTE)
    && (!r.policy.Backoff? ==> r.maxInterval == 0)
  }

  function Clamped(n: int, low: int, high: int): int {
    if n < low then low else if n > high then high else n
  }

  method ParseRetryInterval(value: Option<int>, low: int, high: int) returns (d: Option<int>)
    requires low <= high
    ensures d.Some? <==> value.Some?
    ensures d.Some? ==> low <= d.value <= high && (low <= value.value <= high ==> d.value == value.value)
    ensures d.Some? && value.value < low ==> d.value == low
    ensures d.Some? && value.value > high ==> d.value == high
    ensures d.Some? ==> d.value == Clamped(value.value, low, high)
  {
    if value.None? {
      return None;
    }
    var n := value.value;
    if n < low {
      n := low;
    }
    if n > high {
      n := high;
    }
    return Some(n);
  }

  /** Settings are rejected only because of a kind that isn't recognized, or a duration which is needed but can't be
      parsed. Otherwise the policy is sound. A backoff which can't grow is the same as a static interval. */
  method ParseRetries(httpMethod: string, s: Settings, durationOf: string -> Option<int>) returns (r: Option<Retries>)
    ensures r.Some? ==> IsSound(r.value)
    ensures var policy, n := PolicyOf(httpMethod, s), Or(s.maxAttempts, 3);
            var interval, limit := durationOf(Or(s.interval, "1s")), durationOf(Or(s.maxInterval, "20s"));
      && (r.None? <==> policy.None? || (!policy.value.Disabled? && n > 1
                          && (interval.None? || (policy.value.Backoff? && limit.None?))))
      && (r.Some? ==> (r.value.policy.Disabled? <==> policy.value.Disabled? || n <= 1))
      && (r.Some? && !r.value.policy.Disabled? ==>
            && r.value.maxAttempts == Clamped(n, 1, 10)
            && r.value.interval == Clamped(interval.value, 1_000_000, 60_000_000_000)
            && (policy.value.Static? ==> r.value.policy.Static?)
            && (policy.value.Backoff? ==>
                  var most := Clamped(limit.value, r.value.interval, 300_000_000_000);
                  if most == r.value.interval then r.value.policy.Static?
                  else r.value.policy.Backoff? && r.value.maxInterval == most))
  {
    if (httpMethod == "PATCH" || httpMethod == "POST") && s.isEmpty {
      return Some(Retries(Disabled, 1, 0, 0));
    }
    var kind := Lower(TrimSpace(Or(s.kind, "backoff")));
    if kind != "none" && kind != "disabled" && kind != "backoff" && kind != "static" {
      return None;
    }
    if kind == "none" || kind == "disabled" {
      return Some(Retries(Disabled, 1, 0, 0));
    }
    var maxAttempts := Clamped(Or(s.maxAttempts, DEFAULT_ATTEMPTS), MIN_ATTEMPTS, MAX_ATTEMPTS);
    if maxAttempts == 1 {
      return Some(Retries(Disabled, 1, 0, 0));
    }
    var interval := ParseRetryInterval(durationOf(Or(s.interval, "1s")), MILLISECOND, MINUTE);
    if interval.None? {
      return None;
    }
    if kind == "static" {
      return Some(Retries(Static, maxAttempts, interval.value, 0));
    }
    var maxInterval := ParseRetryInterval(durationOf(Or(s.maxInterval, "20s")), interval.value, 5 * MINUTE);
    if maxInterval.None? {
      return None;
    }
    if maxInterval.value == interval.value {
      return Some(Retries(Static, maxAttempts, interval.value, 0));
    }
    return Some(Retries(Backoff, maxAttempts, interval.value, maxInterval.value));
  }

  // ---- Exponential backoff.

  function BitLength(n: nat): nat {
    if n == 0 then 0 else 1 + BitLength(n / 2)
  }

  /** The closed form. */
  function BackoffInterval(interval: nat, maxInterval: nat, attempt: nat): nat
    requires 0 < interval <= maxInterval
  {
    BitLengthIsPositive(maxInterval / interval);
    interval * Pow2(attempt % BitLength(maxInterval / interval))
  }

  /** The meaning: double until the next interval would exceed the limit, and then start over. */
  function Doubling(interval: nat, maxInterval: nat, attempt: nat): nat {
    if attempt == 0 then interval
    else
      var next := 2 * Doubling(interval, maxInterval, attempt - 1);
      if next > maxInterval then interval else next
  }

  lemma BitLengthIsPositive(n: nat)
    ensures n > 0 ==> BitLength(n) > 0
    ensures forall a: nat, b: nat :: 0 < a <= b ==> b / a > 0
  {
    forall a: nat, b: nat | 0 < a <= b
      ensures b / a > 0
    {
      QuotientAtLeast(b, a, 1);
    }
  }

  lemma QuotientAtLeast(b: nat, a: nat, p: nat)
    requires a > 0
    ensures a * p <= b <==> p <= b / a
  {
    var q, r := b / a, b % a;
    assert b == a * q + r;
    if p <= q {
      assert a * p <= a * q;
    } else {
      assert a * (q + 1) <= a * p;
      assert a * (q + 1) == a * q + a;
    }
  }

  lemma {:induction false} BitLengthBounds(n: nat)
    requires n > 0
    ensures BitLength(n) > 0 && Pow2(BitLength(n) - 1) <= n < Pow2(BitLength(n))
  {
    if n > 1 {
      BitLengthBounds(n / 2);
    }
  }

  lemma {:induction false} Pow2IsMonotonic(a: nat, b: nat)
    requires a <= b
    ensures Pow2(a) <= Pow2(b)
  {
    if a < b {
      Pow2IsMonotonic(a, b - 1);
    }
  }

  /** Doubling fits exactly as many times as the bit length says. */
  lemma FitsWhile(interval: nat, maxInterval: nat, k: nat)
    requires 0 < interval <= maxInterval
    ensures interval * Pow2(k) <= maxInterval <==> k < BitLength(maxInterval / interval)
  {
    var q := maxInterval / interval;
    QuotientAtLeast(maxInterval, interval, 1);
    QuotientAtLeast(maxInterval, interval, Pow2(k));
    BitLengthBounds(q);
    var n := BitLength(q);
    if k < n {
      Pow2IsMonotonic(k, n - 1);
    } else {
      Pow2IsMonotonic(n, k);
    }
  }

  lemma NextRemainder(a: nat, n: nat)
    requires n > 0
    ensures (a + 1) % n == if a % n == n - 1 then 0 else a % n + 1
  {
    var q, r := a / n, a % n;
    assert a == n * q + r;
    if r == n - 1 {
      assert a + 1 == n * (q + 1);
      RemainderIs(a + 1, n, q + 1, 0);
    } else {
      RemainderIs(a + 1, n, q, r + 1);
    }
  }

  lemma RemainderIs(a: nat, n: nat, q: nat, r: nat)
    requires 0 <= r < n && a == n * q + r
    ensures a % n == r
  {
    DivisionIsUnique(n, q, r, a / n, a % n);
  }

  lemma DivisionIsUnique(n: nat, q: nat, r: nat, q': nat, r': nat)
    requires r < n && r' < n && n * q + r == n * q' + r'
    ensures r == r'
  {
    if q < q' {
      assert n * (q' - q) == r - r';
      MultipleIsLarge(n, q' - q);
    } else if q > q' {
      assert n * (q - q') == r' - r;
      MultipleIsLarge(n, q - q');
    }
  }

  lemma MultipleIsLarge(n: nat, d: nat)
    requires d > 0
    ensures n * d >= n
  {}

  /** For every attempt, the closed form is the same as doubling and starting over. */
  lemma {:induction false} BackoffIsDoubling(interval: nat, maxInterval: nat, attempt: nat)
    requires 0 < interval <= maxInterval
    ensures BackoffInterval(interval, maxInterval, attempt) == Doubling(interval, maxInterval, attempt)
  {
    var n := BitLength(maxInterval / interval);
    BitLengthIsPositive(maxInterval / interval);
    if attempt == 0 {
      RemainderIs(0, n, 0, 0);
    } else {
      hide Pow2, BitLength;
      var k := (attempt - 1) % n;
      BackoffIsDoubling(interval, maxInterval, attempt - 1);
      NextRemainder(attempt - 1, n);
      FitsWhile(interval, maxInterval, k + 1);
      FirstPowers(interval, k);
    }
  }

  lemma FirstPowers(interval: nat, k: nat)
    ensures interval * Pow2(k + 1) == 2 * (interval * Pow2(k)) && interval * Pow2(0) == interval
  {}

  lemma RemainderOf(a: nat, n: nat) returns (r: nat)
    requires n > 0
    ensures r == a % n < n
  {
    r := a % n;
  }

  lemma BackoffIsBounded(interval: nat, maxInterval: nat, attempt: nat)
    requires 0 < interval <= maxInterval
    ensures interval <= BackoffInterval(interval, maxInterval, attempt) <= maxInterval
  {
    hide Pow2, BitLength;
    BitLengthIsPositive(maxInterval / interval);
    var k := RemainderOf(attempt, BitLength(maxInterval / interval));
    FitsWhile(interval, maxInterval, k);
    ProductIsLarger(Pow2(k), interval);
  }

  // ---- Jitter.

  /** The exclusive limit of the random number which is added to the interval. */
  function JitterRange(interval: nat): nat {
    interval / 5
  }

  function Jittered(interval: nat, random: nat): nat {
    9 * interval / 10 + random
  }

  /** The effective interval is always below 110%, and at least 90% when rounded down to a nanosecond. */
  lemma JitterIsBounded(interval: nat, random: nat)
    requires random < JitterRange(interval)
    ensures 10 * Jittered(interval, random) < 11 * interval
    ensures 10 * Jittered(interval, random) > 9 * interval - 10
  {}

  /** Nothing between 90% and 110% is left out, except for rounding by less than 3 nanoseconds. */
  lemma JitterCovers(interval: nat, wait: nat)
    requires 9 * interval <= 10 * wait <= 11 * interval - 30
    ensures exists random: nat :: random < JitterRange(interval) && Jittered(interval, random) == wait
  {
    var random := wait - 9 * interval / 10;
    assert random < JitterRange(interval) && Jittered(interval, random) == wait;
  }

  /** Without rounding, it's at least 90% for every random number if and only if the interval is divisible by 10. */
  lemma JitterIsExactIff(interval: nat)
    requires JitterRange(interval) > 0
    ensures (forall random: nat :: random < JitterRange(interval) ==> 10 * Jittered(interval, random) >= 9 * interval)
       <==> interval % 10 == 0
  {
    LeastJitter(interval);
    assert forall random: nat :: Jittered(interval, random) == Jittered(interval, 0) + random;
    hide JitterRange, Jittered;
  }

  lemma LeastJitter(interval: nat)
    ensures interval % 10 == 0 ==> 10 * Jittered(interval, 0) == 9 * interval
    ensures interval % 10 != 0 ==> 10 * Jittered(interval, 0) < 9 * interval
  {
    var k, r := interval / 10, interval % 10;
    if r == 0 {
      Tenth(9 * k, 0);
    } else {
      Tenth(9 * k + r - 1, 10 - r);
      assert 9 * interval == 10 * (9 * k + r - 1) + (10 - r);
    }
  }

  lemma Tenth(q: nat, rest: nat)
    requires rest < 10
    ensures (10 * q + rest) / 10 == q
  {}

  /** How long to wait after the given attempt: not at all after the last one. */
  function WaitTime(r: Retries, attempt: nat, random: nat): (d: nat)
    requires IsSound(r) && attempt < r.maxAttempts
  {
    if attempt >= r.maxAttempts - 1 then 0
    else if r.policy.Backoff? then Jittered(BackoffInterval(r.interval, r.maxInterval, attempt), random)
    else r.interval
  }

  /** There's no waiting after the last attempt. A static policy always waits the same time. A backoff waits about the
      interval which is doubled for each attempt, until that would exceed the maximum, and then starts over. */
  lemma WaitsByPolicy(r: Retries, attempt: nat, random: nat)
    requires IsSound(r) && attempt < r.maxAttempts
    ensures attempt == r.maxAttempts - 1 ==> WaitTime(r, attempt, random) == 0
    ensures attempt < r.maxAttempts - 1 && r.policy.Static? ==> WaitTime(r, attempt, random) == r.interval
    ensures attempt < r.maxAttempts - 1 && r.policy.Backoff? ==>
              var doubled := Doubling(r.interval, r.maxInterval, attempt);
              random < doubled / 5 ==>
                9 * doubled - 10 < 10 * WaitTime(r, attempt, random) < 11 * doubled
  {
    hide BackoffInterval, Doubling, Jittered;
    if attempt < r.maxAttempts - 1 && r.policy.Backoff? {
      BackoffIsDoubling(r.interval, r.maxInterval, attempt);
      var doubled := Doubling(r.interval, r.maxInterval, attempt);
      if random < doubled / 5 {
        JitterIsBounded(doubled, random);
      }
    }
  }

  /** With a sound policy, nothing overflows, random numbers are drawn from a range that isn't empty, and the waiting
      time is always within 10% of an interval between the minimum and the maximum, except for rounding. */
  lemma WaitsAreSafe(r: Retries, attempt: nat, random: nat)
    requires IsSound(r) && r.policy.Backoff? && attempt < r.maxAttempts - 1
    requires random < JitterRange(BackoffInterval(r.interval, r.maxInterval, attempt))
    ensures var interval := BackoffInterval(r.interval, r.maxInterval, attempt);
      && 0 < JitterRange(interval) && 9 * interval < INT64_LIMIT
      && Pow2(attempt % BitLength(r.maxInterval / r.interval)) < INT64_LIMIT
      && WaitTime(r, attempt, random) < INT64_LIMIT
      && 10 * WaitTime(r, attempt, random) < 11 * r.maxInterval
      && 10 * WaitTime(r, attempt, random) > 9 * r.interval - 10
  {
    hide BackoffInterval, Pow2, BitLength, Jittered, JitterRange;
    var interval := BackoffInterval(r.interval, r.maxInterval, attempt);
    BackoffIsBounded(r.interval, r.maxInterval, attempt);
    JitterIsBounded(interval, random);
    BackoffIsSafe(r.interval, r.maxInterval, attempt);
  }

  /** The power of two isn't larger than the interval that it leads to. */
  lemma BackoffIsSafe(interval: nat, maxInterval: nat, attempt: nat)
    requires 0 < interval <= maxInterval
    ensures BitLength(maxInterval / interval) > 0
    ensures Pow2(attempt % BitLength(maxInterval / interval)) <= BackoffInterval(interval, maxInterval, attempt)
  {
    hide Pow2, BitLength;
    BitLengthIsPositive(maxInterval / interval);
    ProductIsLarger(interval, Pow2(attempt % BitLength(maxInterval / interval)));
  }

  lemma ProductIsLarger(a: nat, b: nat)
    requires a > 0
    ensures b <= a * b
  {}
}
