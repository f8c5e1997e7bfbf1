/** Retry back-off of the worker pool and the polling strategy with exponential back-off, in exact
    arithmetic with an explicit conversion to 64-bit durations. */
module Backoff {
  import opened Handler
  import opened WorkerPool
  import PoolTheorems

  function Power(a: real, n: nat): real { if n == 0 then 1.0 else Power(a, n - 1) * a }

  /** pow: repeated multiplication. */
  method Pow(a: real, n: int) returns (p: real)
    ensures p == Power(a, if n < 0 then 0 else n)
  {
    p := 1.0;
    var i := 0;
    while i < n
      invariant 0 <= i && (i <= n || i == 0) && p == Power(a, i)
    {
      p := p * a;
      i := i + 1;
    }
  }

  const TWO63: real := 9223372036854775808.0

  function Truncate(x: real): int { if x >= 0.0 then x.Floor else -((-x).Floor) }

  /** time.Duration(x). Outside the 64-bit range the result depends on the platform: `other`. */
  function ToDuration(x: real, other: int): int {
    if -TWO63 <= x < TWO63 then Truncate(x) else other
  }

  lemma MulMonotone(x: real, y: real, z: real)
    requires x <= y && z >= 0.0
    ensures x * z <= y * z && z * x <= z * y
  {
  }

  lemma MulByAtMostOne(x: real, y: real)
    requires 0.0 <= x && 0.0 <= y <= 1.0
    ensures 0.0 <= x * y <= x
  {
  }

  lemma MulByAtLeastOne(x: real, y: real)
    requires 0.0 <= x && 1.0 <= y
    ensures x <= x * y
  {
  }

  lemma FlatStep(e: real, base: real, p: real, k: real)
    requires base > 0.0 && 0.0 < p <= 1.0 && e <= base * k
    ensures e + base * p <= base * (k + 1.0)
  {
    MulMonotone(p, 1.0, base);
    calc {
      e + base * p;
    <=
      base * k + base * p;
    <=
      base * k + base * 1.0;
    ==
      base * (k + 1.0);
    }
  }

  lemma {:induction false} PowerPositive(a: real, n: nat)
    requires a > 0.0
    ensures Power(a, n) > 0.0
  {
    if n > 0 {
      PowerPositive(a, n - 1);
    }
  }

  lemma {:induction false} PowerMonotone(a: real, j: nat, k: nat)
    requires a >= 1.0 && j <= k
    ensures 1.0 <= Power(a, j) <= Power(a, k)
    decreases k
  {
    if j < k {
      PowerMonotone(a, j, k - 1);
      MulByAtLeastOne(Power(a, k - 1), a);
    } else if k > 0 {
      PowerMonotone(a, k - 1, k - 1);
      MulByAtLeastOne(Power(a, k - 1), a);
    }
  }

  lemma {:induction false} PowerShrinks(a: real, n: nat)
    requires 0.0 < a <= 1.0
    ensures 0.0 < Power(a, n) <= 1.0
  {
    if n > 0 {
      PowerShrinks(a, n - 1);
      MulByAtMostOne(Power(a, n - 1), a);
    }
  }

  // ---------------------------------------------------------- retries of a job

  /** 100 ms in nanoseconds. */
  const BASE: real := 100000000.0

  /** The multiplier retryPolicy uses. */
  function Multiplier(configured: real): (m: real)
    ensures m > 0.0
  {
    if configured <= 0.0 then 2.0 else configured
  }

  /** What a worker sleeps before attempt k + 1. A timer with a negative duration fires at once. */
  function Sleep(base: real, m: real, k: nat, other: nat -> int): nat {
    var d := ToDuration(base * Power(m, k), other(k));
    if d > 0 then d else 0
  }

  /** What a job sleeps in all over n retries. */
  function TotalSleep(base: real, m: real, n: nat, other: nat -> int): nat {
    if n == 0 then 0 else TotalSleep(base, m, n - 1, other) + Sleep(base, m, n - 1, other)
  }

  /** The same sum without truncation. */
  function Exact(base: real, m: real, n: nat): real {
    if n == 0 then 0.0 else Exact(base, m, n - 1) + base * Power(m, n - 1)
  }

  lemma {:induction false} Geometric(base: real, m: real, n: nat)
    ensures Exact(base, m, n) * (m - 1.0) == base * (Power(m, n) - 1.0)
  {
    if n > 0 {
      Geometric(base, m, n - 1);
      GeometricStep(Exact(base, m, n - 1), base, Power(m, n - 1), m, Exact(base, m, n), Power(m, n));
    }
  }

  lemma GeometricStep(e: real, base: real, p: real, m: real, e': real, p': real)
    requires e * (m - 1.0) == base * (p - 1.0) && e' == e + base * p && p' == p * m
    ensures e' * (m - 1.0) == base * (p' - 1.0)
  {
  }

  predicate InRange(base: real, m: real, n: nat) { forall k: nat | k < n :: base * Power(m, k) < TWO63 }

  lemma {:induction false} SleepAtMostExact(base: real, m: real, n: nat, other: nat -> int)
    requires base > 0.0 && m > 0.0 && InRange(base, m, n)
    ensures TotalSleep(base, m, n, other) as real <= Exact(base, m, n)
  {
    if n > 0 {
      SleepAtMostExact(base, m, n - 1, other);
      PowerPositive(m, n - 1);
      assert 0.0 < base * Power(m, n - 1) < TWO63;
    }
  }

  /** Truncation takes less than a nanosecond off each sleep. */
  lemma {:induction false} SleepAtLeast(base: real, m: real, n: nat, other: nat -> int)
    requires base > 0.0 && m > 0.0 && InRange(base, m, n)
    ensures Exact(base, m, n) - n as real <= TotalSleep(base, m, n, other) as real
  {
    if n > 0 {
      SleepAtLeast(base, m, n - 1, other);
      PowerPositive(m, n - 1);
      assert 0.0 < base * Power(m, n - 1) < TWO63;
    }
  }

  /** The multiplier in use: a positive one is kept, any other becomes 2. */
  lemma MultiplierIs(configured: real)
    ensures configured > 0.0 ==> Multiplier(configured) == configured
    ensures configured <= 0.0 ==> Multiplier(configured) == 2.0
  {
  }

  lemma {:induction false} ExactMonotone(base: real, m: real, n: nat, r: nat)
    requires base > 0.0 && m > 0.0 && n <= r
    ensures Exact(base, m, n) <= Exact(base, m, r)
    decreases r
  {
    if n < r {
      ExactMonotone(base, m, n, r - 1);
      PowerPositive(m, r - 1);
      assert base * Power(m, r - 1) > 0.0;
    }
  }

  lemma {:induction false} ExactFlat(base: real, m: real, n: nat)
    requires base > 0.0 && 0.0 < m <= 1.0
    ensures Exact(base, m, n) <= base * n as real
  {
    if n > 0 {
      ExactFlat(base, m, n - 1);
      PowerShrinks(m, n - 1);
      FlatStep(Exact(base, m, n - 1), base, Power(m, n - 1), (n - 1) as real);
    }
  }

  /** In every reachable state of the pool no job, queued, held, finished or given up, has been sent
      to sleep for longer in all than 100 ms * (m^R - 1) / (m - 1), where R is the retry limit: stated
      without the division. A multiplier of at most 1 gives R * 100 ms. */
  lemma JobSleepBounded(cfg: Config, acts: seq<Action>, past: seq<HandlerRun>, configured: real, other: nat -> int)
    requires CanRun(cfg, Init(cfg), acts) && PoolTheorems.Carries(Run(cfg, Init(cfg), acts), past)
    requires InRange(BASE, Multiplier(configured), cfg.maxRetries)
    ensures var m, n := Multiplier(configured), PoolTheorems.RetriesOf(cfg, past);
            SleepBound(BASE, m, TotalSleep(BASE, m, n, other) as real, cfg.maxRetries)
  {
    PoolTheorems.AttemptsBounded(cfg, acts, past);
    SleepBounded(BASE, Multiplier(configured), PoolTheorems.RetriesOf(cfg, past), cfg.maxRetries, other);
  }

  predicate SleepBound(base: real, m: real, total: real, r: nat) {
    && (m > 1.0 ==> total * (m - 1.0) <= base * (Power(m, r) - 1.0))
    && (m <= 1.0 ==> total <= base * r as real)
  }

  lemma SleepBounded(base: real, m: real, n: nat, r: nat, other: nat -> int)
    requires base > 0.0 && m > 0.0 && n <= r && InRange(base, m, r)
    ensures SleepBound(base, m, TotalSleep(base, m, n, other) as real, r)
  {
    SleepAtMostExact(base, m, n, other);
    ExactMonotone(base, m, n, r);
    ExactBound(base, m, TotalSleep(base, m, n, other) as real, r);
  }

  lemma ExactBound(base: real, m: real, total: real, r: nat)
    requires base > 0.0 && m > 0.0 && total <= Exact(base, m, r)
    ensures SleepBound(base, m, total, r)
  {
    if m > 1.0 {
      SteepBound(base, m, total, r);
    } else {
      ExactFlat(base, m, r);
    }
  }

  lemma SteepBound(base: real, m: real, total: real, r: nat)
    requires m > 1.0 && total <= Exact(base, m, r)
    ensures total * (m - 1.0) <= base * (Power(m, r) - 1.0)
  {
    Geometric(base, m, r);
    MulMonotone(total, Exact(base, m, r), m - 1.0);
  }

  // ------------------------------------------------------- polling with back-off

  function Min(a: int, b: int): int { if a <= b then a else b }

  /** The intended interval after k > 0 failures in a row. */
  function Ideal(base: int, max: int, m: real, k: nat): int
    requires k > 0
  {
    Clamped(base, max, Power(m, k - 1))
  }

  function Clamped(base: int, max: int, factor: real): int { Min(Truncate(Scaled(base, factor)), max) }

  function Scaled(base: int, factor: real): real { base as real * factor }

  /** The interval the code computes. */
  function Interval(base: int, max: int, m: real, k: nat, other: int): int
    requires k > 0
  {
    Min(ToDuration(Scaled(base, Power(m, k - 1)), other), max)
  }

  class ExponentialBackoffStrategy {
    const base: int
    const max: int
    const multiplier: real
    var currentBackoff: nat

    constructor (base: int, max: int, multiplier: real)
      ensures this.base == base && this.max == max && currentBackoff == 0
      ensures this.multiplier == if multiplier <= 1.0 then 2.0 else multiplier
    {
      this.base, this.max, this.currentBackoff := base, max, 0;
      this.multiplier := if multiplier <= 1.0 then 2.0 else multiplier;
    }

    /** `other` is what the platform's conversion yields when the product is out of range. */
    method NextInterval(success: bool, other: int) returns (next: int)
      modifies this
      ensures currentBackoff == Level(old(currentBackoff), success)
      ensures next == if success then base else Interval(base, max, multiplier, currentBackoff, other)
    {
      if success {
        if currentBackoff > 0 {
          currentBackoff := 0;
        }
        return base;
      }
      currentBackoff := currentBackoff + 1;
      var power := Pow(multiplier, currentBackoff - 1);
      next := ToDuration(Scaled(base, power), other);
      if next > max {
        next := max;
      }
    }

    method Reset()
      modifies this
      ensures currentBackoff == 0
    {
      currentBackoff := 0;
    }
  }

  function Level(current: nat, success: bool): nat { if success then 0 else current + 1 }

  function LevelAfter(history: seq<bool>): nat {
    if history == [] then 0 else Level(LevelAfter(history[..|history| - 1]), history[|history| - 1])
  }

  /** After any history of calls the level is the length of the run of failures at its end. */
  lemma {:induction false} LevelCountsTrailingFailures(history: seq<bool>)
    ensures var n, k := |history|, LevelAfter(history);
            && k <= n
            && (forall i | n - k <= i < n :: !history[i])
            && (k == n || history[n - k - 1])
  {
    if history != [] {
      LevelCountsTrailingFailures(history[..|history| - 1]);
    }
  }

  /** The interval is min(base * m^(k-1), max) on every platform exactly while the product stays
      below 2^63 nanoseconds. */
  lemma ClosedFormIff(base: int, max: int, m: real, k: nat)
    requires base >= 0 && max as real < TWO63 && m > 1.0 && k > 0
    ensures (forall other: int :: Interval(base, max, m, k, other) == Ideal(base, max, m, k))
            <==> base as real * Power(m, k - 1) < TWO63
  {
    var x := base as real * Power(m, k - 1);
    PowerMonotone(m, 0, k - 1);
    MulByAtLeastOne(base as real, Power(m, k - 1));
    if x >= TWO63 {
      assert Interval(base, max, m, k, max - 1) == max - 1;
      assert x.Floor >= max;
    }
  }

  lemma TruncateMonotone(b: int, x: real, y: real)
    requires 0.0 <= b as real <= x <= y
    ensures b <= Truncate(x) <= Truncate(y)
  {
  }

  lemma ClampMonotone(base: int, max: int, x: real, y: real)
    requires base >= 0 && 1.0 <= x <= y
    ensures Clamped(base, max, x) <= Clamped(base, max, y) <= max
    ensures base <= max ==> base <= Clamped(base, max, x)
  {
    var u, v := base as real * x, base as real * y;
    assert base as real <= u <= v by {
      MulMonotone(x, y, base as real);
      MulByAtLeastOne(base as real, x);
    }
    TruncateMonotone(base, u, v);
  }

  /** The first failure gives the base interval, the second the base times the multiplier, capped. */
  lemma FirstIntervals(base: int, max: int, m: real)
    requires base >= 0 && m > 1.0
    ensures Ideal(base, max, m, 1) == Min(base, max)
    ensures Ideal(base, max, m, 2) == Min((base as real * m).Floor, max)
  {
    assert Power(m, 0) == 1.0 && Power(m, 1) == m;
    MulByAtLeastOne(base as real, m);
    assert base as real * 1.0 == base as real;
  }

  /** More failures in a row never shorten the interval. */
  lemma IdealMonotone(base: int, max: int, m: real, j: nat, k: nat)
    requires base >= 0 && m > 1.0 && 0 < j <= k
    ensures Ideal(base, max, m, j) <= Ideal(base, max, m, k) <= max
    ensures base <= max ==> base <= Ideal(base, max, m, j)
  {
    PowerMonotone(m, j - 1, k - 1);
    ClampMonotone(base, max, Power(m, j - 1), Power(m, k - 1));
  }

  /** The computed interval: while the product stays in range, more failures in a row never shorten
      it, and it stays between the base and the maximum, on every platform. */
  lemma IntervalMonotone(base: int, max: int, m: real, j: nat, k: nat, otherJ: int, otherK: int)
    requires 0 <= base <= max && max as real < TWO63 && m > 1.0 && 0 < j <= k
    requires base as real * Power(m, k - 1) < TWO63
    ensures base <= Interval(base, max, m, j, otherJ) <= Interval(base, max, m, k, otherK) <= max
  {
    InRangeBefore(base, m, j, k);
    ClosedFormIff(base, max, m, j);
    ClosedFormIff(base, max, m, k);
    IdealMonotone(base, max, m, j, k);
  }

  lemma InRangeBefore(base: int, m: real, j: nat, k: nat)
    requires base >= 0 && m > 1.0 && 0 < j <= k && base as real * Power(m, k - 1) < TWO63
    ensures base as real * Power(m, j - 1) < TWO63
  {
    PowerMonotone(m, j - 1, k - 1);
    MulMonotone(Power(m, j - 1), Power(m, k - 1), base as real);
  }
}
