/** Exponential backoff: `RetryStrategy` and the embedding job that shares its
    delay formula. */
module Retry {

  function Pow2(n: nat): nat {
    if n == 0 then 1 else 2 * Pow2(n - 1)
  }

  function Min(a: real, b: real): real {
    if a <= b then a else b
  }

  function Raw(base: real, attempt: nat): real {
    base * Pow2(attempt) as real
  }

  function Capped(base: real, max: real, attempt: nat): real {
    Min(Raw(base, attempt), max)
  }

  /** `compute_delay` and `_compute_backoff`; `factor` is the random draw. */
  function Delay(base: real, max: real, jitter: bool, attempt: nat, factor: real): real {
    if jitter then Capped(base, max, attempt) * factor else Capped(base, max, attempt)
  }

  datatype RetryStrategy = RetryStrategy(maxRetries: int, baseDelay: real, maxDelay: real, jitter: bool)

  /** `execute_with_retry`. Call number i returns normally iff `succeeds(i)`, the
      draw before the sleep that follows it is `factor(i)`; `slept` are the
      sleeps in order, and `ok` is false when the exception is raised again. */
  method ExecuteWithRetry(s: RetryStrategy, succeeds: nat -> bool, factor: nat -> real)
    returns (calls: nat, slept: seq<real>, ok: bool)
    ensures 1 <= calls && (calls <= s.maxRetries || calls == 1)
    ensures forall i: nat | i < calls - 1 :: !succeeds(i)
    ensures ok == succeeds(calls - 1)
    ensures !ok ==> calls >= s.maxRetries
    ensures slept == Delays(s, factor, calls - 1)
    ensures 1 <= s.maxRetries && s.baseDelay >= 0.0 && s.maxDelay >= 0.0 && Jitter(factor) ==>
              Sum(slept) <= Linear(s.maxDelay, s.maxRetries - 1)
              && Sum(slept) <= Geometric(s.baseDelay, s.maxRetries - 1)
  {
    var attempt := 0;
    slept := [];
    while true
      invariant attempt == 0 || attempt < s.maxRetries
      invariant forall i: nat | i < attempt :: !succeeds(i)
      invariant slept == Delays(s, factor, attempt)
      decreases s.maxRetries - attempt
    {
      if succeeds(attempt) {
        SleepSoFar(s, factor, attempt + 1);
        return attempt + 1, slept, true;
      }
      attempt := attempt + 1;
      if attempt >= s.maxRetries {
        SleepSoFar(s, factor, attempt);
        return attempt, slept, false;
      }
      slept := slept + [Delay(s.baseDelay, s.maxDelay, s.jitter, attempt - 1, factor(attempt - 1))];
    }
  }

  /** Two bounds on the sum of the first `n` delays: every one at the cap, or
      none capped. */
  function Linear(max: real, n: nat): real {
    n as real * max
  }

  function Geometric(base: real, n: nat): real {
    base * (Pow2(n) as real - 1.0)
  }

  lemma SleepSoFar(s: RetryStrategy, factor: nat -> real, calls: nat)
    requires 1 <= calls && (calls <= s.maxRetries || calls == 1)
    ensures 1 <= s.maxRetries && s.baseDelay >= 0.0 && s.maxDelay >= 0.0 && Jitter(factor) ==>
              Sum(Delays(s, factor, calls - 1)) <= Linear(s.maxDelay, s.maxRetries - 1)
              && Sum(Delays(s, factor, calls - 1)) <= Geometric(s.baseDelay, s.maxRetries - 1)
  {
    hide Linear, Geometric;
    if 1 <= s.maxRetries && s.baseDelay >= 0.0 && s.maxDelay >= 0.0 && Jitter(factor) {
      ExecutionSleep(s, factor, calls);
    }
  }

  /** The first `n` delays. */
  function Delays(s: RetryStrategy, factor: nat -> real, n: nat): (d: seq<real>)
    ensures |d| == n
  {
    if n == 0 then []
    else Delays(s, factor, n - 1) + [Delay(s.baseDelay, s.maxDelay, s.jitter, n - 1, factor(n - 1))]
  }

  function Sum(s: seq<real>): real {
    if s == [] then 0.0 else Sum(s[..|s| - 1]) + s[|s| - 1]
  }

  /** Draws from [0.5, 1]. */
  ghost predicate Jitter(factor: nat -> real) {
    forall i: nat :: 0.5 <= factor(i) <= 1.0
  }

  /** A delay lies between half the cap and the cap. */
  lemma DelayBounds(s: RetryStrategy, attempt: nat, factor: real)
    requires s.baseDelay >= 0.0 && s.maxDelay >= 0.0 && 0.5 <= factor <= 1.0
    ensures
      var cap := Capped(s.baseDelay, s.maxDelay, attempt);
      && cap / 2.0 <= Delay(s.baseDelay, s.maxDelay, s.jitter, attempt, factor) <= cap <= s.maxDelay
      && 0.0 <= cap <= Raw(s.baseDelay, attempt)
  {
    assert Raw(s.baseDelay, attempt) >= 0.0 by {
      ZeroTimes(s.baseDelay, Pow2(attempt) as real);
    }
    hide Raw, Min;
    DelayRange(Raw(s.baseDelay, attempt), s.maxDelay, s.jitter, factor);
  }

  lemma DelayRange(raw: real, max: real, jitter: bool, factor: real)
    requires raw >= 0.0 && max >= 0.0 && 0.5 <= factor <= 1.0
    ensures
      var cap := Min(raw, max);
      cap / 2.0 <= (if jitter then cap * factor else cap) <= cap <= max && 0.0 <= cap <= raw
  {
    HalfToWhole(Min(raw, max), factor);
  }

  lemma ZeroTimes(a: real, b: real)
    requires a >= 0.0 && b >= 0.0
    ensures a * b >= 0.0
  {
  }

  lemma HalfToWhole(cap: real, factor: real)
    requires cap >= 0.0 && 0.5 <= factor <= 1.0
    ensures cap / 2.0 <= cap * factor <= cap
  {
  }

  /** The total of the first `n` sleeps is bounded by the cap times `n` and by
      the geometric sum of the uncapped delays. */
  lemma {:induction false} TotalSleep(s: RetryStrategy, factor: nat -> real, n: nat)
    requires s.baseDelay >= 0.0 && s.maxDelay >= 0.0 && Jitter(factor)
    ensures 0.0 <= Sum(Delays(s, factor, n)) <= Linear(s.maxDelay, n)
    ensures Sum(Delays(s, factor, n)) <= Geometric(s.baseDelay, n)
  {
    hide Delay, Capped, Sum;
    if n == 0 {
      SumNone();
    } else {
      TotalSleep(s, factor, n - 1);
      DelayBounds(s, n - 1, factor(n - 1));
      SumLast(Delays(s, factor, n - 1), Delay(s.baseDelay, s.maxDelay, s.jitter, n - 1, factor(n - 1)));
      GeometricStep(s.baseDelay, Pow2(n - 1) as real);
      OneMore((n - 1) as real, s.maxDelay);
    }
  }

  /** The delays double from the base on. */
  lemma RawDoubles(base: real, attempt: nat)
    ensures Raw(base, 0) == base && Raw(base, attempt + 1) == 2.0 * Raw(base, attempt)
  {
    assert Pow2(attempt + 1) as real == 2.0 * Pow2(attempt) as real;
    Twice(base, Pow2(attempt) as real);
  }

  lemma Twice(a: real, b: real)
    ensures a * (2.0 * b) == 2.0 * (a * b)
  {
  }

  /** What a draw makes of an amount. */
  function Scaled(s: RetryStrategy, c: real, amount: real): real {
    if s.jitter then c * amount else amount
  }

  lemma ScaledSum(s: RetryStrategy, c: real, a: real, b: real)
    ensures Scaled(s, c, a) + Scaled(s, c, b) == Scaled(s, c, a + b)
  {
  }

  lemma {:induction false} RawGrows(base: real, i: nat, j: nat)
    requires i <= j && base >= 0.0
    ensures 0.0 <= Raw(base, i) <= Raw(base, j)
  {
    ZeroTimes(base, Pow2(i) as real);
    if i < j {
      RawGrows(base, i, j - 1);
      RawDoubles(base, j - 1);
    }
  }

  /** When every draw is `c` the two bounds are what is slept, times `c` if there
      is jitter: the geometric sum as long as the cap is not met, and the cap
      each time if the base exceeds it. */
  lemma {:induction false} SteadySleep(s: RetryStrategy, factor: nat -> real, c: real, n: nat)
    requires s.baseDelay >= 0.0 && forall i: nat :: factor(i) == c
    ensures n == 0 || Raw(s.baseDelay, n - 1) <= s.maxDelay ==>
              Sum(Delays(s, factor, n)) == Scaled(s, c, Geometric(s.baseDelay, n))
    ensures s.baseDelay >= s.maxDelay ==> Sum(Delays(s, factor, n)) == Scaled(s, c, Linear(s.maxDelay, n))
  {
    hide Sum, Raw;
    if n == 0 {
      SumNone();
    } else {
      SteadySleep(s, factor, c, n - 1);
      SumLast(Delays(s, factor, n - 1), Delay(s.baseDelay, s.maxDelay, s.jitter, n - 1, factor(n - 1)));
      SteadyStep(s, c, n - 1);
      RawDoubles(s.baseDelay, 0);
      RawGrows(s.baseDelay, 0, n - 1);
      if n > 1 { RawGrows(s.baseDelay, n - 2, n - 1); }
    }
  }

  lemma SteadyStep(s: RetryStrategy, c: real, n: nat)
    ensures Raw(s.baseDelay, n) <= s.maxDelay ==>
              Scaled(s, c, Geometric(s.baseDelay, n)) + Delay(s.baseDelay, s.maxDelay, s.jitter, n, c)
              == Scaled(s, c, Geometric(s.baseDelay, n + 1))
    ensures Raw(s.baseDelay, n) >= s.maxDelay ==>
              Scaled(s, c, Linear(s.maxDelay, n)) + Delay(s.baseDelay, s.maxDelay, s.jitter, n, c)
              == Scaled(s, c, Linear(s.maxDelay, n + 1))
  {
    var raw := Raw(s.baseDelay, n);
    assert Delay(s.baseDelay, s.maxDelay, s.jitter, n, c) == Scaled(s, c, if raw <= s.maxDelay then raw else s.maxDelay);
    GeometricStep(s.baseDelay, Pow2(n) as real);
    assert Geometric(s.baseDelay, n + 1) == Geometric(s.baseDelay, n) + raw;
    OneMore(n as real, s.maxDelay);
    assert Linear(s.maxDelay, n + 1) == Linear(s.maxDelay, n) + s.maxDelay;
    hide Geometric, Linear, Raw, Scaled;
    ScaledSum(s, c, Geometric(s.baseDelay, n), raw);
    ScaledSum(s, c, Linear(s.maxDelay, n), s.maxDelay);
  }

  lemma SumNone()
    ensures Sum([]) == 0.0
  {
  }

  lemma SumLast(d: seq<real>, x: real)
    ensures Sum(d + [x]) == Sum(d) + x
  {
    assert (d + [x])[..|d|] == d;
  }

  lemma GeometricStep(base: real, p: real)
    ensures base * (p - 1.0) + base * p == base * (2.0 * p - 1.0)
  {
  }

  lemma OneMore(n: real, c: real)
    ensures (n + 1.0) * c == n * c + c
  {
  }

  /** Fewer sleeps do not exceed the bound for more. */
  lemma {:induction false} BoundGrows(base: real, max: real, n: nat, m: nat)
    requires n <= m && base >= 0.0 && max >= 0.0
    ensures Linear(max, n) <= Linear(max, m) && Geometric(base, n) <= Geometric(base, m)
  {
    if n < m {
      BoundGrows(base, max, n, m - 1);
      ZeroTimes(base, Pow2(m - 1) as real);
      GeometricStep(base, Pow2(m - 1) as real);
      OneMore((m - 1) as real, max);
    }
  }

  /** A whole execution sleeps at most (maxRetries - 1) times the cap, and at
      most base * (2^(maxRetries - 1) - 1), in all. */
  lemma ExecutionSleep(s: RetryStrategy, factor: nat -> real, calls: nat)
    requires 1 <= calls <= s.maxRetries
    requires s.baseDelay >= 0.0 && s.maxDelay >= 0.0 && Jitter(factor)
    ensures Sum(Delays(s, factor, calls - 1)) <= Linear(s.maxDelay, s.maxRetries - 1)
    ensures Sum(Delays(s, factor, calls - 1)) <= Geometric(s.baseDelay, s.maxRetries - 1)
  {
    hide Linear, Geometric;
    TotalSleep(s, factor, calls - 1);
    BoundGrows(s.baseDelay, s.maxDelay, calls - 1, s.maxRetries - 1);
  }
}
