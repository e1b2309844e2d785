/** Retry policy: attempts allowed and exponential backoff, over exact reals. */
module Retry {
  import opened Wrappers
  import opened Arith
  import opened Json

  const DEFAULT_MAX_ATTEMPTS := 3
  const MAX_ATTEMPTS_CAP := 1000
  const DEFAULT_BACKOFF_MS := 1000
  const DEFAULT_BACKOFF_FACTOR := 2.0
  const DEFAULT_MAX_BACKOFF_MS := 60_000
  const BACKOFF_CEILING := 1_000_000_000_000_000
  const MAX_EXPONENT: nat := 64

  /** The step's own retry object laid over the workflow's default. */
  function RetryConfig(defaultRetry: Json, step: Json): Json {
    match (defaultRetry, step.Get("retry").GetOr(Obj(map[])))
    case (Obj(d), Obj(s)) => Obj(d + s)
    case (Obj(d), _) => Obj(d)
    case (_, Obj(s)) => Obj(s)
    case _ => Obj(map[])
  }

  /** Key by key, a step's own setting wins over the workflow's default; anything but an object counts as empty. */
  lemma StepOverridesDefault(defaultRetry: Json, step: Json, key: string)
    ensures var own := step.Get("retry").GetOr(Null);
            RetryConfig(defaultRetry, step).Get(key) == if own.Get(key).Some? then own.Get(key)
              else defaultRetry.Get(key)
  {
  }

  function Clamp(n: int, lo: int, hi: int): int {
    if n < lo then lo else if n > hi then hi else n
  }

  function MaxAttempts(retry: Json): (n: nat)
    ensures 1 <= n <= 1000
    ensures retry.GetInt("maxAttempts").None? ==> n == 3
    ensures forall asked :: retry.GetInt("maxAttempts") == Some(asked) && 1 <= asked <= 1000 ==> n == asked
    ensures forall asked :: retry.GetInt("maxAttempts") == Some(asked) && asked < 1 ==> n == 1
    ensures forall asked :: retry.GetInt("maxAttempts") == Some(asked) && asked > 1000 ==> n == 1000
  {
    Clamp(retry.GetInt("maxAttempts").GetOr(DEFAULT_MAX_ATTEMPTS), 1, MAX_ATTEMPTS_CAP)
  }

  function Pow(x: real, n: nat): real {
    if n == 0 then 1.0 else x * Pow(x, n - 1)
  }

  function MinReal(a: real, b: real): real { if a < b then a else b }
  function MaxReal(a: real, b: real): real { if a < b then b else a }

  function Base(retry: Json): nat {
    Max(retry.GetInt("backoffMs").GetOr(DEFAULT_BACKOFF_MS), 0)
  }

  function Factor(retry: Json): (f: real)
    ensures f >= 1.0
  {
    MaxReal(retry.GetReal("backoffFactor").GetOr(DEFAULT_BACKOFF_FACTOR), 1.0)
  }

  function MaxBackoff(retry: Json): int {
    retry.GetInt("maxBackoffMs").GetOr(DEFAULT_MAX_BACKOFF_MS)
  }

  function ScaledBackoff(base: real, factor: real, maxBackoff: int, exponent: nat): int {
    Min(maxBackoff, MinReal(base * Pow(factor, exponent), BACKOFF_CEILING as real).Floor)
  }

  function BackoffMs(retry: Json, attempt: nat): int {
    ScaledBackoff(Base(retry) as real, Factor(retry), MaxBackoff(retry), Min(attempt, MAX_EXPONENT))
  }

  // ---- what the formula means ----

  function Cap(retry: Json): int {
    Min(MaxBackoff(retry), BACKOFF_CEILING)
  }

  function Scale(factor: real, x: real): real {
    factor * x
  }

  /** The textbook reading: start at min(cap, base), multiply by the factor, clip at the cap. */
  function Ramp(base: real, factor: real, cap: real, n: nat): real {
    if n == 0 then MinReal(cap, base) else MinReal(cap, Scale(factor, Ramp(base, factor, cap, n - 1)))
  }

  lemma ScalingUp(factor: real, x: real)
    requires factor >= 1.0 && x >= 0.0
    ensures Scale(factor, x) >= x
  {
    assert (factor - 1.0) * x >= 0.0;
  }

  function Grown(base: real, factor: real, n: nat): real {
    if n == 0 then base else Scale(factor, Grown(base, factor, n - 1))
  }

  lemma Regroup(a: real, b: real, c: real)
    ensures a * (b * c) == b * (a * c)
  {
  }

  lemma {:induction false} GrownIsPower(base: real, factor: real, n: nat)
    ensures Grown(base, factor, n) == base * Pow(factor, n)
  {
    if n > 0 {
      GrownIsPower(base, factor, n - 1);
      Regroup(base, factor, Pow(factor, n - 1));
    }
  }

  lemma ClipThenScale(cap: real, factor: real, x: real)
    requires cap >= 0.0 && factor >= 1.0 && x >= 0.0
    ensures MinReal(cap, Scale(factor, MinReal(cap, x))) == MinReal(cap, Scale(factor, x))
  {
    hide Scale;
    if cap < x {
      ScalingUp(factor, cap);
      ScalingUp(factor, x);
    }
  }

  /** Clipping once at the end is the same as clipping at every step. */
  lemma {:induction false} RampIsClippedGrowth(base: real, factor: real, cap: real, n: nat)
    requires base >= 0.0 && factor >= 1.0 && cap >= 0.0
    ensures Grown(base, factor, n) >= 0.0
    ensures 0.0 <= Ramp(base, factor, cap, n) == MinReal(cap, Grown(base, factor, n))
  {
    hide Scale;
    if n > 0 {
      RampIsClippedGrowth(base, factor, cap, n - 1);
      ScalingUp(factor, Grown(base, factor, n - 1));
      ClipThenScale(cap, factor, Grown(base, factor, n - 1));
    }
  }

  lemma FlooredMins(m: int, ceiling: int, x: real)
    ensures Min(m, MinReal(x, ceiling as real).Floor) == MinReal(Min(m, ceiling) as real, x).Floor
  {
  }

  lemma ClosedFormIsRamp(base: real, factor: real, m: int, n: nat)
    requires base >= 0.0 && factor >= 1.0 && Min(m, BACKOFF_CEILING) >= 0
    ensures ScaledBackoff(base, factor, m, n) == Ramp(base, factor, Min(m, BACKOFF_CEILING) as real, n).Floor
  {
    hide Scale, Pow, Grown, Ramp;
    GrownIsPower(base, factor, n);
    RampIsClippedGrowth(base, factor, Min(m, BACKOFF_CEILING) as real, n);
    FlooredMins(m, BACKOFF_CEILING, Grown(base, factor, n));
  }

  lemma NegativeCapIsConstant(retry: Json, attempt: nat)
    requires Cap(retry) < 0
    ensures BackoffMs(retry, attempt) == Cap(retry)
  {
    hide Pow, Base, Factor, MaxBackoff, Scale;
    var n := Min(attempt, MAX_EXPONENT);
    GrownIsPower(Base(retry) as real, Factor(retry), n);
    GrownIsPositive(Base(retry) as real, Factor(retry), n);
    FlooredMins(MaxBackoff(retry), BACKOFF_CEILING, Base(retry) as real * Pow(Factor(retry), n));
  }

  lemma {:induction false} GrownIsPositive(base: real, factor: real, n: nat)
    requires base >= 0.0 && factor >= 1.0
    ensures Grown(base, factor, n) >= 0.0
  {
    RampIsClippedGrowth(base, factor, 0.0, n);
  }

  /** Below zero the clipped iteration runs away downwards, unless the factor is 1. */
  lemma {:induction false} NegativeRampFalls(base: real, factor: real, cap: real, n: nat)
    requires base >= 0.0 && factor >= 1.0 && cap < 0.0
    ensures Ramp(base, factor, cap, n) <= cap
    ensures factor == 1.0 || n == 0 ==> Ramp(base, factor, cap, n) == cap
    ensures factor > 1.0 && n > 0 ==> Ramp(base, factor, cap, n) < cap
  {
    if n > 0 {
      var before := Ramp(base, factor, cap, n - 1);
      NegativeRampFalls(base, factor, cap, n - 1);
      assert (factor - 1.0) * before <= 0.0;
      if factor > 1.0 { assert (factor - 1.0) * before < 0.0; }
      assert Scale(factor, before) == before + (factor - 1.0) * before;
    }
  }

  lemma FloorBelow(x: real, cap: int)
    requires x < cap as real
    ensures x.Floor < cap
  {
  }

  /**
   * The closed formula of the code is the floor of the clipped iteration, up to exponent 64, exactly when the cap
   * is not negative or nothing grows; under a negative cap the code always answers the cap.
   */
  lemma BackoffIsFlooredRamp(retry: Json, attempt: nat)
    ensures BackoffMs(retry, attempt)
         == Ramp(Base(retry) as real, Factor(retry), Cap(retry) as real, Min(attempt, MAX_EXPONENT)).Floor
        <==> Cap(retry) >= 0 || attempt == 0 || Factor(retry) == 1.0
    ensures Cap(retry) < 0 ==> BackoffMs(retry, attempt) == Cap(retry)
  {
    hide Pow, Ramp, ScaledBackoff, Base, Factor, MaxBackoff;
    var n := Min(attempt, MAX_EXPONENT);
    if Cap(retry) >= 0 {
      ClosedFormIsRamp(Base(retry) as real, Factor(retry), MaxBackoff(retry), n);
    } else {
      hide BackoffMs;
      NegativeCapIsConstant(retry, attempt);
      var ramp := Ramp(Base(retry) as real, Factor(retry), Cap(retry) as real, n);
      NegativeRampFalls(Base(retry) as real, Factor(retry), Cap(retry) as real, n);
      if ramp < Cap(retry) as real { FloorBelow(ramp, Cap(retry)); }
    }
  }

  /**
   * The answer read off the retry object: start at the backoff asked for (1000 if none, never below 0), multiply by the
   * factor (2 if none, never below 1) once per attempt up to 64, clip at the largest backoff (60000 if none) and at
   * 10^15 each time, and round down. A negative largest backoff is itself the answer.
   */
  lemma BackoffIsReadOff(retry: Json, attempt: nat, base: nat, factor: real, cap: int)
    requires var asked := retry.GetInt("backoffMs");
             base == if asked.None? then 1000 else if asked.value < 0 then 0 else asked.value
    requires var asked := retry.GetReal("backoffFactor");
             factor == if asked.None? then 2.0 else if asked.value < 1.0 then 1.0 else asked.value
    requires var asked := retry.GetInt("maxBackoffMs");
             cap == if asked.None? then 60_000
                    else if asked.value > 1_000_000_000_000_000 then 1_000_000_000_000_000 else asked.value
    ensures cap >= 0 ==>
      BackoffMs(retry, attempt) == Ramp(base as real, factor, cap as real, if attempt < 64 then attempt else 64).Floor
    ensures cap < 0 ==> BackoffMs(retry, attempt) == cap
  {
    hide Ramp, BackoffMs;
    BackoffIsFlooredRamp(retry, attempt);
  }

  /** A step of the clipped iteration, and where it begins. */
  lemma RampMeans(base: real, factor: real, cap: real, n: nat)
    ensures Ramp(base, factor, cap, 0) == if cap < base then cap else base
    ensures var next := factor * Ramp(base, factor, cap, n);
            Ramp(base, factor, cap, n + 1) == if cap < next then cap else next
  {
  }

  /** 1000, 2000, 4000, and 60000 in the long run: doubling from a second up to a minute. */
  lemma DoublingFromASecond(retry: Json, attempt: nat)
    requires retry.GetInt("backoffMs") == Some(1000) && retry.GetReal("backoffFactor") == Some(2.0)
    requires retry.GetInt("maxBackoffMs") == Some(60_000)
    ensures attempt < 6 ==>
      BackoffMs(retry, attempt) == [1000, 2000, 4000, 8000, 16_000, 32_000][attempt]
    ensures attempt >= 6 ==> BackoffMs(retry, attempt) == 60_000
  {
    hide BackoffMs, Ramp;
    var n := if attempt < 64 then attempt else 64;
    BackoffIsReadOff(retry, attempt, 1000, 2.0, 60_000);
    RampDoubles(n);
  }

  lemma {:induction false} RampDoubles(n: nat)
    ensures n < 6 ==> Ramp(1000.0, 2.0, 60_000.0, n) == [1000.0, 2000.0, 4000.0, 8000.0, 16_000.0, 32_000.0][n]
    ensures n >= 6 ==> Ramp(1000.0, 2.0, 60_000.0, n) == 60_000.0
  {
    hide Ramp;
    RampMeans(1000.0, 2.0, 60_000.0, if n == 0 then 0 else n - 1);
    if n > 0 { RampDoubles(n - 1); }
  }

  /** The delay that the store schedules is that backoff, or none if it is negative. */
  lemma DelayIsBackoff(retry: Json, attempt: nat)
    ensures Delay(retry, attempt) == if BackoffMs(retry, attempt) < 0 then 0 else BackoffMs(retry, attempt)
  {
    hide BackoffMs;
  }

  lemma RampGrows(base: real, factor: real, cap: real, n: nat)
    requires base >= 0.0 && factor >= 1.0 && cap >= 0.0
    ensures 0.0 <= Ramp(base, factor, cap, n) <= Ramp(base, factor, cap, n + 1) <= cap
  {
    hide Scale;
    RampIsClippedGrowth(base, factor, cap, n);
    ScalingUp(factor, Ramp(base, factor, cap, n));
  }

  lemma BackoffStepGrows(retry: Json, attempt: nat)
    ensures BackoffMs(retry, attempt) <= BackoffMs(retry, attempt + 1) <= Cap(retry)
    ensures Cap(retry) >= 0 ==> 0 <= BackoffMs(retry, attempt)
  {
    hide Ramp, BackoffMs;
    BackoffIsFlooredRamp(retry, attempt);
    BackoffIsFlooredRamp(retry, attempt + 1);
    if Cap(retry) >= 0 {
      RampGrows(Base(retry) as real, Factor(retry), Cap(retry) as real, Min(attempt, MAX_EXPONENT));
    }
  }

  /** Backoff never shrinks as attempts go up, never passes the cap, and is negative only under a negative cap. */
  lemma {:induction false} BackoffIsMonotone(retry: Json, a: nat, b: nat)
    requires a <= b
    ensures BackoffMs(retry, a) <= BackoffMs(retry, b) <= Cap(retry)
    ensures Cap(retry) >= 0 <==> 0 <= BackoffMs(retry, a)
    decreases b
  {
    if a == b {
      BackoffStepGrows(retry, a);
    } else {
      BackoffIsMonotone(retry, a, b - 1);
      BackoffStepGrows(retry, b - 1);
    }
  }

  /** The delay actually scheduled: the store ignores a negative backoff. */
  function Delay(retry: Json, attempt: nat): nat {
    Max(BackoffMs(retry, attempt), 0)
  }

  function TotalDelay(retry: Json, retries: nat): nat {
    if retries == 0 then 0 else TotalDelay(retry, retries - 1) + Delay(retry, retries - 1)
  }

  /** With a negative cap every retry is immediate; otherwise one step waits at most cap per retry. */
  lemma {:induction false} TotalDelayIsBounded(retry: Json, retries: nat)
    ensures TotalDelay(retry, retries) <= retries * Max(Cap(retry), 0)
    ensures Cap(retry) < 0 ==> TotalDelay(retry, retries) == 0
  {
    if retries > 0 {
      TotalDelayIsBounded(retry, retries - 1);
      var cap := Max(Cap(retry), 0);
      assert (retries - 1) * cap + cap == retries * cap;
      BackoffStepGrows(retry, retries - 1);
    }
  }
}
