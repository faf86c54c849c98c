/**
 Retry policy: capped exponential backoff in saturating 64-bit arithmetic, the
 attempt limit, and the conversion of a delay to a chrono duration.
 */
module Retry {
  import opened Mails

  const U64_MAX := 0xFFFF_FFFF_FFFF_FFFF
  /** The longest whole-second delay a chrono duration can hold (i64::MAX milliseconds). */
  const CHRONO_MAX_SECS := 9_223_372_036_854_775

  type U64 = n: int | 0 <= n <= U64_MAX
  type U32Int = n: int | 0 <= n < U32

  /** Delays are whole seconds, as the configuration file gives them. */
  datatype RetryPolicy = RetryPolicy(maxAttempts: U32Int, baseDelay: U64, maxDelay: U64)

  function Min(a: int, b: int): int { if a <= b then a else b }

  function Pow2(n: nat): (r: int)
    ensures r >= 1
  {
    if n == 0 then 1 else 2 * Pow2(n - 1)
  }

  function SaturatingSub(a: U32Int, b: U32Int): U32Int { if a < b then 0 else a - b }

  function SaturatingMul(a: U64, b: U64): U64 {
    if a * b > U64_MAX then U64_MAX else assert a * b >= 0; a * b
  }

  /** `1u64.checked_shl(shift).unwrap_or(u64::MAX)`; a shift below 64 drops bits above the 64th. */
  function ShiftedOne(shift: nat): U64 {
    if shift < 64 then Pow2(shift) % (U64_MAX + 1) else U64_MAX
  }

  /** `RetryPolicy::backoff`, step by step. */
  function Backoff(p: RetryPolicy, attempts: U32Int): (secs: U64) {
    var shift := Min(SaturatingSub(attempts, 1), 31);
    var factor := ShiftedOne(shift);
    Min(SaturatingMul(p.baseDelay, factor), p.maxDelay)
  }

  predicate Exhausted(maxAttempts: U32Int, attempts: nat) { attempts >= maxAttempts }

  /** The documented formula over unbounded integers: `base * 2^(attempts - 1)`, capped. */
  function DocumentedBackoff(p: RetryPolicy, attempts: nat): int
    requires attempts >= 1
  {
    Min(p.baseDelay * Pow2(attempts - 1), p.maxDelay)
  }

  /** The delay actually added to the clock, in nanoseconds; an unrepresentable one becomes a minute. */
  function RetryDelay(p: RetryPolicy, attempts: U32Int): (nanos: nat) {
    var secs := Backoff(p, attempts);
    if secs <= CHRONO_MAX_SECS then secs * NANOS else 60 * NANOS
  }

  /** The delays of a policy as a function of the attempts made. */
  type Delays = U32Int -> nat

  function DelaysOf(p: RetryPolicy): Delays { (attempts: U32Int) => RetryDelay(p, attempts) }

  /** How long, at the least, a mail that has failed `attempts` times has been made to wait. */
  function Schedule(delays: Delays, attempts: nat): (nanos: nat)
    requires attempts < U32
  {
    if attempts == 0 then 0 else Schedule(delays, attempts - 1) + delays(attempts)
  }

  lemma {:induction false} Pow2Monotone(a: nat, b: nat)
    requires a <= b
    ensures Pow2(a) <= Pow2(b)
    decreases b - a
  {
    if a < b { Pow2Monotone(a, b - 1); }
  }

  lemma Pow2At31()
    ensures Pow2(31) == 0x8000_0000
  {
    assert Pow2(8) == 256;
    assert Pow2(16) == 0x1_0000;
    assert Pow2(24) == 0x100_0000;
  }

  lemma MulMonotone(a: int, x: int, y: int)
    requires a >= 0 && x <= y
    ensures a * x <= a * y
  {
  }

  /** Saturation never shows: the 64-bit result is the unbounded one with the exponent capped at 31. */
  lemma BackoffUnbounded(p: RetryPolicy, attempts: U32Int)
    ensures Backoff(p, attempts) ==
            Min(p.baseDelay * Pow2(Min(if attempts == 0 then 0 else attempts - 1, 31)), p.maxDelay)
  {
    var shift := Min(SaturatingSub(attempts, 1), 31);
    Pow2Monotone(shift, 31);
    Pow2At31();
  }

  lemma BackoffMonotone(p: RetryPolicy, a: U32Int, b: U32Int)
    requires a <= b
    ensures Backoff(p, a) <= Backoff(p, b) <= p.maxDelay
  {
    BackoffUnbounded(p, a);
    BackoffUnbounded(p, b);
    var i := Min(if a == 0 then 0 else a - 1, 31);
    var j := Min(if b == 0 then 0 else b - 1, 31);
    Pow2Monotone(i, j);
    MulMonotone(p.baseDelay, Pow2(i), Pow2(j));
  }

  /**
   The documented formula holds exactly while the exponent cap is not reached,
   nothing is to be doubled, or the delay cap is at most `base * 2^31`.
   */
  lemma BackoffAsDocumentedIff(p: RetryPolicy, attempts: U32Int)
    requires attempts >= 1
    ensures Backoff(p, attempts) == DocumentedBackoff(p, attempts) <==>
            attempts <= 32 || p.baseDelay == 0 || p.maxDelay <= p.baseDelay * 0x8000_0000
  {
    BackoffUnbounded(p, attempts);
    Pow2At31();
    if attempts > 32 {
      Pow2Monotone(31, attempts - 1);
      MulMonotone(p.baseDelay, Pow2(31), Pow2(attempts - 1));
      if p.baseDelay > 0 && p.maxDelay > p.baseDelay * 0x8000_0000 {
        Pow2Monotone(32, attempts - 1);
        assert Pow2(32) == 2 * Pow2(31);
        MulMonotone(p.baseDelay, Pow2(32), Pow2(attempts - 1));
        assert p.baseDelay * Pow2(32) == 2 * (p.baseDelay * Pow2(31));
      }
    }
  }

  /** A policy and an attempt count for which code and documentation part: 1 s doubled 32 times. */
  lemma BackoffDocumentationGap()
    ensures var p := RetryPolicy(40, 1, 0x1_0000_0000);
            Backoff(p, 33) != DocumentedBackoff(p, 33)
  {
    BackoffAsDocumentedIff(RetryPolicy(40, 1, 0x1_0000_0000), 33);
  }

  /** The delay is the capped formula in nanoseconds as far as chrono reaches, and a minute beyond. */
  lemma RetryDelayExact(p: RetryPolicy, attempts: U32Int)
    ensures var secs := Min(p.baseDelay * Pow2(Min(if attempts == 0 then 0 else attempts - 1, 31)), p.maxDelay);
            RetryDelay(p, attempts) == if secs <= 9_223_372_036_854_775 then secs * 1_000_000_000 else 60_000_000_000
  {
    BackoffUnbounded(p, attempts);
  }

  /** Retries are delayed at all exactly when both configured delays are positive. */
  lemma RetryDelayPositiveIff(p: RetryPolicy, attempts: U32Int)
    ensures RetryDelay(p, attempts) > 0 <==> p.baseDelay > 0 && p.maxDelay > 0
  {
    BackoffUnbounded(p, attempts);
    var e := Pow2(Min(if attempts == 0 then 0 else attempts - 1, 31));
    if p.baseDelay > 0 { MulMonotone(p.baseDelay, 1, e); }
  }

  lemma DelayBelowCaps(p: RetryPolicy, n: U32Int)
    requires 1 <= n <= 32 && p.baseDelay * Pow2(n - 1) <= Min(p.maxDelay, CHRONO_MAX_SECS)
    ensures RetryDelay(p, n) == p.baseDelay * Pow2(n - 1) * NANOS
  {
    BackoffUnbounded(p, n);
  }

  lemma HalfIsBelow(b: nat, n: nat, cap: int)
    requires n >= 1 && b * Pow2(n) <= cap
    ensures b * Pow2(n - 1) <= cap
  {
    Pow2Monotone(n - 1, n);
    MulMonotone(b, Pow2(n - 1), Pow2(n));
  }

  /** Below the cap a whole retry schedule is the geometric sum `base * (2^n - 1)` seconds. */
  lemma {:induction false} ScheduleGeometric(p: RetryPolicy, n: nat)
    requires n <= 32
    requires n >= 1 ==> p.baseDelay * Pow2(n - 1) <= Min(p.maxDelay, CHRONO_MAX_SECS)
    ensures Schedule(DelaysOf(p), n) == p.baseDelay * (Pow2(n) - 1) * NANOS
  {
    if n > 0 {
      var before, delay := Schedule(DelaysOf(p), n - 1), RetryDelay(p, n);
      if n > 1 { HalfIsBelow(p.baseDelay, n - 1, Min(p.maxDelay, CHRONO_MAX_SECS)); }
      ScheduleGeometric(p, n - 1);
      DelayBelowCaps(p, n);
      GeometricStep(p.baseDelay, Pow2(n - 1));
      assert Schedule(DelaysOf(p), n) == before + delay;
    }
  }

  lemma GeometricStep(b: int, e: int)
    ensures b * (e - 1) * NANOS + b * e * NANOS == b * (2 * e - 1) * NANOS
  {
    assert b * (e - 1) + b * e == b * (2 * e - 1);
  }
}
