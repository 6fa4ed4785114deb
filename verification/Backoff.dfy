/**
 Full-jitter exponential backoff. Three functions of the source share one shape: a base that
 doubles per attempt in saturating arithmetic, a cap, and a uniform draw below the result.
 The random draw is a parameter.
 */
module Backoff {
  import opened MachineInt

  const MAX_EXPONENT: nat := 16

  /** The ceiling the documentation describes, in unbounded integers. */
  function ExactCeiling(initial: nat, exponent: nat, cap: nat): nat {
    Min(initial * Pow2(exponent), cap)
  }

  // ---- Retry of a call: milliseconds in u64 ----

  function RetryBase(initial: u64, cap: u64, attempt: u32): u64
    requires attempt > 0
  {
    Min(SaturatingMul(initial, Pow2(Min(attempt - 1, MAX_EXPONENT)), U64_MAX), cap)
  }

  /** The draws that `random_range(0..=base)` can produce; no draw is made on the early returns. */
  predicate RetryDraw(initial: u64, cap: u64, attempt: u32, draw: nat) {
    attempt > 0 && RetryBase(initial, cap, attempt) > 0 ==> draw <= RetryBase(initial, cap, attempt)
  }

  function RetryBackoffMs(initial: u64, cap: u64, attempt: u32, draw: nat): u64
    requires RetryDraw(initial, cap, attempt, draw)
  {
    if attempt == 0 then initial
    else
      var base := RetryBase(initial, cap, attempt);
      if base == 0 then initial else draw
  }

  // ---- Watch reconnect and lease renewal: durations in nanoseconds ----

  function DurationBase(count: u32, initial: Duration, cap: Duration): Duration {
    Min(SaturatingMul(initial, Pow2(Min(count, MAX_EXPONENT)), DURATION_MAX), cap)
  }

  predicate DurationDraw(count: u32, initial: Duration, cap: Duration, millis: nat) {
    DurationBase(count, initial, cap) > 0 ==>
      millis <= Min(DurationBase(count, initial, cap) / NANOS_PER_MILLI, U64_MAX)
  }

  function DurationBackoff(count: u32, initial: Duration, cap: Duration, millis: nat): Duration
    requires DurationDraw(count, initial, cap, millis)
  {
    var base := DurationBase(count, initial, cap);
    if base == 0 then initial else millis * NANOS_PER_MILLI
  }

  // ---- Saturation never shows ----

  /** Saturating `u64` arithmetic reaches exactly the documented ceiling. */
  lemma RetryBaseIsExact(initial: u64, cap: u64, attempt: u32)
    requires attempt > 0
    ensures RetryBase(initial, cap, attempt) == ExactCeiling(initial, Min(attempt - 1, MAX_EXPONENT), cap)
  {
  }

  /** Saturating `Duration` arithmetic reaches exactly the documented ceiling. */
  lemma DurationBaseIsExact(count: u32, initial: Duration, cap: Duration)
    ensures DurationBase(count, initial, cap) == ExactCeiling(initial, Min(count, MAX_EXPONENT), cap)
  {
  }

  lemma {:induction false} ExactCeilingMonotone(initial: nat, d: nat, e: nat, cap: nat)
    requires d <= e
    ensures ExactCeiling(initial, d, cap) <= ExactCeiling(initial, e, cap)
  {
    Pow2Monotone(d, e);
    MulMonotone(initial, Pow2(d), Pow2(e));
  }

  lemma {:induction false} MulMonotone(k: nat, a: nat, b: nat)
    requires a <= b
    ensures k * a <= k * b
  {
  }

  /** The saturated ceiling is the documented one, and a later attempt never has a lower one. */
  lemma RetryBaseMonotone(initial: u64, cap: u64, a: u32, b: u32)
    requires 0 < a <= b
    ensures RetryBase(initial, cap, a) == ExactCeiling(initial, Min(a - 1, MAX_EXPONENT), cap)
    ensures RetryBase(initial, cap, a) <= RetryBase(initial, cap, b)
  {
    RetryBaseIsExact(initial, cap, a);
    RetryBaseIsExact(initial, cap, b);
    ExactCeilingMonotone(initial, Min(a - 1, MAX_EXPONENT), Min(b - 1, MAX_EXPONENT), cap);
  }

  /** The saturated ceiling is the documented one, and a longer failure streak never has a lower one. */
  lemma DurationBaseMonotone(a: u32, b: u32, initial: Duration, cap: Duration)
    requires a <= b
    ensures DurationBase(a, initial, cap) == ExactCeiling(initial, Min(a, MAX_EXPONENT), cap)
    ensures DurationBase(a, initial, cap) <= DurationBase(b, initial, cap)
  {
    DurationBaseIsExact(a, initial, cap);
    DurationBaseIsExact(b, initial, cap);
    ExactCeilingMonotone(initial, Min(a, MAX_EXPONENT), Min(b, MAX_EXPONENT), cap);
  }

  // ---- The jittered delay and the cap ----

  /**
   Full jitter on a retry: attempt 0 always waits the initial backoff. From attempt 1 on, with positive
   settings, the possible delays are exactly the values from zero to the initial backoff doubled per
   attempt, sixteen times at most, and capped.
   */
  lemma {:induction false} RetryDelaysExactly(initial: u64, cap: u64, attempt: u32, delay: nat)
    ensures (exists draw :: RetryDraw(initial, cap, attempt, draw) && RetryBackoffMs(initial, cap, attempt, draw) == delay)
            <==> if attempt == 0 || initial == 0 || cap == 0 then delay == initial
                 else
                   var doublings := if attempt - 1 <= 16 then attempt - 1 else 16;
                   delay <= initial * Pow2(doublings) && delay <= cap
  {
    ZeroIsADraw(initial, cap, attempt, 0, 0, 0);
    if attempt > 0 {
      Pow2Monotone(0, Min(attempt - 1, MAX_EXPONENT));
      BasePositiveIff(initial, Pow2(Min(attempt - 1, MAX_EXPONENT)), cap, U64_MAX);
    }
    assert RetryDraw(initial, cap, attempt, 0);
    if RetryDraw(initial, cap, attempt, delay) {
      var some := RetryBackoffMs(initial, cap, attempt, delay);
    }
    var first := RetryBackoffMs(initial, cap, attempt, 0);
  }

  /**
   Full jitter on a reconnect or renewal: the possible delays are exactly the whole milliseconds, up to
   a 64-bit count of them, from zero to the initial delay doubled per failure, sixteen times at most,
   and capped; with a zero setting always the initial delay.
   */
  lemma {:induction false} DurationDelaysExactly(count: u32, initial: Duration, cap: Duration, delay: nat)
    ensures (exists millis :: DurationDraw(count, initial, cap, millis) && DurationBackoff(count, initial, cap, millis) == delay)
            <==> if initial == 0 || cap == 0 then delay == initial
                 else
                   var doublings := if count <= 16 then count else 16;
                   && delay % 1_000_000 == 0 && delay / 1_000_000 <= 0xFFFF_FFFF_FFFF_FFFF
                   && delay <= initial * Pow2(doublings) && delay <= cap
  {
    Pow2Monotone(0, Min(count, MAX_EXPONENT));
    BasePositiveIff(initial, Pow2(Min(count, MAX_EXPONENT)), cap, DURATION_MAX);
    DurationBaseIsExact(count, initial, cap);
    var base := DurationBase(count, initial, cap);
    assert base == 0 <==> initial == 0 || cap == 0;
    assert delay <= base <==> delay <= initial * Pow2(if count <= 16 then count else 16) && delay <= cap;
    hide DurationBase, Pow2;
    DelaysOfBase(count, initial, cap, delay);
  }

  lemma {:induction false} DelaysOfBase(count: u32, initial: Duration, cap: Duration, delay: nat)
    ensures var base := DurationBase(count, initial, cap);
            (exists millis :: DurationDraw(count, initial, cap, millis) && DurationBackoff(count, initial, cap, millis) == delay)
            <==> if base == 0 then delay == initial
                 else delay % 1_000_000 == 0 && delay / 1_000_000 <= 0xFFFF_FFFF_FFFF_FFFF && delay <= base
  {
    hide DurationBase;
    var base, millis := DurationBase(count, initial, cap), delay / NANOS_PER_MILLI;
    assert DurationDraw(count, initial, cap, 0);
    var first := DurationBackoff(count, initial, cap, 0);
    if base > 0 && delay % NANOS_PER_MILLI == 0 && delay <= base && millis <= U64_MAX {
      assert DurationDraw(count, initial, cap, millis);
      assert DurationBackoff(count, initial, cap, millis) == delay;
    }
  }

  /** Some draw is always available, so the "for every draw" claims below are not empty. */
  lemma ZeroIsADraw(initial: u64, cap: u64, attempt: u32, count: u32, start: Duration, limit: Duration)
    ensures RetryDraw(initial, cap, attempt, 0)
    ensures DurationDraw(count, start, limit, 0)
  {
  }

  lemma {:induction false} BasePositiveIff(initial: nat, factor: nat, cap: nat, top: nat)
    requires factor >= 1 && cap <= top
    ensures Min(SaturatingMul(initial, factor, top), cap) == 0 <==> initial == 0 || cap == 0
  {
    if initial > 0 {
      MulMonotone(initial, 1, factor);
    }
  }

  /**
   Every delay of a given attempt stays within the cap exactly when the cap is not bypassed by an
   early return: attempt 0 returns the initial backoff uncapped, and a zero cap falls back to it.
   With positive settings every delay from attempt 1 on is below the documented ceiling.
   */
  lemma RetryBackoffWithinCapIff(initial: u64, cap: u64, attempt: u32)
    ensures initial > 0 && cap > 0 && attempt > 0 ==>
              forall draw | RetryDraw(initial, cap, attempt, draw) ::
                RetryBackoffMs(initial, cap, attempt, draw) <= ExactCeiling(initial, Min(attempt - 1, MAX_EXPONENT), cap)
    ensures (forall draw | RetryDraw(initial, cap, attempt, draw) ::
               RetryBackoffMs(initial, cap, attempt, draw) <= cap)
            <==> (if attempt == 0 then initial <= cap else cap > 0 || initial == 0)
  {
    ZeroIsADraw(initial, cap, attempt, 0, 0, 0);
    if attempt > 0 {
      Pow2Monotone(0, Min(attempt - 1, MAX_EXPONENT));
      BasePositiveIff(initial, Pow2(Min(attempt - 1, MAX_EXPONENT)), cap, U64_MAX);
    }
    assert RetryDraw(initial, cap, attempt, 0);
    var first := RetryBackoffMs(initial, cap, attempt, 0);
  }

  /**
   A reconnect or renewal delay never exceeds the ceiling when both settings are positive, and it
   stays within the cap for every draw exactly when the cap is positive or the initial delay is zero.
   */
  lemma DurationBackoffWithinCapIff(count: u32, initial: Duration, cap: Duration)
    ensures (forall millis | DurationDraw(count, initial, cap, millis) ::
               DurationBackoff(count, initial, cap, millis) <= cap)
            <==> cap > 0 || initial == 0
    ensures initial > 0 && cap > 0 ==>
              forall millis | DurationDraw(count, initial, cap, millis) ::
                DurationBackoff(count, initial, cap, millis)
                <= ExactCeiling(initial, Min(count, MAX_EXPONENT), cap)
  {
    ZeroIsADraw(0, 0, 0, count, initial, cap);
    Pow2Monotone(0, Min(count, MAX_EXPONENT));
    BasePositiveIff(initial, Pow2(Min(count, MAX_EXPONENT)), cap, DURATION_MAX);
    DurationBaseIsExact(count, initial, cap);
    assert DurationDraw(count, initial, cap, 0);
    var first := DurationBackoff(count, initial, cap, 0);
  }
}
