/**
 The lease renewal loop: a steady interval of a third of the lease, and full-jitter backoff while
 renewals fail. A renewal call takes time: the registry processes it some time after it was sent, and
 it returns later still, all within a latency bound. Times are nanoseconds.
 */
module LeaseRenewal {
  import opened MachineInt
  import Backoff

  datatype RenewConfig = RenewConfig(initialBackoff: Duration, maxBackoff: Duration)

  function RenewInterval(ttlSeconds: u64): (d: Duration)
    ensures ttlSeconds >= 3 ==> 3 * d <= ttlSeconds * NANOS_PER_SECOND
  {
    (Max(ttlSeconds, 3) / 3) * NANOS_PER_SECOND
  }

  /** Failed renewals since the last success. */
  function Streak(outcomes: seq<bool>): nat {
    if outcomes == [] || outcomes[|outcomes| - 1] then 0 else Streak(outcomes[..|outcomes| - 1]) + 1
  }

  function Failures(outcomes: seq<bool>): u32 {
    Min(Streak(outcomes), U32_MAX)
  }

  /** How long after its start a call is processed by the registry, and how long until it returns. */
  datatype Trip = Trip(processed: nat, returned: nat)

  /** Outcome, jitter draw and trip of each attempt. */
  datatype History = History(outcomes: seq<bool>, draws: seq<nat>, trips: seq<Trip>)

  /** A draw the sleep before attempt `i` could make. */
  predicate SleepDraw(config: RenewConfig, outcomes: seq<bool>, i: nat, draw: nat)
    requires i <= |outcomes|
  {
    Streak(outcomes[..i]) > 0 ==>
      Backoff.DurationDraw(Failures(outcomes[..i]), config.initialBackoff, config.maxBackoff, draw)
  }

  predicate Possible(config: RenewConfig, latency: nat, h: History) {
    && |h.draws| == |h.outcomes| == |h.trips|
    && (forall i :: 0 <= i < |h.outcomes| ==> SleepDraw(config, h.outcomes, i, h.draws[i]))
    && (forall i :: 0 <= i < |h.trips| ==> h.trips[i].processed <= h.trips[i].returned <= latency)
  }

  /** The sleep before attempt `i`. */
  function Sleep(interval: Duration, config: RenewConfig, outcomes: seq<bool>, i: nat, draw: nat): Duration
    requires i <= |outcomes| && SleepDraw(config, outcomes, i, draw)
  {
    if Streak(outcomes[..i]) == 0 then interval
    else Backoff.DurationBackoff(Failures(outcomes[..i]), config.initialBackoff, config.maxBackoff, draw)
  }

  /** When attempt `i` starts, counted from the start of the loop. */
  function Start(interval: Duration, config: RenewConfig, latency: nat, h: History, i: nat): nat
    requires Possible(config, latency, h) && i < |h.outcomes|
    decreases i
  {
    (if i == 0 then 0 else Start(interval, config, latency, h, i - 1) + h.trips[i - 1].returned)
    + Sleep(interval, config, h.outcomes, i, h.draws[i])
  }

  lemma {:induction false} NextFailures(outcomes: seq<bool>, i: nat)
    requires i < |outcomes|
    ensures Failures(outcomes[..i + 1])
            == if outcomes[i] then 0 else SaturatingAdd(Failures(outcomes[..i]), 1, U32_MAX)
  {
    assert outcomes[..i + 1][..i] == outcomes[..i];
  }

  lemma {:induction false} NoFailures(outcomes: seq<bool>)
    ensures Failures(outcomes[..0]) == 0
  {
  }

  /** The start of an attempt in terms of the failure counter of the loop. */
  lemma {:induction false} StartByFailures(interval: Duration, config: RenewConfig, latency: nat, h: History, i: nat)
    requires Possible(config, latency, h) && i < |h.outcomes|
    ensures var failures := Failures(h.outcomes[..i]);
            && (failures > 0 ==> Backoff.DurationDraw(failures, config.initialBackoff, config.maxBackoff, h.draws[i]))
            && Start(interval, config, latency, h, i)
               == (if i == 0 then 0 else Start(interval, config, latency, h, i - 1) + h.trips[i - 1].returned)
                  + (if failures == 0 then interval
                     else Backoff.DurationBackoff(failures, config.initialBackoff, config.maxBackoff, h.draws[i]))
  {
    hide Backoff.DurationBackoff, Backoff.DurationDraw, Streak;
    assert SleepDraw(config, h.outcomes, i, h.draws[i]);
  }

  /** The loop over its first attempts. */
  method RunRenewLoop(interval: Duration, config: RenewConfig, ghost latency: nat, h: History)
    returns (starts: seq<nat>)
    requires Possible(config, latency, h)
    ensures |starts| == |h.outcomes|
    ensures forall i :: 0 <= i < |starts| ==> starts[i] == Start(interval, config, latency, h, i)
  {
    hide Backoff.DurationBackoff, Backoff.DurationDraw, Streak, Start, Failures, SleepDraw;
    NoFailures(h.outcomes);
    var failures: u32 := 0;
    var clock := 0;
    starts := [];
    for i := 0 to |h.outcomes|
      invariant |starts| == i
      invariant failures == Failures(h.outcomes[..i])
      invariant clock == if i == 0 then 0 else Start(interval, config, latency, h, i - 1) + h.trips[i - 1].returned
      invariant forall j :: 0 <= j < i ==> starts[j] == Start(interval, config, latency, h, j)
    {
      NextFailures(h.outcomes, i);
      StartByFailures(interval, config, latency, h, i);
      if failures == 0 {
        clock := clock + interval;
      } else {
        clock := clock + Backoff.DurationBackoff(failures, config.initialBackoff, config.maxBackoff, h.draws[i]);
      }
      starts := starts + [clock];
      clock := clock + h.trips[i].returned;
      if h.outcomes[i] {
        failures := 0;
      } else {
        failures := SaturatingAdd(failures, 1, U32_MAX);
      }
    }
  }

  // ---- How late an attempt can be ----

  /** The largest delay after `m` failures in a row, and the draw that makes it. */
  function MaxDraw(config: RenewConfig, m: nat): nat {
    Min(Backoff.DurationBase(Min(m, U32_MAX), config.initialBackoff, config.maxBackoff) / NANOS_PER_MILLI, U64_MAX)
  }

  function MaxDelay(config: RenewConfig, m: nat): nat {
    if Backoff.DurationBase(Min(m, U32_MAX), config.initialBackoff, config.maxBackoff) == 0 then config.initialBackoff
    else MaxDraw(config, m) * NANOS_PER_MILLI
  }

  /** All delays of the first `m` failures at their largest. */
  function MaxDelaySum(config: RenewConfig, m: nat): nat {
    if m == 0 then 0 else MaxDelaySum(config, m - 1) + MaxDelay(config, m)
  }

  /** The documented ceiling after `m` failures in a row; a zero cap falls back to the initial delay. */
  function Ceiling(config: RenewConfig, m: nat): nat {
    if config.maxBackoff == 0 then config.initialBackoff
    else Backoff.ExactCeiling(config.initialBackoff, Min(m, Backoff.MAX_EXPONENT), config.maxBackoff)
  }

  /** Sum of the backoff ceilings of the first `m` failures. */
  function CeilingSum(config: RenewConfig, m: nat): nat {
    if m == 0 then 0 else CeilingSum(config, m - 1) + Ceiling(config, m)
  }

  /** The instant the lease was last extended before attempt `i`: registration, or the last success as processed. */
  function Extended(interval: Duration, config: RenewConfig, latency: nat, h: History, i: nat): nat
    requires Possible(config, latency, h) && i < |h.outcomes|
    decreases i
  {
    if i == 0 then 0
    else if h.outcomes[i - 1] then Start(interval, config, latency, h, i - 1) + h.trips[i - 1].processed
    else Extended(interval, config, latency, h, i - 1)
  }

  /** The instant attempt `i` reaches the registry. */
  function Processed(interval: Duration, config: RenewConfig, latency: nat, h: History, i: nat): nat
    requires Possible(config, latency, h) && i < |h.outcomes|
  {
    Start(interval, config, latency, h, i) + h.trips[i].processed
  }

  lemma {:induction false} SleepWithinMax(interval: Duration, config: RenewConfig, outcomes: seq<bool>, i: nat, draw: nat)
    requires i <= |outcomes| && SleepDraw(config, outcomes, i, draw) && Streak(outcomes[..i]) > 0
    ensures Sleep(interval, config, outcomes, i, draw) <= MaxDelay(config, Streak(outcomes[..i]))
  {
    hide Backoff.DurationBase, Streak;
  }

  lemma {:induction false} OneMoreTrip(m: nat, latency: nat)
    ensures (m + 1) * latency == m * latency + latency
  {
  }

  lemma {:induction false} TripsMonotone(a: nat, b: nat, latency: nat)
    requires a <= b
    ensures a * latency <= b * latency
  {
  }

  /** One more trip, and at most `k + 1` in all. */
  lemma {:induction false} LastTrip(m: nat, k: nat, latency: nat)
    requires m < k
    ensures (m + 1) * latency + latency <= (k + 1) * latency
  {
    OneMoreTrip(m + 1, latency);
    TripsMonotone(m + 2, k + 1, latency);
  }

  /** The k-th attempt after the last success starts no later than interval, the largest k-1 delays and k trips. */
  lemma {:induction false} AttemptWithinMax(interval: Duration, config: RenewConfig, latency: nat, h: History, i: nat)
    requires Possible(config, latency, h) && i < |h.outcomes|
    ensures var m := Streak(h.outcomes[..i]);
            Start(interval, config, latency, h, i)
            <= Extended(interval, config, latency, h, i) + interval + MaxDelaySum(config, m) + (m + 1) * latency
    decreases i
  {
    hide MaxDelay;
    var m := Streak(h.outcomes[..i]);
    if i > 0 {
      assert h.outcomes[..i][..i - 1] == h.outcomes[..i - 1];
      if h.outcomes[i - 1] {
        assert (m + 1) * latency == latency;
      } else {
        AttemptWithinMax(interval, config, latency, h, i - 1);
        SleepWithinMax(interval, config, h.outcomes, i, h.draws[i]);
        OneMoreTrip(m, latency);
      }
    } else {
      assert (m + 1) * latency >= 0;
    }
  }

  lemma {:induction false} MaxDelayWithinCeiling(config: RenewConfig, m: nat)
    ensures MaxDelay(config, m) <= Ceiling(config, m)
    ensures config.maxBackoff > 0 || config.initialBackoff == 0 ==> MaxDelay(config, m) <= config.maxBackoff
  {
    var failures := Min(m, U32_MAX);
    Backoff.DurationBaseIsExact(failures, config.initialBackoff, config.maxBackoff);
    Pow2Monotone(0, Min(failures, Backoff.MAX_EXPONENT));
    Backoff.BasePositiveIff(config.initialBackoff, Pow2(Min(failures, Backoff.MAX_EXPONENT)), config.maxBackoff, DURATION_MAX);
  }

  lemma {:induction false} MaxDelaySumWithinCeilings(config: RenewConfig, m: nat)
    ensures MaxDelaySum(config, m) <= CeilingSum(config, m)
    ensures config.maxBackoff > 0 || config.initialBackoff == 0 ==> MaxDelaySum(config, m) <= m * config.maxBackoff
    decreases m
  {
    hide MaxDelay, Ceiling;
    if m > 0 {
      MaxDelaySumWithinCeilings(config, m - 1);
      MaxDelayWithinCeiling(config, m);
      assert m * config.maxBackoff == (m - 1) * config.maxBackoff + config.maxBackoff;
    }
  }

  /**
   The k-th attempt after the last success reaches the registry no later than the renew interval, the
   ceilings of the k-1 failures in between and k+1 latencies after the lease was last extended,
   whatever the jitter.
   */
  lemma {:induction false} AttemptIsOnTime(interval: Duration, config: RenewConfig, latency: nat, h: History, i: nat)
    requires Possible(config, latency, h) && i < |h.outcomes|
    ensures var m := Streak(h.outcomes[..i]);
            Processed(interval, config, latency, h, i)
            <= Extended(interval, config, latency, h, i) + interval + CeilingSum(config, m) + (m + 2) * latency
  {
    AttemptWithinMax(interval, config, latency, h, i);
    MaxDelaySumWithinCeilings(config, Streak(h.outcomes[..i]));
    OneMoreTrip(Streak(h.outcomes[..i]) + 1, latency);
  }

  // ---- How many attempts reach the registry within the lease ----

  /** The first `k` attempts after each extension reach the registry within the lease. */
  predicate AttemptsFit(k: nat, ttlSeconds: u64, config: RenewConfig, latency: nat, h: History)
    requires Possible(config, latency, h)
  {
    var interval := RenewInterval(ttlSeconds);
    forall i :: 0 <= i < |h.outcomes| && Streak(h.outcomes[..i]) < k ==>
      Processed(interval, config, latency, h, i)
      <= Extended(interval, config, latency, h, i) + ttlSeconds * NANOS_PER_SECOND
  }

  ghost predicate AlwaysFit(k: nat, ttlSeconds: u64, config: RenewConfig, latency: nat) {
    forall h | Possible(config, latency, h) :: AttemptsFit(k, ttlSeconds, config, latency, h)
  }

  lemma {:induction false} MaxDelaySumMonotone(config: RenewConfig, a: nat, b: nat)
    requires a <= b
    ensures MaxDelaySum(config, a) <= MaxDelaySum(config, b)
    decreases b
  {
    if a < b {
      MaxDelaySumMonotone(config, a, b - 1);
    }
  }

  /**
   The slowest run: a success that is processed at once and returns late, then `k` failures, every
   draw the largest and every call slow.
   */
  function Slowest(config: RenewConfig, latency: nat, k: nat): History {
    History(
      seq(k + 1, i => i == 0),
      seq(k + 1, i requires 0 <= i => if i == 0 then 0 else MaxDraw(config, i - 1)),
      seq(k + 1, i => if i == 0 then Trip(0, latency) else Trip(latency, latency)))
  }

  lemma {:induction false} SlowestStreak(config: RenewConfig, latency: nat, k: nat, i: nat)
    requires i <= k + 1
    ensures Streak(Slowest(config, latency, k).outcomes[..i]) == if i == 0 then 0 else i - 1
    decreases i
  {
    var outcomes := Slowest(config, latency, k).outcomes;
    if i > 0 {
      assert outcomes[..i][..i - 1] == outcomes[..i - 1];
      SlowestStreak(config, latency, k, i - 1);
    }
  }

  lemma {:induction false} SlowestIsPossible(config: RenewConfig, latency: nat, k: nat)
    ensures Possible(config, latency, Slowest(config, latency, k))
  {
    var h := Slowest(config, latency, k);
    forall i | 0 <= i < k + 1 ensures SleepDraw(config, h.outcomes, i, h.draws[i]) {
      SlowestStreak(config, latency, k, i);
    }
  }

  lemma {:induction false} SlowestStart(interval: Duration, config: RenewConfig, latency: nat, k: nat, i: nat)
    requires 0 < i <= k && Possible(config, latency, Slowest(config, latency, k))
    ensures var h := Slowest(config, latency, k);
            && Start(interval, config, latency, h, i)
               == 2 * interval + MaxDelaySum(config, i - 1) + i * latency
            && Extended(interval, config, latency, h, i) == interval
    decreases i
  {
    var h := Slowest(config, latency, k);
    SlowestStreak(config, latency, k, i);
    SlowestStreak(config, latency, k, 0);
    assert Start(interval, config, latency, h, 0) == interval;
    if i > 1 {
      SlowestStart(interval, config, latency, k, i - 1);
      OneMoreTrip(i - 1, latency);
    } else {
      assert 1 * latency == latency;
    }
  }

  /** An attempt with at most k-1 failures behind it reaches the registry within the slowest time. */
  lemma {:induction false} ReachesInTime(k: nat, interval: Duration, config: RenewConfig, latency: nat, h: History, i: nat)
    requires Possible(config, latency, h) && i < |h.outcomes| && Streak(h.outcomes[..i]) < k
    ensures Processed(interval, config, latency, h, i)
            <= Extended(interval, config, latency, h, i) + interval + MaxDelaySum(config, k - 1) + (k + 1) * latency
  {
    var m := Streak(h.outcomes[..i]);
    assert h.trips[i].processed <= latency;
    hide MaxDelaySum, Streak, Extended, Start, Possible;
    AttemptWithinMax(interval, config, latency, h, i);
    MaxDelaySumMonotone(config, m, k - 1);
    LastTrip(m, k, latency);
    var before, all := (m + 1) * latency, (k + 1) * latency;
    assert before + latency <= all;
  }

  /** The slowest run takes that long. */
  lemma {:induction false} SlowestTakes(k: nat, interval: Duration, config: RenewConfig, latency: nat)
    requires k > 0
    ensures var h := Slowest(config, latency, k);
            && Possible(config, latency, h) && |h.outcomes| == k + 1 && Streak(h.outcomes[..k]) == k - 1
            && Processed(interval, config, latency, h, k)
               == Extended(interval, config, latency, h, k) + interval + MaxDelaySum(config, k - 1) + (k + 1) * latency
  {
    SlowestIsPossible(config, latency, k);
    SlowestStart(interval, config, latency, k, k);
    SlowestStreak(config, latency, k, k);
    OneMoreTrip(k, latency);
    hide MaxDelaySum, Start, Streak, Extended, SleepDraw;
  }

  /**
   For every configuration, lease and latency: the first `k` attempts reach the registry within the
   lease, whatever the outcomes, the draws and the trips, exactly when the renew interval, the largest
   k-1 delays and k+1 latencies fit it.
   */
  lemma {:induction false} AttemptsFitIff(k: nat, ttlSeconds: u64, config: RenewConfig, latency: nat)
    requires k > 0
    ensures AlwaysFit(k, ttlSeconds, config, latency)
            <==> RenewInterval(ttlSeconds) + MaxDelaySum(config, k - 1) + (k + 1) * latency <= ttlSeconds * NANOS_PER_SECOND
  {
    hide MaxDelaySum, Processed, Streak, Extended, Possible, Slowest;
    var interval, longest := RenewInterval(ttlSeconds), (k + 1) * latency;
    if interval + MaxDelaySum(config, k - 1) + longest <= ttlSeconds * NANOS_PER_SECOND {
      forall h | Possible(config, latency, h) ensures AttemptsFit(k, ttlSeconds, config, latency, h) {
        forall i | 0 <= i < |h.outcomes| && Streak(h.outcomes[..i]) < k
          ensures Processed(interval, config, latency, h, i)
                  <= Extended(interval, config, latency, h, i) + ttlSeconds * NANOS_PER_SECOND
        {
          ReachesInTime(k, interval, config, latency, h, i);
        }
      }
    } else {
      SlowestTakes(k, interval, config, latency);
      assert !AttemptsFit(k, ttlSeconds, config, latency, Slowest(config, latency, k));
    }
  }

  /**
   With a cap between zero and the renew interval and a lease of 3 seconds or more, three attempts
   always fit with instantaneous calls, and with any latency that fits four times into what three
   intervals leave.
   */
  lemma {:induction false} ThreeAttemptsAlwaysFit(ttlSeconds: u64, config: RenewConfig, latency: nat)
    requires ttlSeconds >= 3 && 0 < config.maxBackoff <= RenewInterval(ttlSeconds)
    ensures AlwaysFit(3, ttlSeconds, config, 0)
    ensures 3 * RenewInterval(ttlSeconds) + 4 * latency <= ttlSeconds * NANOS_PER_SECOND ==>
              AlwaysFit(3, ttlSeconds, config, latency)
  {
    hide MaxDelaySum, AlwaysFit;
    AttemptsFitIff(3, ttlSeconds, config, 0);
    AttemptsFitIff(3, ttlSeconds, config, latency);
    MaxDelaySumWithinCeilings(config, 2);
  }

  /** The built-in configuration: one second at first, at most ten. */
  const DEFAULT_CONFIG := RenewConfig(NANOS_PER_SECOND, 10 * NANOS_PER_SECOND)

  lemma {:induction false} DefaultDelays(m: nat)
    requires 1 <= m <= 4
    ensures MaxDelay(DEFAULT_CONFIG, m)
            == (if m == 1 then 2 else if m == 2 then 4 else if m == 3 then 8 else 10) * NANOS_PER_SECOND
  {
    assert Pow2(m) == if m == 1 then 2 else if m == 2 then 4 else if m == 3 then 8 else 16;
  }

  lemma DefaultDelaySums()
    ensures MaxDelaySum(DEFAULT_CONFIG, 2) == 6 * NANOS_PER_SECOND
    ensures MaxDelaySum(DEFAULT_CONFIG, 3) == 14 * NANOS_PER_SECOND
    ensures MaxDelaySum(DEFAULT_CONFIG, 4) == 24 * NANOS_PER_SECOND
  {
    hide MaxDelay;
    DefaultDelays(1);
    DefaultDelays(2);
    DefaultDelays(3);
    DefaultDelays(4);
    assert MaxDelaySum(DEFAULT_CONFIG, 1) == 2 * NANOS_PER_SECOND;
    assert MaxDelaySum(DEFAULT_CONFIG, 2) == 6 * NANOS_PER_SECOND;
    assert MaxDelaySum(DEFAULT_CONFIG, 3) == 14 * NANOS_PER_SECOND;
  }

  /**
   With the built-in configuration three attempts fit exactly when the interval, 6 seconds and four
   latencies fit the lease; with instantaneous calls exactly the leases of 8 seconds and more.
   */
  lemma {:induction false} DefaultsFitThreeIff(ttlSeconds: u64, latency: nat)
    ensures AlwaysFit(3, ttlSeconds, DEFAULT_CONFIG, latency)
            <==> RenewInterval(ttlSeconds) + 6 * NANOS_PER_SECOND + 4 * latency <= ttlSeconds * NANOS_PER_SECOND
    ensures AlwaysFit(3, ttlSeconds, DEFAULT_CONFIG, 0) <==> ttlSeconds >= 8
  {
    hide MaxDelaySum, AlwaysFit;
    DefaultDelaySums();
    AttemptsFitIff(3, ttlSeconds, DEFAULT_CONFIG, latency);
    AttemptsFitIff(3, ttlSeconds, DEFAULT_CONFIG, 0);
  }

  /**
   In the documented example, a lease of 30 seconds, the attempts certain to reach the registry in
   time are exactly four with instantaneous calls, and three up to a latency of 3.5 seconds.
   */
  lemma {:induction false} ThirtySecondLeaseFitsFour(k: nat, latency: nat)
    requires k > 0
    ensures AlwaysFit(k, 30, DEFAULT_CONFIG, 0) <==> k <= 4
    ensures AlwaysFit(3, 30, DEFAULT_CONFIG, latency) <==> 2 * latency <= 7 * NANOS_PER_SECOND
  {
    hide MaxDelaySum, AlwaysFit;
    DefaultDelaySums();
    AttemptsFitIff(k, 30, DEFAULT_CONFIG, 0);
    AttemptsFitIff(3, 30, DEFAULT_CONFIG, latency);
    if k <= 4 {
      MaxDelaySumMonotone(DEFAULT_CONFIG, k - 1, 3);
    } else {
      MaxDelaySumMonotone(DEFAULT_CONFIG, 4, k - 1);
    }
  }
}
