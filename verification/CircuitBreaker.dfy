/**
 The per-target circuit breaker with calls taken one at a time. Clock readings are nanoseconds
 since the breaker was created; a call reads the clock once.
 */
module CircuitBreaker {
  import opened MachineInt

  datatype Mode = Closed | Open | HalfOpen

  datatype Config = Config(failureThreshold: u32, recoveryTimeout: Duration, halfOpenMaxProbes: u32)

  /** The four atomic cells. */
  datatype Breaker = Breaker(mode: Mode, failures: u32, probes: u32, openedAt: u64)

  const NEW_BREAKER := Breaker(Closed, 0, 0, 0)

  /** An opening instant of zero means "not opened", so it never times out. */
  predicate TimedOut(config: Config, openedAt: u64, now: nat) {
    openedAt != 0 && Max(now - openedAt, 0) >= config.recoveryTimeout
  }

  function Refreshed(config: Config, b: Breaker, now: nat): Breaker {
    if b.mode == Open && TimedOut(config, b.openedAt, now)
    then b.(mode := HalfOpen, probes := 0, failures := 0)
    else b
  }

  function Opened(b: Breaker, now: nat): Breaker {
    b.(mode := Open, openedAt := Recorded(now), probes := 0)
  }

  /** An instant as the opening cell holds it, in 64 bits. */
  function Recorded(now: nat): u64 {
    now % (U64_MAX + 1)
  }

  datatype Call = QueryState(now: nat) | Allow(now: nat) | Success(now: nat) | Failed(now: nat)

  predicate Admits(config: Config, b: Breaker, call: Call) {
    var r := Refreshed(config, b, call.now);
    call.Allow? && (r.mode == Closed || (r.mode == HalfOpen && r.probes < config.halfOpenMaxProbes))
  }

  /** `fetch_add` wraps; the value compared with the threshold saturates. */
  function Step(config: Config, b: Breaker, call: Call): Breaker {
    var r := Refreshed(config, b, call.now);
    match call
    case QueryState(_) => r
    case Allow(_) => if r.mode == HalfOpen && r.probes < config.halfOpenMaxProbes then r.(probes := r.probes + 1) else r
    case Success(_) => NEW_BREAKER
    case Failed(now) =>
      if r.mode == HalfOpen then Opened(r, now)
      else
        var counted := r.(failures := (r.failures + 1) % (U32_MAX + 1));
        if SaturatingAdd(r.failures, 1, U32_MAX) >= config.failureThreshold then Opened(counted, now) else counted
  }

  class CircuitBreaker {
    const config: Config
    var mode: Mode
    var consecutiveFailures: u32
    var halfOpenProbes: u32
    var openedAtNanos: u64

    function View(): Breaker
      reads this
    {
      Breaker(mode, consecutiveFailures, halfOpenProbes, openedAtNanos)
    }

    constructor (config: Config)
      ensures this.config == config && View() == NEW_BREAKER
    {
      this.config := config;
      mode := Closed;
      consecutiveFailures, halfOpenProbes, openedAtNanos := 0, 0, 0;
    }

    method RefreshState(now: nat)
      modifies this
      ensures View() == Refreshed(config, old(View()), now)
    {
      if mode != Open {
        return;
      }
      if openedAtNanos == 0 {
        return;
      }
      var elapsed := Max(now - openedAtNanos, 0);
      if elapsed < config.recoveryTimeout {
        return;
      }
      mode := HalfOpen;
      halfOpenProbes := 0;
      consecutiveFailures := 0;
    }

    method State(now: nat) returns (m: Mode)
      modifies this
      ensures View() == Step(config, old(View()), QueryState(now)) && m == mode
    {
      RefreshState(now);
      m := mode;
    }

    /** Without other threads the first exchange succeeds, so the retry loop has one round. */
    method AcquireHalfOpenProbe() returns (admitted: bool)
      modifies this`halfOpenProbes
      ensures admitted == (old(halfOpenProbes) < config.halfOpenMaxProbes)
      ensures halfOpenProbes == old(halfOpenProbes) + (if admitted then 1 else 0)
    {
      var observed := halfOpenProbes;
      if observed >= config.halfOpenMaxProbes {
        return false;
      }
      halfOpenProbes := SaturatingAdd(observed, 1, U32_MAX);
      admitted := true;
    }

    method AllowRequest(now: nat) returns (admitted: bool)
      modifies this
      ensures admitted == Admits(config, old(View()), Allow(now))
      ensures View() == Step(config, old(View()), Allow(now))
    {
      RefreshState(now);
      match mode
      case Closed => admitted := true;
      case Open => admitted := false;
      case HalfOpen => admitted := AcquireHalfOpenProbe();
    }

    method RecordSuccess(now: nat)
      modifies this
      ensures View() == Step(config, old(View()), Success(now))
    {
      RefreshState(now);
      mode := Closed;
      consecutiveFailures := 0;
      halfOpenProbes := 0;
      openedAtNanos := 0;
    }

    method RecordFailure(now: nat)
      modifies this
      ensures View() == Step(config, old(View()), Failed(now))
    {
      RefreshState(now);
      if mode == HalfOpen {
        OpenAt(now);
        return;
      }
      var failures := SaturatingAdd(consecutiveFailures, 1, U32_MAX);
      consecutiveFailures := (consecutiveFailures + 1) % (U32_MAX + 1);
      if failures >= config.failureThreshold {
        OpenAt(now);
      }
    }

    method OpenAt(now: nat)
      modifies this
      ensures View() == Opened(old(View()), now)
    {
      mode := Open;
      openedAtNanos := Recorded(now);
      halfOpenProbes := 0;
    }
  }

  // ---- Runs from creation: the closed state is a function of the recorded outcomes ----

  function After(config: Config, calls: seq<Call>): Breaker {
    if calls == [] then NEW_BREAKER
    else Step(config, After(config, calls[..|calls| - 1]), calls[|calls| - 1])
  }

  /** Failures recorded since the last success, or since creation. */
  function FailureRun(calls: seq<Call>): nat {
    if calls == [] then 0
    else
      var before := FailureRun(calls[..|calls| - 1]);
      match calls[|calls| - 1]
      case Success(_) => 0
      case Failed(_) => before + 1
      case _ => before
  }

  function Limit(config: Config): nat {
    Max(1, config.failureThreshold)
  }

  /**
   History refinement: whatever the clock does, the breaker is closed exactly while the current
   failure run is shorter than the threshold (at least 1), and then counts that run exactly.
   */
  lemma {:induction false} ClosedIffShortFailureRun(config: Config, calls: seq<Call>)
    ensures After(config, calls).mode == Closed <==> FailureRun(calls) < Limit(config)
    ensures After(config, calls).mode == Closed ==> After(config, calls).failures == FailureRun(calls)
    decreases |calls|
  {
    if calls != [] {
      ClosedIffShortFailureRun(config, calls[..|calls| - 1]);
    }
  }

  /** The breaker leaves Closed exactly on the failure that brings the run to the threshold. */
  lemma {:induction false} LeavesClosedExactlyAtThreshold(config: Config, calls: seq<Call>, call: Call)
    requires After(config, calls).mode == Closed
    ensures After(config, calls + [call]).mode != Closed
            <==> call.Failed? && FailureRun(calls) + 1 == Limit(config)
  {
    ClosedIffShortFailureRun(config, calls);
    ClosedIffShortFailureRun(config, calls + [call]);
    assert (calls + [call])[..|calls|] == calls;
  }

  // ---- Runs from an opening ----

  /** The breaker after `calls`, and the admission answer of each of them. */
  function Run(config: Config, b: Breaker, calls: seq<Call>): (r: (Breaker, seq<bool>))
    ensures |r.1| == |calls|
    decreases |calls|
  {
    if calls == [] then (b, [])
    else
      var (end, answers) := Run(config, Step(config, b, calls[0]), calls[1..]);
      (end, [Admits(config, b, calls[0])] + answers)
  }

  predicate InWindow(config: Config, calls: seq<Call>, start: nat) {
    forall i :: 0 <= i < |calls| ==> !calls[i].Success? && start <= calls[i].now < start + config.recoveryTimeout
  }

  /** No failure is recorded, after truncation to 64 bits, as an earlier nonzero instant. */
  predicate RecordedInOrder(calls: seq<Call>, start: nat) {
    forall i :: 0 <= i < |calls| && calls[i].Failed? ==> Recorded(calls[i].now) == 0 || Recorded(calls[i].now) >= start
  }

  /**
   Blackout: while an open breaker's instant is zero or not before `start`, no sequence of queries,
   requests and failures within the recovery timeout from `start` admits anything, and failures can
   only move the window later.
   */
  lemma {:induction false} Blackout(config: Config, b: Breaker, calls: seq<Call>, start: nat)
    requires b.mode == Open && (b.openedAt == 0 || b.openedAt >= start)
    requires InWindow(config, calls, start) && RecordedInOrder(calls, start)
    ensures var (end, answers) := Run(config, b, calls);
            && (forall i :: 0 <= i < |calls| ==> !answers[i])
            && end.mode == Open && (end.openedAt == 0 || end.openedAt >= start)
    decreases |calls|
  {
    if calls != [] {
      Reopening(config, b, calls[0], start);
      Blackout(config, Step(config, b, calls[0]), calls[1..], start);
    }
  }

  lemma {:induction false} Reopening(config: Config, b: Breaker, call: Call, start: nat)
    requires b.mode == Open && (b.openedAt == 0 || b.openedAt >= start)
    requires !call.Success? && call.now < start + config.recoveryTimeout && config.recoveryTimeout > 0
    ensures !Admits(config, b, call)
    ensures Step(config, b, call).mode == Open
    ensures Step(config, b, call).openedAt == b.openedAt
            || (call.Failed? && Step(config, b, call).openedAt == Recorded(call.now))
  {
    hide Recorded;
  }

  /** A failed trial reopens the breaker and starts the blackout afresh, at the instant of the failure. */
  lemma {:induction false} FailedTrialRestartsBlackout(config: Config, b: Breaker, now: nat, calls: seq<Call>)
    requires b.mode == HalfOpen && (Recorded(now) == 0 || Recorded(now) >= now)
    requires InWindow(config, calls, now) && RecordedInOrder(calls, now)
    ensures var (end, answers) := Run(config, Step(config, b, Failed(now)), calls);
            && end.mode == Open && (end.openedAt == 0 || end.openedAt >= now)
            && forall i :: 0 <= i < |calls| ==> !answers[i]
  {
    hide Recorded;
    Blackout(config, Step(config, b, Failed(now)), calls, now);
  }

  // ---- Exactly when the blackout can be left early ----

  ghost predicate LeavesBlackoutEarly(config: Config, b: Breaker) {
    exists calls, k :: InWindow(config, calls, b.openedAt) && 0 <= k < |calls| && Run(config, b, calls).1[k]
  }

  lemma {:induction false} NeverClosedNoProbes(config: Config, b: Breaker, calls: seq<Call>, k: nat)
    requires b.mode != Closed && config.halfOpenMaxProbes == 0 && k < |calls|
    requires forall i :: 0 <= i < |calls| ==> !calls[i].Success?
    ensures !Run(config, b, calls).1[k]
    decreases |calls|
  {
    hide Recorded;
    if k > 0 {
      NeverClosedNoProbes(config, Step(config, b, calls[0]), calls[1..], k - 1);
    }
  }

  /** Enough failures at one instant inside the window move the recorded opening to it. */
  lemma {:induction false} ReopenedBy(config: Config, b: Breaker, now: nat) returns (calls: seq<Call>)
    requires b.mode == Open && config.recoveryTimeout > 0 && (b.openedAt == 0 || now < b.openedAt + config.recoveryTimeout)
    ensures forall i :: 0 <= i < |calls| ==> calls[i] == Failed(now)
    ensures var end := Run(config, b, calls).0; end.mode == Open && end.openedAt == Recorded(now) && end.probes == 0
    decreases config.failureThreshold - b.failures
  {
    hide Recorded;
    var next := Step(config, b, Failed(now));
    if SaturatingAdd(b.failures, 1, U32_MAX) >= config.failureThreshold {
      calls := [Failed(now)];
      assert Run(config, next, []).0 == next;
    } else {
      assert next == b.(failures := b.failures + 1);
      var rest := ReopenedBy(config, next, now);
      calls := [Failed(now)] + rest;
      assert calls[1..] == rest;
    }
  }

  lemma {:induction false} RunConcat(config: Config, b: Breaker, first: seq<Call>, last: Call)
    ensures Run(config, b, first + [last]).1[|first|] == Admits(config, Run(config, b, first).0, last)
    decreases |first|
  {
    if first != [] {
      assert (first + [last])[1..] == first[1..] + [last];
      RunConcat(config, Step(config, b, first[0]), first[1..], last);
    }
  }

  /** The condition for a truncated instant to end the blackout. */
  predicate WrapReaches(config: Config, b: Breaker) {
    config.halfOpenMaxProbes > 0 && b.openedAt >= 2 && b.openedAt + config.recoveryTimeout > U64_MAX + 2
  }

  lemma {:induction false} RecordedNearWrap(now: nat)
    ensures now <= U64_MAX ==> Recorded(now) == now
    ensures Recorded(U64_MAX + 1) == 0 && Recorded(U64_MAX + 2) == 1
  {
  }

  lemma EarlyAdmission(config: Config, b: Breaker)
    requires b.mode == Open && WrapReaches(config, b)
    ensures LeavesBlackoutEarly(config, b)
  {
    RecordedNearWrap(0);
    hide Recorded;
    var failures := ReopenedBy(config, b, U64_MAX + 2);
    var last := b.openedAt + config.recoveryTimeout - 1;
    RunConcat(config, b, failures, Allow(last));
    var calls := failures + [Allow(last)];
    assert InWindow(config, calls, b.openedAt);
    assert Run(config, b, calls).1[|failures|];
  }

  /**
   The blackout after an opening at a nonzero instant can be left early, by queries, requests and
   failures alone, exactly when the window reaches past the 64-bit nanosecond range (584 years), so
   that a failure is recorded as an instant near zero.
   */
  lemma BlackoutLeftEarlyIff(config: Config, b: Breaker)
    requires b.mode == Open && b.openedAt != 0
    ensures LeavesBlackoutEarly(config, b) <==> WrapReaches(config, b)
  {
    if WrapReaches(config, b) {
      EarlyAdmission(config, b);
    } else {
      hide Run;
      forall calls: seq<Call>, k | InWindow(config, calls, b.openedAt) && 0 <= k < |calls| ensures !Run(config, b, calls).1[k] {
        if config.halfOpenMaxProbes == 0 {
          NeverClosedNoProbes(config, b, calls, k);
        } else {
          assert RecordedInOrder(calls, b.openedAt) by {
            forall i | 0 <= i < |calls| && calls[i].Failed?
              ensures Recorded(calls[i].now) == 0 || Recorded(calls[i].now) >= b.openedAt
            {
              RecordedNearWrap(calls[i].now);
            }
          }
          Blackout(config, b, calls, b.openedAt);
        }
      }
    }
  }

  /** Queries and requests only: no outcome is recorded. */
  predicate NoOutcome(calls: seq<Call>) {
    forall i :: 0 <= i < |calls| ==> calls[i].QueryState? || calls[i].Allow?
  }

  predicate Chronological(calls: seq<Call>) {
    forall i, j :: 0 <= i < j < |calls| ==> calls[i].now <= calls[j].now
  }

  /** Requests made at or after an instant. */
  function RequestsSince(calls: seq<Call>, from: nat): nat
    decreases |calls|
  {
    if calls == [] then 0
    else (if calls[0].Allow? && calls[0].now >= from then 1 else 0) + RequestsSince(calls[1..], from)
  }

  /** Half-open: exactly the first free probe slots are admitted until an outcome is recorded. */
  lemma {:induction false} HalfOpenQuota(config: Config, b: Breaker, calls: seq<Call>, k: nat)
    requires b.mode == HalfOpen && NoOutcome(calls) && k < |calls|
    ensures Run(config, b, calls).1[k]
            <==> calls[k].Allow? && b.probes + RequestsSince(calls[..k], 0) < config.halfOpenMaxProbes
    decreases |calls|
  {
    if k > 0 {
      assert calls[..k][1..] == calls[1..][..k - 1];
      var next := Step(config, b, calls[0]);
      HalfOpenQuota(config, next, calls[1..], k - 1);
      QuotaStep(config, b, calls[0], RequestsSince(calls[1..][..k - 1], 0));
    } else {
      assert calls[..0] == [];
    }
  }

  lemma {:induction false} QuotaStep(config: Config, b: Breaker, call: Call, later: nat)
    requires b.mode == HalfOpen && (call.QueryState? || call.Allow?)
    ensures Step(config, b, call).mode == HalfOpen
    ensures Step(config, b, call).probes + later < config.halfOpenMaxProbes
            <==> b.probes + (if call.Allow? then 1 else 0) + later < config.halfOpenMaxProbes
  {
  }

  /**
   Trial quota: after an opening at a nonzero instant, an outcome-free sequence of calls is
   answered exactly so: a request is admitted iff the recovery timeout has passed and fewer than
   `half_open_max_probes` requests were made since it passed.
   */
  lemma {:induction false} TrialQuota(config: Config, b: Breaker, calls: seq<Call>, k: nat)
    requires b.mode == Open && b.openedAt != 0
    requires NoOutcome(calls) && Chronological(calls) && k < |calls| && b.openedAt <= calls[0].now
    ensures var due := b.openedAt + config.recoveryTimeout;
            Run(config, b, calls).1[k]
            <==> calls[k].Allow? && calls[k].now >= due && RequestsSince(calls[..k], due) < config.halfOpenMaxProbes
    decreases |calls|
  {
    var due := b.openedAt + config.recoveryTimeout;
    if calls[0].now >= due {
      var halfOpen := Refreshed(config, b, calls[0].now);
      assert Run(config, b, calls) == Run(config, halfOpen, calls);
      HalfOpenQuota(config, halfOpen, calls, k);
      AllAreSince(calls[..k], due);
    } else {
      if k > 0 {
        assert calls[..k][1..] == calls[1..][..k - 1];
        TrialQuota(config, b, calls[1..], k - 1);
      }
    }
  }

  lemma {:induction false} AllAreSince(calls: seq<Call>, from: nat)
    requires forall i :: 0 <= i < |calls| ==> calls[i].now >= from
    ensures RequestsSince(calls, from) == RequestsSince(calls, 0)
    decreases |calls|
  {
    if calls != [] {
      AllAreSince(calls[1..], from);
    }
  }

  // ---- The zero instant ----

  /** An opening recorded as instant zero admits nothing until an outcome is recorded. */
  lemma {:induction false} ZeroInstantNeverRecovers(config: Config, b: Breaker, calls: seq<Call>, k: nat)
    requires b.mode == Open && b.openedAt == 0 && NoOutcome(calls) && k < |calls|
    ensures !Run(config, b, calls).1[k]
    decreases |calls|
  {
    if k > 0 {
      ZeroInstantNeverRecovers(config, b, calls[1..], k - 1);
    }
  }

  ghost predicate CanAdmitAgain(config: Config, b: Breaker) {
    exists calls, k :: NoOutcome(calls) && 0 <= k < |calls| && Run(config, b, calls).1[k]
  }

  /**
   An open breaker can recover by the passage of time exactly when its opening instant was not
   recorded as zero and the configuration grants a probe at all.
   */
  lemma RecoversByTimeIff(config: Config, b: Breaker)
    requires b.mode == Open
    ensures CanAdmitAgain(config, b) <==> b.openedAt != 0 && config.halfOpenMaxProbes > 0
  {
    if b.openedAt != 0 && config.halfOpenMaxProbes > 0 {
      var calls := [Allow(b.openedAt + config.recoveryTimeout)];
      assert NoOutcome(calls) && 0 <= 0 < |calls| && Run(config, b, calls).1[0];
    } else if CanAdmitAgain(config, b) {
      var calls, k :| NoOutcome(calls) && 0 <= k < |calls| && Run(config, b, calls).1[k];
      if b.openedAt == 0 {
        ZeroInstantNeverRecovers(config, b, calls, k);
      } else {
        NeverClosedNoProbes(config, b, calls, k);
      }
    }
  }

  /** Open with the instant that stands for "not opened". */
  predicate Stranded(b: Breaker) {
    b.mode == Open && b.openedAt == 0
  }

  /** One call at a time, only a failure read at a multiple of 2^64 nanoseconds strands the breaker. */
  lemma {:induction false} StrandedNeedsZeroReading(config: Config, calls: seq<Call>)
    requires forall i :: 0 <= i < |calls| && calls[i].Failed? ==> Recorded(calls[i].now) != 0
    ensures !Stranded(After(config, calls))
    decreases |calls|
  {
    hide Recorded;
    if calls != [] {
      StrandedNeedsZeroReading(config, calls[..|calls| - 1]);
    }
  }

  /** The first `n` failures at one reading, from creation. */
  function FailuresAt(now: nat, n: nat): seq<Call> {
    seq(n, _ => Failed(now))
  }

  lemma {:induction false} OpenedByFailuresAt(config: Config, now: nat, n: nat)
    requires n <= Limit(config)
    ensures var b := After(config, FailuresAt(now, n));
            if n < Limit(config) then b == Breaker(Closed, n, 0, 0) else b.mode == Open && b.openedAt == Recorded(now)
    decreases n
  {
    hide Recorded;
    if n > 0 {
      assert FailuresAt(now, n)[..n - 1] == FailuresAt(now, n - 1);
      OpenedByFailuresAt(config, now, n - 1);
    }
  }

  /**
   For every configuration, calls that all read the clock at `now` can strand a new breaker exactly
   when that reading is recorded as zero: the very instant of creation, or a multiple of 2^64.
   */
  lemma {:induction false} StrandedAtIff(config: Config, now: nat)
    ensures (exists calls: seq<Call> :: (forall i :: 0 <= i < |calls| ==> calls[i].now == now) && Stranded(After(config, calls)))
            <==> Recorded(now) == 0
    ensures forall calls :: Stranded(After(config, calls)) ==> !CanAdmitAgain(config, After(config, calls))
  {
    hide Recorded, CanAdmitAgain;
    if Recorded(now) == 0 {
      OpenedByFailuresAt(config, now, Limit(config));
      assert Stranded(After(config, FailuresAt(now, Limit(config))));
    } else {
      forall calls: seq<Call> | forall i :: 0 <= i < |calls| ==> calls[i].now == now ensures !Stranded(After(config, calls)) {
        StrandedNeedsZeroReading(config, calls);
      }
    }
    forall calls | Stranded(After(config, calls)) ensures !CanAdmitAgain(config, After(config, calls)) {
      RecoversByTimeIff(config, After(config, calls));
    }
  }
}
