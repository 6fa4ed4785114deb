/**
 Retry policy, the per-call budget and the two retry decision paths: the deadline path that only
 sees a status code, and the pushback path that also honours `grpc-retry-pushback-ms`.
 */
module Retry {
  import opened MachineInt
  import opened Wrappers
  import Backoff
  import Decimal

  datatype Code =
    | Ok | Cancelled | Unknown | InvalidArgument | DeadlineExceeded | NotFound | AlreadyExists
    | PermissionDenied | ResourceExhausted | FailedPrecondition | Aborted | OutOfRange
    | Unimplemented | Internal | Unavailable | DataLoss | Unauthenticated

  datatype Profile = RpcDefault | RpcReadOnly | RpcIdempotentWrite | RpcCriticalWrite | RpcStream | RpcLocalDev

  datatype RetryPolicy = RetryPolicy(
    maxAttempts: u32,
    retryBudget: u32,
    initialBackoffMs: u64,
    maxBackoffMs: u64,
    retryableCodes: seq<Code>)

  function ForProfile(profile: Profile): RetryPolicy {
    match profile
    case RpcReadOnly => RetryPolicy(3, 32, 50, 2_000, [Unavailable, ResourceExhausted])
    case RpcIdempotentWrite => RetryPolicy(2, 16, 100, 2_000, [Unavailable])
    case RpcCriticalWrite => RetryPolicy(1, 4, 100, 500, [])
    case RpcStream => RetryPolicy(1, 4, 100, 500, [])
    case RpcLocalDev => RetryPolicy(5, 64, 25, 1_000, [Unavailable, ResourceExhausted])
    case RpcDefault => RetryPolicy(3, 24, 50, 2_000, [Unavailable])
  }

  /** A status with the text of its pushback trailer, if any. */
  datatype Status = Status(code: Code, pushbackTrailer: Option<string>)

  datatype RetryAdmission = RetryAdmission(methodRequiresIdempotency: bool, hasIdempotencyKey: bool) {
    predicate AllowsRetryMetadata() {
      !(methodRequiresIdempotency && !hasIdempotencyKey)
    }
  }

  datatype RetryDecision = Stop | Retry(backoffMs: u64)

  /** `Duration::MAX` in whole milliseconds: the deadline of the deadline-ignoring wrappers. */
  const NO_DEADLINE_MS: nat := DURATION_MAX / NANOS_PER_MILLI

  // ---- Deadline arithmetic ----

  const MIN_RPC_DEADLINE_RESERVE_MS: u64 := 10

  /** Time kept for the retried call itself. */
  function Reserve(backoffMs: u64): u64 {
    Max(backoffMs / 2, MIN_RPC_DEADLINE_RESERVE_MS)
  }

  /** `remainingMs` is the 128-bit millisecond count of the remaining deadline. */
  predicate DeadlineCoversBackoff(backoffMs: u64, remainingMs: nat) {
    var requiredMs := SaturatingAdd(backoffMs, Reserve(backoffMs), U64_MAX);
    if remainingMs <= U64_MAX then remainingMs >= requiredMs else true
  }

  /** Saturation and the 64-bit conversion only show at the very top of the range. */
  lemma {:induction false} DeadlineCoversExactly(backoffMs: u64, remainingMs: nat)
    ensures DeadlineCoversBackoff(backoffMs, remainingMs)
            <==> backoffMs + Reserve(backoffMs) <= remainingMs || remainingMs >= U64_MAX
  {
  }

  // ---- Pushback trailer ----

  /** `text.parse::<u64>()`: an optional plus sign, at least one digit, no overflow. */
  function ParseU64(text: string): Option<u64> {
    var digits := if |text| > 0 && text[0] == '+' then text[1..] else text;
    if |digits| > 0 && Decimal.AllDigits(digits) && Decimal.Value(digits) <= U64_MAX
    then Some(Decimal.Value(digits))
    else None
  }

  function ExtractRetryPushbackMs(status: Status): Option<u64> {
    match status.pushbackTrailer
    case None => None
    case Some(text) => ParseU64(text)
  }

  /** Every millisecond count a server prints is read back; larger numbers and signs are refused. */
  lemma {:induction false} PushbackRoundTrip(ms: nat, code: Code)
    ensures ms <= U64_MAX ==> ExtractRetryPushbackMs(Status(code, Some(Decimal.Print(ms)))) == Some(ms)
    ensures ms > U64_MAX ==> ExtractRetryPushbackMs(Status(code, Some(Decimal.Print(ms)))) == None
    ensures ExtractRetryPushbackMs(Status(code, Some("-" + Decimal.Print(ms)))) == None
  {
    Decimal.ValueOfPrint(ms);
    assert Decimal.IsDigit(Decimal.Print(ms)[0]);
    assert !Decimal.IsDigit(("-" + Decimal.Print(ms))[0]);
  }

  /** A trailer is read exactly when it is one or more digits, with or without a plus sign, within 64 bits. */
  lemma {:induction false} PushbackReadsIff(text: string, ms: nat)
    ensures ParseU64(text) == Some(ms)
            <==> exists digits: string ::
                   && digits != "" && (text == digits || text == "+" + digits)
                   && Decimal.AllDigits(digits) && Decimal.Value(digits) == ms && ms <= 0xFFFF_FFFF_FFFF_FFFF
  {
    var digits := if |text| > 0 && text[0] == '+' then text[1..] else text;
    assert |text| > 0 && text[0] == '+' ==> text == "+" + digits;
    if given: string :| given != "" && (text == given || text == "+" + given) && Decimal.AllDigits(given)
                        && Decimal.Value(given) == ms && ms <= U64_MAX
    {
      assert Decimal.IsDigit(given[0]);
      assert text == "+" + given ==> text[1..] == given;
      assert digits == given;
    }
  }

  // ---- The two decision paths, as functions of the budget value ----

  predicate JitterDraw(policy: RetryPolicy, attempt: u32, draw: nat) {
    Backoff.RetryDraw(policy.initialBackoffMs, policy.maxBackoffMs, attempt, draw)
  }

  function RetryBackoffMs(policy: RetryPolicy, attempt: u32, draw: nat): u64
    requires JitterDraw(policy, attempt, draw)
  {
    Backoff.RetryBackoffMs(policy.initialBackoffMs, policy.maxBackoffMs, attempt, draw)
  }

  function EffectiveRetryBackoffMs(policy: RetryPolicy, attempt: u32, pushbackMs: Option<u64>, draw: nat): u64
    requires JitterDraw(policy, attempt, draw)
  {
    match pushbackMs
    case Some(ms) => Min(ms, policy.maxBackoffMs)
    case None => RetryBackoffMs(policy, attempt, draw)
  }

  predicate AllowsRetry(policy: RetryPolicy, code: Code, remainingBudget: u32) {
    remainingBudget > 0 && code in policy.retryableCodes
  }

  /** Whether a token is granted, and the budget left. */
  function Consumed(budget: u32): (bool, u32) {
    if budget == 0 then (false, 0) else (true, budget - 1)
  }

  /** Deadline path: whether to retry, and the budget left. */
  function DeadlinePath(policy: RetryPolicy, code: Code, attempt: u32, budget: u32,
                        remainingMs: nat, draw: nat): (bool, u32)
    requires JitterDraw(policy, attempt, draw)
  {
    if attempt >= policy.maxAttempts then (false, budget)
    else if !AllowsRetry(policy, code, budget) then (false, budget)
    else
      var backoffMs := RetryBackoffMs(policy, attempt, draw);
      if !DeadlineCoversBackoff(backoffMs, remainingMs) then (false, budget) else Consumed(budget)
  }

  /** Deadline path behind the idempotency gate. */
  function AdmittedDeadlinePath(policy: RetryPolicy, code: Code, attempt: u32, budget: u32,
                                admission: RetryAdmission, remainingMs: nat, draw: nat): (bool, u32)
    requires JitterDraw(policy, attempt, draw)
  {
    if !admission.AllowsRetryMetadata() then (false, budget)
    else DeadlinePath(policy, code, attempt, budget, remainingMs, draw)
  }

  /** Pushback path: the decision, and the budget left. */
  function PushbackPath(policy: RetryPolicy, status: Status, attempt: u32, budget: u32,
                        admission: RetryAdmission, remainingMs: nat, draw: nat): (RetryDecision, u32)
    requires JitterDraw(policy, attempt, draw)
  {
    if !admission.AllowsRetryMetadata() then (Stop, budget)
    else if attempt >= policy.maxAttempts then (Stop, budget)
    else
      var pushbackMs := if status.code == ResourceExhausted then ExtractRetryPushbackMs(status) else None;
      var codeAllowed := if status.code == ResourceExhausted
                         then pushbackMs.Some? && status.code in policy.retryableCodes
                         else status.code in policy.retryableCodes;
      if !codeAllowed then (Stop, budget)
      else
        var backoffMs := EffectiveRetryBackoffMs(policy, attempt, pushbackMs, draw);
        if !DeadlineCoversBackoff(backoffMs, remainingMs) then (Stop, budget)
        else
          var (granted, left) := Consumed(budget);
          if !granted then (Stop, left) else (Retry(backoffMs), left)
  }

  /**
   The deadline left covers the backoff and half of it again, at least ten milliseconds, or is so long
   that it counts as unbounded.
   */
  predicate FitsDeadline(backoffMs: u64, remainingMs: nat) {
    || remainingMs >= 0xFFFF_FFFF_FFFF_FFFF
    || backoffMs + (if backoffMs / 2 >= 10 then backoffMs / 2 else 10) <= remainingMs
  }

  // ---- The tracker the source mutates ----

  class RetryBudgetTracker {
    var remaining: u32

    constructor (budget: u32)
      ensures remaining == budget
    {
      remaining := budget;
    }

    method Consume() returns (granted: bool)
      modifies this
      ensures (granted, remaining) == Consumed(old(remaining))
    {
      if remaining == 0 {
        return false;
      }
      remaining := remaining - 1;
      granted := true;
    }
  }

  method ShouldRetryWithDeadline(policy: RetryPolicy, code: Code, attempt: u32, budget: RetryBudgetTracker,
                                 remainingMs: nat, draw: nat) returns (retry: bool)
    requires JitterDraw(policy, attempt, draw)
    modifies budget
    ensures (retry, budget.remaining)
            == DeadlinePath(policy, code, attempt, old(budget.remaining), remainingMs, draw)
    ensures retry <==> && attempt < policy.maxAttempts && code in policy.retryableCodes && old(budget.remaining) > 0
                       && FitsDeadline(
                            Backoff.RetryBackoffMs(policy.initialBackoffMs, policy.maxBackoffMs, attempt, draw), remainingMs)
    ensures budget.remaining == old(budget.remaining) - (if retry then 1 else 0)
  {
    if attempt >= policy.maxAttempts {
      return false;
    }
    if !AllowsRetry(policy, code, budget.remaining) {
      return false;
    }
    var backoffMs := RetryBackoffMs(policy, attempt, draw);
    if !DeadlineCoversBackoff(backoffMs, remainingMs) {
      return false;
    }
    retry := budget.Consume();
  }

  method ShouldRetryCallWithDeadline(policy: RetryPolicy, code: Code, attempt: u32, budget: RetryBudgetTracker,
                                     admission: RetryAdmission, remainingMs: nat, draw: nat)
    returns (retry: bool)
    requires JitterDraw(policy, attempt, draw)
    modifies budget
    ensures (retry, budget.remaining)
            == AdmittedDeadlinePath(policy, code, attempt, old(budget.remaining), admission, remainingMs, draw)
    ensures retry <==> && (admission.methodRequiresIdempotency ==> admission.hasIdempotencyKey)
                       && attempt < policy.maxAttempts && code in policy.retryableCodes && old(budget.remaining) > 0
                       && FitsDeadline(
                            Backoff.RetryBackoffMs(policy.initialBackoffMs, policy.maxBackoffMs, attempt, draw), remainingMs)
    ensures budget.remaining == old(budget.remaining) - (if retry then 1 else 0)
  {
    if !admission.AllowsRetryMetadata() {
      return false;
    }
    retry := ShouldRetryWithDeadline(policy, code, attempt, budget, remainingMs, draw);
  }

  method ShouldRetryCallWithPushback(policy: RetryPolicy, status: Status, attempt: u32, budget: RetryBudgetTracker,
                                     admission: RetryAdmission, remainingMs: nat, draw: nat)
    returns (decision: RetryDecision)
    requires JitterDraw(policy, attempt, draw)
    modifies budget
    ensures (decision, budget.remaining)
            == PushbackPath(policy, status, attempt, old(budget.remaining), admission, remainingMs, draw)
    ensures var pushback := if status.code == ResourceExhausted then ExtractRetryPushbackMs(status) else None;
            var backoffMs :=
              if pushback == None
              then Backoff.RetryBackoffMs(policy.initialBackoffMs, policy.maxBackoffMs, attempt, draw)
              else if pushback.value <= policy.maxBackoffMs then pushback.value
              else policy.maxBackoffMs;
            var retry :=
              && (admission.methodRequiresIdempotency ==> admission.hasIdempotencyKey)
              && attempt < policy.maxAttempts && status.code in policy.retryableCodes && old(budget.remaining) > 0
              && (status.code == ResourceExhausted ==> pushback.Some?)
              && FitsDeadline(backoffMs, remainingMs);
            && decision == (if retry then Retry(backoffMs) else Stop)
            && budget.remaining == old(budget.remaining) - (if retry then 1 else 0)
  {
    if !admission.AllowsRetryMetadata() {
      return Stop;
    }
    if attempt >= policy.maxAttempts {
      return Stop;
    }
    var code := status.code;
    var pushbackMs: Option<u64> := None;
    if code == ResourceExhausted {
      pushbackMs := ExtractRetryPushbackMs(status);
    }
    var codeAllowed := code in policy.retryableCodes;
    if code == ResourceExhausted {
      codeAllowed := pushbackMs.Some? && code in policy.retryableCodes;
    }
    if !codeAllowed {
      return Stop;
    }
    var backoffMs := EffectiveRetryBackoffMs(policy, attempt, pushbackMs, draw);
    if !DeadlineCoversBackoff(backoffMs, remainingMs) {
      return Stop;
    }
    var granted := budget.Consume();
    if !granted {
      return Stop;
    }
    decision := Retry(backoffMs);
  }

  // ---- What the decisions are ----

  /** The deadline path, in the fields it depends on. */
  lemma {:induction false} DeadlinePathIff(policy: RetryPolicy, code: Code, attempt: u32, budget: u32,
                        admission: RetryAdmission, remainingMs: nat, draw: nat)
    requires JitterDraw(policy, attempt, draw)
    ensures var (retry, left) := AdmittedDeadlinePath(policy, code, attempt, budget, admission, remainingMs, draw);
            && (retry <==> && (admission.methodRequiresIdempotency ==> admission.hasIdempotencyKey)
                           && attempt < policy.maxAttempts && code in policy.retryableCodes && budget > 0
                           && FitsDeadline(
                            Backoff.RetryBackoffMs(policy.initialBackoffMs, policy.maxBackoffMs, attempt, draw), remainingMs))
            && left == budget - (if retry then 1 else 0)
  {
  }

  /**
   The pushback path, in the fields it depends on: on RESOURCE_EXHAUSTED a readable pushback is needed
   and, capped, is the backoff; on other codes the trailer is ignored.
   */
  lemma {:induction false} PushbackPathIff(policy: RetryPolicy, status: Status, attempt: u32, budget: u32,
                        admission: RetryAdmission, remainingMs: nat, draw: nat)
    requires JitterDraw(policy, attempt, draw)
    ensures var (decision, left) := PushbackPath(policy, status, attempt, budget, admission, remainingMs, draw);
            var pushback := if status.code == ResourceExhausted then ExtractRetryPushbackMs(status) else None;
            var backoffMs :=
              if pushback == None
              then Backoff.RetryBackoffMs(policy.initialBackoffMs, policy.maxBackoffMs, attempt, draw)
              else if pushback.value <= policy.maxBackoffMs then pushback.value
              else policy.maxBackoffMs;
            var retry :=
              && (admission.methodRequiresIdempotency ==> admission.hasIdempotencyKey)
              && attempt < policy.maxAttempts && status.code in policy.retryableCodes && budget > 0
              && (status.code == ResourceExhausted ==> pushback.Some?)
              && FitsDeadline(backoffMs, remainingMs);
            && decision == (if retry then Retry(backoffMs) else Stop)
            && left == budget - (if retry then 1 else 0)
  {
  }

  // ---- The two paths do not drift ----

  /** A policy whose backoff is `ms`, capped, whatever the attempt and the draw. */
  function PinnedBackoff(policy: RetryPolicy, ms: u64): RetryPolicy {
    policy.(initialBackoffMs := Min(ms, policy.maxBackoffMs), maxBackoffMs := 0)
  }

  /**
   For one jitter draw: off RESOURCE_EXHAUSTED the pushback path retries exactly when the deadline
   path does, with the same backoff and the same budget left. On RESOURCE_EXHAUSTED it stops
   without a readable pushback, and otherwise is the deadline path with the backoff pinned to the
   capped pushback.
   */
  lemma {:induction false} PathsAgree(policy: RetryPolicy, status: Status, attempt: u32, budget: u32,
                   admission: RetryAdmission, remainingMs: nat, draw: nat)
    requires JitterDraw(policy, attempt, draw)
    ensures var (decision, left) := PushbackPath(policy, status, attempt, budget, admission, remainingMs, draw);
            if status.code != ResourceExhausted then
              var (retry, left') := AdmittedDeadlinePath(policy, status.code, attempt, budget, admission, remainingMs, draw);
              && left == left'
              && decision == (if retry then Retry(RetryBackoffMs(policy, attempt, draw)) else Stop)
            else
              match ExtractRetryPushbackMs(status)
              case None => decision == Stop && left == budget
              case Some(ms) =>
                var pinned := PinnedBackoff(policy, ms);
                && JitterDraw(pinned, attempt, draw)
                && var (retry, left') := AdmittedDeadlinePath(pinned, status.code, attempt, budget, admission, remainingMs, draw);
                && left == left'
                && decision == (if retry then Retry(Min(ms, policy.maxBackoffMs)) else Stop)
  {
    if status.code == ResourceExhausted {
      match ExtractRetryPushbackMs(status)
      case None =>
      case Some(ms) =>
        var pinned := PinnedBackoff(policy, ms);
        assert attempt > 0 ==> Backoff.RetryBase(pinned.initialBackoffMs, 0, attempt) == 0;
        assert RetryBackoffMs(pinned, attempt, draw) == Min(ms, policy.maxBackoffMs);
    }
  }

  /** In every built-in profile no effective backoff exceeds the policy cap, attempt 0 included. */
  lemma {:induction false} ProfileBackoffWithinCap(profile: Profile, attempt: u32, pushbackMs: Option<u64>, draw: nat)
    requires JitterDraw(ForProfile(profile), attempt, draw)
    ensures EffectiveRetryBackoffMs(ForProfile(profile), attempt, pushbackMs, draw)
            <= ForProfile(profile).maxBackoffMs
  {
    var policy := ForProfile(profile);
    Backoff.RetryBackoffWithinCapIff(policy.initialBackoffMs, policy.maxBackoffMs, attempt);
  }

  // ---- Whole calls ----

  /** What one decision of a call sees. */
  datatype Failure = Failure(status: Status, attempt: u32, admission: RetryAdmission, remainingMs: nat, draw: nat)

  /** Attempts strictly increase along the call and every draw is one the source could make. */
  predicate IsCall(policy: RetryPolicy, failures: seq<Failure>) {
    && (forall i :: 0 <= i < |failures| ==> JitterDraw(policy, failures[i].attempt, failures[i].draw))
    && (forall i, j :: 0 <= i < j < |failures| ==> failures[i].attempt < failures[j].attempt)
  }

  /** The decisions of the prefix of length `k`, taken in order on one tracker, and the budget left. */
  function Decisions(policy: RetryPolicy, failures: seq<Failure>, budget: u32, k: nat): (seq<RetryDecision>, u32)
    requires IsCall(policy, failures) && k <= |failures|
  {
    if k == 0 then ([], budget)
    else
      var (before, left) := Decisions(policy, failures, budget, k - 1);
      var f := failures[k - 1];
      var (decision, left') := PushbackPath(policy, f.status, f.attempt, left, f.admission, f.remainingMs, f.draw);
      (before + [decision], left')
  }

  function Retries(decisions: seq<RetryDecision>): nat {
    if decisions == [] then 0
    else Retries(decisions[..|decisions| - 1]) + (if decisions[|decisions| - 1].Retry? then 1 else 0)
  }

  function TotalBackoff(decisions: seq<RetryDecision>): nat {
    if decisions == [] then 0
    else TotalBackoff(decisions[..|decisions| - 1]) + Slept(decisions[|decisions| - 1])
  }

  function Slept(decision: RetryDecision): nat {
    match decision
    case Stop => 0
    case Retry(ms) => ms
  }

  /** The caller sleeps each granted backoff, so the deadline shrinks by at least that much. */
  ghost predicate DeadlineShrinks(policy: RetryPolicy, failures: seq<Failure>, budget: u32)
    requires IsCall(policy, failures)
  {
    forall k :: 0 < k < |failures| ==>
      failures[k].remainingMs + Slept(DecisionAt(policy, failures, budget, k - 1)) <= failures[k - 1].remainingMs
  }

  function DecisionAt(policy: RetryPolicy, failures: seq<Failure>, budget: u32, k: nat): RetryDecision
    requires IsCall(policy, failures) && k < |failures|
  {
    var f := failures[k];
    PushbackPath(policy, f.status, f.attempt, Decisions(policy, failures, budget, k).1,
                 f.admission, f.remainingMs, f.draw).0
  }

  /** One decision: a stop keeps the budget, a retry takes one token and was below the attempt limit. */
  lemma DecisionSpendsOneToken(policy: RetryPolicy, f: Failure, budget: u32)
    requires JitterDraw(policy, f.attempt, f.draw)
    ensures var (decision, left) := PushbackPath(policy, f.status, f.attempt, budget, f.admission, f.remainingMs, f.draw);
            && (decision.Stop? ==> left == budget)
            && (decision.Retry? ==> left == budget - 1 && f.attempt < policy.maxAttempts)
            && (decision.Retry? && f.remainingMs < U64_MAX ==>
                  decision.backoffMs + Reserve(decision.backoffMs) <= f.remainingMs)
  {
  }

  /** Retries of a call equal the tokens spent and fit both the budget and the attempts left. */
  lemma {:induction false} CallRetryBound(policy: RetryPolicy, failures: seq<Failure>, budget: u32, k: nat)
    requires IsCall(policy, failures) && k <= |failures|
    ensures var (decisions, left) := Decisions(policy, failures, budget, k);
            && |decisions| == k
            && Retries(decisions) + left == budget
            && (k > 0 ==> Retries(decisions) <= Max(0, policy.maxAttempts - failures[0].attempt))
    decreases k
  {
    hide PushbackPath;
    if k > 0 {
      CallRetryBound(policy, failures, budget, k - 1);
      var (before, left) := Decisions(policy, failures, budget, k - 1);
      DecisionSpendsOneToken(policy, failures[k - 1], left);
      var (decisions, left') := Decisions(policy, failures, budget, k);
      assert decisions[..k - 1] == before;
      RetriesWithinAttempts(policy, failures, budget, k - 1);
      if k > 1 {
        assert failures[0].attempt < failures[k - 1].attempt;
      }
    }
  }

  /** The retries granted so far fit between the first attempt and the next one. */
  lemma {:induction false} RetriesWithinAttempts(policy: RetryPolicy, failures: seq<Failure>, budget: u32, k: nat)
    requires IsCall(policy, failures) && k < |failures|
    ensures Retries(Decisions(policy, failures, budget, k).0) <= failures[k].attempt - failures[0].attempt
    decreases k
  {
    hide PushbackPath;
    if k > 0 {
      RetriesWithinAttempts(policy, failures, budget, k - 1);
      var (before, left) := Decisions(policy, failures, budget, k - 1);
      DecisionsLength(policy, failures, budget, k - 1);
      assert Decisions(policy, failures, budget, k).0[..k - 1] == before;
      assert failures[k - 1].attempt < failures[k].attempt;
    }
  }

  lemma {:induction false} DecisionsLength(policy: RetryPolicy, failures: seq<Failure>, budget: u32, k: nat)
    requires IsCall(policy, failures) && k <= |failures|
    ensures |Decisions(policy, failures, budget, k).0| == k
    decreases k
  {
    if k > 0 {
      DecisionsLength(policy, failures, budget, k - 1);
    }
  }

  /**
   Everything slept during a call fits the deadline the call started with, whatever that is. So does
   the reserve of the retry just granted, unless the deadline left was so long (`u64::MAX`
   milliseconds or more) that the source takes it as unbounded.
   */
  lemma {:induction false} CallFitsDeadline(policy: RetryPolicy, failures: seq<Failure>, budget: u32, k: nat)
    requires IsCall(policy, failures) && DeadlineShrinks(policy, failures, budget)
    requires 0 < k <= |failures|
    ensures var decisions := Decisions(policy, failures, budget, k).0;
            && |decisions| == k
            && TotalBackoff(decisions) + failures[k - 1].remainingMs
               <= failures[0].remainingMs + Slept(decisions[k - 1])
            && TotalBackoff(decisions) <= failures[0].remainingMs
            && match decisions[k - 1]
               case Stop => true
               case Retry(last) =>
                 failures[k - 1].remainingMs < U64_MAX || last + Reserve(last) <= failures[k - 1].remainingMs
                 ==> TotalBackoff(decisions) + Reserve(last) <= failures[0].remainingMs
    decreases k
  {
    hide PushbackPath;
    DecisionsLength(policy, failures, budget, k);
    DecisionsLength(policy, failures, budget, k - 1);
    var (before, left) := Decisions(policy, failures, budget, k - 1);
    var decisions := Decisions(policy, failures, budget, k).0;
    assert decisions[..k - 1] == before;
    assert decisions[k - 1] == DecisionAt(policy, failures, budget, k - 1);
    if k > 1 {
      CallFitsDeadline(policy, failures, budget, k - 1);
      assert before[k - 2] == DecisionAt(policy, failures, budget, k - 2);
    }
    DecisionSpendsOneToken(policy, failures[k - 1], left);
  }

  /**
   The wrappers that pass the largest duration never stop on it. The check lets a backoff through
   whose exact need exceeds the deadline left exactly for deadlines in one stretch above the 64-bit
   range.
   */
  lemma {:induction false} UnboundedDeadlineNeverBlocks(remainingMs: nat)
    ensures forall backoffMs: u64 :: DeadlineCoversBackoff(backoffMs, NO_DEADLINE_MS)
    ensures (exists backoffMs: u64 ::
               DeadlineCoversBackoff(backoffMs, remainingMs) && backoffMs + Reserve(backoffMs) > remainingMs)
            <==> U64_MAX <= remainingMs < U64_MAX + Reserve(U64_MAX)
  {
    if U64_MAX <= remainingMs < U64_MAX + Reserve(U64_MAX) {
      assert DeadlineCoversBackoff(U64_MAX, remainingMs);
    }
  }

  // ---- The built-in profiles ----

  /** What a call gets in each profile. */
  function RetryLimit(profile: Profile): nat {
    match profile
    case RpcReadOnly => 3
    case RpcIdempotentWrite => 2
    case RpcCriticalWrite => 0
    case RpcStream => 0
    case RpcLocalDev => 5
    case RpcDefault => 3
  }

  function TokensGranted(profile: Profile): nat {
    match profile
    case RpcReadOnly => 32
    case RpcIdempotentWrite => 16
    case RpcCriticalWrite => 4
    case RpcStream => 4
    case RpcLocalDev => 64
    case RpcDefault => 24
  }

  lemma {:induction false} NoCodesNoRetries(profile: Profile, failures: seq<Failure>, k: nat)
    requires IsCall(ForProfile(profile), failures) && k <= |failures| && ForProfile(profile).retryableCodes == []
    ensures Retries(Decisions(ForProfile(profile), failures, ForProfile(profile).retryBudget, k).0) == 0
    decreases k
  {
    var policy := ForProfile(profile);
    if k > 0 {
      NoCodesNoRetries(profile, failures, k - 1);
      DecisionsLength(policy, failures, policy.retryBudget, k - 1);
      var before := Decisions(policy, failures, policy.retryBudget, k - 1).0;
      assert Decisions(policy, failures, policy.retryBudget, k).0[..k - 1] == before;
    }
  }

  /** A call of a profile is retried at most its limit, and never runs out of its own tokens. */
  lemma {:induction false} ProfileRetriesWithinLimit(profile: Profile, failures: seq<Failure>, k: nat)
    requires IsCall(ForProfile(profile), failures) && k <= |failures|
    ensures var (decisions, left) := Decisions(ForProfile(profile), failures, ForProfile(profile).retryBudget, k);
            && Retries(decisions) <= RetryLimit(profile)
            && left == TokensGranted(profile) - Retries(decisions) && left > 0
  {
    CallRetryBound(ForProfile(profile), failures, ForProfile(profile).retryBudget, k);
    if ForProfile(profile).retryableCodes == [] {
      NoCodesNoRetries(profile, failures, k);
    } else if k == 0 {
      assert Retries([]) == 0;
    }
  }

  /** An unavailable server, attempt after attempt, with no deadline and no jitter. */
  function Unlucky(n: nat): seq<Failure>
    requires n <= 5
  {
    seq(n, i requires 0 <= i < n => Failure(Status(Unavailable, None), i, RetryAdmission(false, false), NO_DEADLINE_MS, 0))
  }

  lemma {:induction false} UnluckyIsCall(policy: RetryPolicy, n: nat)
    requires n <= 5
    ensures IsCall(policy, Unlucky(n))
  {
    forall i | 0 <= i < n ensures JitterDraw(policy, Unlucky(n)[i].attempt, Unlucky(n)[i].draw) {
      Backoff.ZeroIsADraw(policy.initialBackoffMs, policy.maxBackoffMs, i, 0, 0, 0);
    }
  }

  lemma {:induction false} LongDeadlineFits(policy: RetryPolicy, attempt: u32, draw: nat)
    requires JitterDraw(policy, attempt, draw)
    ensures FitsDeadline(Backoff.RetryBackoffMs(policy.initialBackoffMs, policy.maxBackoffMs, attempt, draw), NO_DEADLINE_MS)
  {
  }

  /** ... and the limit is reached where a profile retries at all. */
  lemma {:induction false} ProfileLimitIsReached(profile: Profile, k: nat)
    requires k <= RetryLimit(profile)
    ensures IsCall(ForProfile(profile), Unlucky(RetryLimit(profile)))
    ensures Retries(Decisions(ForProfile(profile), Unlucky(RetryLimit(profile)), ForProfile(profile).retryBudget, k).0) == k
    decreases k
  {
    var policy, failures := ForProfile(profile), Unlucky(RetryLimit(profile));
    UnluckyIsCall(policy, RetryLimit(profile));
    if k > 0 {
      ProfileLimitIsReached(profile, k - 1);
      DecisionsLength(policy, failures, policy.retryBudget, k - 1);
      var (before, left) := Decisions(policy, failures, policy.retryBudget, k - 1);
      CallRetryBound(policy, failures, policy.retryBudget, k - 1);
      var f := failures[k - 1];
      LongDeadlineFits(policy, f.attempt, f.draw);
      hide PushbackPath, FitsDeadline, ForProfile, RetryBackoffMs;
      PushbackPathIff(policy, f.status, f.attempt, left, f.admission, f.remainingMs, f.draw);
      assert Decisions(policy, failures, policy.retryBudget, k).0[..k - 1] == before;
    }
  }

  /** The possible delays of each profile: a fixed first one, then full jitter up to a doubling, capped ceiling. */
  lemma {:induction false} ProfileDelaysExactly(profile: Profile, attempt: u32, delay: nat)
    ensures var first: nat :=
              match profile
              case RpcReadOnly => 50
              case RpcIdempotentWrite => 100
              case RpcCriticalWrite => 100
              case RpcStream => 100
              case RpcLocalDev => 25
              case RpcDefault => 50;
            var cap: nat :=
              match profile
              case RpcReadOnly => 2000
              case RpcIdempotentWrite => 2000
              case RpcCriticalWrite => 500
              case RpcStream => 500
              case RpcLocalDev => 1000
              case RpcDefault => 2000;
            (exists draw :: JitterDraw(ForProfile(profile), attempt, draw)
                            && RetryBackoffMs(ForProfile(profile), attempt, draw) == delay)
            <==> if attempt == 0 then delay == first
                 else delay <= first * Pow2(if attempt - 1 <= 16 then attempt - 1 else 16) && delay <= cap
  {
    var policy := ForProfile(profile);
    Backoff.RetryDelaysExactly(policy.initialBackoffMs, policy.maxBackoffMs, attempt, delay);
    hide Backoff.RetryDraw, Backoff.RetryBackoffMs;
    if draw :| Backoff.RetryDraw(policy.initialBackoffMs, policy.maxBackoffMs, attempt, draw)
               && Backoff.RetryBackoffMs(policy.initialBackoffMs, policy.maxBackoffMs, attempt, draw) == delay
    {
      assert JitterDraw(policy, attempt, draw) && RetryBackoffMs(policy, attempt, draw) == delay;
    }
  }
}
