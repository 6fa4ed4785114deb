/**
 Cross-call retry budgets: one lazily created token bucket per service. Tokens and monotonic time
 are real numbers.
 */
module RetryBudget {
  import opened MachineInt

  datatype Config = Config(capacity: u32, refillPerSecond: real) {
    predicate Valid() {
      refillPerSecond >= 0.0
    }

    function Full(): real {
      capacity as real
    }
  }

  datatype TokenBucket = TokenBucket(tokens: real, lastRefill: real)

  function RealMin(a: real, b: real): real {
    if a <= b then a else b
  }

  /** Tokens refilled between two instants, if the cap does not interfere. */
  function Earned(config: Config, from: real, until: real): real {
    (until - from) * config.refillPerSecond
  }

  function Refill(config: Config, bucket: TokenBucket, now: real): TokenBucket {
    if now > bucket.lastRefill then
      TokenBucket(RealMin(bucket.tokens + Earned(config, bucket.lastRefill, now), config.Full()), now)
    else bucket
  }

  type Buckets = map<string, TokenBucket>

  /** The bucket every operation works on: looked up or created full, then refilled. */
  function Current(config: Config, buckets: Buckets, service: string, now: real): TokenBucket {
    var bucket := if service in buckets then buckets[service] else TokenBucket(config.Full(), now);
    Refill(config, bucket, now)
  }

  predicate Grants(config: Config, buckets: Buckets, service: string, now: real) {
    Current(config, buckets, service, now).tokens >= 1.0
  }

  /** One operation of a run; both kinds read the clock. */
  datatype Op =
    | TryAcquire(service: string, now: real)
    | AvailableTokens(service: string, now: real)

  function Step(config: Config, buckets: Buckets, op: Op): Buckets {
    var bucket := Current(config, buckets, op.service, op.now);
    if op.TryAcquire? && bucket.tokens >= 1.0
    then buckets[op.service := bucket.(tokens := bucket.tokens - 1.0)]
    else buckets[op.service := bucket]
  }

  class RetryBudgetRegistry {
    const config: Config
    var buckets: Buckets

    constructor (config: Config)
      ensures this.config == config && buckets == map[]
    {
      this.config := config;
      buckets := map[];
    }

    method TryAcquire(service: string, now: real) returns (granted: bool)
      modifies this
      ensures granted == Grants(config, old(buckets), service, now)
      ensures buckets == Step(config, old(buckets), Op.TryAcquire(service, now))
    {
      if service !in buckets {
        buckets := buckets[service := TokenBucket(config.capacity as real, now)];
      }
      buckets := buckets[service := Refill(config, buckets[service], now)];
      if buckets[service].tokens >= 1.0 {
        var tokens := buckets[service].tokens - 1.0;
        buckets := buckets[service := buckets[service].(tokens := tokens)];
        granted := true;
      } else {
        granted := false;
      }
    }

    /** A count below one says that a retry at this very instant would be refused, and conversely. */
    method AvailableTokens(service: string, now: real) returns (tokens: real)
      modifies this
      ensures tokens >= 1.0 <==> Grants(config, old(buckets), service, now)
      ensures service in buckets && tokens == buckets[service].tokens
      ensures buckets == Step(config, old(buckets), Op.AvailableTokens(service, now))
    {
      if service !in buckets {
        buckets := buckets[service := TokenBucket(config.capacity as real, now)];
      }
      buckets := buckets[service := Refill(config, buckets[service], now)];
      tokens := buckets[service].tokens;
    }
  }

  /** The first retry of an unseen service is admitted exactly when the capacity is not zero. */
  lemma {:induction false} FirstRetryAdmittedIff(config: Config, buckets: Buckets, service: string, now: real)
    requires service !in buckets
    ensures Grants(config, buckets, service, now) <==> config.capacity >= 1
  {
  }

  /**
   The exact level: a bucket left with some tokens holds at a later instant those plus the refill
   rate times the seconds gone by, capped by the capacity, and an unseen service the capacity. A
   retry is granted exactly when that is at least one, and takes one.
   */
  lemma {:induction false} LevelExactly(config: Config, buckets: Buckets, service: string, now: real)
    requires service in buckets ==> buckets[service].lastRefill <= now && buckets[service].tokens <= config.capacity as real
    ensures var capacity := config.capacity as real;
            var exact :=
              if service in buckets
              then buckets[service].tokens + (now - buckets[service].lastRefill) * config.refillPerSecond
              else capacity;
            var level := if exact <= capacity then exact else capacity;
            && Current(config, buckets, service, now).tokens == level
            && (Grants(config, buckets, service, now) <==> level >= 1.0)
            && (var left := Step(config, buckets, TryAcquire(service, now));
                service in left && left[service].lastRefill == now
                && left[service].tokens == (if level >= 1.0 then level - 1.0 else level))
            && (var left := Step(config, buckets, AvailableTokens(service, now));
                service in left && left[service].lastRefill == now && left[service].tokens == level)
  {
  }

  // ---- Runs ----

  predicate IsRun(ops: seq<Op>) {
    forall i, j :: 0 <= i < j < |ops| ==> ops[i].now <= ops[j].now
  }

  function After(config: Config, ops: seq<Op>): Buckets {
    if ops == [] then map[]
    else Step(config, After(config, ops[..|ops| - 1]), ops[|ops| - 1])
  }

  /** Levels stay between empty and full, and no bucket was refilled in the future. */
  ghost predicate Sound(config: Config, buckets: Buckets, clock: real) {
    forall s :: s in buckets ==> 0.0 <= buckets[s].tokens <= config.Full() && buckets[s].lastRefill <= clock
  }

  lemma EarnedIsAdditive(config: Config, a: real, b: real, c: real)
    requires config.Valid() && a <= b <= c
    ensures Earned(config, a, c) == Earned(config, a, b) + Earned(config, b, c)
    ensures Earned(config, a, b) >= 0.0 && Earned(config, b, c) >= 0.0 && Earned(config, a, c) >= 0.0
  {
    NonNegativeProduct(b - a, config.refillPerSecond);
    NonNegativeProduct(c - b, config.refillPerSecond);
  }

  lemma NonNegativeProduct(x: real, y: real)
    requires x >= 0.0 && y >= 0.0
    ensures x * y >= 0.0
  {
  }

  lemma RefillWithin(config: Config, bucket: TokenBucket, now: real)
    requires config.Valid() && 0.0 <= bucket.tokens <= config.Full() && bucket.lastRefill <= now
    ensures 0.0 <= Refill(config, bucket, now).tokens <= config.Full()
    ensures Refill(config, bucket, now).lastRefill == now
  {
    hide Earned;
    EarnedIsAdditive(config, bucket.lastRefill, now, now);
  }

  lemma StepKeepsSound(config: Config, buckets: Buckets, clock: real, op: Op)
    requires config.Valid() && Sound(config, buckets, clock) && clock <= op.now
    ensures Sound(config, Step(config, buckets, op), op.now)
    ensures Current(config, buckets, op.service, op.now).lastRefill == op.now
    ensures 0.0 <= Current(config, buckets, op.service, op.now).tokens <= config.Full()
  {
    if op.service in buckets {
      RefillWithin(config, buckets[op.service], op.now);
    }
  }

  lemma {:induction false} RunKeepsSound(config: Config, ops: seq<Op>, clock: real)
    requires config.Valid() && IsRun(ops) && (ops != [] ==> ops[|ops| - 1].now <= clock)
    ensures Sound(config, After(config, ops), clock)
    decreases |ops|
  {
    if ops != [] {
      var init, op := ops[..|ops| - 1], ops[|ops| - 1];
      RunKeepsSound(config, init, op.now);
      StepKeepsSound(config, After(config, init), op.now, op);
    }
  }

  /** Capped refills compose: refilling on the way changes nothing later. */
  lemma RefillComposes(config: Config, bucket: TokenBucket, t: real, u: real)
    requires config.Valid() && bucket.tokens <= config.Full() && bucket.lastRefill <= t <= u
    ensures Refill(config, Refill(config, bucket, t), u) == Refill(config, bucket, u)
  {
    hide Earned;
    EarnedIsAdditive(config, bucket.lastRefill, t, u);
  }

  /** Whether an operation asks for a token of `service`. */
  predicate Requests(op: Op, service: string) {
    op.TryAcquire? && op.service == service
  }

  // ---- Observation transparency ----

  function Only(ops: seq<Op>, service: string): seq<Op> {
    if ops == [] then []
    else
      var op := ops[|ops| - 1];
      Only(ops[..|ops| - 1], service) + (if Requests(op, service) then [op] else [])
  }

  /** Results of the acquisitions for one service, in order. */
  function Answers(config: Config, ops: seq<Op>, service: string): seq<bool> {
    if ops == [] then []
    else
      var init, op := ops[..|ops| - 1], ops[|ops| - 1];
      Answers(config, init, service)
      + (if Requests(op, service) then [Grants(config, After(config, init), service, op.now)] else [])
  }

  lemma {:induction false} OnlyIsRun(ops: seq<Op>, service: string)
    requires IsRun(ops)
    ensures IsRun(Only(ops, service))
    ensures forall i :: 0 <= i < |Only(ops, service)| ==> Only(ops, service)[i] in ops
    decreases |ops|
  {
    if ops != [] {
      OnlyIsRun(ops[..|ops| - 1], service);
    }
  }

  /** A created-full bucket is the same as one that was created earlier and left alone. */
  lemma ObservedBucketIsTheSame(config: Config, buckets: Buckets, op: Op, t: real, clock: real)
    requires config.Valid() && Sound(config, buckets, clock) && clock <= op.now <= t && op.AvailableTokens?
    ensures Current(config, Step(config, buckets, op), op.service, t) == Current(config, buckets, op.service, t)
  {
    if op.service in buckets {
      RefillComposes(config, buckets[op.service], op.now, t);
    } else {
      EarnedIsAdditive(config, op.now, op.now, t);
    }
  }

  /** The bucket a service will see at `t` does not depend on an observation or on another service. */
  lemma {:induction false} NonAcquisitionIsInvisible(config: Config, buckets: Buckets, op: Op, service: string, t: real, clock: real)
    requires config.Valid() && Sound(config, buckets, clock) && clock <= op.now <= t
    requires !(Requests(op, service))
    ensures Current(config, Step(config, buckets, op), service, t) == Current(config, buckets, service, t)
  {
    if op.service == service {
      ObservedBucketIsTheSame(config, buckets, op, t, clock);
    }
  }

  /** An acquisition makes the same bucket out of two buckets that look the same at its instant. */
  lemma AcquisitionDependsOnCurrent(config: Config, a: Buckets, b: Buckets, op: Op, t: real)
    requires Current(config, a, op.service, op.now) == Current(config, b, op.service, op.now)
    ensures Current(config, Step(config, a, op), op.service, t) == Current(config, Step(config, b, op), op.service, t)
    ensures Grants(config, a, op.service, op.now) == Grants(config, b, op.service, op.now)
  {
    assert Step(config, a, op)[op.service] == Step(config, b, op)[op.service];
  }

  lemma {:induction false} LastOp(config: Config, init: seq<Op>, op: Op, service: string)
    ensures After(config, init + [op]) == Step(config, After(config, init), op)
    ensures Only(init + [op], service)
            == Only(init, service) + (if Requests(op, service) then [op] else [])
    ensures Answers(config, init + [op], service)
            == Answers(config, init, service)
               + (if Requests(op, service) then [Grants(config, After(config, init), service, op.now)] else [])
  {
    assert (init + [op])[..|init|] == init;
  }

  /** Dropping observations and other services changes neither the answers nor the bucket seen later. */
  lemma {:induction false} OnlyAcquisitionsMatter(config: Config, ops: seq<Op>, service: string, t: real)
    requires config.Valid() && IsRun(ops) && (ops != [] ==> ops[|ops| - 1].now <= t)
    ensures Answers(config, ops, service) == Answers(config, Only(ops, service), service)
    ensures Current(config, After(config, ops), service, t)
            == Current(config, After(config, Only(ops, service)), service, t)
    decreases |ops|
  {
    if ops != [] {
      var init, op := ops[..|ops| - 1], ops[|ops| - 1];
      assert ops == init + [op];
      LastOp(config, init, op, service);
      if Requests(op, service) {
        OnlyAcquisitionsMatter(config, init, service, op.now);
        LastOp(config, Only(init, service), op, service);
        AcquisitionDependsOnCurrent(config, After(config, init), After(config, Only(init, service)), op, t);
      } else {
        OnlyAcquisitionsMatter(config, init, service, t);
        RunKeepsSound(config, init, op.now);
        NonAcquisitionIsInvisible(config, After(config, init), op, service, t, op.now);
        assert Only(init, service) + [] == Only(init, service);
      }
    }
  }

  /**
   Observation transparency: two runs with the same acquisitions for a service, at the same
   instants, give them the same answers, whatever else is asked in between.
   */
  lemma {:induction false} ObservationTransparency(config: Config, a: seq<Op>, b: seq<Op>, service: string)
    requires config.Valid() && IsRun(a) && IsRun(b)
    requires Only(a, service) == Only(b, service)
    ensures Answers(config, a, service) == Answers(config, b, service)
  {
    OnlyAcquisitionsMatter(config, a, service, if a == [] then 0.0 else a[|a| - 1].now);
    OnlyAcquisitionsMatter(config, b, service, if b == [] then 0.0 else b[|b| - 1].now);
  }

  // ---- Rate bound ----

  /** Retries admitted for `service` during `window`, after `prefix`. */
  function Admitted(config: Config, prefix: seq<Op>, window: seq<Op>, service: string): nat {
    if window == [] then 0
    else
      var init, op := window[..|window| - 1], window[|window| - 1];
      Admitted(config, prefix, init, service)
      + (if Requests(op, service) && Grants(config, After(config, prefix + init), service, op.now)
         then 1 else 0)
  }

  /** What one operation does to the level of a service at the instant of the operation. */
  lemma {:induction false} StepSpends(config: Config, buckets: Buckets, op: Op, service: string, clock: real)
    requires config.Valid() && Sound(config, buckets, clock) && clock <= op.now
    ensures Current(config, Step(config, buckets, op), service, op.now).tokens
            + (if Requests(op, service) && Grants(config, buckets, service, op.now) then 1.0 else 0.0)
            == Current(config, buckets, service, op.now).tokens
  {
    StepKeepsSound(config, buckets, clock, op);
  }

  /** Between two instants a level rises by at most the rate times the time. */
  lemma {:induction false} LevelRises(config: Config, buckets: Buckets, service: string, t: real, u: real)
    requires config.Valid() && Sound(config, buckets, t) && t <= u
    ensures Current(config, buckets, service, u).tokens
            <= Current(config, buckets, service, t).tokens + Earned(config, t, u)
    ensures 0.0 <= Current(config, buckets, service, u).tokens <= config.Full()
  {
    hide Earned;
    EarnedIsAdditive(config, t, t, u);
    if service in buckets {
      RefillWithin(config, buckets[service], t);
      RefillComposes(config, buckets[service], t, u);
    }
  }

  lemma {:induction false} LevelWithin(config: Config, buckets: Buckets, service: string, t: real)
    requires config.Valid() && Sound(config, buckets, t)
    ensures 0.0 <= Current(config, buckets, service, t).tokens <= config.Full()
  {
    LevelRises(config, buckets, service, t, t);
  }

  /** Time passes from `t` to the operation, which then spends at most one token. */
  lemma {:induction false} StepBalance(config: Config, buckets: Buckets, op: Op, service: string, t: real)
    requires config.Valid() && Sound(config, buckets, t) && t <= op.now
    ensures Current(config, Step(config, buckets, op), service, op.now).tokens
            + (if Requests(op, service) && Grants(config, buckets, service, op.now) then 1.0 else 0.0)
            <= Current(config, buckets, service, t).tokens + Earned(config, t, op.now)
  {
    StepSpends(config, buckets, op, service, t);
    LevelRises(config, buckets, service, t, op.now);
  }

  lemma {:induction false} AdmittedStep(config: Config, prefix: seq<Op>, init: seq<Op>, op: Op, service: string)
    ensures Admitted(config, prefix, init + [op], service) as real
            == Admitted(config, prefix, init, service) as real
               + (if Requests(op, service) && Grants(config, After(config, prefix + init), service, op.now)
                  then 1.0 else 0.0)
    ensures After(config, prefix + (init + [op])) == Step(config, After(config, prefix + init), op)
  {
    var window := init + [op];
    assert window[..|window| - 1] == init;
    var run := prefix + window;
    assert run[..|run| - 1] == prefix + init;
  }

  lemma Accumulate(admitted: real, before: real, spent: real, after: real, full: real, early: real, late: real)
    requires admitted + before <= full + early && after + spent <= before + late
    ensures (admitted + spent) + after <= full + (early + late)
  {
  }

  /** Admissions of a window plus the level left never exceed a full bucket plus the refill. */
  lemma {:induction false} WindowBalance(config: Config, prefix: seq<Op>, window: seq<Op>, service: string)
    requires config.Valid() && IsRun(prefix + window) && window != []
    ensures var t := window[|window| - 1].now;
            Admitted(config, prefix, window, service) as real
            + Current(config, After(config, prefix + window), service, t).tokens
            <= config.Full() + Earned(config, window[0].now, t)
    decreases |window|
  {
    hide Earned, Current, Refill, Step, Admitted, After, Grants;
    var init, op := window[..|window| - 1], window[|window| - 1];
    var run := prefix + window;
    assert window == init + [op];
    assert run[..|run| - 1] == prefix + init && run[|run| - 1] == op;
    AdmittedStep(config, prefix, init, op, service);
    var buckets := After(config, prefix + init);
    var spent := if Requests(op, service) && Grants(config, buckets, service, op.now) then 1.0 else 0.0;
    var after := Current(config, After(config, run), service, op.now).tokens;
    if init == [] {
      assert prefix + init == prefix;
      RunKeepsSound(config, prefix, op.now);
      LevelWithin(config, buckets, service, op.now);
      StepBalance(config, buckets, op, service, op.now);
      NothingAdmitted(config, prefix, service);
    } else {
      var before := init[|init| - 1].now;
      assert (prefix + init)[|prefix + init| - 1].now == before;
      assert run[|run| - 2].now == before && run[|prefix|] == window[0];
      WindowBalance(config, prefix, init, service);
      RunKeepsSound(config, prefix + init, before);
      StepBalance(config, buckets, op, service, before);
      EarnedIsAdditive(config, window[0].now, before, op.now);
      Accumulate(Admitted(config, prefix, init, service) as real, Current(config, buckets, service, before).tokens,
                 spent, after, config.Full(), Earned(config, window[0].now, before), Earned(config, before, op.now));
    }
  }

  lemma {:induction false} NothingAdmitted(config: Config, prefix: seq<Op>, service: string)
    ensures Admitted(config, prefix, [], service) == 0
  {
  }

  lemma {:induction false} BoundByEarned(config: Config, prefix: seq<Op>, window: seq<Op>, service: string)
    requires config.Valid() && IsRun(prefix + window) && window != []
    ensures Admitted(config, prefix, window, service) as real
            <= config.Full() + Earned(config, window[0].now, window[|window| - 1].now)
  {
    hide Earned, Admitted, Current, After;
    var t := window[|window| - 1].now;
    WindowBalance(config, prefix, window, service);
    var run := prefix + window;
    assert run[|run| - 1].now == t;
    RunKeepsSound(config, run, t);
    LevelWithin(config, After(config, run), service, t);
  }

  /**
   Rate bound: in any contiguous window of any run the retries admitted for a service are at most
   the capacity plus the refill rate times the length of the window.
   */
  lemma {:induction false} RateBound(config: Config, prefix: seq<Op>, window: seq<Op>, service: string)
    requires config.Valid() && IsRun(prefix + window) && window != []
    ensures Admitted(config, prefix, window, service) as real
            <= config.capacity as real + (window[|window| - 1].now - window[0].now) * config.refillPerSecond
  {
    hide Earned, Admitted, IsRun;
    BoundByEarned(config, prefix, window, service);
    var first, last := window[0].now, window[|window| - 1].now;
    EarnedByRate(config, first, last);
  }

  lemma EarnedByRate(config: Config, from: real, until: real)
    ensures Earned(config, from, until) == (until - from) * config.refillPerSecond
  {
  }

  // ---- Greedy optimality ----

  /** The bucket of `service` under another admission rule: `choice[k]` says whether op `k` takes a token. */
  function AfterChoosing(config: Config, ops: seq<Op>, service: string, choice: seq<bool>): Buckets
    requires |choice| == |ops|
    decreases |ops|
  {
    if ops == [] then map[]
    else
      var n := |ops| - 1;
      var before := AfterChoosing(config, ops[..n], service, choice[..n]);
      var op := ops[n];
      if op.service != service then before
      else
        var bucket := Current(config, before, service, op.now);
        before[service := if op.TryAcquire? && choice[n] then bucket.(tokens := bucket.tokens - 1.0) else bucket]
  }

  /** The other rule only takes tokens that are there. */
  predicate Feasible(config: Config, ops: seq<Op>, service: string, choice: seq<bool>)
    requires |choice| == |ops|
    decreases |ops|
  {
    ops == [] ||
    var n := |ops| - 1;
    && Feasible(config, ops[..n], service, choice[..n])
    && (Requests(ops[n], service) && choice[n] ==>
          Grants(config, AfterChoosing(config, ops[..n], service, choice[..n]), service, ops[n].now))
  }

  function Taken(ops: seq<Op>, service: string, choice: seq<bool>): nat
    requires |choice| == |ops|
    decreases |ops|
  {
    if ops == [] then 0
    else
      var n := |ops| - 1;
      Taken(ops[..n], service, choice[..n])
      + (if Requests(ops[n], service) && choice[n] then 1 else 0)
  }

  lemma {:induction false} ChoosingKeepsSound(config: Config, ops: seq<Op>, service: string, choice: seq<bool>, clock: real)
    requires |choice| == |ops| && config.Valid() && IsRun(ops) && Feasible(config, ops, service, choice)
    requires ops != [] ==> ops[|ops| - 1].now <= clock
    ensures Sound(config, AfterChoosing(config, ops, service, choice), clock)
    decreases |ops|
  {
    if ops != [] {
      var n := |ops| - 1;
      ChoosingKeepsSound(config, ops[..n], service, choice[..n], ops[n].now);
      var before := AfterChoosing(config, ops[..n], service, choice[..n]);
      LevelRises(config, before, service, ops[n].now, ops[n].now);
    }
  }

  /** Letting time pass keeps a bucket's lead within a fixed margin. */
  lemma {:induction false} LeadSurvivesRefill(config: Config, mine: Buckets, other: Buckets, service: string, t: real, u: real, margin: real)
    requires config.Valid() && t <= u && Sound(config, mine, t) && Sound(config, other, t) && margin >= 0.0
    requires Current(config, other, service, t).tokens <= Current(config, mine, service, t).tokens + margin
    ensures Current(config, other, service, u).tokens <= Current(config, mine, service, u).tokens + margin
  {
    hide Earned;
    RefilledLevel(config, mine, service, t, u);
    RefilledLevel(config, other, service, t, u);
  }

  lemma {:induction false} RefilledLevel(config: Config, buckets: Buckets, service: string, t: real, u: real)
    requires config.Valid() && t <= u && Sound(config, buckets, t)
    ensures Current(config, buckets, service, u).tokens
            == RealMin(Current(config, buckets, service, t).tokens + Earned(config, t, u), config.Full())
  {
    hide Earned;
    EarnedIsAdditive(config, t, t, u);
    if service in buckets {
      RefillWithin(config, buckets[service], t);
      RefillComposes(config, buckets[service], t, u);
    }
  }

  /** The greedy rule is never behind, and a richer rival is behind by at least the difference. */
  ghost predicate Ahead(config: Config, ops: seq<Op>, service: string, choice: seq<bool>, t: real)
    requires |choice| == |ops|
  {
    var lead := Admitted(config, [], ops, service) - Taken(ops, service, choice);
    && lead >= 0
    && Current(config, AfterChoosing(config, ops, service, choice), service, t).tokens
       <= Current(config, After(config, ops), service, t).tokens + lead as real
  }

  /** One decision each: granting whenever possible keeps the lead and the margin. */
  lemma LeadArithmetic(mine: real, other: real, lead: int, request: bool, take: bool)
    requires lead >= 0 && other <= mine + lead as real
    requires take ==> request && other >= 1.0
    ensures var grant := request && mine >= 1.0;
            var lead' := lead + (if grant then 1 else 0) - (if take then 1 else 0);
            && lead' >= 0
            && other - (if take then 1.0 else 0.0) <= mine - (if grant then 1.0 else 0.0) + lead' as real
  {
  }

  /** One request, at its own instant. */
  lemma {:induction false} RequestKeepsAhead(config: Config, ops: seq<Op>, service: string, choice: seq<bool>)
    requires ops != [] && |choice| == |ops| && config.Valid() && IsRun(ops) && Feasible(config, ops, service, choice)
    requires Ahead(config, ops[..|ops| - 1], service, choice[..|ops| - 1], ops[|ops| - 1].now)
    ensures Ahead(config, ops, service, choice, ops[|ops| - 1].now)
  {
    GreedySpends(config, ops, service);
    ChoosingSpends(config, ops, service, choice);
    hide Current, Admitted, After, AfterChoosing, Feasible, IsRun;
    var n := |ops| - 1;
    var op := ops[n];
    LeadArithmetic(Current(config, After(config, ops[..n]), service, op.now).tokens,
                   Current(config, AfterChoosing(config, ops[..n], service, choice[..n]), service, op.now).tokens,
                   Admitted(config, [], ops[..n], service) - Taken(ops[..n], service, choice[..n]),
                   Requests(op, service), Requests(op, service) && choice[n]);
  }

  lemma {:induction false} GreedySpends(config: Config, ops: seq<Op>, service: string)
    requires ops != [] && config.Valid() && IsRun(ops)
    ensures var n := |ops| - 1;
            var now := ops[n].now;
            var level := Current(config, After(config, ops[..n]), service, now).tokens;
            var grant := Requests(ops[n], service) && level >= 1.0;
            && Current(config, After(config, ops), service, now).tokens == level - (if grant then 1.0 else 0.0)
            && Admitted(config, [], ops, service) == Admitted(config, [], ops[..n], service) + (if grant then 1 else 0)
  {
    var n := |ops| - 1;
    assert [] + ops[..n] == ops[..n];
    RunKeepsSound(config, ops[..n], ops[n].now);
    StepSpends(config, After(config, ops[..n]), ops[n], service, ops[n].now);
  }

  lemma {:induction false} ChoosingSpends(config: Config, ops: seq<Op>, service: string, choice: seq<bool>)
    requires ops != [] && |choice| == |ops| && config.Valid() && IsRun(ops) && Feasible(config, ops, service, choice)
    ensures var n := |ops| - 1;
            var now := ops[n].now;
            var level := Current(config, AfterChoosing(config, ops[..n], service, choice[..n]), service, now).tokens;
            var take := Requests(ops[n], service) && choice[n];
            && (take ==> level >= 1.0)
            && Current(config, AfterChoosing(config, ops, service, choice), service, now).tokens
               == level - (if take then 1.0 else 0.0)
            && Taken(ops, service, choice) == Taken(ops[..n], service, choice[..n]) + (if take then 1 else 0)
  {
    var n := |ops| - 1;
    var op := ops[n];
    var before := AfterChoosing(config, ops[..n], service, choice[..n]);
    ChoosingKeepsSound(config, ops[..n], service, choice[..n], op.now);
    if op.service == service {
      StepKeepsSound(config, before, op.now, op);
    }
  }

  lemma {:induction false} GreedyStaysAhead(config: Config, ops: seq<Op>, service: string, choice: seq<bool>, t: real)
    requires |choice| == |ops| && config.Valid() && IsRun(ops) && Feasible(config, ops, service, choice)
    requires ops != [] ==> ops[|ops| - 1].now <= t
    ensures Ahead(config, ops, service, choice, t)
    decreases |ops|
  {
    if ops != [] {
      var n := |ops| - 1;
      var now := ops[n].now;
      GreedyStaysAhead(config, ops[..n], service, choice[..n], now);
      RequestKeepsAhead(config, ops, service, choice);
      RunKeepsSound(config, ops, now);
      ChoosingKeepsSound(config, ops, service, choice, now);
      var lead := (Admitted(config, [], ops, service) - Taken(ops, service, choice)) as real;
      LeadSurvivesRefill(config, After(config, ops), AfterChoosing(config, ops, service, choice), service, now, t, lead);
    }
  }

  /**
   Greedy optimality: no other rule that spends only tokens it has, on the same requests at the
   same instants, has admitted more after any prefix of the run.
   */
  lemma {:induction false} GreedyIsOptimal(config: Config, ops: seq<Op>, service: string, choice: seq<bool>, k: nat)
    requires |choice| == |ops| && config.Valid() && IsRun(ops) && Feasible(config, ops, service, choice)
    requires k <= |ops|
    ensures Taken(ops[..k], service, choice[..k]) <= Admitted(config, [], ops[..k], service)
  {
    FeasiblePrefix(config, ops, service, choice, k);
    GreedyStaysAhead(config, ops[..k], service, choice[..k], if k == 0 then 0.0 else ops[k - 1].now);
  }

  lemma {:induction false} FeasiblePrefix(config: Config, ops: seq<Op>, service: string, choice: seq<bool>, k: nat)
    requires |choice| == |ops| && Feasible(config, ops, service, choice) && k <= |ops|
    ensures Feasible(config, ops[..k], service, choice[..k])
    decreases |ops|
  {
    if k == |ops| {
      assert ops[..k] == ops && choice[..k] == choice;
    } else {
      var n := |ops| - 1;
      assert ops[..n][..k] == ops[..k] && choice[..n][..k] == choice[..k];
      FeasiblePrefix(config, ops[..n], service, choice[..n], k);
    }
  }
}
