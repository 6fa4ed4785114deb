/**
 A registered server from registration to the end of its shutdown: the renewal loop runs beside
 serve, drain, deregister and abort, in real time. `ttl`, `interval` and `latency` are nanoseconds;
 every renewal succeeds and returns within `latency`, and the registry extends the lease by `ttl`
 at the instant it processes one.
 */
module LeaseShutdown {
  import opened MachineInt
  import opened Wrappers
  import LeaseRenewal

  datatype Timing = Timing(ttl: nat, interval: nat, latency: nat, drainTimeout: Option<nat>)

  /** `ExitedEarly` covers bind, serve and drain errors: the call returns without deregistering. */
  datatype Phase =
    | Binding
    | Serving
    | Draining(since: nat)
    | Deregistering
    | Deregistered(ok: bool)
    | Done(ok: bool)
    | ExitedEarly

  datatype Renewal =
    | Sleeping(wake: nat)
    | InFlight(sent: nat, processed: bool)
    | Aborted

  datatype Effect = RenewSent(at: nat) | DeregisterReturned(at: nat) | RenewAborted(at: nat)

  datatype State = State(now: nat, expiry: nat, phase: Phase, renewal: Renewal, trace: seq<Effect>)

  datatype Step =
    | Wait(until: nat)
    | Send | Process | Return
    | Bound | BindFailed
    | ServeEnded | ServeFailed | Signal
    | DrainEnded | DrainFailed | DrainTimedOut
    | DeregisterDone(ok: bool)
    | Abort

  /** Registered at instant zero, with the renewal loop just started. */
  function Initial(timing: Timing): State {
    State(0, timing.ttl, Binding, Sleeping(timing.interval), [])
  }

  /** Time cannot pass a wake-up of the loop or the latency bound of a renewal in flight. */
  predicate Enabled(timing: Timing, s: State, step: Step) {
    match step
    case Wait(until) =>
      until >= s.now &&
      (match s.renewal
       case Sleeping(wake) => until <= wake
       case InFlight(sent, _) => until <= sent + timing.latency
       case Aborted => true)
    case Send => s.renewal.Sleeping? && s.renewal.wake == s.now
    case Process => s.renewal.InFlight? && !s.renewal.processed
    case Return => s.renewal.InFlight? && s.renewal.processed
    case Bound => s.phase == Binding
    case BindFailed => s.phase == Binding
    case ServeEnded => s.phase == Serving
    case ServeFailed => s.phase == Serving
    case Signal => s.phase == Serving
    case DrainEnded => s.phase.Draining?
    case DrainFailed => s.phase.Draining?
    case DrainTimedOut =>
      s.phase.Draining? && timing.drainTimeout.Some? && s.now >= s.phase.since + timing.drainTimeout.value
    case DeregisterDone(_) => s.phase == Deregistering
    case Abort => s.phase.Deregistered?
  }

  function Next(timing: Timing, s: State, step: Step): State
    requires Enabled(timing, s, step)
  {
    match step
    case Wait(until) => s.(now := until)
    case Send => s.(renewal := InFlight(s.now, false), trace := s.trace + [RenewSent(s.now)])
    case Process => s.(renewal := s.renewal.(processed := true), expiry := s.now + timing.ttl)
    case Return => s.(renewal := Sleeping(s.now + timing.interval))
    case Bound => s.(phase := Serving)
    case BindFailed => s.(phase := ExitedEarly)
    case ServeEnded => s.(phase := Deregistering)
    case ServeFailed => s.(phase := ExitedEarly)
    case Signal => s.(phase := Draining(s.now))
    case DrainEnded => s.(phase := Deregistering)
    case DrainFailed => s.(phase := ExitedEarly)
    case DrainTimedOut => s.(phase := Deregistering)
    case DeregisterDone(ok) => s.(phase := Deregistered(ok), trace := s.trace + [DeregisterReturned(s.now)])
    case Abort => s.(phase := Done(s.phase.ok), renewal := Aborted, trace := s.trace + [RenewAborted(s.now)])
  }

  function Run(timing: Timing, steps: seq<Step>): Option<State> {
    if steps == [] then Some(Initial(timing))
    else
      match Run(timing, steps[..|steps| - 1])
      case Some(s) =>
        if Enabled(timing, s, steps[|steps| - 1]) then Some(Next(timing, s, steps[|steps| - 1])) else None
      case None => None
  }

  predicate Live(s: State) {
    s.now <= s.expiry
  }

  // ---- The lease ----

  /** The renewal in progress, or the next one, is processed before the lease runs out. */
  predicate LeaseSound(timing: Timing, s: State) {
    match s.renewal
    case Sleeping(wake) => s.now <= wake && wake + timing.latency <= s.expiry
    case InFlight(sent, false) => sent <= s.now <= sent + timing.latency <= s.expiry
    case InFlight(sent, true) => sent <= s.now <= sent + timing.latency && sent + timing.ttl <= s.expiry && Live(s)
    case Aborted => true
  }

  lemma StepKeepsLeaseSound(timing: Timing, s: State, step: Step)
    requires timing.interval + 2 * timing.latency <= timing.ttl
    requires LeaseSound(timing, s) && Enabled(timing, s, step)
    ensures LeaseSound(timing, Next(timing, s, step))
  {
  }

  lemma {:induction false} RunKeepsLeaseSound(timing: Timing, steps: seq<Step>)
    requires timing.interval + 2 * timing.latency <= timing.ttl
    ensures Run(timing, steps).Some? ==> LeaseSound(timing, Run(timing, steps).value)
    decreases |steps|
  {
    if steps != [] {
      var n := |steps| - 1;
      RunKeepsLeaseSound(timing, steps[..n]);
      if Run(timing, steps).Some? {
        StepKeepsLeaseSound(timing, Run(timing, steps[..n]).value, steps[n]);
      }
    }
  }

  /** At every reachable instant before the loop is aborted, on every path, the lease is live. */
  ghost predicate AlwaysLive(timing: Timing) {
    forall steps :: Run(timing, steps).Some? && !Run(timing, steps).value.phase.Done? ==> Live(Run(timing, steps).value)
  }

  /** A renewal processed at once but answered late, followed by one processed late. */
  function SlowRenewals(timing: Timing): seq<Step> {
    [Wait(timing.interval), Send, Process, Wait(timing.interval + timing.latency), Return,
     Wait(2 * timing.interval + timing.latency), Send, Wait(2 * timing.interval + 2 * timing.latency)]
  }

  lemma {:induction false} SlowRenewalsRun(timing: Timing, k: nat)
    requires k <= 8
    ensures var steps := SlowRenewals(timing)[..k];
            Run(timing, steps).Some? && Run(timing, steps).value.phase == Binding
            && Run(timing, steps).value == SlowState(timing, k)
    decreases k
  {
    var steps := SlowRenewals(timing)[..k];
    hide SlowState, Next, Enabled;
    if k == 0 {
      SlowStart(timing);
    } else {
      SlowRenewalsRun(timing, k - 1);
      SlowStep(timing, k - 1);
      assert steps[..k - 1] == SlowRenewals(timing)[..k - 1];
      assert steps[k - 1] == SlowRenewals(timing)[k - 1];
    }
  }

  lemma SlowStart(timing: Timing)
    ensures SlowState(timing, 0) == Initial(timing)
  {
  }

  lemma {:induction false} SlowStep(timing: Timing, k: nat)
    requires k < 8
    ensures Enabled(timing, SlowState(timing, k), SlowRenewals(timing)[k])
    ensures Next(timing, SlowState(timing, k), SlowRenewals(timing)[k]) == SlowState(timing, k + 1)
    ensures SlowState(timing, k + 1).phase == Binding
  {
  }

  function SlowState(timing: Timing, k: nat): State {
    var i, d := timing.interval, timing.latency;
    if k == 0 then Initial(timing)
    else if k == 1 then State(i, timing.ttl, Binding, Sleeping(i), [])
    else if k == 2 then State(i, timing.ttl, Binding, InFlight(i, false), [RenewSent(i)])
    else if k == 3 then State(i, i + timing.ttl, Binding, InFlight(i, true), [RenewSent(i)])
    else if k == 4 then State(i + d, i + timing.ttl, Binding, InFlight(i, true), [RenewSent(i)])
    else if k == 5 then State(i + d, i + timing.ttl, Binding, Sleeping(2 * i + d), [RenewSent(i)])
    else if k == 6 then State(2 * i + d, i + timing.ttl, Binding, Sleeping(2 * i + d), [RenewSent(i)])
    else
      State(if k == 7 then 2 * i + d else 2 * i + 2 * d, i + timing.ttl, Binding, InFlight(2 * i + d, false),
            [RenewSent(i), RenewSent(2 * i + d)])
  }

  /**
   Lease alive through shutdown: for any drain length and on every path, the lease is live at every
   instant from registration until deregister has returned (and until the abort after it) exactly
   when the renew interval and two latencies fit the lease.
   */
  lemma LeaseAliveIff(timing: Timing)
    ensures AlwaysLive(timing) <==> timing.interval + 2 * timing.latency <= timing.ttl
  {
    if timing.interval + 2 * timing.latency <= timing.ttl {
      forall steps | Run(timing, steps).Some? && !Run(timing, steps).value.phase.Done?
        ensures Live(Run(timing, steps).value)
      {
        RunKeepsLeaseSound(timing, steps);
        RunKeepsOrder(timing, steps);
      }
    } else {
      var steps := SlowRenewals(timing);
      assert steps[..8] == steps;
      SlowRenewalsRun(timing, 8);
      assert !Live(Run(timing, steps).value);
    }
  }

  /**
   With the interval the source derives the lease stays live exactly when two latencies fit what the
   interval leaves of it. Any latency up to a third of the lease will do from 3 seconds on.
   */
  lemma {:induction false} DerivedIntervalKeepsLease(ttlSeconds: u64, latency: nat, drainTimeout: Option<nat>)
    ensures var timing := Timing(ttlSeconds * NANOS_PER_SECOND, LeaseRenewal.RenewInterval(ttlSeconds), latency, drainTimeout);
            && (AlwaysLive(timing) <==> 2 * latency <= (ttlSeconds - Max(ttlSeconds, 3) / 3) * NANOS_PER_SECOND)
            && (ttlSeconds >= 3 && 3 * latency <= ttlSeconds * NANOS_PER_SECOND ==> AlwaysLive(timing))
  {
    LeaseAliveIff(Timing(ttlSeconds * NANOS_PER_SECOND, LeaseRenewal.RenewInterval(ttlSeconds), latency, drainTimeout));
  }

  // ---- The order of effects ----

  function Aborts(trace: seq<Effect>): nat {
    if trace == [] then 0
    else Aborts(trace[..|trace| - 1]) + (if trace[|trace| - 1].RenewAborted? then 1 else 0)
  }

  ghost predicate DeregisterHasReturned(trace: seq<Effect>) {
    exists i :: 0 <= i < |trace| && trace[i].DeregisterReturned?
  }

  /** The loop is aborted exactly at the end, once, after deregister returned, and never before. */
  ghost predicate OrderSound(s: State) {
    && (s.renewal == Aborted <==> s.phase.Done?)
    && (s.phase.Deregistered? ==> DeregisterHasReturned(s.trace))
    && (if s.phase.Done?
        then
          && s.trace != [] && s.trace[|s.trace| - 1].RenewAborted?
          && Aborts(s.trace[..|s.trace| - 1]) == 0 && DeregisterHasReturned(s.trace[..|s.trace| - 1])
        else Aborts(s.trace) == 0)
  }

  lemma {:induction false} TraceGrows(trace: seq<Effect>, effect: Effect)
    ensures (trace + [effect])[..|trace|] == trace
    ensures Aborts(trace + [effect]) == Aborts(trace) + (if effect.RenewAborted? then 1 else 0)
    ensures DeregisterHasReturned(trace) || effect.DeregisterReturned? ==> DeregisterHasReturned(trace + [effect])
  {
    var all := trace + [effect];
    assert all[..|trace|] == trace && all[|trace|] == effect;
    if DeregisterHasReturned(trace) {
      var i :| 0 <= i < |trace| && trace[i].DeregisterReturned?;
      assert all[i].DeregisterReturned?;
    }
  }

  lemma StepKeepsOrder(timing: Timing, s: State, step: Step)
    requires OrderSound(s) && Enabled(timing, s, step)
    ensures OrderSound(Next(timing, s, step))
  {
    TraceGrows(s.trace, RenewSent(s.now));
    TraceGrows(s.trace, DeregisterReturned(s.now));
    TraceGrows(s.trace, RenewAborted(s.now));
  }

  lemma {:induction false} RunKeepsOrder(timing: Timing, steps: seq<Step>)
    ensures Run(timing, steps).Some? ==> OrderSound(Run(timing, steps).value)
    decreases |steps|
  {
    if steps != [] {
      var n := |steps| - 1;
      RunKeepsOrder(timing, steps[..n]);
      if Run(timing, steps).Some? {
        StepKeepsOrder(timing, Run(timing, steps[..n]).value, steps[n]);
      }
    }
  }

  /**
   On every path the renewal loop is aborted at most once, exactly when the shutdown completes,
   after deregister has returned (with or without an error), and nothing is sent afterwards. The
   early error exits abort nothing.
   */
  lemma {:induction false} AbortOnceAfterDeregister(timing: Timing, steps: seq<Step>)
    requires Run(timing, steps).Some?
    ensures var s := Run(timing, steps).value;
            && Aborts(s.trace) == (if s.phase.Done? then 1 else 0)
            && (s.phase.Done? ==>
                  s.trace[|s.trace| - 1].RenewAborted? && DeregisterHasReturned(s.trace[..|s.trace| - 1]))
            && (s.phase == ExitedEarly ==> s.renewal != Aborted)
  {
    RunKeepsOrder(timing, steps);
    var s := Run(timing, steps).value;
    if s.phase.Done? {
      var n := |s.trace| - 1;
      assert s.trace == s.trace[..n] + [s.trace[n]];
      TraceGrows(s.trace[..n], s.trace[n]);
    }
  }

  // ---- Which paths deregister ----

  /**
   The phase as a function of what happened: a bind, serve or drain error leaves without
   deregistering; a server that stopped by itself, drained or ran out of drain time deregisters, and
   nothing else does; the result is that of the deregistration.
   */
  ghost predicate Follows(phase: Phase, steps: seq<Step>) {
    && (phase == ExitedEarly <==> BindFailed in steps || ServeFailed in steps || DrainFailed in steps)
    && (phase == Deregistering || phase.Deregistered? || phase.Done?
        <==> ServeEnded in steps || DrainEnded in steps || DrainTimedOut in steps)
    && (phase == Deregistered(true) || phase == Done(true) <==> DeregisterDone(true) in steps)
    && (phase == Deregistered(false) || phase == Done(false) <==> DeregisterDone(false) in steps)
    && (phase.Done? <==> Abort in steps)
    && (phase == Binding <==> Bound !in steps && BindFailed !in steps)
    && (phase == Serving || phase.Draining? ==> Bound in steps)
    && (phase == Binding || phase == Serving ==> Signal !in steps)
    && (phase.Draining? ==> Signal in steps)
  }

  lemma {:induction false} StepFollows(timing: Timing, s: State, steps: seq<Step>, step: Step)
    requires Follows(s.phase, steps) && Enabled(timing, s, step)
    ensures Follows(Next(timing, s, step).phase, steps + [step])
  {
    var all := steps + [step];
    forall other ensures other in all <==> other in steps || other == step {}
    assert step.DeregisterDone? ==> step == DeregisterDone(true) || step == DeregisterDone(false);
  }

  lemma {:induction false} PhaseFollowsSteps(timing: Timing, steps: seq<Step>)
    requires Run(timing, steps).Some?
    ensures Follows(Run(timing, steps).value.phase, steps)
    decreases |steps|
  {
    hide Follows, Next, Enabled;
    if steps == [] {
      NothingFollows(timing);
    } else {
      var n := |steps| - 1;
      PhaseFollowsSteps(timing, steps[..n]);
      StepFollows(timing, Run(timing, steps[..n]).value, steps[..n], steps[n]);
      assert steps == steps[..n] + [steps[n]];
    }
  }

  lemma NothingFollows(timing: Timing)
    ensures Follows(Initial(timing).phase, [])
  {
  }

  /** Step `i` of the run is the signal, at the instant `at`. */
  predicate SignalledAt(timing: Timing, steps: seq<Step>, i: int, at: nat) {
    0 <= i < |steps| && steps[i] == Signal && Run(timing, steps[..i]).Some? && Run(timing, steps[..i]).value.now == at
  }

  /** While draining, the phase holds the instant of the signal. */
  lemma {:induction false} DrainingSinceSignal(timing: Timing, steps: seq<Step>) returns (i: nat)
    requires Run(timing, steps).Some? && Run(timing, steps).value.phase.Draining?
    ensures SignalledAt(timing, steps, i, Run(timing, steps).value.phase.since)
    decreases |steps|
  {
    var n := |steps| - 1;
    if steps[n] == Signal {
      return n;
    }
    i := DrainingSinceSignal(timing, steps[..n]);
    assert steps[..n][..i] == steps[..i];
  }

  lemma {:induction false} LastStepWasEnabled(timing: Timing, steps: seq<Step>, step: Step)
    requires Run(timing, steps + [step]).Some?
    ensures Run(timing, steps).Some? && Enabled(timing, Run(timing, steps).value, step)
  {
    hide Enabled, Next;
    var all := steps + [step];
    assert all[..|all| - 1] == steps && all[|all| - 1] == step;
  }

  /** A drain is cut off only when the drain timeout has passed since the signal. */
  lemma {:induction false} DrainCutOffAfterTimeout(timing: Timing, steps: seq<Step>) returns (i: nat, signalled: nat)
    requires Run(timing, steps + [DrainTimedOut]).Some?
    ensures timing.drainTimeout.Some? && Run(timing, steps).Some? && SignalledAt(timing, steps, i, signalled)
    ensures Run(timing, steps).value.now >= signalled + timing.drainTimeout.value
  {
    LastStepWasEnabled(timing, steps, DrainTimedOut);
    hide Run, SignalledAt;
    var s := Run(timing, steps).value;
    i := DrainingSinceSignal(timing, steps);
    signalled := s.phase.since;
  }

  /** ... and it can be cut off at that very instant. */
  lemma DrainCutOffOnTime(timing: Timing)
    requires timing.drainTimeout.Some? && timing.drainTimeout.value <= timing.interval
    ensures Run(timing, [Bound, Signal, Wait(timing.drainTimeout.value), DrainTimedOut]).Some?
  {
    var d := timing.drainTimeout.value;
    var steps := [Bound, Signal, Wait(d), DrainTimedOut];
    assert steps[..3] == [Bound, Signal, Wait(d)] && [Bound, Signal, Wait(d)][..2] == [Bound, Signal];
    assert [Bound, Signal][..1] == [Bound] && [Bound][..0] == [];
    assert Run(timing, []) == Some(Initial(timing));
    var bound := Next(timing, Initial(timing), Bound);
    assert Run(timing, [Bound]) == Some(bound);
    var draining := Next(timing, bound, Signal);
    assert Run(timing, [Bound, Signal]) == Some(draining);
    var waited := Next(timing, draining, Wait(d));
    assert Run(timing, [Bound, Signal, Wait(d)]) == Some(waited);
  }
}
