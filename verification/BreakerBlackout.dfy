/**
 The shared circuit breaker after an opening: exactly when the blackout holds under interleaving, and
 the races around the opening instant.
 */
module BreakerBlackout {
  import opened MachineInt
  import opened CircuitBreaker
  import opened BreakerInterleaving

  // ---- Threads left over from before the opening ----

  /** Reporting a success, with the write that closes the breaker still to come. */
  predicate BeforeClosing(p: Point) {
    match p
    case RefreshLoadMode(e) => e == SuccessEntry
    case RefreshLoadOpened(e) => e == SuccessEntry
    case RefreshReadClock(e, _) => e == SuccessEntry
    case RefreshSwapMode(e) => e == SuccessEntry
    case RefreshZeroProbes(e) => e == SuccessEntry
    case RefreshZeroFailures(e) => e == SuccessEntry
    case Enter(e) => e == SuccessEntry
    case _ => false
  }

  /** Past an observation from before `start`: an older instant read or about to be stored, or half-open. */
  predicate LeftOver(p: Point, start: u64) {
    match p
    case RefreshReadClock(_, since) => 0 < since < start
    case RefreshSwapMode(_) => true
    case ProbeLoad(_, _) => true
    case ProbeSwap(_, _, _, _) => true
    case OpenStoreInstant(instant) => 0 < instant < start
    case _ => false
  }

  ghost predicate OpenSince(s: System, start: u64) {
    s.cells.mode == Open && (s.cells.openedAt == 0 || s.cells.openedAt >= start)
  }

  /** Steps within the timeout from `start`, on a clock that never runs back, that begin no success. */
  predicate WithinTimeout(config: Config, schedule: seq<Choice>, start: u64) {
    && (forall i :: 0 <= i < |schedule| ==>
          schedule[i].entry != SuccessEntry && start <= schedule[i].now < start + config.recoveryTimeout)
    && (forall i, j :: 0 <= i < j < |schedule| ==> schedule[i].now <= schedule[j].now)
  }

  ghost predicate LeavesBlackout(config: Config, s: System, start: u64) {
    exists schedule :: WithinTimeout(config, schedule, start) && Continue(config, s, schedule).admissions > s.admissions
  }

  /** The window reaches past the wrap of the 64-bit instant, so that a late failure is recorded as an early one. */
  predicate WindowWraps(config: Config, start: u64) {
    start >= 2 && start + config.recoveryTimeout > U64_MAX + 2
  }

  ghost predicate SomeBeforeClosing(s: System) {
    exists t :: BeforeClosing(PointOf(s, t))
  }

  ghost predicate SomeLeftOver(s: System, start: u64) {
    exists t :: LeftOver(PointOf(s, t), start)
  }

  // ---- Without such threads nothing is admitted ----

  lemma OnlyOwnPoint(config: Config, s: System, c: Choice)
    ensures var s' := Advance(config, s, c.thread, c.entry, c.now);
            forall u :: u != c.thread ==> PointOf(s', u) == PointOf(s, u)
  {
  }

  ghost predicate Quiet(s: System, start: u64) {
    OpenSince(s, start) && !SomeBeforeClosing(s) && !SomeLeftOver(s, start)
  }

  lemma OwnQuietStep(config: Config, s: System, c: Choice, start: u64)
    requires OpenSince(s, start) && c.entry != SuccessEntry && start <= c.now < start + config.recoveryTimeout
    requires !BeforeClosing(PointOf(s, c.thread)) && !LeftOver(PointOf(s, c.thread), start)
    requires Recorded(c.now) == 0 || Recorded(c.now) >= start
    ensures var s' := Advance(config, s, c.thread, c.entry, c.now);
            && OpenSince(s', start) && s'.admissions == s.admissions
            && !BeforeClosing(PointOf(s', c.thread)) && !LeftOver(PointOf(s', c.thread), start)
  {
    hide Recorded;
  }

  lemma QuietStep(config: Config, s: System, c: Choice, start: u64)
    requires Quiet(s, start) && c.entry != SuccessEntry && start <= c.now < start + config.recoveryTimeout
    requires Recorded(c.now) == 0 || Recorded(c.now) >= start
    ensures var s' := Advance(config, s, c.thread, c.entry, c.now); Quiet(s', start) && s'.admissions == s.admissions
  {
    OwnQuietStep(config, s, c, start);
    OnlyOwnPoint(config, s, c);
    hide Advance, BeforeClosing, LeftOver, OpenSince;
    var s' := Advance(config, s, c.thread, c.entry, c.now);
    forall t ensures !BeforeClosing(PointOf(s', t)) && !LeftOver(PointOf(s', t), start) {
      assert !BeforeClosing(PointOf(s, t)) && !LeftOver(PointOf(s, t), start);
    }
  }

  /**
   Blackout under every interleaving: once no thread is left over, no steps of queries, requests and
   failures within the recovery timeout admit anything.
   */
  lemma {:induction false} InterleavedBlackout(config: Config, s: System, schedule: seq<Choice>, start: u64)
    requires Quiet(s, start) && WithinTimeout(config, schedule, start) && !WindowWraps(config, start)
    ensures var s' := Continue(config, s, schedule); Quiet(s', start) && s'.admissions == s.admissions
    decreases |schedule|
  {
    if schedule != [] {
      var n := |schedule| - 1;
      InterleavedBlackout(config, s, schedule[..n], start);
      RecordedInWindow(config, schedule[n].now, start);
      hide Advance, Quiet, Recorded;
      QuietStep(config, Continue(config, s, schedule[..n]), schedule[n], start);
    }
  }

  lemma {:induction false} RecordedInWindow(config: Config, now: nat, start: u64)
    requires start <= now < start + config.recoveryTimeout && !WindowWraps(config, start)
    ensures Recorded(now) == 0 || Recorded(now) >= start
  {
    RecordedNearWrap(now);
  }

  ghost predicate NeverClosed(s: System) {
    s.cells.mode != Closed && !SomeBeforeClosing(s)
  }

  lemma OwnNeverClosedStep(config: Config, s: System, c: Choice)
    requires s.cells.mode != Closed && !BeforeClosing(PointOf(s, c.thread)) && c.entry != SuccessEntry
    ensures var s' := Advance(config, s, c.thread, c.entry, c.now);
            s'.cells.mode != Closed && !BeforeClosing(PointOf(s', c.thread))
  {
    hide Recorded, TimedOut, SaturatingAdd;
    match PointOf(s, c.thread)
    case Enter(e) => assert e != SuccessEntry;
    case _ =>
  }

  lemma NoQuotaNoAdmission(config: Config, s: System, c: Choice)
    requires s.cells.mode != Closed && config.halfOpenMaxProbes == 0
    requires PointSound(config, s, c.thread, PointOf(s, c.thread))
    ensures Advance(config, s, c.thread, c.entry, c.now).admissions == s.admissions
  {
    hide Recorded, TimedOut, SaturatingAdd;
  }

  lemma NeverClosedStep(config: Config, s: System, c: Choice)
    requires NeverClosed(s) && Sound(config, s) && config.halfOpenMaxProbes == 0 && c.entry != SuccessEntry
    ensures var s' := Advance(config, s, c.thread, c.entry, c.now); NeverClosed(s') && s'.admissions == s.admissions
  {
    OwnNeverClosedStep(config, s, c);
    NoQuotaNoAdmission(config, s, c);
    OnlyOwnPoint(config, s, c);
    hide Advance, BeforeClosing;
    var s' := Advance(config, s, c.thread, c.entry, c.now);
    forall t ensures !BeforeClosing(PointOf(s', t)) {
      assert !BeforeClosing(PointOf(s, t));
    }
  }

  /** Without a quota, and with no success on its way to close the breaker, nothing is ever admitted. */
  lemma {:induction false} QuotaZeroNeverAdmits(config: Config, s: System, schedule: seq<Choice>)
    requires NeverClosed(s) && Sound(config, s) && config.halfOpenMaxProbes == 0
    requires forall i :: 0 <= i < |schedule| ==> schedule[i].entry != SuccessEntry
    ensures var s' := Continue(config, s, schedule);
            NeverClosed(s') && Sound(config, s') && s'.admissions == s.admissions
    decreases |schedule|
  {
    hide Advance, NeverClosed, Sound;
    if schedule != [] {
      var n := |schedule| - 1;
      var c := schedule[n];
      QuotaZeroNeverAdmits(config, s, schedule[..n]);
      NeverClosedStep(config, Continue(config, s, schedule[..n]), c);
      AdvanceKeepsSound(config, Continue(config, s, schedule[..n]), c.thread, c.entry, c.now);
    }
  }

  // ---- With one of them a request gets through ----

  /** Steps at one clock reading that begin no success. */
  predicate Plain(schedule: seq<Choice>, now: nat) {
    forall i :: 0 <= i < |schedule| ==> schedule[i].entry != SuccessEntry && schedule[i].now == now
  }

  lemma {:induction false} BoundOf(threads: set<Thread>) returns (bound: Thread)
    ensures forall t :: t in threads ==> t < bound
    decreases |threads|
  {
    if threads == {} {
      return 0;
    }
    var t :| t in threads;
    var rest := BoundOf(threads - {t});
    bound := Max(rest, t + 1);
    forall u | u in threads ensures u < bound {
      if u != t {
        assert u in threads - {t};
      }
    }
  }

  /** Some thread other than `t` is idle: only finitely many have ever called. */
  lemma FreshThread(s: System, t: Thread) returns (u: Thread)
    ensures u != t && PointOf(s, u) == Idle
  {
    var bound := BoundOf(s.points.Keys);
    u := Max(bound, t + 1);
  }

  lemma {:induction false} OneStep(config: Config, s: System, t: Thread, now: nat)
    ensures Continue(config, s, [Choice(t, AllowEntry, now)]) == Advance(config, s, t, AllowEntry, now)
  {
    hide Advance;
    assert [Choice(t, AllowEntry, now)][..0] == [];
    assert Continue(config, s, []) == s;
  }

  /** If the cells grant a request at `now`, an idle thread that asks is admitted. */
  lemma {:induction false} AskNow(config: Config, s: System, now: nat) returns (schedule: seq<Choice>)
    requires Admits(config, s.cells, Allow(now))
    ensures Plain(schedule, now) && Continue(config, s, schedule).admissions == s.admissions + 1
  {
    hide Advance, Solo, Continue;
    var u := FreshThread(s, 0);
    var n := SoloCallIsSequential(config, s, u, AllowEntry, now);
    SoloIsContinue(config, s, u, AllowEntry, now, n);
    schedule := Repeated(u, AllowEntry, now, n);
  }

  /** First `before`, then a request at the same reading. */
  lemma {:induction false} ThenAsk(config: Config, s: System, before: seq<Choice>, now: nat) returns (schedule: seq<Choice>)
    requires Plain(before, now) && Continue(config, s, before).admissions == s.admissions
    requires Admits(config, Continue(config, s, before).cells, Allow(now))
    ensures Plain(schedule, now) && Continue(config, s, schedule).admissions > s.admissions
  {
    hide Continue;
    var rest := AskNow(config, Continue(config, s, before), now);
    schedule := before + rest;
    ContinueConcat(config, s, before, rest);
  }

  function StepsToClosing(p: Point): nat {
    match p
    case RefreshLoadMode(_) => 7
    case RefreshLoadOpened(_) => 6
    case RefreshReadClock(_, _) => 5
    case RefreshSwapMode(_) => 4
    case RefreshZeroProbes(_) => 3
    case RefreshZeroFailures(_) => 2
    case _ => 1
  }

  lemma {:induction false} ClosingStep(config: Config, s: System, t: Thread, now: nat)
    requires BeforeClosing(PointOf(s, t))
    ensures var s' := Advance(config, s, t, AllowEntry, now);
            && s'.admissions == s.admissions
            && (if PointOf(s, t).Enter? then s'.cells.mode == Closed
                else BeforeClosing(PointOf(s', t)) && StepsToClosing(PointOf(s', t)) < StepsToClosing(PointOf(s, t)))
  {
  }

  lemma {:induction false} ReachClosed(config: Config, s: System, t: Thread, now: nat) returns (schedule: seq<Choice>)
    requires BeforeClosing(PointOf(s, t))
    ensures Plain(schedule, now)
    ensures var s' := Continue(config, s, schedule); s'.cells.mode == Closed && s'.admissions == s.admissions
    decreases StepsToClosing(PointOf(s, t))
  {
    ClosingStep(config, s, t, now);
    OneStep(config, s, t, now);
    var first := [Choice(t, AllowEntry, now)];
    if PointOf(s, t).Enter? {
      return first;
    }
    hide Advance, Continue, BeforeClosing, StepsToClosing;
    var s' := Continue(config, s, first);
    var rest := ReachClosed(config, s', t, now);
    schedule := first + rest;
    ContinueConcat(config, s, first, rest);
  }

  lemma {:induction false} LeakByClosing(config: Config, s: System, t: Thread, now: nat) returns (schedule: seq<Choice>)
    requires BeforeClosing(PointOf(s, t))
    ensures Plain(schedule, now) && Continue(config, s, schedule).admissions > s.admissions
  {
    hide Continue;
    var closing := ReachClosed(config, s, t, now);
    schedule := ThenAsk(config, s, closing, now);
  }

  lemma {:induction false} LeakBySwap(config: Config, s: System, t: Thread, now: nat) returns (schedule: seq<Choice>)
    requires s.cells.mode == Open && PointOf(s, t).RefreshSwapMode? && config.halfOpenMaxProbes > 0
    ensures Plain(schedule, now) && Continue(config, s, schedule).admissions > s.admissions
  {
    var swap := [Choice(t, AllowEntry, now), Choice(t, AllowEntry, now)];
    SwapAndZero(config, s, t, now);
    hide Continue, Advance;
    schedule := ThenAsk(config, s, swap, now);
  }

  lemma {:induction false} SwapAndZero(config: Config, s: System, t: Thread, now: nat)
    requires s.cells.mode == Open && PointOf(s, t).RefreshSwapMode?
    ensures var s' := Continue(config, s, [Choice(t, AllowEntry, now), Choice(t, AllowEntry, now)]);
            s'.cells == s.cells.(mode := HalfOpen, probes := 0) && s'.admissions == s.admissions
  {
    var c := Choice(t, AllowEntry, now);
    OneStep(config, s, t, now);
    assert [c, c][..1] == [c];
  }

  lemma {:induction false} LeakByClock(config: Config, s: System, t: Thread, now: nat) returns (schedule: seq<Choice>)
    requires s.cells.mode == Open && PointOf(s, t).RefreshReadClock? && config.halfOpenMaxProbes > 0
    requires TimedOut(config, PointOf(s, t).since, now)
    ensures Plain(schedule, now) && Continue(config, s, schedule).admissions > s.admissions
  {
    OneStep(config, s, t, now);
    var first := [Choice(t, AllowEntry, now)];
    var s' := Advance(config, s, t, AllowEntry, now);
    var rest := LeakBySwap(config, s', t, now);
    ContinueConcat(config, s, first, rest);
    schedule := first + rest;
  }

  lemma {:induction false} LeakByStore(config: Config, s: System, t: Thread, now: nat) returns (schedule: seq<Choice>)
    requires s.cells.mode == Open && PointOf(s, t).OpenStoreInstant? && config.halfOpenMaxProbes > 0
    requires TimedOut(config, PointOf(s, t).instant, now)
    ensures Plain(schedule, now) && Continue(config, s, schedule).admissions > s.admissions
  {
    OneStep(config, s, t, now);
    schedule := ThenAsk(config, s, [Choice(t, AllowEntry, now)], now);
  }

  /** Thread `u` alone records the failures `calls`. */
  lemma {:induction false} FailAlone(config: Config, s: System, u: Thread, calls: seq<Call>, now: nat)
    returns (schedule: seq<Choice>)
    requires PointOf(s, u) == Idle && forall i :: 0 <= i < |calls| ==> calls[i] == Failed(now)
    ensures Plain(schedule, now)
    ensures var s' := Continue(config, s, schedule);
            s'.cells == Run(config, s.cells, calls).0 && OnlyMoved(s, s', u) && s'.admissions == s.admissions
    decreases |calls|
  {
    if calls == [] {
      return [];
    }
    hide Advance, Solo, Continue, Step;
    var n := SoloCallIsSequential(config, s, u, FailureEntry, now);
    var first := Repeated(u, FailureEntry, now, n);
    SoloIsContinue(config, s, u, FailureEntry, now, n);
    var rest := FailAlone(config, Continue(config, s, first), u, calls[1..], now);
    ContinueConcat(config, s, first, rest);
    schedule := first + rest;
  }

  /** Failures of an idle thread store the reading `now` as the opening instant and clear the probe counter. */
  lemma {:induction false} Reopen(config: Config, s: System, t: Thread, now: nat) returns (schedule: seq<Choice>)
    requires s.cells.mode == Open && config.recoveryTimeout > 0
    requires s.cells.openedAt == 0 || now < s.cells.openedAt + config.recoveryTimeout
    ensures Plain(schedule, now)
    ensures var s' := Continue(config, s, schedule);
            && s'.cells.mode == Open && s'.cells.openedAt == Recorded(now) && s'.cells.probes == 0
            && PointOf(s', t) == PointOf(s, t) && s'.admissions == s.admissions
  {
    hide Continue, Recorded, Run;
    var u := FreshThread(s, t);
    var calls := ReopenedBy(config, s.cells, now);
    schedule := FailAlone(config, s, u, calls, now);
  }

  /** A thread in the probe loop takes a free slot, whatever the mode is by now. */
  lemma {:induction false} ProbeTakesSlot(config: Config, s: System, t: Thread, now: nat)
    requires PointOf(s, t).ProbeLoad? && s.cells.probes < config.halfOpenMaxProbes
    ensures var c := Choice(t, AllowEntry, now); Continue(config, s, [c, c]).admissions == s.admissions + 1
  {
    var c := Choice(t, AllowEntry, now);
    OneStep(config, s, t, now);
    assert [c, c][..1] == [c];
  }

  lemma {:induction false} LeakByProbeLoad(config: Config, s: System, t: Thread, now: nat) returns (schedule: seq<Choice>)
    requires s.cells.mode == Open && PointOf(s, t).ProbeLoad? && config.halfOpenMaxProbes > 0
    requires config.recoveryTimeout > 0 && (s.cells.openedAt == 0 || now < s.cells.openedAt + config.recoveryTimeout)
    ensures Plain(schedule, now) && Continue(config, s, schedule).admissions > s.admissions
  {
    hide Continue, Recorded;
    var reopen := Reopen(config, s, t, now);
    var s' := Continue(config, s, reopen);
    ProbeTakesSlot(config, s', t, now);
    var c := Choice(t, AllowEntry, now);
    ContinueConcat(config, s, reopen, [c, c]);
    schedule := reopen + [c, c];
  }

  lemma {:induction false} LeakByProbeSwap(config: Config, s: System, t: Thread, now: nat) returns (schedule: seq<Choice>)
    requires s.cells.mode == Open && PointOf(s, t).ProbeSwap? && config.halfOpenMaxProbes > 0
    requires config.recoveryTimeout > 0 && (s.cells.openedAt == 0 || now < s.cells.openedAt + config.recoveryTimeout)
    ensures Plain(schedule, now) && Continue(config, s, schedule).admissions > s.admissions
  {
    OneStep(config, s, t, now);
    var first := [Choice(t, AllowEntry, now)];
    if s.cells.probes == PointOf(s, t).observed {
      return first;
    }
    var s' := Advance(config, s, t, AllowEntry, now);
    var rest := LeakByProbeLoad(config, s', t, now);
    ContinueConcat(config, s, first, rest);
    schedule := first + rest;
  }

  lemma LeakByLeftOver(config: Config, s: System, t: Thread, start: u64) returns (schedule: seq<Choice>)
    requires OpenSince(s, start) && LeftOver(PointOf(s, t), start)
    requires config.halfOpenMaxProbes > 0 && config.recoveryTimeout > 0
    ensures Plain(schedule, start + config.recoveryTimeout - 1)
    ensures Continue(config, s, schedule).admissions > s.admissions
  {
    hide Continue, Advance;
    var last := start + config.recoveryTimeout - 1;
    match PointOf(s, t)
    case RefreshReadClock(_, _) => schedule := LeakByClock(config, s, t, last);
    case RefreshSwapMode(_) => schedule := LeakBySwap(config, s, t, last);
    case ProbeLoad(_, _) => schedule := LeakByProbeLoad(config, s, t, last);
    case ProbeSwap(_, _, _, _) => schedule := LeakByProbeSwap(config, s, t, last);
    case OpenStoreInstant(_) => schedule := LeakByStore(config, s, t, last);
  }

  /** A failure past the wrap is stored as instant 1, and a request at the end of the window finds it timed out. */
  lemma LeakByWrap(config: Config, s: System, start: u64) returns (schedule: seq<Choice>)
    requires OpenSince(s, start) && WindowWraps(config, start)
    requires config.halfOpenMaxProbes > 0 && config.recoveryTimeout > 0
    ensures WithinTimeout(config, schedule, start)
    ensures Continue(config, s, schedule).admissions > s.admissions
  {
    RecordedNearWrap(0);
    hide Continue, Recorded;
    var reopen := Reopen(config, s, 0, U64_MAX + 2);
    var rest := AskNow(config, Continue(config, s, reopen), start + config.recoveryTimeout - 1);
    ContinueConcat(config, s, reopen, rest);
    schedule := reopen + rest;
  }

  lemma {:induction false} PlainIsWithin(config: Config, schedule: seq<Choice>, start: u64, now: nat)
    requires Plain(schedule, now) && start <= now < start + config.recoveryTimeout
    ensures WithinTimeout(config, schedule, start)
  {
  }

  /**
   The blackout under interleaving, exactly: from an open breaker whose instant is zero or not before
   `start`, some steps of queries, requests and failures within the timeout admit a request if and
   only if a success is still to close the breaker, or, with a positive quota, some thread is left
   over from before `start` or the window reaches past the wrap of the stored instant.
   */
  lemma InterleavedBlackoutIff(config: Config, s: System, start: u64)
    requires Sound(config, s) && OpenSince(s, start)
    ensures LeavesBlackout(config, s, start)
            <==> && config.recoveryTimeout > 0
                 && (SomeBeforeClosing(s)
                     || (config.halfOpenMaxProbes > 0 && (SomeLeftOver(s, start) || WindowWraps(config, start))))
  {
    hide Sound, OpenSince, Continue;
    var last := start + config.recoveryTimeout - 1;
    if config.recoveryTimeout == 0 {
      forall schedule ensures !(WithinTimeout(config, schedule, start) && Continue(config, s, schedule).admissions > s.admissions) {
        NoWindow(config, s, schedule, start);
      }
    } else if SomeBeforeClosing(s) {
      var t :| BeforeClosing(PointOf(s, t));
      var schedule := LeakByClosing(config, s, t, last);
      PlainIsWithin(config, schedule, start, last);
    } else if config.halfOpenMaxProbes == 0 {
      forall schedule ensures !(WithinTimeout(config, schedule, start) && Continue(config, s, schedule).admissions > s.admissions) {
        NoQuota(config, s, schedule, start);
      }
    } else if SomeLeftOver(s, start) {
      var t :| LeftOver(PointOf(s, t), start);
      var schedule := LeakByLeftOver(config, s, t, start);
      PlainIsWithin(config, schedule, start, last);
    } else if WindowWraps(config, start) {
      var schedule := LeakByWrap(config, s, start);
    } else {
      forall schedule ensures !(WithinTimeout(config, schedule, start) && Continue(config, s, schedule).admissions > s.admissions) {
        if WithinTimeout(config, schedule, start) {
          InterleavedBlackout(config, s, schedule, start);
        }
      }
    }
  }

  lemma {:induction false} NoWindow(config: Config, s: System, schedule: seq<Choice>, start: u64)
    requires config.recoveryTimeout == 0
    ensures WithinTimeout(config, schedule, start) ==> Continue(config, s, schedule).admissions == s.admissions
  {
    if schedule != [] {
      var first := schedule[0];
    }
  }

  lemma {:induction false} NoQuota(config: Config, s: System, schedule: seq<Choice>, start: u64)
    requires Sound(config, s) && OpenSince(s, start) && !SomeBeforeClosing(s) && config.halfOpenMaxProbes == 0
    ensures WithinTimeout(config, schedule, start) ==> Continue(config, s, schedule).admissions == s.admissions
  {
    if WithinTimeout(config, schedule, start) {
      QuotaZeroNeverAdmits(config, s, schedule);
    }
  }

  // ---- Two openers ----

  /** Thread 0 records failures at reading 1, one short of the limit. */
  lemma OneShortOfOpening(config: Config) returns (schedule: seq<Choice>)
    ensures var s := Execute(config, schedule);
            AllIdle(s) && s.cells == Breaker(Closed, Limit(config) - 1, 0, 0)
    ensures ClockRuns(schedule, 1)
  {
    hide Advance, Solo;
    schedule := [];
    for k := 0 to Limit(config) - 1
      invariant AllIdle(Execute(config, schedule)) && ClockRuns(schedule, 1)
      invariant Execute(config, schedule).cells == Breaker(Closed, k, 0, 0)
    {
      var before := Execute(config, schedule);
      assert PointOf(before, 0) == Idle;
      var n := SoloCallIsSequential(config, before, 0, FailureEntry, 1);
      schedule := SoloIsSchedule(config, schedule, 0, FailureEntry, 1, n);
      assert OnlyMoved(before, Execute(config, schedule), 0);
    }
  }

  /** The failure that reaches the limit, up to the switch of the mode. */
  lemma UpToSwitch(config: Config, s: System)
    requires PointOf(s, 0) == Idle && s.cells == Breaker(Closed, Limit(config) - 1, 0, 0)
    ensures var s' := Solo(config, s, 0, FailureEntry, 1, 4);
            PointOf(s', 0) == OpenSwap && OnlyMoved(s, s', 0) && s'.cells == s.cells.(failures := Limit(config))
  {
    hide Recorded, TimedOut;
    var s1 := Advance(config, s, 0, FailureEntry, 1);
    var s2 := Advance(config, s1, 0, FailureEntry, 1);
    var s3 := Advance(config, s2, 0, FailureEntry, 1);
    var s4 := Advance(config, s3, 0, FailureEntry, 1);
    assert Solo(config, s, 0, FailureEntry, 1, 4) == Solo(config, s1, 0, FailureEntry, 1, 3)
           == Solo(config, s2, 0, FailureEntry, 1, 2) == Solo(config, s3, 0, FailureEntry, 1, 1) == s4;
  }

  lemma SwitchAndRead(config: Config, s: System)
    requires PointOf(s, 0) == OpenSwap
    ensures var s' := Solo(config, s, 0, FailureEntry, 1, 2);
            PointOf(s', 0) == OpenStoreInstant(Recorded(1)) && OnlyMoved(s, s', 0) && s'.cells == s.cells.(mode := Open)
  {
    hide Recorded, TimedOut;
    var s1 := Advance(config, s, 0, FailureEntry, 1);
    var s2 := Advance(config, s1, 0, FailureEntry, 1);
    assert Solo(config, s, 0, FailureEntry, 1, 2) == Solo(config, s1, 0, FailureEntry, 1, 1) == s2;
  }

  /** ... and on, up to the store of its reading. */
  lemma UpToStore(config: Config, s: System)
    requires PointOf(s, 0) == Idle && s.cells == Breaker(Closed, Limit(config) - 1, 0, 0)
    ensures var s' := Solo(config, s, 0, FailureEntry, 1, 6);
            && PointOf(s', 0) == OpenStoreInstant(1) && OnlyMoved(s, s', 0)
            && s'.cells == Breaker(Open, Limit(config), 0, 0)
  {
    RecordedNearWrap(1);
    hide Recorded, Advance, Solo;
    UpToSwitch(config, s);
    SwitchAndRead(config, Solo(config, s, 0, FailureEntry, 1, 4));
    SoloAdds(config, s, 0, FailureEntry, 1, 4, 2);
  }

  /**
   Two threads open the breaker at once, for every configuration: thread 0 has read the clock at 1 and
   not stored it yet when thread 1 opens completely at 2. From this reachable state the blackout from
   2 on can be left exactly when quota and timeout are positive.
   */
  lemma RacingOpenersLeakIff(config: Config) returns (schedule: seq<Choice>)
    ensures var s := Execute(config, schedule);
            && s.cells.mode == Open && s.cells.openedAt == 2 && PointOf(s, 0) == OpenStoreInstant(1)
            && forall u :: u != 0 ==> PointOf(s, u) == Idle
    ensures ClockRuns(schedule, 2)
    ensures LeavesBlackout(config, Execute(config, schedule), 2)
            <==> config.halfOpenMaxProbes > 0 && config.recoveryTimeout > 0
  {
    hide Advance, Solo, Recorded;
    RecordedNearWrap(2);
    var short := OneShortOfOpening(config);
    UpToStore(config, Execute(config, short));
    var first := SoloIsSchedule(config, short, 0, FailureEntry, 1, 6);
    var before := Execute(config, first);
    var n := SoloCallIsSequential(config, before, 1, FailureEntry, 2);
    schedule := SoloIsSchedule(config, first, 1, FailureEntry, 2, n);
    var s := Execute(config, schedule);
    assert OnlyMoved(before, s, 1);
    ExecuteIsSound(config, schedule);
    hide Execute, Sound, LeavesBlackout;
    InterleavedBlackoutIff(config, s, 2);
    assert LeftOver(PointOf(s, 0), 2);
  }

  // ---- The stale instant ----

  /** An opening has switched the mode and not yet stored its instant. */
  predicate BetweenWrites(p: Point) {
    p.OpenReadClock? || p.OpenStoreInstant?
  }

  /**
   `before` ends with thread `t` between the two writes of an opening, at `now`, and every other
   thread idle; `after` stays within the timeout from `now`, reports no success, and yet a request
   is admitted.
   */
  ghost predicate LeaksStaleInstant(config: Config, before: seq<Choice>, after: seq<Choice>, t: Thread, now: nat) {
    var s := Execute(config, before);
    && ClockRuns(before, now) && before != [] && before[|before| - 1] == Choice(t, FailureEntry, now)
    && s.cells.mode == Open && BetweenWrites(PointOf(s, t)) && (forall u :: u != t ==> PointOf(s, u) == Idle)
    && (forall i :: 0 <= i < |after| ==> after[i].entry != SuccessEntry && now <= after[i].now < now + config.recoveryTimeout)
    && Continue(config, s, after).admissions > s.admissions
  }

  /** Opened at instant 1, half-open after the timeout, and a failed trial up to its switch to open. */
  lemma HalfDoneOpening(config: Config) returns (schedule: seq<Choice>)
    ensures var s := Execute(config, schedule);
            var now := 1 + config.recoveryTimeout;
            && ClockRuns(schedule, now) && schedule != [] && schedule[|schedule| - 1] == Choice(0, FailureEntry, now)
            && s.cells.mode == Open && s.cells.openedAt == 1
            && PointOf(s, 0) == OpenReadClock && (forall u :: u != 0 ==> PointOf(s, u) == Idle)
  {
    var now := 1 + config.recoveryTimeout;
    var opening := OpenByFailures(config, []);
    var n := SoloCallIsSequential(config, Execute(config, opening), 0, StateEntry, now);
    var halfOpen := SoloIsSchedule(config, opening, 0, StateEntry, now, n);
    var s := Execute(config, halfOpen);
    FailureUpToSwitch(config, s, now);
    schedule := SoloIsSchedule(config, halfOpen, 0, FailureEntry, now, 4);
  }

  lemma {:induction false} FailureUpToSwitch(config: Config, s: System, now: nat)
    requires PointOf(s, 0) == Idle && s.cells.mode == HalfOpen
    ensures var s' := Solo(config, s, 0, FailureEntry, now, 4);
            PointOf(s', 0) == OpenReadClock && OnlyMoved(s, s', 0) && s'.cells == s.cells.(mode := Open)
  {
    var s1 := Advance(config, s, 0, FailureEntry, now);
    var s2 := Advance(config, s1, 0, FailureEntry, now);
    var s3 := Advance(config, s2, 0, FailureEntry, now);
    var s4 := Advance(config, s3, 0, FailureEntry, now);
    assert Solo(config, s, 0, FailureEntry, now, 4) == Solo(config, s1, 0, FailureEntry, now, 3)
           == Solo(config, s2, 0, FailureEntry, now, 2) == Solo(config, s3, 0, FailureEntry, now, 1) == s4;
  }

  /** Thread 1 sees the breaker open with the previous instant, finds the timeout over and is admitted. */
  lemma StaleInstantAdmits(config: Config)
    requires config.halfOpenMaxProbes > 0 && config.recoveryTimeout > 0
    ensures exists before, after, t: Thread, now: nat :: LeaksStaleInstant(config, before, after, t, now)
  {
    var now := 1 + config.recoveryTimeout;
    var before := HalfDoneOpening(config);
    var s := Execute(config, before);
    var n := SoloCallIsSequential(config, s, 1, AllowEntry, now);
    var all := SoloIsSchedule(config, before, 1, AllowEntry, now, n);
    var after := Repeated(1, AllowEntry, now, n);
    hide Advance, Solo, Execute, Continue;
    ExecuteConcat(config, before, after);
    assert LeaksStaleInstant(config, before, after, 0, now);
  }

  lemma {:induction false} WindowNeedsTimeout(config: Config, after: seq<Choice>, now: nat)
    requires after != []
    ensures (forall i :: 0 <= i < |after| ==> now <= after[i].now < now + config.recoveryTimeout) ==> config.recoveryTimeout > 0
  {
    var first := after[0];
  }

  /**
   An opening switches the mode before it stores its instant. In between, a request can be admitted
   on the strength of the previous instant, right after a failed trial, exactly when there is a
   timeout to respect and a probe to grant.
   */
  lemma StaleInstantLeakIff(config: Config)
    ensures (exists before, after, t: Thread, now: nat :: LeaksStaleInstant(config, before, after, t, now))
            <==> config.halfOpenMaxProbes > 0 && config.recoveryTimeout > 0
  {
    if config.halfOpenMaxProbes > 0 && config.recoveryTimeout > 0 {
      StaleInstantAdmits(config);
    } else {
      forall before: seq<Choice>, after: seq<Choice>, t: Thread, now: nat
        ensures !LeaksStaleInstant(config, before, after, t, now)
      {
        if LeaksStaleInstant(config, before, after, t, now) {
          var s := Execute(config, before);
          ExecuteIsSound(config, before);
          hide Advance, Execute, Sound;
          if config.halfOpenMaxProbes == 0 {
            QuotaZeroNeverAdmits(config, s, after);
          } else if after != [] {
            WindowNeedsTimeout(config, after, now);
          }
        }
      }
    }
  }

  // ---- The zero instant under interleaving ----

  predicate Querying(p: Point) {
    match p
    case Idle => true
    case RefreshLoadMode(e) => e == StateEntry || e == AllowEntry
    case RefreshLoadOpened(e) => e == StateEntry || e == AllowEntry
    case Enter(e) => e == StateEntry || e == AllowEntry
    case _ => false
  }

  ghost predicate StrandedSystem(s: System) {
    Stranded(s.cells) && forall t :: Querying(PointOf(s, t))
  }

  lemma StrandedStep(config: Config, s: System, c: Choice)
    requires StrandedSystem(s) && (c.entry == StateEntry || c.entry == AllowEntry)
    ensures var s' := Advance(config, s, c.thread, c.entry, c.now);
            StrandedSystem(s') && s'.admissions == s.admissions
  {
    assert Querying(PointOf(s, c.thread));
    QueryingStep(config, s, c);
    OnlyOwnPoint(config, s, c);
    hide Advance, Querying;
    var s' := Advance(config, s, c.thread, c.entry, c.now);
    forall t ensures Querying(PointOf(s', t)) {
      assert Querying(PointOf(s, t));
    }
  }

  lemma QueryingStep(config: Config, s: System, c: Choice)
    requires Stranded(s.cells) && Querying(PointOf(s, c.thread)) && (c.entry == StateEntry || c.entry == AllowEntry)
    ensures var s' := Advance(config, s, c.thread, c.entry, c.now);
            Stranded(s'.cells) && Querying(PointOf(s', c.thread)) && s'.admissions == s.admissions
  {
  }

  /** A stranded breaker admits nothing under any interleaving of queries and requests, at any time. */
  lemma {:induction false} StrandedForever(config: Config, s: System, schedule: seq<Choice>)
    requires StrandedSystem(s)
    requires forall i :: 0 <= i < |schedule| ==> schedule[i].entry == StateEntry || schedule[i].entry == AllowEntry
    ensures var s' := Continue(config, s, schedule); StrandedSystem(s') && s'.admissions == s.admissions
    decreases |schedule|
  {
    hide Advance, StrandedSystem;
    if schedule != [] {
      var n := |schedule| - 1;
      StrandedForever(config, s, schedule[..n]);
      StrandedStep(config, Continue(config, s, schedule[..n]), schedule[n]);
    }
  }

  /** Thread 1 reports a success and stops before its last write. */
  lemma SuccessUpToClear(config: Config)
    ensures var s := Solo(config, INITIAL, 1, SuccessEntry, 1, 5);
            PointOf(s, 1) == SuccessZeroOpened && OnlyMoved(INITIAL, s, 1) && s.cells == NEW_BREAKER
  {
    var s1 := Advance(config, INITIAL, 1, SuccessEntry, 1);
    var s2 := Advance(config, s1, 1, SuccessEntry, 1);
    var s3 := Advance(config, s2, 1, SuccessEntry, 1);
    var s4 := Advance(config, s3, 1, SuccessEntry, 1);
    var s5 := Advance(config, s4, 1, SuccessEntry, 1);
    assert Solo(config, INITIAL, 1, SuccessEntry, 1, 5) == Solo(config, s1, 1, SuccessEntry, 1, 4)
           == Solo(config, s2, 1, SuccessEntry, 1, 3) == Solo(config, s3, 1, SuccessEntry, 1, 2)
           == Solo(config, s4, 1, SuccessEntry, 1, 1) == s5;
  }

  lemma LateClear(config: Config, s: System)
    requires PointOf(s, 1) == SuccessZeroOpened
    ensures var s' := Solo(config, s, 1, SuccessEntry, 1, 1);
            PointOf(s', 1) == Idle && OnlyMoved(s, s', 1) && s'.cells == s.cells.(openedAt := 0)
  {
    assert Solo(config, s, 1, SuccessEntry, 1, 1) == Advance(config, s, 1, SuccessEntry, 1);
  }

  /**
   A late clear: thread 1 reports a success, thread 0 opens the breaker before the last write of
   thread 1, which then wipes out the opening instant. For every configuration, with no clock reading
   of zero, the breaker ends open with all threads idle and admits nothing ever again by time.
   */
  lemma LateClearStrands(config: Config) returns (schedule: seq<Choice>)
    ensures AllAt(schedule, 1)
    ensures AllIdle(Execute(config, schedule)) && Stranded(Execute(config, schedule).cells)
    ensures !CanAdmitAgain(config, Execute(config, schedule).cells)
    ensures forall more: seq<Choice> |
              forall i :: 0 <= i < |more| ==> more[i].entry == StateEntry || more[i].entry == AllowEntry ::
              Execute(config, schedule + more).admissions == Execute(config, schedule).admissions
  {
    SuccessUpToClear(config);
    var cleared := SoloIsSchedule(config, [], 1, SuccessEntry, 1, 5);
    var opening := OpenByFailures(config, cleared);
    LateClear(config, Execute(config, opening));
    schedule := SoloIsSchedule(config, opening, 1, SuccessEntry, 1, 1);
    hide Advance, Solo, CanAdmitAgain;
    var s := Execute(config, schedule);
    RecoversByTimeIff(config, s.cells);
    hide Execute;
    assert StrandedSystem(s);
    forall more: seq<Choice> |
      forall i :: 0 <= i < |more| ==> more[i].entry == StateEntry || more[i].entry == AllowEntry
      ensures Execute(config, schedule + more).admissions == s.admissions
    {
      ExecuteConcat(config, schedule, more);
      StrandedForever(config, s, more);
    }
  }
}
