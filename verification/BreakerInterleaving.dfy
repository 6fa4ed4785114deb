/**
 The circuit breaker shared by any number of threads. Every atomic load, store, swap,
 compare-exchange and fetch-add and every reading of the clock is one step, and steps of different
 threads interleave freely (sequentially consistent memory). `writes` records the writes to the probe counter.
 */
module BreakerInterleaving {
  import opened MachineInt
  import opened CircuitBreaker

  type Thread = nat

  datatype Entry = StateEntry | AllowEntry | SuccessEntry | FailureEntry

  /**
   Where a thread is: the atomic operation it performs next. `start` is the number of probe writes
   when the thread entered the probe loop, `seen` when it last loaded the counter, and `lost` how
   many compare-exchanges it has lost in this loop.
   */
  datatype Point =
    | Idle
    | RefreshLoadMode(entry: Entry)
    | RefreshLoadOpened(entry: Entry)
    | RefreshReadClock(entry: Entry, since: u64)
    | RefreshSwapMode(entry: Entry)
    | RefreshZeroProbes(entry: Entry)
    | RefreshZeroFailures(entry: Entry)
    | Enter(entry: Entry)
    | ProbeLoad(start: nat, lost: nat)
    | ProbeSwap(observed: u32, seen: nat, start: nat, lost: nat)
    | SuccessZeroFailures
    | SuccessZeroProbes
    | SuccessZeroOpened
    | FailureAdd
    | OpenSwap
    | OpenReadClock
    | OpenStoreInstant(instant: u64)
    | OpenZeroProbes

  datatype Write = Probe(writer: Thread) | Zero(writer: Thread)

  /**
   `episode` is the length of `writes` at the last write of the mode cell, `answers` the last answer
   each thread got and `admissions` the number of positive answers.
   */
  datatype System = System(
    cells: Breaker,
    points: map<Thread, Point>,
    writes: seq<Write>,
    episode: nat,
    answers: map<Thread, bool>,
    admissions: nat)

  const INITIAL := System(NEW_BREAKER, map[], [], 0, map[], 0)

  function PointOf(s: System, t: Thread): Point {
    if t in s.points then s.points[t] else Idle
  }

  function Goto(s: System, t: Thread, p: Point): System {
    s.(points := s.points[t := p])
  }

  function Answer(s: System, t: Thread, admitted: bool): System {
    s.(points := s.points[t := Idle], answers := s.answers[t := admitted],
       admissions := s.admissions + (if admitted then 1 else 0))
  }

  function SetMode(s: System, m: Mode): System {
    s.(cells := s.cells.(mode := m), episode := |s.writes|)
  }

  function ZeroProbes(s: System, t: Thread): System {
    s.(cells := s.cells.(probes := 0), writes := s.writes + [Zero(t)])
  }

  /** One atomic step of thread `t`; an idle thread starts the call named by `entry`. */
  function Advance(config: Config, s: System, t: Thread, entry: Entry, now: nat): System {
    match PointOf(s, t)
    case Idle => Goto(s, t, RefreshLoadMode(entry))
    case RefreshLoadMode(e) => Goto(s, t, if s.cells.mode != Open then Enter(e) else RefreshLoadOpened(e))
    case RefreshLoadOpened(e) =>
      Goto(s, t, if s.cells.openedAt == 0 then Enter(e) else RefreshReadClock(e, s.cells.openedAt))
    case RefreshReadClock(e, since) =>
      Goto(s, t, if TimedOut(config, since, now) then RefreshSwapMode(e) else Enter(e))
    case RefreshSwapMode(e) =>
      if s.cells.mode == Open then Goto(SetMode(s, HalfOpen), t, RefreshZeroProbes(e)) else Goto(s, t, Enter(e))
    case RefreshZeroProbes(e) => Goto(ZeroProbes(s, t), t, RefreshZeroFailures(e))
    case RefreshZeroFailures(e) => Goto(s.(cells := s.cells.(failures := 0)), t, Enter(e))
    case Enter(e) =>
      (match e
       case StateEntry => Goto(s, t, Idle)
       case AllowEntry =>
         (match s.cells.mode
          case Closed => Answer(s, t, true)
          case Open => Answer(s, t, false)
          case HalfOpen => Goto(s, t, ProbeLoad(|s.writes|, 0)))
       case SuccessEntry => Goto(SetMode(s, Closed), t, SuccessZeroFailures)
       case FailureEntry => Goto(s, t, if s.cells.mode == HalfOpen then OpenSwap else FailureAdd))
    case ProbeLoad(start, lost) =>
      if s.cells.probes >= config.halfOpenMaxProbes then Answer(s, t, false)
      else Goto(s, t, ProbeSwap(s.cells.probes, |s.writes|, start, lost))
    case ProbeSwap(observed, seen, start, lost) =>
      if s.cells.probes == observed then
        Answer(s.(cells := s.cells.(probes := SaturatingAdd(observed, 1, U32_MAX)), writes := s.writes + [Probe(t)]), t, true)
      else Goto(s, t, ProbeLoad(start, lost + 1))
    case SuccessZeroFailures => Goto(s.(cells := s.cells.(failures := 0)), t, SuccessZeroProbes)
    case SuccessZeroProbes => Goto(ZeroProbes(s, t), t, SuccessZeroOpened)
    case SuccessZeroOpened => Goto(s.(cells := s.cells.(openedAt := 0)), t, Idle)
    case FailureAdd =>
      var added := s.(cells := s.cells.(failures := (s.cells.failures + 1) % (U32_MAX + 1)));
      Goto(added, t, if SaturatingAdd(s.cells.failures, 1, U32_MAX) >= config.failureThreshold then OpenSwap else Idle)
    case OpenSwap => Goto(SetMode(s, Open), t, OpenReadClock)
    case OpenReadClock => Goto(s, t, OpenStoreInstant(Recorded(now)))
    case OpenStoreInstant(instant) => Goto(s.(cells := s.cells.(openedAt := instant)), t, OpenZeroProbes)
    case OpenZeroProbes => Goto(ZeroProbes(s, t), t, Idle)
  }

  /** Which thread moves next, the call it starts if idle, and the clock it reads. */
  datatype Choice = Choice(thread: Thread, entry: Entry, now: nat)

  function Execute(config: Config, schedule: seq<Choice>): System {
    if schedule == [] then INITIAL
    else
      var c := schedule[|schedule| - 1];
      Advance(config, Execute(config, schedule[..|schedule| - 1]), c.thread, c.entry, c.now)
  }

  // ---- Counting over the history of probe writes ----

  /** Successful probe exchanges since the last zero-store. */
  function SinceZero(writes: seq<Write>): nat {
    if writes == [] || writes[|writes| - 1].Zero? then 0 else 1 + SinceZero(writes[..|writes| - 1])
  }

  function Probes(writes: seq<Write>): nat {
    if writes == [] then 0
    else Probes(writes[..|writes| - 1]) + (if writes[|writes| - 1].Probe? then 1 else 0)
  }

  function Zeros(writes: seq<Write>): nat {
    if writes == [] then 0
    else Zeros(writes[..|writes| - 1]) + (if writes[|writes| - 1].Zero? then 1 else 0)
  }

  /** No stretch between zero-stores holds more than `quota` probes. */
  predicate WithinQuota(writes: seq<Write>, quota: nat) {
    writes == [] || (SinceZero(writes) <= quota && WithinQuota(writes[..|writes| - 1], quota))
  }

  // ---- Invariant ----

  ghost predicate OthersWrote(writes: seq<Write>, start: nat, t: Thread) {
    forall i :: start <= i < |writes| ==> writes[i].writer != t
  }

  ghost predicate PointSound(config: Config, s: System, t: Thread, p: Point) {
    match p
    case ProbeLoad(start, lost) =>
      start + lost <= |s.writes| && OthersWrote(s.writes, start, t)
    case ProbeSwap(observed, seen, start, lost) =>
      && start + lost <= seen <= |s.writes| && OthersWrote(s.writes, start, t)
      && observed < config.halfOpenMaxProbes
      && (seen == |s.writes| ==> s.cells.probes == observed)
    case _ => true
  }

  ghost predicate Sound(config: Config, s: System) {
    && s.cells.probes == SinceZero(s.writes)
    && WithinQuota(s.writes, config.halfOpenMaxProbes)
    && s.episode <= |s.writes|
    && forall t :: t in s.points ==> PointSound(config, s, t, s.points[t])
  }

  lemma {:induction false} HistoryStep(writes: seq<Write>, w: Write)
    ensures SinceZero(writes + [w]) == if w.Zero? then 0 else SinceZero(writes) + 1
    ensures forall quota: nat :: WithinQuota(writes + [w], quota) <==>
              SinceZero(writes + [w]) <= quota && WithinQuota(writes, quota)
  {
    assert (writes + [w])[..|writes|] == writes;
  }

  /** What a step of `t` may do to the probe counter and its history. */
  ghost predicate ProbeEffect(config: Config, s: System, s': System, t: Thread) {
    || (s'.writes == s.writes && s'.cells.probes == s.cells.probes)
    || (s'.writes == s.writes + [Zero(t)] && s'.cells.probes == 0)
    || (s'.writes == s.writes + [Probe(t)] && s'.cells.probes == s.cells.probes + 1 <= config.halfOpenMaxProbes)
  }

  lemma {:induction false} AdvanceEffect(config: Config, s: System, t: Thread, entry: Entry, now: nat)
    requires PointSound(config, s, t, PointOf(s, t))
    ensures var s' := Advance(config, s, t, entry, now);
            && ProbeEffect(config, s, s', t)
            && (s'.episode == s.episode || s'.episode == |s.writes|)
            && t in s'.points && s'.points == s.points[t := s'.points[t]]
  {
  }

  lemma {:induction false} OwnPointStaysSound(config: Config, s: System, t: Thread, entry: Entry, now: nat)
    requires PointSound(config, s, t, PointOf(s, t))
    ensures var s' := Advance(config, s, t, entry, now); PointSound(config, s', t, PointOf(s', t))
  {
  }

  /** A step of `t` leaves the bookkeeping of another thread `u` sound. */
  lemma OthersStaySound(config: Config, s: System, s': System, t: Thread, u: Thread, p: Point)
    requires u != t && PointSound(config, s, u, p) && ProbeEffect(config, s, s', t)
    ensures PointSound(config, s', u, p)
  {
  }

  lemma {:induction false} AdvanceKeepsSound(config: Config, s: System, t: Thread, entry: Entry, now: nat)
    requires Sound(config, s)
    ensures Sound(config, Advance(config, s, t, entry, now))
  {
    AdvanceEffect(config, s, t, entry, now);
    OwnPointStaysSound(config, s, t, entry, now);
    hide Advance;
    var s' := Advance(config, s, t, entry, now);
    HistoryStep(s.writes, Zero(t));
    HistoryStep(s.writes, Probe(t));
    forall u | u in s'.points ensures PointSound(config, s', u, s'.points[u]) {
      if u != t {
        OthersStaySound(config, s, s', t, u, s.points[u]);
      }
    }
  }

  lemma {:induction false} ExecuteIsSound(config: Config, schedule: seq<Choice>)
    ensures Sound(config, Execute(config, schedule))
    decreases |schedule|
  {
    if schedule != [] {
      var c := schedule[|schedule| - 1];
      ExecuteIsSound(config, schedule[..|schedule| - 1]);
      AdvanceKeepsSound(config, Execute(config, schedule[..|schedule| - 1]), c.thread, c.entry, c.now);
    }
  }

  // ---- Conservation ----

  /**
   Probe conservation: under every interleaving of any number of threads the probe counter equals
   the successful probe exchanges since the last zero-store, and never exceeds the quota.
   */
  lemma {:induction false} ProbeConservation(config: Config, schedule: seq<Choice>)
    ensures var s := Execute(config, schedule);
            s.cells.probes == SinceZero(s.writes) <= config.halfOpenMaxProbes
  {
    ExecuteIsSound(config, schedule);
  }

  lemma {:induction false} SliceWithinQuota(writes: seq<Write>, from: nat, quota: nat)
    requires from <= |writes| && WithinQuota(writes, quota)
    ensures SinceZero(writes[from..]) <= SinceZero(writes)
    ensures WithinQuota(writes[from..], quota)
    decreases |writes|
  {
    if from < |writes| {
      var n := |writes| - 1;
      SliceWithinQuota(writes[..n], from, quota);
      assert writes[from..] == writes[..n][from..] + [writes[n]];
      HistoryStep(writes[..n][from..], writes[n]);
    }
  }

  lemma {:induction false} QuotaPerZero(writes: seq<Write>, quota: nat)
    requires WithinQuota(writes, quota)
    ensures Probes(writes) <= quota * Zeros(writes) + SinceZero(writes)
    decreases |writes|
  {
    if writes != [] {
      QuotaPerZero(writes[..|writes| - 1], quota);
      OneMore(quota, Zeros(writes[..|writes| - 1]));
      assert SinceZero(writes[..|writes| - 1]) <= quota;
    }
  }

  /**
   Admissions between any two points of any interleaving are at most the quota times one more
   than the zero-stores in between; the whole run and one half-open episode are special cases.
   */
  lemma {:induction false} AdmissionBound(config: Config, schedule: seq<Choice>, from: nat)
    requires from <= |Execute(config, schedule).writes|
    ensures var window := Execute(config, schedule).writes[from..];
            Probes(window) <= config.halfOpenMaxProbes * (1 + Zeros(window))
  {
    ExecuteIsSound(config, schedule);
    var s := Execute(config, schedule);
    var window := s.writes[from..];
    SliceWithinQuota(s.writes, from, config.halfOpenMaxProbes);
    hide Execute, Probes, Zeros, PointSound;
    QuotaPerZero(window, config.halfOpenMaxProbes);
    OneMore(config.halfOpenMaxProbes, Zeros(window));
  }

  lemma {:induction false} OneMore(quota: nat, zeros: nat)
    ensures quota * (1 + zeros) == quota * zeros + quota
  {
  }

  /**
   A thread in the probe loop has lost at most as many exchanges as there were probe writes since
   it entered the loop, all of them by other threads.
   */
  lemma {:induction false} LostRacesAreCharged(config: Config, schedule: seq<Choice>, t: Thread)
    ensures var s := Execute(config, schedule);
            var p := PointOf(s, t);
            p.ProbeLoad? || p.ProbeSwap? ==>
              && p.start + p.lost <= |s.writes|
              && forall i :: p.start <= i < |s.writes| ==> s.writes[i].writer != t
  {
    ExecuteIsSound(config, schedule);
  }

  /** Exchanges thread `t` has lost since it entered the probe loop, read off the schedule. */
  function LostExchanges(config: Config, schedule: seq<Choice>, t: Thread): nat {
    if schedule == [] then 0
    else
      var init, c := schedule[..|schedule| - 1], schedule[|schedule| - 1];
      var before := Execute(config, init);
      var p := PointOf(before, t);
      if c.thread != t then LostExchanges(config, init, t)
      else if p.ProbeSwap? && before.cells.probes != p.observed then LostExchanges(config, init, t) + 1
      else if p.ProbeLoad? then LostExchanges(config, init, t)
      else 0
  }

  lemma TallyStep(config: Config, s: System, c: Choice, t: Thread)
    ensures var p, p' := PointOf(s, t), PointOf(Advance(config, s, c.thread, c.entry, c.now), t);
            if c.thread != t then p' == p
            else p'.ProbeLoad? || p'.ProbeSwap? ==>
              p'.lost == (if p.ProbeSwap? && s.cells.probes != p.observed then p.lost + 1 else if p.ProbeLoad? then p.lost else 0)
  {
    hide Recorded, TimedOut, SaturatingAdd;
  }

  /** The tally of a thread in the probe loop is exactly the exchanges it has lost there. */
  lemma {:induction false} LostIsExact(config: Config, schedule: seq<Choice>, t: Thread)
    ensures var p := PointOf(Execute(config, schedule), t);
            p.ProbeLoad? || p.ProbeSwap? ==> p.lost == LostExchanges(config, schedule, t)
    decreases |schedule|
  {
    if schedule != [] {
      hide Advance;
      var n := |schedule| - 1;
      LostIsExact(config, schedule[..n], t);
      TallyStep(config, Execute(config, schedule[..n]), schedule[n], t);
    }
  }

  // ---- One half-open episode ----

  /** Probes admitted since the mode last changed. */
  function EpisodeProbes(s: System): nat
    requires s.episode <= |s.writes|
  {
    Probes(s.writes[s.episode..])
  }

  predicate NoZeroAfterProbe(writes: seq<Write>) {
    forall i, j :: 0 <= i < j < |writes| && writes[i].Probe? ==> !writes[j].Zero?
  }

  lemma {:induction false} UninterruptedProbes(writes: seq<Write>)
    requires NoZeroAfterProbe(writes)
    ensures Probes(writes) == SinceZero(writes)
    decreases |writes|
  {
    if writes != [] {
      var n := |writes| - 1;
      UninterruptedProbes(writes[..n]);
      if writes[n].Zero? {
        NoProbeBeforeZero(writes[..n]);
      }
    }
  }

  lemma {:induction false} NoProbeBeforeZero(writes: seq<Write>)
    requires forall i :: 0 <= i < |writes| ==> writes[i].Zero?
    ensures Probes(writes) == 0
    decreases |writes|
  {
    if writes != [] {
      NoProbeBeforeZero(writes[..|writes| - 1]);
    }
  }

  /** An episode keeps to the quota unless a late zero-store lands after one of its admissions. */
  lemma {:induction false} EpisodeWithinQuota(config: Config, schedule: seq<Choice>)
    ensures var s := Execute(config, schedule);
            s.episode <= |s.writes|
            && (NoZeroAfterProbe(s.writes[s.episode..]) ==> EpisodeProbes(s) <= config.halfOpenMaxProbes)
  {
    ExecuteIsSound(config, schedule);
    var s := Execute(config, schedule);
    var window := s.writes[s.episode..];
    if NoZeroAfterProbe(window) {
      SliceWithinQuota(s.writes, s.episode, config.halfOpenMaxProbes);
      UninterruptedProbes(window);
    }
  }

  // ---- Without interference the steps make up the sequential calls ----

  /** `n` consecutive steps of one thread. */
  function Solo(config: Config, s: System, t: Thread, entry: Entry, now: nat, n: nat): System
    decreases n
  {
    if n == 0 then s else Solo(config, Advance(config, s, t, entry, now), t, entry, now, n - 1)
  }

  function CallOf(entry: Entry, now: nat): Call {
    match entry
    case StateEntry => QueryState(now)
    case AllowEntry => Allow(now)
    case SuccessEntry => Success(now)
    case FailureEntry => Failed(now)
  }

  ghost predicate OnlyMoved(s: System, s': System, t: Thread) {
    forall u :: u != t ==> PointOf(s', u) == PointOf(s, u)
  }

  lemma {:induction false} SoloAdds(config: Config, s: System, t: Thread, entry: Entry, now: nat, m: nat, n: nat)
    ensures Solo(config, s, t, entry, now, m + n)
            == Solo(config, Solo(config, s, t, entry, now, m), t, entry, now, n)
    decreases m
  {
    if m > 0 {
      SoloAdds(config, Advance(config, s, t, entry, now), t, entry, now, m - 1, n);
    }
  }

  /** From the timeout found over to the end of the refresh. */
  lemma {:induction false} SoloToHalfOpen(config: Config, s: System, t: Thread, e: Entry, now: nat)
    requires PointOf(s, t) == RefreshSwapMode(e) && s.cells.mode == Open
    ensures var s' := Solo(config, s, t, e, now, 3);
            && PointOf(s', t) == Enter(e) && s'.cells == s.cells.(mode := HalfOpen, probes := 0, failures := 0)
            && OnlyMoved(s, s', t) && s'.admissions == s.admissions
  {
    var s1 := Advance(config, s, t, e, now);
    var s2 := Advance(config, s1, t, e, now);
    var s3 := Advance(config, s2, t, e, now);
    assert Solo(config, s, t, e, now, 3) == Solo(config, s1, t, e, now, 2) == Solo(config, s2, t, e, now, 1) == s3;
  }

  lemma {:induction false} SoloRefresh(config: Config, s: System, t: Thread, e: Entry, now: nat) returns (n: nat)
    requires PointOf(s, t) == RefreshLoadMode(e)
    ensures var s' := Solo(config, s, t, e, now, n);
            && PointOf(s', t) == Enter(e) && s'.cells == Refreshed(config, s.cells, now) && OnlyMoved(s, s', t)
            && s'.admissions == s.admissions
  {
    var s1 := Advance(config, s, t, e, now);
    if s.cells.mode != Open {
      return 1;
    }
    var s2 := Advance(config, s1, t, e, now);
    assert Solo(config, s, t, e, now, 2) == Solo(config, s1, t, e, now, 1) == s2;
    if s.cells.openedAt == 0 {
      return 2;
    }
    var s3 := Advance(config, s2, t, e, now);
    assert Solo(config, s, t, e, now, 3) == Solo(config, s1, t, e, now, 2) == Solo(config, s2, t, e, now, 1) == s3;
    if !TimedOut(config, s.cells.openedAt, now) {
      return 3;
    }
    SoloToHalfOpen(config, s3, t, e, now);
    SoloAdds(config, s, t, e, now, 3, 3);
    n := 6;
  }

  lemma {:induction false} SoloOpen(config: Config, s: System, t: Thread, e: Entry, now: nat)
    requires PointOf(s, t) == OpenSwap
    ensures var s' := Solo(config, s, t, e, now, 4);
            && PointOf(s', t) == Idle && s'.cells == Opened(s.cells, now) && OnlyMoved(s, s', t)
            && s'.admissions == s.admissions
  {
    hide Recorded;
    var s1 := Advance(config, s, t, e, now);
    var s2 := Advance(config, s1, t, e, now);
    var s3 := Advance(config, s2, t, e, now);
    var s4 := Advance(config, s3, t, e, now);
    assert Solo(config, s, t, e, now, 4) == Solo(config, s1, t, e, now, 3)
           == Solo(config, s2, t, e, now, 2) == Solo(config, s3, t, e, now, 1) == s4;
  }

  /** Thread `t` finished its call with the effect and the answer of the sequential breaker. */
  ghost predicate Finished(config: Config, s: System, s': System, t: Thread, e: Entry, now: nat) {
    && PointOf(s', t) == Idle && OnlyMoved(s, s', t)
    && s'.cells == Step(config, s.cells, CallOf(e, now))
    && (e == AllowEntry ==>
          && t in s'.answers && s'.answers[t] == Admits(config, s.cells, Allow(now))
          && s'.admissions == s.admissions + (if s'.answers[t] then 1 else 0))
    && (e != AllowEntry ==> s'.admissions == s.admissions)
  }

  /** Past the refresh, with nothing left to refresh. */
  ghost predicate Entered(config: Config, s: System, t: Thread, e: Entry, now: nat) {
    PointOf(s, t) == Enter(e) && Refreshed(config, s.cells, now) == s.cells
  }

  lemma {:induction false} SoloAllow(config: Config, s: System, t: Thread, now: nat) returns (n: nat)
    requires Entered(config, s, t, AllowEntry, now)
    ensures Finished(config, s, Solo(config, s, t, AllowEntry, now, n), t, AllowEntry, now)
  {
    var e := AllowEntry;
    var s1 := Advance(config, s, t, e, now);
    assert Solo(config, s, t, e, now, 1) == s1;
    if s.cells.mode != HalfOpen {
      return 1;
    }
    var s2 := Advance(config, s1, t, e, now);
    assert Solo(config, s, t, e, now, 2) == Solo(config, s1, t, e, now, 1) == s2;
    if s.cells.probes >= config.halfOpenMaxProbes {
      return 2;
    }
    var s3 := Advance(config, s2, t, e, now);
    assert Solo(config, s, t, e, now, 3) == Solo(config, s1, t, e, now, 2) == Solo(config, s2, t, e, now, 1) == s3;
    n := 3;
  }

  lemma {:induction false} SoloSuccess(config: Config, s: System, t: Thread, now: nat)
    requires Entered(config, s, t, SuccessEntry, now)
    ensures Finished(config, s, Solo(config, s, t, SuccessEntry, now, 4), t, SuccessEntry, now)
  {
    var e := SuccessEntry;
    var s1 := Advance(config, s, t, e, now);
    var s2 := Advance(config, s1, t, e, now);
    var s3 := Advance(config, s2, t, e, now);
    var s4 := Advance(config, s3, t, e, now);
    assert Solo(config, s, t, e, now, 4) == Solo(config, s1, t, e, now, 3)
           == Solo(config, s2, t, e, now, 2) == Solo(config, s3, t, e, now, 1) == s4;
  }

  lemma {:induction false} SoloFailure(config: Config, s: System, t: Thread, now: nat) returns (n: nat)
    requires Entered(config, s, t, FailureEntry, now)
    ensures Finished(config, s, Solo(config, s, t, FailureEntry, now, n), t, FailureEntry, now)
  {
    var e := FailureEntry;
    var s1 := Advance(config, s, t, e, now);
    if s.cells.mode == HalfOpen {
      SoloOpen(config, s1, t, e, now);
      return 5;
    }
    var s2 := Advance(config, s1, t, e, now);
    assert Solo(config, s, t, e, now, 2) == Solo(config, s1, t, e, now, 1) == s2;
    if PointOf(s2, t) == Idle {
      return 2;
    }
    SoloOpen(config, s2, t, e, now);
    assert Solo(config, s, t, e, now, 6) == Solo(config, s1, t, e, now, 5) == Solo(config, s2, t, e, now, 4);
    n := 6;
  }

  /** From the first access after the refresh to the end of the call. */
  lemma {:induction false} SoloBody(config: Config, s: System, t: Thread, e: Entry, now: nat) returns (n: nat)
    requires Entered(config, s, t, e, now)
    ensures Finished(config, s, Solo(config, s, t, e, now, n), t, e, now)
  {
    match e
    case StateEntry => n := 1;
    case AllowEntry => n := SoloAllow(config, s, t, now);
    case SuccessEntry =>
      SoloSuccess(config, s, t, now);
      n := 4;
    case FailureEntry => n := SoloFailure(config, s, t, now);
  }

  /**
   A call that no other thread interferes with does to the cells, and answers, exactly what the
   one-call-at-a-time breaker does.
   */
  lemma {:induction false} SoloCallIsSequential(config: Config, s: System, t: Thread, entry: Entry, now: nat) returns (n: nat)
    requires PointOf(s, t) == Idle
    ensures Finished(config, s, Solo(config, s, t, entry, now, n), t, entry, now)
  {
    var s1 := Advance(config, s, t, entry, now);
    var refresh := SoloRefresh(config, s1, t, entry, now);
    var s2 := Solo(config, s1, t, entry, now, refresh);
    RefreshTwice(config, s.cells, entry, now);
    var body := SoloBody(config, s2, t, entry, now);
    SoloAdds(config, s1, t, entry, now, refresh, body);
    n := 1 + refresh + body;
  }

  lemma {:induction false} RefreshTwice(config: Config, b: Breaker, entry: Entry, now: nat)
    ensures var r := Refreshed(config, b, now);
            && Refreshed(config, r, now) == r
            && Step(config, r, CallOf(entry, now)) == Step(config, b, CallOf(entry, now))
            && Admits(config, r, Allow(now)) == Admits(config, b, Allow(now))
  {
  }

  // ---- The quota of one episode under interleaving ----

  /** The clock never runs back along the schedule, and has reached at most `now`. */
  predicate ClockRuns(schedule: seq<Choice>, now: nat) {
    && (forall i, j :: 0 <= i < j < |schedule| ==> schedule[i].now <= schedule[j].now)
    && (forall i :: 0 <= i < |schedule| ==> schedule[i].now <= now)
  }

  predicate AllAt(schedule: seq<Choice>, now: nat) {
    forall i :: 0 <= i < |schedule| ==> schedule[i].now == now
  }

  /** From `s` on. */
  function Continue(config: Config, s: System, schedule: seq<Choice>): System {
    if schedule == [] then s
    else
      var c := schedule[|schedule| - 1];
      Advance(config, Continue(config, s, schedule[..|schedule| - 1]), c.thread, c.entry, c.now)
  }

  lemma {:induction false} ContinueConcat(config: Config, s: System, before: seq<Choice>, after: seq<Choice>)
    ensures Continue(config, s, before + after) == Continue(config, Continue(config, s, before), after)
    decreases |after|
  {
    hide Advance;
    var all := before + after;
    if after == [] {
      assert all == before;
    } else {
      assert all[..|all| - 1] == before + after[..|after| - 1];
      ContinueConcat(config, s, before, after[..|after| - 1]);
    }
  }

  lemma {:induction false} ExecuteIsContinue(config: Config, schedule: seq<Choice>)
    ensures Execute(config, schedule) == Continue(config, INITIAL, schedule)
    decreases |schedule|
  {
    hide Advance;
    if schedule != [] {
      ExecuteIsContinue(config, schedule[..|schedule| - 1]);
    }
  }

  lemma {:induction false} ExecuteConcat(config: Config, before: seq<Choice>, after: seq<Choice>)
    ensures Execute(config, before + after) == Continue(config, Execute(config, before), after)
  {
    ExecuteIsContinue(config, before);
    ExecuteIsContinue(config, before + after);
    ContinueConcat(config, INITIAL, before, after);
  }

  function Repeated(t: Thread, entry: Entry, now: nat, n: nat): seq<Choice> {
    seq(n, _ => Choice(t, entry, now))
  }

  lemma {:induction false} SoloIsContinue(config: Config, s: System, t: Thread, entry: Entry, now: nat, n: nat)
    ensures Continue(config, s, Repeated(t, entry, now, n)) == Solo(config, s, t, entry, now, n)
    decreases n
  {
    hide Advance;
    if n > 0 {
      assert Repeated(t, entry, now, n)[..n - 1] == Repeated(t, entry, now, n - 1);
      SoloIsContinue(config, s, t, entry, now, n - 1);
      SoloAdds(config, s, t, entry, now, n - 1, 1);
      var before := Solo(config, s, t, entry, now, n - 1);
      assert Solo(config, before, t, entry, now, 1) == Solo(config, Advance(config, before, t, entry, now), t, entry, now, 0);
    }
  }

  lemma {:induction false} SoloIsSchedule(config: Config, schedule: seq<Choice>, t: Thread, entry: Entry, now: nat, n: nat)
    returns (longer: seq<Choice>)
    ensures ClockRuns(schedule, now) ==> ClockRuns(longer, now)
    ensures longer == schedule + Repeated(t, entry, now, n)
    ensures Execute(config, longer) == Solo(config, Execute(config, schedule), t, entry, now, n)
  {
    hide Execute, Solo;
    longer := schedule + Repeated(t, entry, now, n);
    ExecuteConcat(config, schedule, Repeated(t, entry, now, n));
    SoloIsContinue(config, Execute(config, schedule), t, entry, now, n);
  }

  ghost predicate AllIdle(s: System) {
    forall t :: PointOf(s, t) == Idle
  }

  /** With the cells as new, thread 0 records failures until the breaker opens; the others stand still. */
  lemma {:induction false} OpenByFailures(config: Config, start: seq<Choice>) returns (schedule: seq<Choice>)
    requires PointOf(Execute(config, start), 0) == Idle && Execute(config, start).cells == NEW_BREAKER && ClockRuns(start, 1)
    ensures var s := Execute(config, schedule);
            && PointOf(s, 0) == Idle && OnlyMoved(Execute(config, start), s, 0)
            && s.cells.mode == Open && s.cells.openedAt == 1 && s.cells.probes == 0
    ensures ClockRuns(schedule, 1) && (AllAt(start, 1) ==> AllAt(schedule, 1))
  {
    hide Advance, Solo, Recorded;
    RecordedNearWrap(1);
    schedule := start;
    for k := 0 to Limit(config)
      invariant PointOf(Execute(config, schedule), 0) == Idle && ClockRuns(schedule, 1)
      invariant AllAt(start, 1) ==> AllAt(schedule, 1)
      invariant OnlyMoved(Execute(config, start), Execute(config, schedule), 0)
      invariant var b := Execute(config, schedule).cells;
                if k < Limit(config) then b == Breaker(Closed, k, 0, 0)
                else b.mode == Open && b.openedAt == 1 && b.probes == 0
    {
      var before := Execute(config, schedule);
      assert PointOf(before, 0) == Idle;
      var n := SoloCallIsSequential(config, before, 0, FailureEntry, 1);
      schedule := SoloIsSchedule(config, schedule, 0, FailureEntry, 1, n);
      assert OnlyMoved(before, Execute(config, schedule), 0);
    }
  }

  /** Thread 0 moves the breaker to half-open and stops just before its zero-store. */
  lemma RaceToHalfOpen(config: Config, s: System)
    requires AllIdle(s) && s.cells.mode == Open && s.cells.openedAt == 1
    ensures var s' := Solo(config, s, 0, AllowEntry, 1 + config.recoveryTimeout, 5);
            && PointOf(s', 0) == RefreshZeroProbes(AllowEntry) && PointOf(s', 1) == Idle
            && s'.cells == s.cells.(mode := HalfOpen) && s'.writes == s.writes && s'.episode == |s.writes|
  {
    var now := 1 + config.recoveryTimeout;
    assert PointOf(s, 0) == Idle && PointOf(s, 1) == Idle;
    var s1 := Advance(config, s, 0, AllowEntry, now);
    var s2 := Advance(config, s1, 0, AllowEntry, now);
    var s3 := Advance(config, s2, 0, AllowEntry, now);
    var s4 := Advance(config, s3, 0, AllowEntry, now);
    var s5 := Advance(config, s4, 0, AllowEntry, now);
    assert Solo(config, s, 0, AllowEntry, now, 5) == Solo(config, s1, 0, AllowEntry, now, 4)
           == Solo(config, s2, 0, AllowEntry, now, 3) == Solo(config, s3, 0, AllowEntry, now, 2)
           == Solo(config, s4, 0, AllowEntry, now, 1) == s5;
  }

  /** Half-open, with thread 1 idle and a free probe slot. */
  ghost predicate SlotFree(config: Config, s: System) {
    && PointOf(s, 1) == Idle && s.cells.mode == HalfOpen && s.cells.probes < config.halfOpenMaxProbes
    && s.episode <= |s.writes|
  }

  /** Thread 1 asks for admission and gets the slot. */
  lemma {:induction false} TakeSlot(config: Config, s: System, now: nat)
    requires SlotFree(config, s)
    ensures var s' := Solo(config, s, 1, AllowEntry, now, 5);
            && PointOf(s', 1) == Idle && OnlyMoved(s, s', 1)
            && s'.cells == s.cells.(probes := s.cells.probes + 1)
            && s'.episode == s.episode && s'.writes == s.writes + [Probe(1)]
  {
    var s1 := Advance(config, s, 1, AllowEntry, now);
    var s2 := Advance(config, s1, 1, AllowEntry, now);
    var s3 := Advance(config, s2, 1, AllowEntry, now);
    var s4 := Advance(config, s3, 1, AllowEntry, now);
    var s5 := Advance(config, s4, 1, AllowEntry, now);
    assert Solo(config, s, 1, AllowEntry, now, 5) == Solo(config, s1, 1, AllowEntry, now, 4)
           == Solo(config, s2, 1, AllowEntry, now, 3) == Solo(config, s3, 1, AllowEntry, now, 2)
           == Solo(config, s4, 1, AllowEntry, now, 1) == s5;
  }

  lemma {:induction false} EpisodeGrows(writes: seq<Write>, w: Write, from: nat)
    requires from <= |writes|
    ensures Probes((writes + [w])[from..]) == Probes(writes[from..]) + (if w.Probe? then 1 else 0)
  {
    var window := writes[from..];
    assert (writes + [w])[from..] == window + [w];
    assert (window + [w])[..|window|] == window;
  }

  /** Thread 1 takes every free slot in turn. */
  lemma {:induction false} TakeAllSlots(config: Config, start: seq<Choice>, now: nat) returns (schedule: seq<Choice>)
    requires var s := Execute(config, start);
             PointOf(s, 1) == Idle && s.cells.mode == HalfOpen && s.cells.probes == 0 && s.episode <= |s.writes|
    ensures var s, s' := Execute(config, start), Execute(config, schedule);
            && s'.cells.mode == HalfOpen && s'.episode == s.episode <= |s'.writes|
            && EpisodeProbes(s') == EpisodeProbes(s) + config.halfOpenMaxProbes
    ensures ClockRuns(start, now) ==> ClockRuns(schedule, now)
  {
    hide Advance, Solo, Execute, Probes;
    schedule := start;
    var first := Execute(config, start);
    for k := 0 to config.halfOpenMaxProbes
      invariant var s := Execute(config, schedule);
                && PointOf(s, 1) == Idle && s.cells.mode == HalfOpen && s.cells.probes == k
                && s.episode == first.episode <= |s.writes|
                && EpisodeProbes(s) == EpisodeProbes(first) + k
      invariant ClockRuns(start, now) ==> ClockRuns(schedule, now)
    {
      var s := Execute(config, schedule);
      TakeSlot(config, s, now);
      EpisodeGrows(s.writes, Probe(1), s.episode);
      schedule := SoloIsSchedule(config, schedule, 1, AllowEntry, now, 5);
    }
  }

  ghost predicate Overshoots(config: Config, schedule: seq<Choice>) {
    var s := Execute(config, schedule);
    s.cells.mode == HalfOpen && s.episode <= |s.writes| && EpisodeProbes(s) > config.halfOpenMaxProbes
  }

  /**
   A late zero-store: thread 0 enters half-open, thread 1 is admitted, thread 0's reset of the
   counter lands, and the whole quota is admitted again in the same episode.
   */
  lemma OvershootingRun(config: Config) returns (schedule: seq<Choice>)
    requires config.halfOpenMaxProbes > 0
    ensures Overshoots(config, schedule) && ClockRuns(schedule, 1 + config.recoveryTimeout)
  {
    hide Advance, Solo;
    var now := 1 + config.recoveryTimeout;
    var opening := OpenByFailures(config, []);
    assert AllIdle(Execute(config, opening));
    hide Execute;
    RaceToHalfOpen(config, Execute(config, opening));
    var raced := SoloIsSchedule(config, opening, 0, AllowEntry, now, 5);
    var s := Execute(config, raced);
    TakeSlot(config, s, now);
    var admitted := SoloIsSchedule(config, raced, 1, AllowEntry, now, 5);
    var reset := LateReset(config, admitted, now);
    schedule := TakeAllSlots(config, reset, now);
    assert EpisodeProbes(s) == 0 by {
      assert s.writes[s.episode..] == [];
    }
    EpisodeGrows(s.writes, Probe(1), s.episode);
  }

  lemma {:induction false} LateReset(config: Config, schedule: seq<Choice>, now: nat) returns (longer: seq<Choice>)
    requires var s := Execute(config, schedule);
             PointOf(s, 0) == RefreshZeroProbes(AllowEntry) && s.episode <= |s.writes|
    ensures var s, s' := Execute(config, schedule), Execute(config, longer);
            && s'.cells == s.cells.(probes := 0) && PointOf(s', 1) == PointOf(s, 1)
            && s'.episode == s.episode <= |s'.writes| && EpisodeProbes(s') == EpisodeProbes(s)
    ensures ClockRuns(schedule, now) ==> ClockRuns(longer, now)
  {
    var s := Execute(config, schedule);
    longer := SoloIsSchedule(config, schedule, 0, AllowEntry, now, 1);
    EpisodeGrows(s.writes, Zero(0), s.episode);
    hide Execute, Probes;
    var s' := Advance(config, s, 0, AllowEntry, now);
    assert Solo(config, s, 0, AllowEntry, now, 1) == s';
  }

  lemma {:induction false} QuotaZeroNoProbes(writes: seq<Write>)
    requires WithinQuota(writes, 0)
    ensures Probes(writes) == 0
    decreases |writes|
  {
    if writes != [] {
      QuotaZeroNoProbes(writes[..|writes| - 1]);
    }
  }

  /**
   Under interleaving, some schedule (with a clock that never runs back) admits more than
   `half_open_max_probes` requests in a single half-open episode exactly when the configuration
   grants any probe at all.
   */
  lemma EpisodeOvershootIff(config: Config)
    ensures (exists schedule, now :: ClockRuns(schedule, now) && Overshoots(config, schedule))
            <==> config.halfOpenMaxProbes > 0
  {
    if config.halfOpenMaxProbes > 0 {
      var schedule := OvershootingRun(config);
    } else {
      forall schedule ensures !Overshoots(config, schedule) {
        ExecuteIsSound(config, schedule);
        var s := Execute(config, schedule);
        SliceWithinQuota(s.writes, s.episode, 0);
        QuotaZeroNoProbes(s.writes[s.episode..]);
      }
    }
  }
}
