/**
 Picking an endpoint from a resolver snapshot: pick-first, round robin and weighted round robin
 over one shared cursor.
 */
module LoadBalance {
  import opened MachineInt
  import opened Wrappers
  import opened Endpoints

  datatype Algorithm = PickFirst | RoundRobin | Weighted

  /** `usize` is taken to be 64 bits wide. */
  class RoundRobinCursor {
    var next: u64

    constructor ()
      ensures next == 0
    {
      next := 0;
    }
  }

  // ---- Candidates ----

  function Healthy(endpoints: seq<ResolvedEndpoint>): seq<ResolvedEndpoint> {
    if endpoints == [] then []
    else (if endpoints[0].healthy then [endpoints[0]] else []) + Healthy(endpoints[1..])
  }

  /** Healthy endpoints, or the whole snapshot when none is healthy. */
  function Candidates(endpoints: seq<ResolvedEndpoint>): (c: seq<ResolvedEndpoint>)
    ensures endpoints != [] ==> c != []
  {
    if Healthy(endpoints) == [] then endpoints else Healthy(endpoints)
  }

  /** Candidates are exactly the healthy endpoints, unless none is healthy. */
  lemma {:induction false} CandidatesPreferHealthy(endpoints: seq<ResolvedEndpoint>)
    ensures forall e :: e in Candidates(endpoints) <==>
              e in endpoints && (e.healthy || forall other :: other in endpoints ==> !other.healthy)
  {
    HealthyAre(endpoints);
    if Healthy(endpoints) != [] {
      assert Healthy(endpoints)[0] in endpoints;
    }
  }

  lemma {:induction false} HealthyAre(endpoints: seq<ResolvedEndpoint>)
    ensures forall e :: e in Healthy(endpoints) <==> e in endpoints && e.healthy
    decreases |endpoints|
  {
    if endpoints != [] {
      HealthyAre(endpoints[1..]);
      assert endpoints == [endpoints[0]] + endpoints[1..];
    }
  }

  /** The healthy endpoints keep the order of the snapshot: the filter acts piece by piece. */
  lemma {:induction false} HealthyInOrder(a: seq<ResolvedEndpoint>, b: seq<ResolvedEndpoint>)
    ensures Healthy(a + b) == Healthy(a) + Healthy(b)
    decreases |a|
  {
    if a == [] {
      assert a + b == b;
    } else {
      var tail := a[1..];
      HealthyInOrder(tail, b);
      var first := if a[0].healthy then [a[0]] else [];
      assert (a + b)[1..] == tail + b && (a + b)[0] == a[0];
      calc {
        Healthy(a + b);
        first + Healthy(tail + b);
        first + (Healthy(tail) + Healthy(b));
        (first + Healthy(tail)) + Healthy(b);
        Healthy(a) + Healthy(b);
      }
    }
  }

  /** ... and keeps a single endpoint exactly if it is healthy. */
  lemma HealthyOne(e: ResolvedEndpoint)
    ensures Healthy([e]) == if e.healthy then [e] else []
  {
    assert [e][1..] == [];
  }

  function Share(e: ResolvedEndpoint): (w: nat)
    ensures w >= 1
  {
    Max(e.weight, 1)
  }

  function TotalWeight(c: seq<ResolvedEndpoint>): nat {
    if c == [] then 0 else TotalWeight(c[..|c| - 1]) + Share(c[|c| - 1])
  }

  // ---- Reference: the list with every candidate index repeated by its weight ----

  function Repeat(index: nat, times: nat): (s: seq<nat>)
    ensures |s| == times && forall i :: 0 <= i < times ==> s[i] == index
  {
    seq(times, _ => index)
  }

  function Expand(c: seq<ResolvedEndpoint>): (s: seq<nat>)
    ensures |s| == TotalWeight(c)
    ensures forall i :: 0 <= i < |s| ==> s[i] < |c|
  {
    if c == [] then [] else Expand(c[..|c| - 1]) + Repeat(|c| - 1, Share(c[|c| - 1]))
  }

  function Identity(n: nat): (s: seq<nat>)
    ensures |s| == n && forall i :: 0 <= i < n ==> s[i] == i
  {
    seq(n, i => i)
  }

  /** The wheel of candidate indices an algorithm turns. */
  function Wheel(c: seq<ResolvedEndpoint>, algorithm: Algorithm): (wheel: seq<nat>)
    ensures forall i :: 0 <= i < |wheel| ==> wheel[i] < |c|
    ensures c != [] ==> wheel != []
  {
    match algorithm
    case PickFirst => if c == [] then [] else [0]
    case RoundRobin => Identity(|c|)
    case Weighted =>
      assert c != [] ==> TotalWeight(c) >= Share(c[|c| - 1]);
      Expand(c)
  }

  lemma {:induction false} ExpandPrefix(c: seq<ResolvedEndpoint>, k: nat)
    requires k <= |c|
    ensures TotalWeight(c[..k]) <= TotalWeight(c)
    ensures Expand(c[..k]) == Expand(c)[..TotalWeight(c[..k])]
    decreases |c| - k
  {
    if k < |c| {
      assert c[..k + 1][..k] == c[..k];
      ExpandPrefix(c, k + 1);
    } else {
      assert c[..k] == c;
    }
  }

  // ---- The code ----

  /** Scans the running total for a slot; the fallback after the loop is never taken. */
  method ScanForSlot(c: seq<ResolvedEndpoint>, slot: nat) returns (index: int, fellBack: bool)
    requires slot < TotalWeight(c)
    ensures !fellBack && index == Expand(c)[slot]
    ensures 0 <= index < |c| && TotalWeight(c[..index]) <= slot < TotalWeight(c[..index + 1])
  {
    var accumulated := 0;
    var k := 0;
    fellBack := true;
    index := |c| - 1;
    assert c[..0] == [];
    while k < |c| && fellBack
      invariant 0 <= k <= |c|
      invariant accumulated == TotalWeight(c[..k])
      invariant fellBack ==> accumulated <= slot
      invariant !fellBack ==> index == Expand(c)[slot]
      decreases |c| - k
    {
      assert c[..k + 1][..k] == c[..k];
      accumulated := accumulated + Max(c[k].weight, 1);
      if slot < accumulated {
        ExpandPrefix(c, k + 1);
        assert Expand(c[..k + 1])[slot] == k;
        index, fellBack := k, false;
      }
      k := k + 1;
    }
    assert c[..|c|] == c;
    SlotIsInStretch(c, slot);
  }

  method PickWeighted(c: seq<ResolvedEndpoint>, cursor: RoundRobinCursor) returns (picked: Option<nat>)
    modifies cursor
    ensures c == [] ==> picked == None && cursor.next == old(cursor.next)
    ensures c != [] ==>
              && Expand(c) != []
              && picked == Some(At(Expand(c), old(cursor.next)))
              && cursor.next == SaturatingAdd(old(cursor.next), 1, U64_MAX)
  {
    var total := TotalWeight(c);
    if total == 0 {
      assert c == [];
      return None;
    }
    assert c != [];
    var slot := cursor.next % total;
    cursor.next := SaturatingAdd(cursor.next, 1, U64_MAX);
    var index, _ := ScanForSlot(c, slot);
    picked := Some(index);
  }

  /** Every pick is the entry of the algorithm's wheel under the cursor; pick-first keeps the cursor. */
  method PickEndpoint(endpoints: seq<ResolvedEndpoint>, algorithm: Algorithm, cursor: RoundRobinCursor)
    returns (picked: Option<ResolvedEndpoint>)
    modifies cursor
    ensures endpoints == [] ==> picked == None && cursor.next == old(cursor.next)
    ensures endpoints != [] ==>
              var c := Candidates(endpoints);
              var wheel := Wheel(c, algorithm);
              && picked == Some(c[At(wheel, old(cursor.next))])
              && cursor.next == AfterPick(algorithm, old(cursor.next))
    ensures endpoints != [] && algorithm == PickFirst ==>
              IsFirstChoice(endpoints, picked.value) && cursor.next == old(cursor.next)
  {
    if endpoints == [] {
      return None;
    }
    var c := Candidates(endpoints);
    match algorithm
    case PickFirst =>
      FirstCandidate(endpoints);
      assert cursor.next % 1 == 0;
      picked := Some(c[0]);
    case RoundRobin =>
      var index := cursor.next % |c|;
      cursor.next := SaturatingAdd(cursor.next, 1, U64_MAX);
      picked := Some(c[index]);
    case Weighted =>
      var index := PickWeighted(c, cursor);
      picked := Some(c[index.value]);
  }

  /** The first healthy endpoint of a snapshot, or the first one when none is healthy. */
  predicate IsFirstChoice(endpoints: seq<ResolvedEndpoint>, e: ResolvedEndpoint) {
    exists i :: 0 <= i < |endpoints| && endpoints[i] == e &&
      (if exists j :: 0 <= j < |endpoints| && endpoints[j].healthy
       then endpoints[i].healthy && forall j :: 0 <= j < i ==> !endpoints[j].healthy
       else i == 0)
  }

  lemma {:induction false} FirstHealthy(endpoints: seq<ResolvedEndpoint>) returns (i: nat)
    requires Healthy(endpoints) != []
    ensures i < |endpoints| && Healthy(endpoints)[0] == endpoints[i] && endpoints[i].healthy
    ensures forall j :: 0 <= j < i ==> !endpoints[j].healthy
    decreases |endpoints|
  {
    if endpoints[0].healthy {
      return 0;
    }
    var rest := FirstHealthy(endpoints[1..]);
    i := rest + 1;
    forall j | 0 <= j < i ensures !endpoints[j].healthy {
      assert j > 0 ==> endpoints[j] == endpoints[1..][j - 1];
    }
  }

  lemma {:induction false} FirstCandidate(endpoints: seq<ResolvedEndpoint>)
    requires endpoints != []
    ensures IsFirstChoice(endpoints, Candidates(endpoints)[0])
  {
    if Healthy(endpoints) == [] {
      HealthyAre(endpoints);
      forall j | 0 <= j < |endpoints| ensures !endpoints[j].healthy {
        assert endpoints[j] in endpoints;
      }
    } else {
      var i := FirstHealthy(endpoints);
    }
  }

  function AfterPick(algorithm: Algorithm, next: u64): u64 {
    if algorithm == PickFirst then next else SaturatingAdd(next, 1, U64_MAX)
  }

  // ---- Runs of picks over an unchanged snapshot ----

  /** Candidate indices chosen by `count` successive picks, starting at cursor `next`. */
  function Picks(wheel: seq<nat>, algorithm: Algorithm, next: u64, count: nat): seq<nat>
    requires wheel != []
    decreases count
  {
    if count == 0 then []
    else [At(wheel, next)] + Picks(wheel, algorithm, AfterPick(algorithm, next), count - 1)
  }

  function Count(s: seq<nat>, index: nat): nat {
    if s == [] then 0 else (if s[0] == index then 1 else 0) + Count(s[1..], index)
  }

  /** The wheel entry under a cursor value. */
  function At(wheel: seq<nat>, position: nat): nat
    requires wheel != []
  {
    wheel[position % |wheel|]
  }

  /** `count` consecutive entries of the wheel, wrapping round. */
  function Window(wheel: seq<nat>, start: nat, count: nat): (w: seq<nat>)
    requires wheel != []
    ensures |w| == count
  {
    seq<nat>(count, i requires 0 <= i => At(wheel, start + i))
  }

  lemma {:induction false} CountConcat(a: seq<nat>, b: seq<nat>, index: nat)
    ensures Count(a + b, index) == Count(a, index) + Count(b, index)
    decreases |a|
  {
    if a == [] {
      assert a + b == b;
    } else {
      assert (a + b)[1..] == a[1..] + b;
      CountConcat(a[1..], b, index);
    }
  }

  /** Until the cursor saturates, successive picks read successive wheel entries. */
  lemma {:induction false} PicksAreWindow(wheel: seq<nat>, algorithm: Algorithm, next: u64, count: nat)
    requires wheel != [] && !algorithm.PickFirst?
    requires next + count <= U64_MAX + 1
    ensures Picks(wheel, algorithm, next, count) == Window(wheel, next, count)
    decreases count
  {
    if count > 0 {
      if next < U64_MAX {
        PicksAreWindow(wheel, algorithm, next + 1, count - 1);
      } else {
        assert count == 1;
      }
      assert Window(wheel, next, count) == [At(wheel, next)] + Window(wheel, next + 1, count - 1);
    }
  }

  lemma {:induction false} RemainderUnique(x: nat, n: nat, q: int, r: nat)
    requires r < n && x == q * n + r
    ensures x % n == r
  {
    var k := q - x / n;
    assert x == (x / n) * n + x % n;
    assert k * n == x % n - r;
    assert k >= 1 ==> k * n >= n;
    assert k <= -1 ==> k * n + n <= 0;
  }

  lemma {:induction false} WrapAround(wheel: seq<nat>, position: nat)
    requires wheel != []
    ensures At(wheel, position + |wheel|) == At(wheel, position)
  {
    var n := |wheel|;
    assert position + n == (position / n + 1) * n + position % n;
    RemainderUnique(position + n, n, position / n + 1, position % n);
  }

  lemma {:induction false} FirstTurn(wheel: seq<nat>)
    requires wheel != []
    ensures Window(wheel, 0, |wheel|) == wheel
  {
    forall i | 0 <= i < |wheel| ensures At(wheel, i) == wheel[i] {
      RemainderUnique(i, |wheel|, 0, i);
    }
  }

  /** Turning the wheel by one drops the first entry and appends it again. */
  lemma {:induction false} NextTurn(wheel: seq<nat>, start: nat) returns (middle: seq<nat>)
    requires wheel != []
    ensures Window(wheel, start, |wheel|) == [At(wheel, start)] + middle
    ensures Window(wheel, start + 1, |wheel|) == middle + [At(wheel, start)]
  {
    var n := |wheel|;
    middle := Window(wheel, start + 1, n - 1);
    WrapAround(wheel, start);
    assert Window(wheel, start + 1, n)[n - 1] == At(wheel, start + n);
  }

  /** A full turn of the wheel holds the same indices wherever it starts. */
  lemma {:induction false} FullTurnCounts(wheel: seq<nat>, start: nat, index: nat)
    requires wheel != []
    ensures Count(Window(wheel, start, |wheel|), index) == Count(wheel, index)
    decreases start
  {
    if start == 0 {
      FirstTurn(wheel);
    } else {
      FullTurnCounts(wheel, start - 1, index);
      var middle := NextTurn(wheel, start - 1);
      var entry := At(wheel, start - 1);
      CountConcat([entry], middle, index);
      CountConcat(middle, [entry], index);
    }
  }

  lemma {:induction false} CountRepeat(value: nat, times: nat, index: nat)
    ensures Count(Repeat(value, times), index) == if value == index then times else 0
    decreases times
  {
    if times > 0 {
      assert Repeat(value, times)[1..] == Repeat(value, times - 1);
      CountRepeat(value, times - 1, index);
    }
  }

  /** The expanded list repeats each candidate index exactly by its weight. */
  lemma {:induction false} CountExpand(c: seq<ResolvedEndpoint>, index: nat)
    ensures Count(Expand(c), index) == if index < |c| then Share(c[index]) else 0
    decreases |c|
  {
    if c != [] {
      var last := |c| - 1;
      CountExpand(c[..last], index);
      CountRepeat(last, Share(c[last]), index);
      CountConcat(Expand(c[..last]), Repeat(last, Share(c[last])), index);
    }
  }

  lemma {:induction false} CountIdentity(n: nat, index: nat)
    ensures Count(Identity(n), index) == if index < n then 1 else 0
    decreases n
  {
    if n > 0 {
      CountIdentity(n - 1, index);
      assert Identity(n) == Identity(n - 1) + [n - 1];
      CountConcat(Identity(n - 1), [n - 1], index);
    }
  }

  /** A saturated cursor stays put, so every later pick is the same candidate. */
  lemma {:induction false} SaturatedCursorSticks(wheel: seq<nat>, algorithm: Algorithm, count: nat)
    requires wheel != []
    ensures Picks(wheel, algorithm, U64_MAX, count) == Repeat(At(wheel, U64_MAX), count)
    decreases count
  {
    if count > 0 {
      SaturatedCursorSticks(wheel, algorithm, count - 1);
    }
  }

  /** Past saturation the picks are the window up to the last cursor value, then one entry over and over. */
  lemma {:induction false} PicksPastSaturation(wheel: seq<nat>, algorithm: Algorithm, next: u64, count: nat)
    requires wheel != [] && !algorithm.PickFirst? && next + count > U64_MAX
    ensures Picks(wheel, algorithm, next, count)
            == Window(wheel, next, U64_MAX + 1 - next) + Repeat(At(wheel, U64_MAX), next + count - U64_MAX - 1)
    decreases count
  {
    hide At;
    var left := U64_MAX + 1 - next;
    assert Window(wheel, next, left) == [At(wheel, next)] + Window(wheel, next + 1, left - 1);
    if next == U64_MAX {
      SaturatedCursorSticks(wheel, algorithm, count);
    } else {
      PicksPastSaturation(wheel, algorithm, next + 1, count - 1);
    }
  }

  lemma {:induction false} CountIsLengthIff(s: seq<nat>, value: nat)
    ensures Count(s, value) <= |s|
    ensures Count(s, value) == |s| <==> forall i :: 0 <= i < |s| ==> s[i] == value
    decreases |s|
  {
    if s != [] {
      CountIsLengthIff(s[1..], value);
      assert s == [s[0]] + s[1..];
    }
  }

  /** A pick counts like the wheel itself exactly when no entry other than the stuck one is cut off. */
  predicate NothingCutOff(wheel: seq<nat>, next: u64)
    requires wheel != []
  {
    forall i :: U64_MAX < i < next + |wheel| ==> At(wheel, i) == At(wheel, U64_MAX)
  }

  /** The counts of a turn from `next`, split where the cursor saturates. */
  lemma {:induction false} CutTurn(wheel: seq<nat>, algorithm: Algorithm, next: u64, index: nat)
    requires wheel != [] && !algorithm.PickFirst? && next + |wheel| > U64_MAX
    ensures var cut := next + |wheel| - U64_MAX - 1;
            Count(Picks(wheel, algorithm, next, |wheel|), index) - Count(wheel, index)
            == Count(Repeat(At(wheel, U64_MAX), cut), index) - Count(Window(wheel, U64_MAX + 1, cut), index)
  {
    var kept, cut := U64_MAX + 1 - next, next + |wheel| - U64_MAX - 1;
    var first := Window(wheel, next, kept);
    PicksPastSaturation(wheel, algorithm, next, |wheel|);
    CountConcat(first, Repeat(At(wheel, U64_MAX), cut), index);
    assert Window(wheel, next, |wheel|) == first + Window(wheel, U64_MAX + 1, cut);
    CountConcat(first, Window(wheel, U64_MAX + 1, cut), index);
    FullTurnCounts(wheel, next, index);
  }

  /** From any cursor, a turn of picks counts like the wheel exactly when nothing is cut off. */
  lemma {:induction false} TurnIsFairIff(wheel: seq<nat>, algorithm: Algorithm, next: u64)
    requires wheel != [] && !algorithm.PickFirst?
    ensures (forall index: nat :: Count(Picks(wheel, algorithm, next, |wheel|), index) == Count(wheel, index))
            <==> NothingCutOff(wheel, next)
  {
    if next + |wheel| <= U64_MAX {
      PicksAreWindow(wheel, algorithm, next, |wheel|);
      forall index: nat
        ensures Count(Picks(wheel, algorithm, next, |wheel|), index) == Count(wheel, index)
      {
        FullTurnCounts(wheel, next, index);
      }
    } else {
      var stuck, cut := At(wheel, U64_MAX), next + |wheel| - U64_MAX - 1;
      var lost := Window(wheel, U64_MAX + 1, cut);
      forall index: nat
        ensures Count(Picks(wheel, algorithm, next, |wheel|), index) - Count(wheel, index)
                == Count(Repeat(stuck, cut), index) - Count(lost, index)
      {
        CutTurn(wheel, algorithm, next, index);
      }
      CountRepeat(stuck, cut, stuck);
      CountIsLengthIff(lost, stuck);
      if NothingCutOff(wheel, next) {
        assert lost == Repeat(stuck, cut);
      } else {
        var i :| U64_MAX < i < next + |wheel| && At(wheel, i) != stuck;
        assert lost[i - U64_MAX - 1] != stuck;
        assert Count(Picks(wheel, algorithm, next, |wheel|), stuck) != Count(wheel, stuck);
      }
    }
  }

  /**
   Exact weighted fairness, from every cursor: any `TotalWeight` consecutive weighted picks over an
   unchanged snapshot choose every candidate exactly its weight (at least 1) times if and only if
   saturation of the cursor cuts off nothing but repetitions of the entry it sticks to.
   */
  lemma {:induction false} WeightedFairnessIff(c: seq<ResolvedEndpoint>, next: u64)
    requires c != []
    ensures (forall index: nat ::
               Count(Picks(Wheel(c, Weighted), Weighted, next, TotalWeight(c)), index)
               == if index < |c| then Max(c[index].weight, 1) else 0)
            <==> NothingCutOff(Wheel(c, Weighted), next)
    ensures next + TotalWeight(c) <= U64_MAX + 1 ==> NothingCutOff(Wheel(c, Weighted), next)
  {
    var wheel := Wheel(c, Weighted);
    TurnIsFairIff(wheel, Weighted, next);
    forall index: nat ensures Count(wheel, index) == if index < |c| then Max(c[index].weight, 1) else 0 {
      CountExpand(c, index);
    }
  }

  /**
   Round robin serves each candidate exactly once in any `|c|` consecutive picks if and only if the
   cursor does not saturate in between, or there is only one candidate.
   */
  lemma {:induction false} RoundRobinFairnessIff(c: seq<ResolvedEndpoint>, next: u64)
    requires c != []
    ensures (forall index: nat ::
               Count(Picks(Wheel(c, RoundRobin), RoundRobin, next, |c|), index) == if index < |c| then 1 else 0)
            <==> next + |c| <= U64_MAX + 1 || |c| == 1
  {
    var wheel := Wheel(c, RoundRobin);
    TurnIsFairIff(wheel, RoundRobin, next);
    forall index: nat ensures Count(wheel, index) == if index < |c| then 1 else 0 {
      CountIdentity(|c|, index);
    }
    if |c| > 1 && next + |c| > U64_MAX + 1 {
      NeighboursDiffer(|c|, U64_MAX);
      assert At(wheel, U64_MAX + 1) != At(wheel, U64_MAX);
    }
  }

  lemma {:induction false} NeighboursDiffer(n: nat, position: nat)
    requires n > 1
    ensures (position + 1) % n != position % n
  {
    var q, r := position / n, position % n;
    if r + 1 < n {
      RemainderUnique(position + 1, n, q, r + 1);
    } else {
      RemainderUnique(position + 1, n, q + 1, 0);
    }
  }

  /** A slot belongs to the candidate whose stretch of the running total it falls in. */
  lemma {:induction false} SlotIsInStretch(c: seq<ResolvedEndpoint>, slot: nat)
    requires slot < TotalWeight(c)
    ensures var k := Expand(c)[slot]; k < |c| && TotalWeight(c[..k]) <= slot < TotalWeight(c[..k + 1])
    decreases |c|
  {
    var last := |c| - 1;
    if slot < TotalWeight(c[..last]) {
      SlotIsInStretch(c[..last], slot);
      var k := Expand(c[..last])[slot];
      assert c[..last][..k] == c[..k] && c[..last][..k + 1] == c[..k + 1];
    } else {
      assert c[..last + 1] == c;
    }
  }

  /** Until the cursor saturates, round robin takes the candidates in turn, in the order of the snapshot. */
  lemma {:induction false} RoundRobinInTurn(c: seq<ResolvedEndpoint>, next: nat, i: nat)
    requires c != [] && i < |c| && next % |c| == i
    ensures At(Wheel(c, RoundRobin), next) == i
  {
  }
}
