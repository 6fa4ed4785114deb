/**
 One watched service end to end: the registry's revision log, stream sessions that break between
 messages, the client's cursor and cache, and discover snapshots stored by concurrent resolves.
 The cursor advance and the cache edit of one message are separate steps.
 */
module WatchProtocol {
  import opened MachineInt
  import opened Wrappers
  import opened Endpoints
  import opened WatchResolver

  /** A mutation of the service in the registry log. */
  datatype Event = Event(revision: u64, deregistered: bool, instance: ServiceInstance)

  function EventTypeOf(event: Event): EventType {
    if event.deregistered then InstanceDeregistered else OtherEvent
  }

  function MessageOf(event: Event): Message {
    Message(Some(event.revision), EventTypeOf(event), Some(event.instance))
  }

  function ChangeBy(event: Event): Change {
    ChangeOf(EventTypeOf(event), Some(event.instance))
  }

  // ---- The log and its last-writer-wins meaning ----

  function Replay(table: Table, events: seq<Event>): Table {
    if events == [] then table
    else Applied(Replay(table, events[..|events| - 1]), ChangeBy(events[|events| - 1]))
  }

  /** The registry state after a log prefix. */
  function Fold(events: seq<Event>): Table {
    Replay(map[], events)
  }

  function Get(table: Table, name: string): Option<u32> {
    if name in table then Some(table[name]) else None
  }

  /** What the last event about `name` says: absent, or present with a weight; `None` if no event does. */
  function LastWord(events: seq<Event>, name: string): Option<Option<u32>> {
    if events == [] then None
    else
      match ChangeBy(events[|events| - 1])
      case Put(endpoint, weight) =>
        if endpoint == name then Some(Some(weight)) else LastWord(events[..|events| - 1], name)
      case Remove(endpoint) =>
        if endpoint == name then Some(None) else LastWord(events[..|events| - 1], name)
      case Keep => LastWord(events[..|events| - 1], name)
  }

  /** Replaying events is last-writer-wins, endpoint by endpoint. */
  lemma {:induction false} ReplayIsLastWriterWins(table: Table, events: seq<Event>, name: string)
    ensures Get(Replay(table, events), name)
            == match LastWord(events, name)
               case Some(word) => word
               case None => Get(table, name)
    decreases |events|
  {
    if events != [] {
      ReplayIsLastWriterWins(table, events[..|events| - 1], name);
    }
  }

  lemma {:induction false} LastWordOfConcat(a: seq<Event>, b: seq<Event>, name: string)
    ensures LastWord(a + b, name) == if LastWord(b, name).Some? then LastWord(b, name) else LastWord(a, name)
    decreases |b|
  {
    if b == [] {
      assert a + b == a;
    } else {
      LastWordOfConcat(a, b[..|b| - 1], name);
      assert (a + b)[..|a + b| - 1] == a + b[..|b| - 1];
    }
  }

  lemma SameTable(a: Table, b: Table)
    requires forall name :: Get(a, name) == Get(b, name)
    ensures a == b
  {
    forall name ensures name in a <==> name in b {
      assert Get(a, name) == Get(b, name);
    }
    forall name | name in a ensures a[name] == b[name] {
      assert Get(a, name) == Get(b, name);
    }
  }

  /**
   If replaying the suffix from `a` brings a table to the fold of the log, so does replaying any
   longer suffix. With `a` at the end: replaying an applied suffix changes nothing.
   */
  lemma {:induction false} ReplayLongerSuffix(table: Table, log: seq<Event>, a: nat, b: nat)
    requires b <= a <= |log| && Replay(table, log[a..]) == Fold(log)
    ensures Replay(table, log[b..]) == Fold(log)
  {
    forall name ensures Get(Replay(table, log[b..]), name) == Get(Fold(log), name) {
      assert log == log[..b] + log[b..] && log[b..] == log[b..a] + log[a..];
      LastWordOfConcat(log[..b], log[b..], name);
      LastWordOfConcat(log[b..a], log[a..], name);
      ReplayIsLastWriterWins(table, log[b..], name);
      ReplayIsLastWriterWins(table, log[a..], name);
      ReplayIsLastWriterWins(map[], log, name);
    }
    SameTable(Replay(table, log[b..]), Fold(log));
  }

  lemma {:induction false} ReplayConcat(table: Table, a: seq<Event>, b: seq<Event>)
    ensures Replay(table, a + b) == Replay(Replay(table, a), b)
    decreases |b|
  {
    if b == [] {
      assert a + b == a;
    } else {
      ReplayConcat(table, a, b[..|b| - 1]);
      assert (a + b)[..|a + b| - 1] == a + b[..|b| - 1];
    }
  }

  lemma {:induction false} ReplayFirst(table: Table, events: seq<Event>)
    requires events != []
    ensures Replay(table, events) == Replay(Applied(table, ChangeBy(events[0])), events[1..])
  {
    assert events == [events[0]] + events[1..];
    ReplayConcat(table, [events[0]], events[1..]);
    assert [events[0]][..0] == [];
    assert Replay(table, [events[0]]) == Applied(Replay(table, []), ChangeBy(events[0]));
  }

  // ---- Revisions ----

  /** The events at or below a revision. */
  function UpTo(log: seq<Event>, revision: nat): (events: seq<Event>)
    ensures |events| <= |log|
  {
    if log == [] then []
    else UpTo(log[..|log| - 1], revision) + (if log[|log| - 1].revision <= revision then [log[|log| - 1]] else [])
  }

  predicate Ordered(log: seq<Event>) {
    && (forall i :: 0 <= i < |log| ==> log[i].revision > 0)
    && (forall i, j :: 0 <= i < j < |log| ==> log[i].revision < log[j].revision)
  }

  function Position(log: seq<Event>, revision: nat): (k: nat)
    ensures k <= |log|
  {
    |UpTo(log, revision)|
  }

  /** In an ordered log the events up to a revision are a prefix. */
  lemma {:induction false} UpToIsPrefix(log: seq<Event>, revision: nat)
    requires Ordered(log)
    ensures Position(log, revision) <= |log| && UpTo(log, revision) == log[..Position(log, revision)]
    ensures forall i :: 0 <= i < |log| ==> (i < Position(log, revision) <==> log[i].revision <= revision)
    decreases |log|
  {
    if log != [] {
      var n := |log| - 1;
      UpToIsPrefix(log[..n], revision);
      var k := Position(log[..n], revision);
      assert log[..n][..k] == log[..k];
      forall i | 0 <= i < n ensures i < k <==> log[i].revision <= revision {
        assert log[..n][i] == log[i];
      }
      NewestWithin(log, revision, k);
    }
  }

  /** If the newest event is at or below a revision, so are all. */
  lemma {:induction false} NewestWithin(log: seq<Event>, revision: nat, k: nat)
    requires Ordered(log) && k < |log|
    requires forall i :: 0 <= i < |log| - 1 ==> (i < k <==> log[i].revision <= revision)
    ensures log[|log| - 1].revision <= revision ==> k == |log| - 1 && log[..k] + [log[k]] == log
  {
    if k < |log| - 1 {
      assert log[k].revision < log[|log| - 1].revision;
    }
  }

  lemma {:induction false} PositionUnique(log: seq<Event>, revision: nat, k: nat)
    requires Ordered(log) && k <= |log|
    requires forall i :: 0 <= i < |log| ==> (i < k <==> log[i].revision <= revision)
    ensures Position(log, revision) == k
  {
    UpToIsPrefix(log, revision);
    var p := Position(log, revision);
    var atP := if p < |log| then log[p].revision else 0;
    var atK := if k < |log| then log[k].revision else 0;
  }

  // ---- The protocol ----

  /**
   `session` is the log index the open stream delivers next, `pending` the index of a message whose
   revision has been recorded but whose cache edit has not happened, `snapshot` the revision of the
   discover snapshot stored last.
   */
  datatype World = World(
    log: seq<Event>,
    serverRevision: u64,
    cache: Cache,
    cursor: u64,
    session: Option<nat>,
    pending: Option<nat>,
    snapshot: u64)

  datatype Step =
    | Append(event: Event)                 // a mutation of this service
    | OtherService(revision: u64)          // a mutation of another service
    | Connect(inclusive: bool)             // the server streams after, or from, the cursor
    | Receive                              // the revision of the next event is recorded
    | Edit(now: nat)                       // ... and its cache edit happens
    | Break
    | Beat(revision: u64, now: nat)        // heartbeat, below the event the stream delivers next
    | ForeignAdvance(revision: u64)        // another watch of the same resolver moves the shared cursor
    | StoreSnapshot(endpoints: seq<ResolvedEndpoint>, revision: u64, now: nat)

  predicate NoneBetween(log: seq<Event>, low: nat, high: nat) {
    forall i :: 0 <= i < |log| ==> !(low < log[i].revision <= high)
  }

  /** What the registry, the stream and concurrent resolves may do. */
  ghost predicate Enabled(w: World, step: Step) {
    match step
    case Append(event) => event.revision > w.serverRevision
    case OtherService(revision) => revision > w.serverRevision
    case Connect(_) => w.session == None
    case Receive => w.session.Some? && w.pending == None && w.session.value < |w.log|
    case Edit(_) => w.pending.Some? && w.pending.value < |w.log|
    case Break => w.pending == None
    case Beat(revision, _) =>
      && w.session.Some? && w.pending == None && revision <= w.serverRevision
      && (w.session.value < |w.log| ==> revision < w.log[w.session.value].revision)
    case ForeignAdvance(revision) => revision <= w.serverRevision && NoneBetween(w.log, w.cursor, revision)
    case StoreSnapshot(endpoints, revision, _) =>
      w.cursor <= revision <= w.serverRevision && TableOf(endpoints) == Fold(UpTo(w.log, revision))
  }

  function StartIndex(log: seq<Event>, cursor: u64, inclusive: bool): (k: nat)
    ensures k <= |log|
  {
    if inclusive && cursor > 0 then Position(log, cursor - 1) else Position(log, cursor)
  }

  function Next(w: World, service: string, step: Step): World
    requires Enabled(w, step)
  {
    match step
    case Append(event) => w.(log := w.log + [event], serverRevision := event.revision)
    case OtherService(revision) => w.(serverRevision := revision)
    case Connect(inclusive) => w.(session := Some(StartIndex(w.log, w.cursor, inclusive)))
    case Receive =>
      var k := w.session.value;
      w.(cursor := AdvancedCursor(w.cursor, MessageOf(w.log[k])), session := Some(k + 1), pending := Some(k))
    case Edit(now) =>
      w.(cache := Edited(w.cache, service, MessageOf(w.log[w.pending.value]), now), pending := None)
    case Break => w.(session := None)
    case Beat(revision, now) =>
      var message := Message(Some(revision), Heartbeat, None);
      w.(cursor := AdvancedCursor(w.cursor, message), cache := Edited(w.cache, service, message, now))
    case ForeignAdvance(revision) => w.(cursor := Max(w.cursor, revision))
    case StoreSnapshot(endpoints, revision, now) =>
      w.(cache := w.cache[service := CachedEndpoints(endpoints, now)], snapshot := revision)
  }

  /** A client that has seen nothing, next to a registry with any history. */
  ghost predicate Initial(w: World) {
    && Ordered(w.log) && (forall i :: 0 <= i < |w.log| ==> w.log[i].revision <= w.serverRevision)
    && w.cache == map[] && w.cursor == 0 && w.session == None && w.pending == None && w.snapshot == 0
  }

  /** The world after `steps`, when every one of them was possible. */
  ghost function Run(w: World, service: string, steps: seq<Step>): Option<World>
    decreases |steps|
  {
    if steps == [] then Some(w)
    else
      match Run(w, service, steps[..|steps| - 1])
      case Some(v) => if Enabled(v, steps[|steps| - 1]) then Some(Next(v, service, steps[|steps| - 1])) else None
      case None => None
  }

  /** `w` is reached from a fresh client by `steps`. */
  ghost predicate Behavior(start: World, service: string, steps: seq<Step>, w: World) {
    Initial(start) && Run(start, service, steps) == Some(w)
  }

  // ---- Invariant ----

  ghost predicate LogSound(w: World) {
    && Ordered(w.log) && (forall i :: 0 <= i < |w.log| ==> w.log[i].revision <= w.serverRevision)
    && w.cursor <= w.serverRevision && w.snapshot <= w.serverRevision
  }

  /** Events received so far. */
  function Received(w: World): nat {
    Position(w.log, w.cursor)
  }

  /** Where the cache is heading: the received events, or the last snapshot if that is ahead. */
  function Target(w: World): nat {
    Max(Received(w), Position(w.log, w.snapshot))
  }

  /** First event whose effect on the cache is still to come. */
  function Frontier(w: World): nat {
    if w.pending.Some? then w.pending.value else Received(w)
  }

  ghost predicate StreamSound(w: World) {
    && (w.pending.Some? ==> w.pending.value + 1 == Received(w) && w.session == Some(Received(w)))
    && (w.session.Some? ==> Received(w) <= w.session.value + 1 && w.session.value <= Received(w))
  }

  /** Replaying what is still to come brings the cache to the fold of the target prefix. */
  ghost predicate Converging(w: World, service: string) {
    && Frontier(w) <= Target(w) <= |w.log|
    && Replay(ViewOf(w.cache, service), w.log[..Target(w)][Frontier(w)..]) == Fold(w.log[..Target(w)])
  }

  ghost predicate Sound(w: World, service: string) {
    LogSound(w) && StreamSound(w) && Converging(w, service)
  }

  lemma {:induction false} InitialIsSound(w: World, service: string)
    requires Initial(w)
    ensures Sound(w, service)
  {
    PositionUnique(w.log, 0, 0);
  }

  /** Steps that leave the cache table, the frontier and the target alone keep convergence. */
  lemma {:induction false} SameShape(w: World, w': World, service: string)
    requires Converging(w, service)
    requires ViewOf(w'.cache, service) == ViewOf(w.cache, service)
    requires Frontier(w') == Frontier(w) && Target(w') == Target(w) && Target(w) <= |w'.log|
    requires w.log[..Target(w)] == w'.log[..Target(w)]
    ensures Converging(w', service)
  {
  }

  lemma {:induction false} AppendKeepsPositions(log: seq<Event>, event: Event, revision: nat)
    requires Ordered(log) && Ordered(log + [event]) && event.revision > revision
    ensures Position(log + [event], revision) == Position(log, revision) <= |log|
  {
    UpToIsPrefix(log, revision);
    PositionUnique(log + [event], revision, Position(log, revision));
  }

  lemma {:induction false} AppendKeepsSound(w: World, service: string, event: Event)
    requires Sound(w, service) && Enabled(w, Append(event))
    ensures Sound(Next(w, service, Append(event)), service)
  {
    var w' := Next(w, service, Append(event));
    AppendKeepsPositions(w.log, event, w.cursor);
    AppendKeepsPositions(w.log, event, w.snapshot);
    SameShape(w, w', service);
  }

  /** A session starts behind the received events, or at most one event before. */
  lemma {:induction false} StartIsNear(log: seq<Event>, cursor: u64, inclusive: bool)
    requires Ordered(log)
    ensures StartIndex(log, cursor, inclusive) <= Position(log, cursor) <= StartIndex(log, cursor, inclusive) + 1
  {
    UpToIsPrefix(log, cursor);
    if inclusive && cursor > 0 {
      UpToIsPrefix(log, cursor - 1);
      var a, b := Position(log, cursor), Position(log, cursor - 1);
      var atA := if a < |log| then log[a].revision else 0;
      var atB := if b + 1 < |log| then log[b + 1].revision - log[b].revision else 0;
    }
  }

  lemma {:induction false} ConnectKeepsSound(w: World, service: string, inclusive: bool)
    requires Sound(w, service) && Enabled(w, Connect(inclusive))
    ensures Sound(Next(w, service, Connect(inclusive)), service)
  {
    StartIsNear(w.log, w.cursor, inclusive);
    SameShape(w, Next(w, service, Connect(inclusive)), service);
  }

  /** A redelivered event leaves the received count; a new one raises it by one. */
  lemma {:induction false} ReceivePosition(log: seq<Event>, cursor: u64, k: nat)
    requires Ordered(log) && k < |log| && k <= Position(log, cursor) <= k + 1
    ensures Position(log, Max(cursor, log[k].revision)) == k + 1
  {
    UpToIsPrefix(log, cursor);
    PositionUnique(log, Max(cursor, log[k].revision), k + 1);
  }

  /** Receiving event `k` keeps the replay on course, whether it is new or redelivered. */
  lemma {:induction false} ReceiveReplay(table: Table, log: seq<Event>, received: nat, k: nat, target: nat)
    requires k < |log| && k <= received <= k + 1 && received <= target <= |log|
    requires Replay(table, log[..target][received..]) == Fold(log[..target])
    ensures var target' := Max(target, k + 1);
            Replay(table, log[..target'][k..]) == Fold(log[..target'])
  {
    if received == k + 1 {
      ReplayLongerSuffix(table, log[..target], k + 1, k);
    } else if target == k {
      var longer := log[..k + 1];
      assert log[..target][k..] == [];
      assert longer[k..] == [log[k]] && longer[..k] == log[..target];
      ReplayFirst(table, [log[k]]);
      assert [log[k]][1..] == [];
      assert Fold(longer) == Applied(Fold(longer[..k]), ChangeBy(log[k]));
    }
  }

  lemma {:induction false} ReceiveKeepsSound(w: World, service: string)
    requires Sound(w, service) && Enabled(w, Receive)
    ensures Sound(Next(w, service, Receive), service)
  {
    var k := w.session.value;
    ReceivePosition(w.log, w.cursor, k);
    ReceiveReplay(ViewOf(w.cache, service), w.log, Received(w), k, Target(w));
  }

  lemma {:induction false} EditKeepsSound(w: World, service: string, now: nat)
    requires Sound(w, service) && Enabled(w, Edit(now))
    ensures Sound(Next(w, service, Edit(now)), service)
  {
    var w' := Next(w, service, Edit(now));
    var k := w.pending.value;
    MessageMeansChange(w.cache, service, MessageOf(w.log[k]), now);
    var target := w.log[..Target(w)];
    ReplayFirst(ViewOf(w.cache, service), target[k..]);
    assert target[k..][1..] == target[k + 1..];
  }

  /** A cursor that passes no event of the service leaves the received count. */
  lemma {:induction false} AdvancePosition(log: seq<Event>, cursor: nat, revision: nat)
    requires Ordered(log) && NoneBetween(log, cursor, revision)
    ensures Position(log, Max(cursor, revision)) == Position(log, cursor)
  {
    UpToIsPrefix(log, cursor);
    PositionUnique(log, Max(cursor, revision), Position(log, cursor));
  }

  /** A heartbeat below the event the stream delivers next passes no event the cursor has not. */
  lemma {:induction false} BeatPassesNothing(log: seq<Event>, cursor: u64, k: nat, revision: nat)
    requires Ordered(log) && k <= Position(log, cursor) && (k < |log| ==> revision < log[k].revision)
    ensures NoneBetween(log, cursor, revision)
  {
    UpToIsPrefix(log, cursor);
    var received := Position(log, cursor);
    forall i | 0 <= i < |log| ensures !(cursor < log[i].revision <= revision) {
      assert i >= received ==> i >= k && log[k].revision <= log[i].revision;
    }
  }

  lemma {:induction false} CursorMoveKeepsSound(w: World, service: string, step: Step)
    requires Sound(w, service) && Enabled(w, step) && (step.Beat? || step.ForeignAdvance?)
    ensures Sound(Next(w, service, step), service)
  {
    if step.Beat? {
      BeatPassesNothing(w.log, w.cursor, w.session.value, step.revision);
    }
    AdvancePosition(w.log, w.cursor, step.revision);
    if step.Beat? {
      MessageMeansChange(w.cache, service, Message(Some(step.revision), Heartbeat, None), step.now);
    }
    SameShape(w, Next(w, service, step), service);
  }

  lemma {:induction false} PositionMonotone(log: seq<Event>, low: nat, high: nat)
    requires Ordered(log) && low <= high
    ensures Position(log, low) <= Position(log, high) <= |log|
  {
    UpToIsPrefix(log, low);
    UpToIsPrefix(log, high);
    var a, b := Position(log, low), Position(log, high);
    var atB := if b < |log| then log[b].revision else 0;
  }

  lemma {:induction false} StoreKeepsSound(w: World, service: string, endpoints: seq<ResolvedEndpoint>, revision: u64, now: nat)
    requires Sound(w, service) && Enabled(w, StoreSnapshot(endpoints, revision, now))
    ensures Sound(Next(w, service, StoreSnapshot(endpoints, revision, now)), service)
  {
    var w' := Next(w, service, StoreSnapshot(endpoints, revision, now));
    PositionMonotone(w.log, w.cursor, revision);
    UpToIsPrefix(w.log, revision);
    var r := Position(w.log, revision);
    var target := w.log[..r];
    assert Target(w') == r && target[r..] == [];
    ReplayLongerSuffix(ViewOf(w'.cache, service), target, r, Frontier(w'));
  }

  lemma {:induction false} StepKeepsSound(w: World, service: string, step: Step)
    requires Sound(w, service) && Enabled(w, step)
    ensures Sound(Next(w, service, step), service)
  {
    match step
    case Append(event) => AppendKeepsSound(w, service, event);
    case OtherService(_) => SameShape(w, Next(w, service, step), service);
    case Connect(inclusive) => ConnectKeepsSound(w, service, inclusive);
    case Receive => ReceiveKeepsSound(w, service);
    case Edit(now) => EditKeepsSound(w, service, now);
    case Break => SameShape(w, Next(w, service, step), service);
    case Beat(_, _) => CursorMoveKeepsSound(w, service, step);
    case ForeignAdvance(_) => CursorMoveKeepsSound(w, service, step);
    case StoreSnapshot(endpoints, revision, now) => StoreKeepsSound(w, service, endpoints, revision, now);
  }

  lemma {:induction false} BehaviorIsSound(start: World, service: string, steps: seq<Step>, w: World)
    requires Behavior(start, service, steps, w)
    ensures Sound(w, service)
    decreases |steps|
  {
    if steps == [] {
      InitialIsSound(w, service);
    } else {
      var n := |steps| - 1;
      var v := Run(start, service, steps[..n]).value;
      BehaviorIsSound(start, service, steps[..n], v);
      StepKeepsSound(v, service, steps[n]);
    }
  }

  // ---- Results ----

  /** Nothing is half processed and no snapshot is ahead of the received events. */
  predicate Settled(w: World) {
    w.pending == None && (w.cursor >= w.snapshot || NoneBetween(w.log, w.cursor, w.snapshot))
  }

  /**
   Snapshot convergence: in every behavior, wherever sessions break and whenever snapshots no older
   than the cursor are stored, once every event up to the last snapshot has been received (in
   particular once the cursor has reached it) and no message is half processed, the cached table is
   the last-writer-wins fold of the log up to the cursor.
   */
  lemma {:induction false} CacheConverges(start: World, service: string, steps: seq<Step>, w: World)
    requires Behavior(start, service, steps, w) && Settled(w)
    ensures ViewOf(w.cache, service) == Fold(UpTo(w.log, w.cursor))
  {
    BehaviorIsSound(start, service, steps, w);
    UpToIsPrefix(w.log, w.cursor);
    if w.cursor >= w.snapshot {
      PositionMonotone(w.log, w.snapshot, w.cursor);
    } else {
      AdvancePosition(w.log, w.cursor, w.snapshot);
    }
    var target := w.log[..Target(w)];
    assert target[Frontier(w)..] == [];
  }

  lemma {:induction false} NoStoreNoSnapshot(start: World, service: string, steps: seq<Step>, w: World)
    requires Behavior(start, service, steps, w) && forall i :: 0 <= i < |steps| ==> !steps[i].StoreSnapshot?
    ensures w.snapshot == 0
    decreases |steps|
  {
    if steps != [] {
      var n := |steps| - 1;
      var v := Run(start, service, steps[..n]).value;
      NoStoreNoSnapshot(start, service, steps[..n], v);
    }
  }

  /**
   Lossless resume: without snapshots, after each fully processed message, however often and
   wherever sessions broke, the cached table is the fold of all log events up to the cursor.
   */
  lemma {:induction false} LosslessResume(start: World, service: string, steps: seq<Step>, w: World)
    requires Behavior(start, service, steps, w) && w.pending == None
    requires forall i :: 0 <= i < |steps| ==> !steps[i].StoreSnapshot?
    ensures ViewOf(w.cache, service) == Fold(UpTo(w.log, w.cursor))
  {
    NoStoreNoSnapshot(start, service, steps, w);
    CacheConverges(start, service, steps, w);
  }

  // ---- What a behavior records ----

  /** The events a run adds to the log. */
  function Added(steps: seq<Step>): seq<Event> {
    if steps == [] then []
    else Added(steps[..|steps| - 1]) + (if steps[|steps| - 1].Append? then [steps[|steps| - 1].event] else [])
  }

  lemma {:induction false} StepRecords(w: World, service: string, step: Step)
    requires Enabled(w, step)
    ensures var w' := Next(w, service, step);
            && w'.log == w.log + (if step.Append? then [step.event] else [])
            && w.cursor <= w'.cursor && w.serverRevision <= w'.serverRevision
            && (step.Beat? || step.ForeignAdvance? ==> step.revision <= w'.cursor)
            && (step.OtherService? ==> step.revision <= w'.serverRevision)
  {
    hide Edited, Position, TableOf, Fold;
    assert w.log + [] == w.log;
  }

  /** The log grows by exactly the mutations of the service, and the cursor never falls behind a revision it was shown. */
  lemma {:induction false} RunRecords(start: World, service: string, steps: seq<Step>, w: World)
    requires Run(start, service, steps) == Some(w)
    ensures w.log == start.log + Added(steps)
    ensures start.cursor <= w.cursor && start.serverRevision <= w.serverRevision
    ensures forall i :: 0 <= i < |steps| && (steps[i].Beat? || steps[i].ForeignAdvance?) ==> steps[i].revision <= w.cursor
    ensures forall i :: 0 <= i < |steps| && steps[i].OtherService? ==> steps[i].revision <= w.serverRevision
    decreases |steps|
  {
    hide Enabled, Next;
    if steps == [] {
      assert start.log + [] == start.log;
    } else {
      var n := |steps| - 1;
      var v := Run(start, service, steps[..n]).value;
      RunRecords(start, service, steps[..n], v);
      StepRecords(v, service, steps[n]);
      assert forall i :: 0 <= i < n ==> steps[..n][i] == steps[i];
    }
  }

  // ---- The resolver object on a registry log ----

  function BeatRevision(message: Message): nat {
    match message.revision
    case Some(revision) => revision
    case None => 0
  }

  /**
   The log index a stream has come to when its deliveries are the events from `from` on, in order,
   mixed with heartbeats that pass no undelivered event; `None` for any other deliveries.
   */
  function Streamed(log: seq<Event>, from: nat, deliveries: seq<Delivery>): Option<nat> {
    if deliveries == [] then Some(from)
    else
      var message := deliveries[|deliveries| - 1].message;
      match Streamed(log, from, deliveries[..|deliveries| - 1])
      case None => None
      case Some(k) =>
        if message.eventType == Heartbeat then
          if k < |log| && BeatRevision(message) >= log[k].revision then None else Some(k)
        else if k < |log| && message == MessageOf(log[k]) then Some(k + 1)
        else None
  }

  /** The cache agrees with the log up to the cursor, and the stream is at most one event behind it. */
  ghost predicate Agrees(log: seq<Event>, service: string, cache: Cache, cursor: u64, k: nat) {
    && k <= Position(log, cursor) <= k + 1
    && ViewOf(cache, service) == Fold(log[..Position(log, cursor)])
  }

  lemma {:induction false} EventKeepsAgreement(log: seq<Event>, service: string, cache: Cache, cursor: u64, k: nat, now: nat)
    requires Ordered(log) && k < |log| && Agrees(log, service, cache, cursor, k)
    ensures var message := MessageOf(log[k]);
            Agrees(log, service, Edited(cache, service, message, now), AdvancedCursor(cursor, message), k + 1)
  {
    ReceivePosition(log, cursor, k);
    MessageMeansChange(cache, service, MessageOf(log[k]), now);
    assert log[..k + 1][..k] == log[..k];
  }

  lemma {:induction false} HeartbeatKeepsAgreement(log: seq<Event>, service: string, cache: Cache, cursor: u64, k: nat, message: Message, now: nat)
    requires Ordered(log) && Agrees(log, service, cache, cursor, k) && message.eventType == Heartbeat
    requires k < |log| ==> BeatRevision(message) < log[k].revision
    ensures Agrees(log, service, Edited(cache, service, message, now), AdvancedCursor(cursor, message), k)
  {
    BeatPassesNothing(log, cursor, k, BeatRevision(message));
    AdvancePosition(log, cursor, BeatRevision(message));
    MessageMeansChange(cache, service, message, now);
  }

  lemma {:induction false} SessionKeepsAgreement(
    log: seq<Event>, service: string, cache: Cache, cursor: u64, from: nat, deliveries: seq<Delivery>)
    requires Ordered(log) && Agrees(log, service, cache, cursor, from) && Streamed(log, from, deliveries).Some?
    ensures Agrees(log, service, AfterDeliveries(cache, service, deliveries), CursorAfter(cursor, deliveries),
                   Streamed(log, from, deliveries).value)
    decreases |deliveries|
  {
    if deliveries != [] {
      var n := |deliveries| - 1;
      var init, last := deliveries[..n], deliveries[n];
      SessionKeepsAgreement(log, service, cache, cursor, from, init);
      var cache', cursor', k := AfterDeliveries(cache, service, init), CursorAfter(cursor, init), Streamed(log, from, init).value;
      hide AfterDeliveries, CursorAfter, Edited, AdvancedCursor, Agrees;
      assert AfterDeliveries(cache, service, deliveries) == Edited(cache', service, last.message, last.now) by {
        UnfoldDeliveries(cache, cursor, service, deliveries);
      }
      assert CursorAfter(cursor, deliveries) == AdvancedCursor(cursor', last.message) by {
        UnfoldDeliveries(cache, cursor, service, deliveries);
      }
      if last.message.eventType == Heartbeat {
        HeartbeatKeepsAgreement(log, service, cache', cursor', k, last.message, last.now);
      } else {
        EventKeepsAgreement(log, service, cache', cursor', k, last.now);
      }
    }
  }

  lemma {:induction false} UnfoldDeliveries(cache: Cache, cursor: u64, service: string, deliveries: seq<Delivery>)
    requires deliveries != []
    ensures var n := |deliveries| - 1;
            && AfterDeliveries(cache, service, deliveries)
               == Edited(AfterDeliveries(cache, service, deliveries[..n]), service, deliveries[n].message, deliveries[n].now)
            && CursorAfter(cursor, deliveries) == AdvancedCursor(CursorAfter(cursor, deliveries[..n]), deliveries[n].message)
  {
  }

  /** Every session streams the log from the revision it asked for; the server starts after it or at it. */
  predicate ServedFrom(log: seq<Event>, sessions: seq<Session>, inclusive: seq<bool>)
    requires |inclusive| == |sessions|
  {
    forall i :: 0 <= i < |sessions| ==>
      Streamed(log, StartIndex(log, Requested(0, sessions)[i], inclusive[i]), sessions[i].deliveries).Some?
  }

  /** After any number of such sessions the cached table is the fold of the log up to the cursor. */
  lemma {:induction false} SessionsAreLossless(log: seq<Event>, service: string, sessions: seq<Session>, inclusive: seq<bool>)
    requires Ordered(log) && |inclusive| == |sessions| && ServedFrom(log, sessions, inclusive)
    ensures var cursor := CursorAfter(0, AllDeliveries(sessions));
            ViewOf(AfterDeliveries(map[], service, AllDeliveries(sessions)), service) == Fold(log[..Position(log, cursor)])
    decreases |sessions|
  {
    if sessions == [] {
      PositionUnique(log, 0, 0);
    } else {
      var n := |sessions| - 1;
      var init, all := sessions[..n], AllDeliveries(sessions[..n]);
      assert ServedFrom(log, init, inclusive[..n]) by {
        forall i | 0 <= i < n ensures Requested(0, init)[i] == Requested(0, sessions)[i] && inclusive[..n][i] == inclusive[i] {}
      }
      SessionsAreLossless(log, service, init, inclusive[..n]);
      var cursor := CursorAfter(0, all);
      assert Requested(0, sessions)[n] == cursor;
      var from := StartIndex(log, cursor, inclusive[n]);
      StartIsNear(log, cursor, inclusive[n]);
      DeliveriesConcat(map[], 0, service, all, sessions[n].deliveries);
      SessionKeepsAgreement(log, service, AfterDeliveries(map[], service, all), cursor, from, sessions[n].deliveries);
    }
  }

  /**
   A new resolver watching one service of a registry whose log ends up as `log`: wherever its sessions
   break, each resumed from the cursor, its cached table is the last-writer-wins fold of the log up
   to its cursor.
   */
  method SpawnWatchLoop(config: WatchConfig, service: string, sessions: seq<Session>, draws: seq<nat>,
                        ghost log: seq<Event>, ghost inclusive: seq<bool>)
    returns (resolver: WatchingResolver, requested: seq<u64>)
    requires |draws| == |sessions| && forall i :: 0 <= i < |sessions| ==> DelayDraw(config, sessions, i, draws[i])
    requires Ordered(log) && |inclusive| == |sessions| && ServedFrom(log, sessions, inclusive)
    ensures fresh(resolver) && requested == Requested(0, sessions)
    ensures ViewOf(resolver.cache, service) == Fold(UpTo(log, resolver.lastRevision))
  {
    hide DelayDraw, ServedFrom;
    resolver := new WatchingResolver(config);
    var _, asked := resolver.RunReconnectLoop(service, sessions, draws);
    requested := asked;
    SessionsAreLossless(log, service, sessions, inclusive);
    UpToIsPrefix(log, resolver.lastRevision);
  }
}
