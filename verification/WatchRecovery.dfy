/**
 What becomes of the cache when the limits of the watch protocol are overstepped: another service
 moves the shared cursor past events of this one, or a snapshot older than the cursor is stored.
 The client recovers if every continuation of its own stream, wherever that breaks, that has been
 delivered everything ends with the table of the registry.
 */
module WatchRecovery {
  import opened MachineInt
  import opened Wrappers
  import opened Endpoints
  import opened WatchResolver
  import opened WatchProtocol

  // ---- Continuations ----

  /** Steps of the registry and of the stream of this service, heartbeats included; reconnects start after or at the cursor. */
  predicate OwnStream(step: Step, inclusive: bool) {
    match step
    case Append(_) => true
    case OtherService(_) => true
    case Connect(i) => i == inclusive
    case Receive => true
    case Edit(_) => true
    case Break => true
    case Beat(_, _) => true
    case _ => false
  }

  ghost predicate Continues(w: World, service: string, inclusive: bool, steps: seq<Step>, v: World) {
    (forall i :: 0 <= i < |steps| ==> OwnStream(steps[i], inclusive)) && Run(w, service, steps) == Some(v)
  }

  /** The open stream has delivered the whole log. */
  predicate Delivered(w: World) {
    w.session == Some(|w.log|) && w.pending == None
  }

  ghost predicate AlwaysRecovers(w: World, service: string, inclusive: bool) {
    forall steps, v :: Continues(w, service, inclusive, steps, v) && Delivered(v) ==> ViewOf(v.cache, service) == Fold(v.log)
  }

  lemma {:induction false} ContinuesConcat(w: World, service: string, inclusive: bool, a: seq<Step>, u: World, b: seq<Step>, v: World)
    requires Continues(w, service, inclusive, a, u) && Continues(u, service, inclusive, b, v)
    ensures Continues(w, service, inclusive, a + b, v)
    decreases |b|
  {
    if b == [] {
      assert a + b == a;
    } else {
      var n := |b| - 1;
      var u' := Run(u, service, b[..n]).value;
      ContinuesConcat(w, service, inclusive, a, u, b[..n], u');
      assert (a + b)[..|a + b| - 1] == a + b[..n];
    }
  }

  lemma {:induction false} OneStep(w: World, service: string, inclusive: bool, step: Step)
    requires Enabled(w, step) && OwnStream(step, inclusive)
    ensures Continues(w, service, inclusive, [step], Next(w, service, step))
  {
    assert [step][..0] == [];
    assert Run(w, service, []) == Some(w);
  }

  lemma {:induction false} Extend(w: World, service: string, inclusive: bool, steps: seq<Step>, u: World, step: Step)
    requires Continues(w, service, inclusive, steps, u) && Enabled(u, step) && OwnStream(step, inclusive)
    ensures Continues(w, service, inclusive, steps + [step], Next(u, service, step))
  {
    OneStep(u, service, inclusive, step);
    ContinuesConcat(w, service, inclusive, steps, u, [step], Next(u, service, step));
  }

  // ---- The states from which every continuation recovers ----

  /** The stream is not ahead of the cursor; nothing is said about the cache. */
  ghost predicate Placed(w: World) {
    && LogSound(w)
    && (w.session.Some? ==> w.session.value <= Received(w))
    && (w.pending.Some? ==> w.session == Some(w.pending.value + 1))
  }

  function Resume(w: World, inclusive: bool): (k: nat)
    ensures k <= |w.log|
  {
    StartIndex(w.log, w.cursor, inclusive)
  }

  /** The next event to be edited into the cache if the stream does not break. */
  function NextEdit(w: World, inclusive: bool): nat {
    if w.pending.Some? then w.pending.value
    else if w.session.Some? then w.session.value
    else Resume(w, inclusive)
  }

  /** The final table if the stream breaks before event `j` and resumes at `resume`. */
  function BrokenAt(table: Table, log: seq<Event>, next: nat, j: nat, resume: nat): Table
    requires next <= j <= |log| && resume <= |log|
  {
    Replay(Replay(table, log[next..j]), log[resume..])
  }

  /**
   The table comes right if the stream goes on from `next`, and if it breaks anywhere between the
   event it is reading and the last one the cursor has passed.
   */
  ghost predicate ComesRight(table: Table, log: seq<Event>, next: nat, reading: Option<nat>, received: nat, resume: nat)
    requires next <= |log| && resume <= |log| && received <= |log|
    requires reading.Some? ==> next <= reading.value
  {
    && Replay(table, log[next..]) == Fold(log)
    && (reading.Some? ==>
          forall j :: reading.value <= j <= received ==> BrokenAt(table, log, next, j, resume) == Fold(log))
  }

  ghost predicate Repairable(w: World, service: string, inclusive: bool)
    requires Placed(w)
  {
    ComesRight(ViewOf(w.cache, service), w.log, NextEdit(w, inclusive), w.session, Received(w), Resume(w, inclusive))
  }

  // ---- Replaying twice ----

  /** Events replayed once before a longer replay from the same index leave no trace. */
  lemma {:induction false} ReplayTwice(table: Table, log: seq<Event>, s: nat, j: nat)
    requires s <= j <= |log|
    ensures BrokenAt(table, log, s, j, s) == Replay(table, log[s..])
  {
    var once := Replay(table, log[s..j]);
    forall name ensures Get(Replay(once, log[s..]), name) == Get(Replay(table, log[s..]), name) {
      assert log[s..] == log[s..j] + log[j..];
      LastWordOfConcat(log[s..j], log[j..], name);
      ReplayIsLastWriterWins(once, log[s..], name);
      ReplayIsLastWriterWins(table, log[s..], name);
      ReplayIsLastWriterWins(table, log[s..j], name);
    }
    SameTable(Replay(once, log[s..]), Replay(table, log[s..]));
  }

  lemma {:induction false} BreakAtOnce(table: Table, log: seq<Event>, k: nat, resume: nat)
    requires k <= |log| && resume <= |log|
    ensures BrokenAt(table, log, k, k, resume) == Replay(table, log[resume..])
  {
    assert log[k..k] == [];
  }

  /** A break after event `k` costs nothing if the stream resumes behind it, or at it. */
  lemma {:induction false} BreakAfterOne(table: Table, log: seq<Event>, k: nat, resume: nat)
    requires k < |log| && k <= resume <= k + 1
    ensures BrokenAt(table, log, k, k + 1, resume) == Replay(table, log[k..])
  {
    if resume == k {
      ReplayTwice(table, log, k, k + 1);
    } else {
      assert log[k..] == log[k..k + 1] + log[k + 1..];
      ReplayConcat(table, log[k..k + 1], log[k + 1..]);
    }
  }

  // ---- Every step of a continuation keeps it repairable ----

  lemma {:induction false} AppendReplay(table: Table, log: seq<Event>, event: Event, k: nat)
    requires k <= |log|
    ensures Replay(table, (log + [event])[k..]) == Applied(Replay(table, log[k..]), ChangeBy(event))
  {
    assert (log + [event])[k..] == log[k..] + [event];
    assert (log[k..] + [event])[..|log[k..]|] == log[k..];
  }

  lemma {:induction false} AppendComesRight(
    table: Table, log: seq<Event>, event: Event, next: nat, reading: Option<nat>, received: nat, resume: nat)
    requires next <= |log| && resume <= |log| && received <= |log| && (reading.Some? ==> next <= reading.value)
    requires ComesRight(table, log, next, reading, received, resume)
    ensures ComesRight(table, log + [event], next, reading, received, resume)
  {
    var longer := log + [event];
    AppendReplay(table, log, event, next);
    AppendReplay(map[], log, event, 0);
    assert log[0..] == log && longer[0..] == longer;
    if reading.Some? {
      forall j | reading.value <= j <= received ensures BrokenAt(table, longer, next, j, resume) == Fold(longer) {
        assert longer[next..j] == log[next..j];
        AppendReplay(Replay(table, log[next..j]), log, event, resume);
        assert BrokenAt(table, log, next, j, resume) == Fold(log);
      }
    }
  }

  lemma {:induction false} AppendKeepsPlaced(w: World, service: string, inclusive: bool, event: Event)
    requires Placed(w) && Enabled(w, Append(event))
    ensures var w' := Next(w, service, Append(event));
            && Placed(w') && Received(w') == Received(w)
            && Resume(w', inclusive) == Resume(w, inclusive) && NextEdit(w', inclusive) == NextEdit(w, inclusive)
  {
    assert Ordered(w.log + [event]);
    AppendKeepsPositions(w.log, event, w.cursor);
    if w.cursor > 0 {
      AppendKeepsPositions(w.log, event, w.cursor - 1);
    }
    hide Position, Ordered;
  }

  lemma {:induction false} AppendKeepsRepairable(w: World, service: string, inclusive: bool, event: Event)
    requires Placed(w) && Repairable(w, service, inclusive) && Enabled(w, Append(event))
    ensures var w' := Next(w, service, Append(event)); Placed(w') && Repairable(w', service, inclusive)
  {
    AppendKeepsPlaced(w, service, inclusive, event);
    hide LogSound, Received, Resume, ComesRight;
    AppendComesRight(ViewOf(w.cache, service), w.log, event, NextEdit(w, inclusive), w.session, Received(w), Resume(w, inclusive));
  }

  lemma {:induction false} ConnectKeepsRepairable(w: World, service: string, inclusive: bool)
    requires Placed(w) && Repairable(w, service, inclusive) && Enabled(w, Connect(inclusive))
    ensures var w' := Next(w, service, Connect(inclusive)); Placed(w') && Repairable(w', service, inclusive)
  {
    var w' := Next(w, service, Connect(inclusive));
    StartIsNear(w.log, w.cursor, inclusive);
    hide Position, Ordered;
    var table, k := ViewOf(w.cache, service), Resume(w, inclusive);
    forall j | k <= j <= Received(w') ensures BrokenAt(table, w.log, k, j, k) == Fold(w.log) {
      ReplayTwice(table, w.log, k, j);
    }
  }

  lemma {:induction false} ReceiveComesRight(table: Table, log: seq<Event>, k: nat, received: nat, resume: nat, received': nat, resume': nat)
    requires k < |log| && k <= received <= |log| && resume <= |log|
    requires ComesRight(table, log, k, Some(k), received, resume)
    requires if k < received then received' == received && resume' == resume else received' == k + 1 && k <= resume' <= k + 1
    ensures ComesRight(table, log, k, Some(k + 1), received', resume')
  {
    if k == received {
      BreakAfterOne(table, log, k, resume');
    }
  }

  lemma {:induction false} ReceiveKeepsRepairable(w: World, service: string, inclusive: bool)
    requires Placed(w) && Repairable(w, service, inclusive) && Enabled(w, Receive)
    ensures var w' := Next(w, service, Receive); Placed(w') && Repairable(w', service, inclusive)
  {
    var w' := Next(w, service, Receive);
    var k := w.session.value;
    UpToIsPrefix(w.log, w.cursor);
    assert k < Received(w) ==> w'.cursor == w.cursor;
    if k == Received(w) {
      ReceivePosition(w.log, w.cursor, k);
    }
    StartIsNear(w.log, w'.cursor, inclusive);
    hide Position, Ordered, UpTo;
    ReceiveComesRight(ViewOf(w.cache, service), w.log, k, Received(w), Resume(w, inclusive), Received(w'), Resume(w', inclusive));
    hide ComesRight;
  }

  /** The edit of a received event neither makes nor breaks it. */
  lemma {:induction false} EditComesRight(table: Table, log: seq<Event>, p: nat, received: nat, resume: nat)
    requires p < |log| && received <= |log| && resume <= |log|
    ensures ComesRight(table, log, p, Some(p + 1), received, resume)
            <==> ComesRight(Applied(table, ChangeBy(log[p])), log, p + 1, Some(p + 1), received, resume)
  {
    var edited, next := Applied(table, ChangeBy(log[p])), p + 1;
    ReplayFirst(table, log[p..]);
    assert log[p..][1..] == log[next..];
    forall j | next <= j <= received ensures BrokenAt(edited, log, next, j, resume) == BrokenAt(table, log, p, j, resume) {
      ReplayFirst(table, log[p..j]);
      assert log[p..j][1..] == log[next..j];
    }
    hide BrokenAt, Replay, Fold;
    if ComesRight(table, log, p, Some(p + 1), received, resume) {
      forall j | next <= j <= received ensures BrokenAt(edited, log, next, j, resume) == Fold(log) {
        assert BrokenAt(table, log, p, j, resume) == Fold(log);
      }
    }
    if ComesRight(edited, log, next, Some(next), received, resume) {
      forall j | next <= j <= received ensures BrokenAt(table, log, p, j, resume) == Fold(log) {
        assert BrokenAt(edited, log, next, j, resume) == Fold(log);
      }
    }
  }

  lemma {:induction false} EditKeepsRepairable(w: World, service: string, inclusive: bool, now: nat)
    requires Placed(w) && Enabled(w, Edit(now))
    ensures var w' := Next(w, service, Edit(now));
            Placed(w') && (Repairable(w, service, inclusive) <==> Repairable(w', service, inclusive))
  {
    MessageMeansChange(w.cache, service, MessageOf(w.log[w.pending.value]), now);
    hide Position, Ordered;
    EditComesRight(ViewOf(w.cache, service), w.log, w.pending.value, Received(w), Resume(w, inclusive));
    hide ComesRight;
  }

  lemma {:induction false} BreakKeepsRepairable(w: World, service: string, inclusive: bool)
    requires Placed(w) && Repairable(w, service, inclusive) && Enabled(w, Break)
    ensures var w' := Next(w, service, Break); Placed(w') && Repairable(w', service, inclusive)
  {
    if w.session.Some? {
      BreakAtOnce(ViewOf(w.cache, service), w.log, w.session.value, Resume(w, inclusive));
    }
  }

  /** A heartbeat moves the cursor only when the stream has delivered everything up to it. */
  lemma {:induction false} BeatKeepsPlaced(w: World, service: string, revision: u64, now: nat)
    requires Placed(w) && Enabled(w, Beat(revision, now))
    ensures var w' := Next(w, service, Beat(revision, now));
            && Placed(w') && Received(w') == Received(w) && ViewOf(w'.cache, service) == ViewOf(w.cache, service)
            && (w.session.value < Received(w) ==> w'.cursor == w.cursor)
  {
    var k := w.session.value;
    UpToIsPrefix(w.log, w.cursor);
    BeatPassesNothing(w.log, w.cursor, k, revision);
    AdvancePosition(w.log, w.cursor, revision);
    MessageMeansChange(w.cache, service, Message(Some(revision), Heartbeat, None), now);
    hide Position;
  }

  lemma {:induction false} BeatKeepsRepairable(w: World, service: string, inclusive: bool, revision: u64, now: nat)
    requires Placed(w) && Repairable(w, service, inclusive) && Enabled(w, Beat(revision, now))
    ensures var w' := Next(w, service, Beat(revision, now)); Placed(w') && Repairable(w', service, inclusive)
  {
    var w' := Next(w, service, Beat(revision, now));
    BeatKeepsPlaced(w, service, revision, now);
    var table, k := ViewOf(w.cache, service), w.session.value;
    hide LogSound, Received;
    if k == Received(w) && w'.cursor != w.cursor {
      CursorBehindAll(w, w', inclusive);
      BreakAtOnce(table, w.log, k, k);
    }
  }

  /** A cursor that moved without passing an event lies beyond the last event passed. */
  lemma CursorBehindAll(w: World, w': World, inclusive: bool)
    requires Ordered(w.log) && w'.log == w.log && w'.cursor > w.cursor && Received(w') == Received(w)
    ensures Resume(w', inclusive) == Received(w)
  {
    UpToIsPrefix(w.log, w.cursor);
    UpToIsPrefix(w.log, w'.cursor);
    PositionUnique(w.log, w'.cursor - 1, Received(w));
  }

  lemma {:induction false} OtherServiceKeepsRepairable(w: World, service: string, inclusive: bool, revision: u64)
    requires Placed(w) && Repairable(w, service, inclusive) && Enabled(w, OtherService(revision))
    ensures var w' := Next(w, service, OtherService(revision)); Placed(w') && Repairable(w', service, inclusive)
  {
    hide Position, Ordered, ComesRight;
  }

  lemma {:induction false} StepKeepsRepairable(w: World, service: string, inclusive: bool, step: Step)
    requires Placed(w) && Repairable(w, service, inclusive) && Enabled(w, step) && OwnStream(step, inclusive)
    ensures var w' := Next(w, service, step); Placed(w') && Repairable(w', service, inclusive)
  {
    hide Placed, Repairable, Enabled, Next;
    match step
    case Append(event) => AppendKeepsRepairable(w, service, inclusive, event);
    case OtherService(revision) => OtherServiceKeepsRepairable(w, service, inclusive, revision);
    case Connect(_) => ConnectKeepsRepairable(w, service, inclusive);
    case Receive => ReceiveKeepsRepairable(w, service, inclusive);
    case Edit(now) => EditKeepsRepairable(w, service, inclusive, now);
    case Break => BreakKeepsRepairable(w, service, inclusive);
    case Beat(revision, now) => BeatKeepsRepairable(w, service, inclusive, revision, now);
  }

  lemma {:induction false} ContinuationKeepsRepairable(w: World, service: string, inclusive: bool, steps: seq<Step>, v: World)
    requires Placed(w) && Repairable(w, service, inclusive) && Continues(w, service, inclusive, steps, v)
    ensures Placed(v) && Repairable(v, service, inclusive)
    decreases |steps|
  {
    hide Placed, Repairable, Enabled, Next;
    if steps != [] {
      var n := |steps| - 1;
      var u := Run(w, service, steps[..n]).value;
      ContinuationKeepsRepairable(w, service, inclusive, steps[..n], u);
      StepKeepsRepairable(u, service, inclusive, steps[n]);
    }
  }

  // ---- Continuations that reach the bad ends ----

  /** The open stream delivers the events up to index `j`. */
  lemma {:induction false} ReceiveUpTo(w: World, service: string, inclusive: bool, j: nat) returns (steps: seq<Step>, v: World)
    requires Ordered(w.log) && w.pending == None && w.session.Some? && w.session.value <= j <= |w.log|
    requires w.session.value <= Received(w)
    ensures Continues(w, service, inclusive, steps, v)
    ensures v == w.(cache := v.cache, cursor := v.cursor, session := Some(j))
    ensures ViewOf(v.cache, service) == Replay(ViewOf(w.cache, service), w.log[w.session.value..j])
    ensures v.cursor == if j <= Received(w) then w.cursor else w.log[j - 1].revision
    decreases j
  {
    hide Enabled, Next, Ordered, Position;
    if j == w.session.value {
      steps, v := [], w;
      assert w.log[j..j] == [];
    } else {
      var before, u := ReceiveUpTo(w, service, inclusive, j - 1);
      v := DeliverNext(u, service, inclusive);
      var two := [Receive, Edit(0)];
      ContinuesConcat(w, service, inclusive, before, u, two, v);
      steps := before + two;
      CursorStep(w.log, w.cursor, u.cursor, j);
      var slice := w.log[w.session.value..j];
      assert slice[..|slice| - 1] == w.log[w.session.value..j - 1];
    }
  }

  lemma {:induction false} CursorStep(log: seq<Event>, cursor: u64, before: u64, j: nat)
    requires Ordered(log) && 1 <= j <= |log|
    requires j - 1 <= Position(log, cursor) ==> before == cursor
    requires j - 1 > Position(log, cursor) ==> before == log[j - 2].revision
    ensures Max(before, log[j - 1].revision) == if j <= Position(log, cursor) then cursor else log[j - 1].revision
  {
    UpToIsPrefix(log, cursor);
  }

  lemma {:induction false} DeliverNext(w: World, service: string, inclusive: bool) returns (v: World)
    requires Ordered(w.log) && w.pending == None && w.session.Some? && w.session.value < |w.log|
    ensures Continues(w, service, inclusive, [Receive, Edit(0)], v)
    ensures var event := w.log[w.session.value];
            && v == w.(cache := v.cache, cursor := Max(w.cursor, event.revision), session := Some(w.session.value + 1))
            && ViewOf(v.cache, service) == Applied(ViewOf(w.cache, service), ChangeBy(event))
  {
    var u := Next(w, service, Receive);
    OneStep(w, service, inclusive, Receive);
    Extend(w, service, inclusive, [Receive], u, Edit(0));
    v := Next(u, service, Edit(0));
    MessageMeansChange(w.cache, service, MessageOf(w.log[w.session.value]), 0);
    assert [Receive] + [Edit(0)] == [Receive, Edit(0)];
  }

  /** Without a break: connect if need be, and receive everything. */
  lemma {:induction false} DeliverAll(w: World, service: string, inclusive: bool) returns (steps: seq<Step>, v: World)
    requires Placed(w) && w.pending == None
    ensures Continues(w, service, inclusive, steps, v) && Delivered(v) && v.log == w.log
    ensures ViewOf(v.cache, service) == Replay(ViewOf(w.cache, service), w.log[NextEdit(w, inclusive)..])
  {
    if w.session.Some? {
      steps, v := ReceiveUpTo(w, service, inclusive, |w.log|);
      assert w.log[w.session.value..|w.log|] == w.log[w.session.value..];
    } else {
      var u := Next(w, service, Connect(inclusive));
      OneStep(w, service, inclusive, Connect(inclusive));
      StartIsNear(w.log, w.cursor, inclusive);
      var rest, v' := ReceiveUpTo(u, service, inclusive, |w.log|);
      ContinuesConcat(w, service, inclusive, [Connect(inclusive)], u, rest, v');
      steps, v := [Connect(inclusive)] + rest, v';
      assert w.log[u.session.value..|w.log|] == w.log[u.session.value..];
    }
  }

  /** With a break before event `j`, which the cursor has already passed. */
  lemma {:induction false} DeliverBroken(w: World, service: string, inclusive: bool, j: nat) returns (steps: seq<Step>, v: World)
    requires Placed(w) && w.pending == None && w.session.Some? && w.session.value <= j <= Received(w)
    ensures Continues(w, service, inclusive, steps, v) && Delivered(v) && v.log == w.log
    ensures ViewOf(v.cache, service)
            == BrokenAt(ViewOf(w.cache, service), w.log, w.session.value, j, Resume(w, inclusive))
  {
    var before, u := ReceiveUpTo(w, service, inclusive, j);
    var broken := Next(u, service, Break);
    Extend(w, service, inclusive, before, u, Break);
    var rest, v' := DeliverAll(broken, service, inclusive);
    ContinuesConcat(w, service, inclusive, before + [Break], broken, rest, v');
    steps, v := before + [Break] + rest, v';
  }

  lemma {:induction false} RecoversNeedsRepairable(w: World, service: string, inclusive: bool)
    requires Placed(w) && w.pending == None
    ensures AlwaysRecovers(w, service, inclusive) ==> Repairable(w, service, inclusive)
  {
    if Replay(ViewOf(w.cache, service), w.log[NextEdit(w, inclusive)..]) != Fold(w.log) {
      var steps, v := DeliverAll(w, service, inclusive);
    } else if !Repairable(w, service, inclusive) {
      var j :| w.session.value <= j <= Received(w)
               && BrokenAt(ViewOf(w.cache, service), w.log, w.session.value, j, Resume(w, inclusive)) != Fold(w.log);
      var steps, v := DeliverBroken(w, service, inclusive, j);
    }
  }

  lemma {:induction false} RecoversAfter(w: World, service: string, inclusive: bool, step: Step)
    requires AlwaysRecovers(w, service, inclusive) && Enabled(w, step) && OwnStream(step, inclusive)
    ensures AlwaysRecovers(Next(w, service, step), service, inclusive)
  {
    var u := Next(w, service, step);
    forall steps, v | Continues(u, service, inclusive, steps, v) && Delivered(v)
      ensures ViewOf(v.cache, service) == Fold(v.log)
    {
      OneStep(w, service, inclusive, step);
      ContinuesConcat(w, service, inclusive, [step], u, steps, v);
    }
  }

  /** In every state, also with a message half processed, every continuation recovers exactly when it is repairable. */
  lemma {:induction false} RecoversIff(w: World, service: string, inclusive: bool)
    requires Placed(w)
    ensures AlwaysRecovers(w, service, inclusive) <==> Repairable(w, service, inclusive)
  {
    if Repairable(w, service, inclusive) {
      forall steps, v | Continues(w, service, inclusive, steps, v) && Delivered(v)
        ensures ViewOf(v.cache, service) == Fold(v.log)
      {
        ContinuationKeepsRepairable(w, service, inclusive, steps, v);
        assert v.log[|v.log|..] == [];
      }
    } else if w.pending == None {
      RecoversNeedsRepairable(w, service, inclusive);
    } else if AlwaysRecovers(w, service, inclusive) {
      hide AlwaysRecovers, Repairable, Position;
      EditKeepsRepairable(w, service, inclusive, 0);
      RecoversAfter(w, service, inclusive, Edit(0));
      RecoversNeedsRepairable(Next(w, service, Edit(0)), service, inclusive);
    }
  }

  // ---- Gaps ----

  /** Missing `skipped` does no harm to `name` if a later event decides it, or nothing changed for it. */
  predicate Harmless(table: Table, skipped: seq<Event>, later: seq<Event>, name: string) {
    match LastWord(skipped, name)
    case None => true
    case Some(word) => LastWord(later, name).Some? || word == Get(table, name)
  }

  /** A table that lacks the log from `a` on and resumes at `b` skips nothing, or nothing that matters. */
  ghost predicate GapHarmless(table: Table, log: seq<Event>, a: nat, b: nat)
    requires a <= |log| && b <= |log|
  {
    b <= a || forall name :: Harmless(table, log[a..b], log[b..], name)
  }

  /**
   A table that the log from `a` on would bring to the registry state, and that is replayed the log
   from `b` on, gets there exactly when no endpoint has its last word, with another state, among
   skipped events.
   */
  lemma {:induction false} GapHarmlessIff(table: Table, log: seq<Event>, a: nat, b: nat)
    requires a <= |log| && b <= |log| && Replay(table, log[a..]) == Fold(log)
    ensures Replay(table, log[b..]) == Fold(log) <==> GapHarmless(table, log, a, b)
  {
    if b <= a {
      ReplayLongerSuffix(table, log, a, b);
    } else {
      var skipped, later := log[a..b], log[b..];
      assert log[a..] == skipped + later;
      forall name
        ensures Get(Replay(table, later), name) == Get(Fold(log), name) <==> Harmless(table, skipped, later, name)
      {
        ReplayIsLastWriterWins(table, later, name);
        ReplayIsLastWriterWins(table, skipped + later, name);
        LastWordOfConcat(skipped, later, name);
      }
      if forall name :: Harmless(table, skipped, later, name) {
        forall name ensures Get(Replay(table, later), name) == Get(Fold(log), name) {
          assert Harmless(table, skipped, later, name);
        }
        SameTable(Replay(table, later), Fold(log));
      }
    }
  }

  lemma {:induction false} FoldGoesOn(log: seq<Event>, a: nat)
    requires a <= |log|
    ensures Replay(Fold(log[..a]), log[a..]) == Fold(log)
  {
    assert log == log[..a] + log[a..];
    ReplayConcat(map[], log[..a], log[a..]);
  }

  /** In every sound state the events from the frontier on bring the cache to the registry state. */
  lemma {:induction false} FrontierGoesOn(w: World, service: string)
    requires Sound(w, service)
    ensures Frontier(w) <= |w.log| && Replay(ViewOf(w.cache, service), w.log[Frontier(w)..]) == Fold(w.log)
  {
    var target, f := Target(w), Frontier(w);
    assert w.log[f..] == w.log[..target][f..] + w.log[target..];
    ReplayConcat(ViewOf(w.cache, service), w.log[..target][f..], w.log[target..]);
    FoldGoesOn(w.log, target);
  }

  // ---- A cursor moved by another service ----

  /** A move of the shared cursor to `revision`, whatever events of this service it passes. */
  function Moved(w: World, revision: u64): World {
    w.(cursor := Max(w.cursor, revision))
  }

  /**
   Wherever from `k` to `b` the stream ends, with the events from `next` on edited into the table by
   then, resuming at `resume` is harmless.
   */
  ghost predicate HarmlessFromAll(table: Table, log: seq<Event>, next: nat, frontier: nat, k: nat, b: nat, resume: nat)
    requires next <= k <= b <= |log| && frontier <= b && resume <= |log|
  {
    forall j :: k <= j <= b ==> GapHarmlessAt(table, log, next, frontier, j, resume)
  }

  ghost predicate GapHarmlessAt(table: Table, log: seq<Event>, next: nat, frontier: nat, j: nat, resume: nat)
    requires next <= j <= |log| && frontier <= |log| && resume <= |log|
  {
    GapHarmless(Replay(table, log[next..j]), log, Max(frontier, j), resume)
  }

  lemma {:induction false} BreakHarmlessIff(table: Table, log: seq<Event>, next: nat, frontier: nat, j: nat, resume: nat)
    requires next <= frontier <= next + 1 && next <= j <= |log| && frontier <= |log| && resume <= |log|
    requires Replay(table, log[frontier..]) == Fold(log)
    ensures BrokenAt(table, log, next, j, resume) == Fold(log) <==> GapHarmlessAt(table, log, next, frontier, j, resume)
  {
    var edited := Replay(table, log[next..j]);
    ReplayLongerSuffix(table, log, frontier, next);
    if j < frontier {
      assert log[next..j] == [];
    } else {
      assert log[next..] == log[next..j] + log[j..];
      ReplayConcat(table, log[next..j], log[j..]);
    }
    GapHarmlessIff(edited, log, Max(frontier, j), resume);
  }

  lemma {:induction false} GapsComeRight(table: Table, log: seq<Event>, next: nat, frontier: nat, k: nat, b: nat, resume: nat)
    requires next <= frontier <= next + 1 && next <= k <= b <= |log| && frontier <= b && resume <= |log|
    requires Replay(table, log[frontier..]) == Fold(log)
    ensures Replay(table, log[next..]) == Fold(log)
    ensures ComesRight(table, log, next, Some(k), b, resume) <==> HarmlessFromAll(table, log, next, frontier, k, b, resume)
  {
    ReplayLongerSuffix(table, log, frontier, next);
    forall j | k <= j <= b
      ensures BrokenAt(table, log, next, j, resume) == Fold(log) <==> GapHarmlessAt(table, log, next, frontier, j, resume)
    {
      BreakHarmlessIff(table, log, next, frontier, j, resume);
    }
    hide GapHarmlessAt, BrokenAt, Fold, Replay;
    if HarmlessFromAll(table, log, next, frontier, k, b, resume) {
      forall j | k <= j <= b ensures BrokenAt(table, log, next, j, resume) == Fold(log) {
        assert GapHarmlessAt(table, log, next, frontier, j, resume);
      }
    } else {
      var j :| k <= j <= b && !GapHarmlessAt(table, log, next, frontier, j, resume);
      assert BrokenAt(table, log, next, j, resume) != Fold(log);
    }
  }

  lemma {:induction false} SoundIsPlaced(w: World, service: string, revision: u64)
    requires Sound(w, service) && revision <= w.serverRevision
    ensures Placed(w) && Placed(Moved(w, revision)) && Frontier(w) <= Received(w) <= Received(Moved(w, revision))
    ensures forall inclusive :: w.session.Some? ==> NextEdit(w, inclusive) <= Frontier(w) <= NextEdit(w, inclusive) + 1
  {
    PositionMonotone(w.log, w.cursor, Moved(w, revision).cursor);
  }

  /**
   Another service moves the shared cursor, in any state of any behavior. Without an open stream every
   continuation recovers exactly when the events skipped by the next start are harmless. An open
   stream that does not break loses nothing; all continuations recover exactly when breaking off
   anywhere before the new cursor is harmless.
   */
  lemma {:induction false} ForeignAdvanceSafeIff(start: World, service: string, steps: seq<Step>, w: World, revision: u64, inclusive: bool)
    requires Behavior(start, service, steps, w) && revision <= w.serverRevision
    ensures var w', table, next := Moved(w, revision), ViewOf(w.cache, service), NextEdit(w, inclusive);
            && Frontier(w) <= Received(w) <= Received(w')
            && (w.session.Some? ==>
                  && next <= w.session.value <= Received(w)
                  && Replay(table, w.log[next..]) == Fold(w.log))
            && (AlwaysRecovers(w', service, inclusive)
                <==> if w.session.Some?
                     then HarmlessFromAll(table, w.log, next, Frontier(w), w.session.value, Received(w'), Resume(w', inclusive))
                     else GapHarmless(table, w.log, Received(w), Resume(w', inclusive)))
  {
    var w', table, next := Moved(w, revision), ViewOf(w.cache, service), NextEdit(w, inclusive);
    BehaviorIsSound(start, service, steps, w);
    FrontierGoesOn(w, service);
    SoundIsPlaced(w, service, revision);
    RecoversIff(w', service, inclusive);
    hide AlwaysRecovers, GapHarmless, HarmlessFromAll, Position, LogSound, Converging;
    if w.session.Some? {
      GapsComeRight(table, w.log, next, Frontier(w), w.session.value, Received(w'), Resume(w', inclusive));
      hide ComesRight;
    } else {
      GapHarmlessIff(table, w.log, Received(w), Resume(w', inclusive));
    }
  }

  // ---- The watch task aborted ----

  /** The watch loop is stopped anywhere, also between the cursor advance and the cache edit of a message. */
  function Aborted(w: World): World {
    w.(session := None, pending := None)
  }

  /**
   The watch task is aborted in any state of any behavior and started again later. Every continuation
   recovers exactly when the message it was processing, if any, is harmless to miss: always between
   messages, and always if the server starts at the cursor and the message is the last one received.
   */
  lemma {:induction false} AbortSafeIff(start: World, service: string, steps: seq<Step>, w: World, inclusive: bool)
    requires Behavior(start, service, steps, w)
    ensures Frontier(w) <= |w.log| && (w.pending.Some? ==> w.pending.value < |w.log|)
    ensures AlwaysRecovers(Aborted(w), service, inclusive)
            <==> GapHarmless(ViewOf(w.cache, service), w.log, Frontier(w), Resume(w, inclusive))
    ensures w.pending == None ==> AlwaysRecovers(Aborted(w), service, inclusive)
    ensures w.pending.Some? && inclusive && w.cursor == w.log[w.pending.value].revision ==>
              AlwaysRecovers(Aborted(w), service, inclusive)
  {
    BehaviorIsSound(start, service, steps, w);
    FrontierGoesOn(w, service);
    RecoversIff(Aborted(w), service, inclusive);
    GapHarmlessIff(ViewOf(w.cache, service), w.log, Frontier(w), Resume(w, inclusive));
    StartIsNear(w.log, w.cursor, inclusive);
    if w.pending.Some? && inclusive && w.cursor == w.log[w.pending.value].revision {
      StartsAtCursor(w.log, w.pending.value);
    }
  }

  lemma {:induction false} StartsAtCursor(log: seq<Event>, p: nat)
    requires Ordered(log) && p < |log|
    ensures StartIndex(log, log[p].revision, true) == p
  {
    PositionUnique(log, log[p].revision - 1, p);
  }

  // ---- A snapshot older than the cursor ----

  function Stored(w: World, service: string, endpoints: seq<ResolvedEndpoint>, now: nat): World {
    w.(cache := w.cache[service := CachedEndpoints(endpoints, now)])
  }

  lemma {:induction false} SnapshotComesRight(log: seq<Event>, r: nat, next: nat, k: nat, received: nat, resume: nat)
    requires r <= |log| && k <= received <= k + 1 && resume <= received <= resume + 1 && received <= |log|
    requires next == k || (next + 1 == k == received)
    ensures ComesRight(Fold(log[..r]), log, next, Some(k), received, resume)
            <==> && GapHarmless(Fold(log[..r]), log, r, next)
                 && (next == k ==> GapHarmless(Fold(log[..r]), log, r, resume))
  {
    var table := Fold(log[..r]);
    FoldGoesOn(log, r);
    GapHarmlessIff(table, log, r, resume);
    GapHarmlessIff(table, log, r, next);
    if next == k {
      BreakAtOnce(table, log, k, resume);
    }
    if received == next + 1 {
      BreakAfterOne(table, log, next, resume);
    }
    hide GapHarmless, BrokenAt, Fold, Replay;
    assert next == k ==> BrokenAt(table, log, k, k, resume) == Replay(table, log[resume..]);
    assert received == next + 1 ==> BrokenAt(table, log, next, received, resume) == Replay(table, log[next..]);
  }

  /**
   A snapshot no newer than the cursor is stored, in any state of any behavior. Every continuation
   recovers exactly when the events between the snapshot and the next one to be edited in are
   harmless, and, between messages, also those between the snapshot and the next start.
   */
  lemma {:induction false} StaleSnapshotSafeIff(start: World, service: string, steps: seq<Step>, w: World,
                             endpoints: seq<ResolvedEndpoint>, revision: u64, now: nat, inclusive: bool)
    requires Behavior(start, service, steps, w) && revision <= w.cursor
    requires TableOf(endpoints) == Fold(UpTo(w.log, revision))
    ensures var r := Position(w.log, revision);
            && NextEdit(w, inclusive) <= |w.log|
            && (AlwaysRecovers(Stored(w, service, endpoints, now), service, inclusive)
                <==> && GapHarmless(TableOf(endpoints), w.log, r, NextEdit(w, inclusive))
                     && (w.pending == None ==> GapHarmless(TableOf(endpoints), w.log, r, Resume(w, inclusive))))
  {
    var w', r := Stored(w, service, endpoints, now), Position(w.log, revision);
    BehaviorIsSound(start, service, steps, w);
    UpToIsPrefix(w.log, revision);
    StartIsNear(w.log, w.cursor, inclusive);
    FoldGoesOn(w.log, r);
    RecoversIff(w', service, inclusive);
    hide AlwaysRecovers, GapHarmless, Position, LogSound, Converging, Fold;
    if w.session.Some? {
      SnapshotComesRight(w.log, r, NextEdit(w, inclusive), w.session.value, Received(w), Resume(w, inclusive));
      hide ComesRight;
    } else {
      GapHarmlessIff(TableOf(endpoints), w.log, r, Resume(w, inclusive));
    }
  }

  // ---- Three histories ----

  const UP: Event := Event(7, false, ServiceInstance("x", 1, Serving))
  const DOWN: Event := Event(8, true, ServiceInstance("x", 1, Serving))

  lemma UpAndDown()
    ensures ChangeBy(UP) == Put("x", 1) && ChangeBy(DOWN) == Remove("x")
    ensures LastWord([UP], "x") == Some(Some(1)) && LastWord([DOWN], "x") == Some(None)
    ensures Fold([UP]) == map["x" := 1]
  {
    assert !IsBlank("x") by {
      assert "x"[0] == 'x';
    }
    assert [UP][..0] == [] && [DOWN][..0] == [];
    assert Replay(map[], []) == map[];
  }

  /** Missing the registration, or the deregistration, does harm. */
  lemma GapsDoHarm()
    ensures !GapHarmless(map[], [UP], 0, 1)
    ensures !GapHarmless(map["x" := 1], [UP, DOWN], 1, 2)
  {
    UpAndDown();
    assert [UP][0..1] == [UP] && [UP][1..] == [];
    assert !Harmless(map[], [UP][0..1], [UP][1..], "x");
    assert [UP, DOWN][1..2] == [DOWN] && [UP, DOWN][2..] == [];
    assert !Harmless(map["x" := 1], [UP, DOWN][1..2], [UP, DOWN][2..], "x");
  }

  lemma Positions()
    ensures Position([UP], 0) == 0
    ensures Position([UP], 6) == 0 && Position([UP], 7) == Position([UP], 9) == Position([UP], 10) == 1
    ensures Position([UP, DOWN], 0) == 0 && Position([UP, DOWN], 7) == 1 && Position([UP, DOWN], 8) == 2
  {
    PositionUnique([UP], 0, 0);
    PositionUnique([UP], 6, 0);
    PositionUnique([UP], 7, 1);
    PositionUnique([UP], 9, 1);
    PositionUnique([UP], 10, 1);
    PositionUnique([UP, DOWN], 0, 0);
    PositionUnique([UP, DOWN], 7, 1);
    PositionUnique([UP, DOWN], 8, 2);
  }

  /**
   The cursor is shared by all services of a resolver. Here an event of another service at revision
   10 moves it past an undelivered registration at revision 7, and the cache misses the endpoint,
   whether the server starts after the cursor or at it.
   */
  lemma SharedCursorSkipsEvents() returns (start: World, w: World)
    ensures Behavior(start, "a", [], w) && w.cursor == 0 && w.log == [UP]
    ensures forall inclusive :: !AlwaysRecovers(Moved(w, 10), "a", inclusive)
  {
    start := World([UP], 10, map[], 0, None, None, 0);
    w := start;
    assert Behavior(start, "a", [], w);
    Positions();
    GapsDoHarm();
    hide Behavior, AlwaysRecovers, GapHarmless, Position;
    forall inclusive ensures !AlwaysRecovers(Moved(w, 10), "a", inclusive) {
      ForeignAdvanceSafeIff(start, "a", [], w, 10, inclusive);
    }
  }

  lemma {:induction false} SnapshotBeforeDown(endpoints: seq<ResolvedEndpoint>)
    requires endpoints == [ResolvedEndpoint("x", 1, true)]
    ensures TableOf(endpoints) == map["x" := 1] == Fold(UpTo([UP, DOWN], 7))
  {
    UpAndDown();
    Positions();
    UpToIsPrefix([UP, DOWN], 7);
    assert [UP, DOWN][..1] == [UP];
    assert endpoints[1..] == [];
  }

  /**
   A snapshot taken before a deregistration and stored after the client has processed it, with the
   stream broken off: the endpoint is back for good if the server starts after the cursor; a server
   that starts at the cursor delivers the deregistration again.
   */
  lemma StaleSnapshotRevives() returns (start: World, steps: seq<Step>, w: World, endpoints: seq<ResolvedEndpoint>)
    ensures Behavior(start, "a", steps, w) && w.pending == None && w.cursor == 8 && w.log == [UP, DOWN]
    ensures TableOf(endpoints) == Fold(UpTo(w.log, 7))
    ensures !AlwaysRecovers(Stored(w, "a", endpoints, 0), "a", false)
    ensures AlwaysRecovers(Stored(w, "a", endpoints, 0), "a", true)
  {
    start := World([UP, DOWN], 8, map[], 0, None, None, 0);
    endpoints := [ResolvedEndpoint("x", 1, true)];
    Positions();
    GapsDoHarm();
    SnapshotBeforeDown(endpoints);
    hide Behavior, AlwaysRecovers, Position, UpTo, Fold, TableOf;
    steps, w := ReceivedBoth(start);
    StaleSnapshotSafeIff(start, "a", steps, w, endpoints, 7, 0, false);
    StaleSnapshotSafeIff(start, "a", steps, w, endpoints, 7, 0, true);
  }

  lemma ReceivedBoth(start: World) returns (steps: seq<Step>, w: World)
    requires start == World([UP, DOWN], 8, map[], 0, None, None, 0) && Position(start.log, 0) == 0
    ensures Behavior(start, "a", steps, w) && w.pending == None && w.session == None && w.cursor == 8 && w.log == start.log
  {
    var connected := Next(start, "a", Connect(false));
    OneStep(start, "a", false, Connect(false));
    var received, u := ReceiveUpTo(connected, "a", false, 2);
    ContinuesConcat(start, "a", false, [Connect(false)], connected, received, u);
    Extend(start, "a", false, [Connect(false)] + received, u, Break);
    steps, w := [Connect(false)] + received + [Break], Next(u, "a", Break);
  }

  lemma ReceivedHalf(start: World) returns (steps: seq<Step>, w: World)
    requires start == World([UP], 7, map[], 0, None, None, 0) && Position(start.log, 0) == 0
    ensures Behavior(start, "a", steps, w) && w == World([UP], 7, map[], 7, Some(1), Some(0), 0)
  {
    var connected := Next(start, "a", Connect(false));
    OneStep(start, "a", false, Connect(false));
    Extend(start, "a", false, [Connect(false)], connected, Receive);
    steps, w := [Connect(false)] + [Receive], Next(connected, "a", Receive);
  }

  /**
   The watch task is aborted after the cursor has passed a registration and before it is cached: the
   endpoint is missed for good if the server starts after the cursor, and delivered again if it
   starts at it.
   */
  lemma AbortLosesEvent() returns (start: World, steps: seq<Step>, w: World)
    ensures Behavior(start, "a", steps, w) && w.pending == Some(0) && w.log == [UP]
    ensures !AlwaysRecovers(Aborted(w), "a", false) && AlwaysRecovers(Aborted(w), "a", true)
  {
    start := World([UP], 7, map[], 0, None, None, 0);
    Positions();
    GapsDoHarm();
    hide Behavior, AlwaysRecovers, GapHarmless, Position;
    steps, w := ReceivedHalf(start);
    AbortSafeIff(start, "a", steps, w, false);
    AbortSafeIff(start, "a", steps, w, true);
  }
}
