/**
 The watch-driven resolver: a cache of endpoint lists edited in place by stream events, a revision
 cursor for reconnects, a time-to-live, and `resolve`, which stores a discover snapshot on a miss.
 Instants are nanoseconds on a monotonic clock.
 */
module WatchResolver {
  import opened MachineInt
  import opened Wrappers
  import opened Endpoints
  import Backoff

  datatype CachedEndpoints = CachedEndpoints(endpoints: seq<ResolvedEndpoint>, updatedAt: nat)

  type Cache = map<string, CachedEndpoints>

  /** Event kinds the client tells apart; `OtherEvent` covers registrations, updates and unknown kinds. */
  datatype EventType = Heartbeat | InstanceDeregistered | OtherEvent

  datatype Message = Message(revision: Option<u64>, eventType: EventType, instance: Option<ServiceInstance>)

  datatype WatchConfig = WatchConfig(initialBackoff: Duration, maxBackoff: Duration, cacheTtl: Duration)

  // ---- What a message means for the endpoint table ----

  /** Endpoint name to weight; the order of the cached list does not matter. */
  type Table = map<string, u32>

  datatype Change = Put(endpoint: string, weight: u32) | Remove(endpoint: string) | Keep

  function ChangeOf(eventType: EventType, instance: Option<ServiceInstance>): Change {
    if eventType == Heartbeat || instance == None then Keep
    else if eventType == InstanceDeregistered || !IsServing(instance.value.status) then Remove(instance.value.endpoint)
    else
      match MapDiscoveredInstance(instance.value)
      case Some(e) => Put(e.endpoint, e.weight)
      case None => Keep
  }

  function Applied(table: Table, change: Change): Table {
    match change
    case Put(endpoint, weight) => table[endpoint := weight]
    case Remove(endpoint) => table - {endpoint}
    case Keep => table
  }

  /** The table a cached list stands for; of entries with one name the first counts. */
  function TableOf(endpoints: seq<ResolvedEndpoint>): Table {
    if endpoints == [] then map[]
    else TableOf(endpoints[1..])[endpoints[0].endpoint := endpoints[0].weight]
  }

  // ---- The edits of the cached list ----

  /** Replaces the first entry of the same name in place, or appends. */
  function Upsert(endpoints: seq<ResolvedEndpoint>, e: ResolvedEndpoint): seq<ResolvedEndpoint> {
    if endpoints == [] then [e]
    else if endpoints[0].endpoint == e.endpoint then [e] + endpoints[1..]
    else [endpoints[0]] + Upsert(endpoints[1..], e)
  }

  /** `retain` of the entries with another name. */
  function Without(endpoints: seq<ResolvedEndpoint>, name: string): seq<ResolvedEndpoint> {
    if endpoints == [] then []
    else (if endpoints[0].endpoint != name then [endpoints[0]] else []) + Without(endpoints[1..], name)
  }

  predicate Mentions(endpoints: seq<ResolvedEndpoint>, name: string) {
    exists i :: 0 <= i < |endpoints| && endpoints[i].endpoint == name
  }

  lemma {:induction false} UpsertMeansPut(endpoints: seq<ResolvedEndpoint>, e: ResolvedEndpoint)
    ensures TableOf(Upsert(endpoints, e)) == TableOf(endpoints)[e.endpoint := e.weight]
    ensures Upsert(endpoints, e) != []
    ensures AllUsable(endpoints) && Usable(e) ==> AllUsable(Upsert(endpoints, e))
    decreases |endpoints|
  {
    if endpoints != [] {
      UpsertMeansPut(endpoints[1..], e);
    }
  }

  /** Upsert replaces the first entry of the name where it stands, or appends. */
  lemma {:induction false} UpsertInPlace(endpoints: seq<ResolvedEndpoint>, e: ResolvedEndpoint)
    ensures Upsert(endpoints, e) == endpoints + [e]
            || exists i :: 0 <= i < |endpoints| && endpoints[i].endpoint == e.endpoint && Upsert(endpoints, e) == endpoints[i := e]
                           && forall j :: 0 <= j < i ==> endpoints[j].endpoint != e.endpoint
    ensures Upsert(endpoints, e) == endpoints + [e] ==> forall j :: 0 <= j < |endpoints| ==> endpoints[j].endpoint != e.endpoint
    decreases |endpoints|
  {
    if endpoints != [] && endpoints[0].endpoint == e.endpoint {
      assert Upsert(endpoints, e) == endpoints[0 := e];
    } else if endpoints != [] {
      var tail := endpoints[1..];
      UpsertInPlace(tail, e);
      assert endpoints == [endpoints[0]] + tail;
      if i :| 0 <= i < |tail| && tail[i].endpoint == e.endpoint && Upsert(tail, e) == tail[i := e]
              && forall j :: 0 <= j < i ==> tail[j].endpoint != e.endpoint
      {
        assert endpoints[i + 1] == tail[i] && Upsert(endpoints, e) == endpoints[i + 1 := e];
        forall j | 0 <= j < i + 1 ensures endpoints[j].endpoint != e.endpoint {
          assert j > 0 ==> endpoints[j] == tail[j - 1];
        }
      } else {
        assert Upsert(endpoints, e) == endpoints + [e];
        forall j | 0 <= j < |endpoints| ensures endpoints[j].endpoint != e.endpoint {
          assert j > 0 ==> endpoints[j] == tail[j - 1];
        }
      }
    }
  }

  /** Retain keeps the other entries in their order: it acts piece by piece. */
  lemma {:induction false} WithoutInOrder(a: seq<ResolvedEndpoint>, b: seq<ResolvedEndpoint>, name: string)
    ensures Without(a + b, name) == Without(a, name) + Without(b, name)
    decreases |a|
  {
    if a == [] {
      assert a + b == b;
    } else {
      var tail := a[1..];
      WithoutInOrder(tail, b, name);
      var first := if a[0].endpoint != name then [a[0]] else [];
      assert (a + b)[1..] == tail + b && (a + b)[0] == a[0];
      calc {
        Without(a + b, name);
        first + Without(tail + b, name);
        first + (Without(tail, name) + Without(b, name));
        (first + Without(tail, name)) + Without(b, name);
        Without(a, name) + Without(b, name);
      }
    }
  }

  /** ... and drops a single entry or keeps it. */
  lemma {:induction false} WithoutOne(e: ResolvedEndpoint, name: string)
    ensures Without([e], name) == if e.endpoint == name then [] else [e]
  {
    assert [e][1..] == [];
  }

  lemma {:induction false} UpsertKeepsDistinct(endpoints: seq<ResolvedEndpoint>, e: ResolvedEndpoint)
    requires DuplicateFree(endpoints)
    ensures DuplicateFree(Upsert(endpoints, e))
    ensures forall i :: 0 <= i < |Upsert(endpoints, e)| ==>
              Upsert(endpoints, e)[i].endpoint == e.endpoint || Mentions(endpoints, Upsert(endpoints, e)[i].endpoint)
    decreases |endpoints|
  {
    if endpoints != [] {
      UpsertKeepsDistinct(endpoints[1..], e);
      var all := Upsert(endpoints, e);
      if endpoints[0].endpoint == e.endpoint {
        forall i | 1 <= i < |all| ensures Mentions(endpoints, all[i].endpoint) {
          assert endpoints[i].endpoint == all[i].endpoint;
        }
      } else {
        var rest := Upsert(endpoints[1..], e);
        forall i | 0 <= i < |rest|
          ensures rest[i].endpoint != endpoints[0].endpoint
          ensures rest[i].endpoint == e.endpoint || Mentions(endpoints, rest[i].endpoint)
        {
          if Mentions(endpoints[1..], rest[i].endpoint) {
            var j :| 0 <= j < |endpoints[1..]| && endpoints[1..][j].endpoint == rest[i].endpoint;
            assert endpoints[j + 1].endpoint == rest[i].endpoint;
          }
        }
        assert all == [endpoints[0]] + rest;
        assert Mentions(endpoints, endpoints[0].endpoint);
      }
    }
  }

  lemma {:induction false} WithoutMeansRemove(endpoints: seq<ResolvedEndpoint>, name: string)
    ensures TableOf(Without(endpoints, name)) == TableOf(endpoints) - {name}
    decreases |endpoints|
  {
    if endpoints != [] {
      var first, tail := endpoints[0], endpoints[1..];
      WithoutMeansRemove(tail, name);
      var rest := Without(tail, name);
      if first.endpoint == name {
        assert Without(endpoints, name) == rest;
      } else {
        assert Without(endpoints, name)[1..] == rest;
        assert (TableOf(tail) - {name})[first.endpoint := first.weight]
               == TableOf(tail)[first.endpoint := first.weight] - {name};
      }
    }
  }

  lemma {:induction false} WithoutIsSubset(endpoints: seq<ResolvedEndpoint>, name: string)
    ensures forall e :: e in Without(endpoints, name) ==> e in endpoints
    ensures AllUsable(endpoints) ==> AllUsable(Without(endpoints, name))
    decreases |endpoints|
  {
    if endpoints != [] {
      WithoutIsSubset(endpoints[1..], name);
    }
  }

  lemma {:induction false} WithoutKeepsDistinct(endpoints: seq<ResolvedEndpoint>, name: string)
    requires DuplicateFree(endpoints)
    ensures DuplicateFree(Without(endpoints, name))
    decreases |endpoints|
  {
    if endpoints != [] {
      var tail := endpoints[1..];
      WithoutKeepsDistinct(tail, name);
      WithoutIsSubset(tail, name);
      var rest := Without(tail, name);
      forall i | 0 <= i < |rest| ensures rest[i].endpoint != endpoints[0].endpoint {
        assert rest[i] in tail;
        var j :| 0 <= j < |tail| && tail[j] == rest[i];
        assert endpoints[0].endpoint != endpoints[j + 1].endpoint;
      }
    }
  }

  // ---- One message against the cache ----

  /** `fetch_max` with the revision of the response metadata, when there is one. */
  function AdvancedCursor(cursor: u64, message: Message): u64 {
    match message.revision
    case Some(revision) => if revision > 0 then Max(cursor, revision) else cursor
    case None => cursor
  }

  function EditedEntry(entry: Option<CachedEndpoints>, message: Message, now: nat): Option<CachedEndpoints> {
    var current := match entry case Some(c) => c case None => CachedEndpoints([], now);
    if message.eventType == Heartbeat then
      (match entry case Some(c) => Some(c.(updatedAt := now)) case None => None)
    else if message.instance == None then entry
    else
      match ChangeOf(message.eventType, message.instance)
      case Remove(name) =>
        var left := Without(current.endpoints, name);
        if left == [] then None else Some(current.(endpoints := left))
      case Put(name, weight) =>
        Some(CachedEndpoints(Upsert(current.endpoints, ResolvedEndpoint(name, weight, true)), now))
      case Keep => Some(current)
  }

  function Lookup(cache: Cache, service: string): Option<CachedEndpoints> {
    if service in cache then Some(cache[service]) else None
  }

  function WithEntry(cache: Cache, service: string, entry: Option<CachedEndpoints>): Cache {
    match entry
    case Some(c) => cache[service := c]
    case None => cache - {service}
  }

  function Edited(cache: Cache, service: string, message: Message, now: nat): Cache {
    WithEntry(cache, service, EditedEntry(Lookup(cache, service), message, now))
  }

  /** The endpoint table the cache holds for a service, whatever its age. */
  function ViewOf(cache: Cache, service: string): Table {
    if service in cache then TableOf(cache[service].endpoints) else map[]
  }

  /** A message changes the table of its service by exactly its change, and no other service. */
  lemma {:induction false} MessageMeansChange(cache: Cache, service: string, message: Message, now: nat)
    ensures ViewOf(Edited(cache, service, message, now), service)
            == Applied(ViewOf(cache, service), ChangeOf(message.eventType, message.instance))
    ensures forall other :: other != service ==>
              Lookup(Edited(cache, service, message, now), other) == Lookup(cache, other)
  {
    var current := if service in cache then cache[service].endpoints else [];
    match ChangeOf(message.eventType, message.instance)
    case Put(name, weight) => UpsertMeansPut(current, ResolvedEndpoint(name, weight, true));
    case Remove(name) => WithoutMeansRemove(current, name);
    case Keep =>
  }

  /**
   What a message does to the table, in the fields of the message. A deregistration, or any status
   other than serving and degraded, takes the endpoint out. Otherwise a named endpoint is in, with its
   weight or 1 for a weight of zero. Every other name keeps its state, and heartbeats, blank names
   and messages without an instance change nothing.
   */
  lemma {:induction false} MessageEffect(cache: Cache, service: string, message: Message, now: nat)
    ensures var before, after := ViewOf(cache, service), ViewOf(Edited(cache, service, message, now), service);
            if message.eventType == Heartbeat || message.instance == None then after == before
            else
              var i := message.instance.value;
              && (forall name :: name != i.endpoint ==>
                    (name in after <==> name in before) && (name in before ==> after[name] == before[name]))
              && (if message.eventType == InstanceDeregistered || (i.status != Serving && i.status != Degraded)
                  then i.endpoint !in after
                  else if IsBlank(i.endpoint) then after == before
                  else i.endpoint in after && after[i.endpoint] == (if i.weight == 0 then 1 else i.weight))
  {
    MessageMeansChange(cache, service, message, now);
  }

  /** A cached list is served while its last refresh is at most the time-to-live old. */
  function Served(cache: Cache, service: string, now: nat, ttl: Duration): Option<seq<ResolvedEndpoint>> {
    match Lookup(cache, service)
    case None => None
    case Some(c) =>
      if c.endpoints == [] then None
      else if Max(now - c.updatedAt, 0) > ttl then None
      else Some(c.endpoints)
  }

  // ---- The resolver object ----

  datatype Delivery = Delivery(message: Message, now: nat)

  /** One stream session: what it delivered before it ended, and whether it ended cleanly. */
  datatype Session = Session(deliveries: seq<Delivery>, clean: bool)

  function AfterDeliveries(cache: Cache, service: string, deliveries: seq<Delivery>): Cache {
    if deliveries == [] then cache
    else
      var n := |deliveries| - 1;
      Edited(AfterDeliveries(cache, service, deliveries[..n]), service, deliveries[n].message, deliveries[n].now)
  }

  function CursorAfter(cursor: u64, deliveries: seq<Delivery>): u64 {
    if deliveries == [] then cursor
    else AdvancedCursor(CursorAfter(cursor, deliveries[..|deliveries| - 1]), deliveries[|deliveries| - 1].message)
  }

  function AllDeliveries(sessions: seq<Session>): seq<Delivery> {
    if sessions == [] then []
    else AllDeliveries(sessions[..|sessions| - 1]) + sessions[|sessions| - 1].deliveries
  }

  /** The revision each session asks to resume from. */
  function Requested(cursor: u64, sessions: seq<Session>): (r: seq<u64>)
    ensures |r| == |sessions|
  {
    if sessions == [] then []
    else
      var init := sessions[..|sessions| - 1];
      Requested(cursor, init) + [CursorAfter(cursor, AllDeliveries(init))]
  }

  lemma {:induction false} RequestedGrows(cursor: u64, sessions: seq<Session>, i: nat)
    requires i < |sessions|
    ensures Requested(cursor, sessions[..i + 1])
            == Requested(cursor, sessions[..i]) + [CursorAfter(cursor, AllDeliveries(sessions[..i]))]
  {
    assert sessions[..i + 1][..i] == sessions[..i];
  }

  /** Failed sessions since the last clean end. */
  function ErrorRun(sessions: seq<Session>): nat {
    if sessions == [] || sessions[|sessions| - 1].clean then 0 else ErrorRun(sessions[..|sessions| - 1]) + 1
  }

  lemma {:induction false} EmptyPrefix(cache: Cache, cursor: u64, service: string, sessions: seq<Session>)
    ensures AfterDeliveries(cache, service, AllDeliveries(sessions[..0])) == cache
    ensures CursorAfter(cursor, AllDeliveries(sessions[..0])) == cursor
    ensures ErrorRun(sessions[..0]) == 0
  {
  }

  lemma {:induction false} NextSession(sessions: seq<Session>, i: nat)
    requires i < |sessions|
    ensures AllDeliveries(sessions[..i + 1]) == AllDeliveries(sessions[..i]) + sessions[i].deliveries
    ensures ErrorRun(sessions[..i + 1]) == if sessions[i].clean then 0 else ErrorRun(sessions[..i]) + 1
  {
    assert sessions[..i + 1][..i] == sessions[..i];
  }

  /** A draw the backoff after session `i` could make. */
  predicate DelayDraw(config: WatchConfig, sessions: seq<Session>, i: nat, draw: nat)
    requires i < |sessions|
  {
    !sessions[i].clean ==>
      Backoff.DurationDraw(Min(ErrorRun(sessions[..i]), U32_MAX), config.initialBackoff, config.maxBackoff, draw)
  }

  /** No delay after a clean end, otherwise the backoff of the failures since the last clean end. */
  function DelayAfter(config: WatchConfig, sessions: seq<Session>, i: nat, draw: nat): Duration
    requires i < |sessions| && DelayDraw(config, sessions, i, draw)
  {
    if sessions[i].clean then 0
    else Backoff.DurationBackoff(Min(ErrorRun(sessions[..i]), U32_MAX), config.initialBackoff, config.maxBackoff, draw)
  }

  lemma {:induction false} DeliveriesConcat(cache: Cache, cursor: u64, service: string, a: seq<Delivery>, b: seq<Delivery>)
    ensures AfterDeliveries(cache, service, a + b) == AfterDeliveries(AfterDeliveries(cache, service, a), service, b)
    ensures CursorAfter(cursor, a + b) == CursorAfter(CursorAfter(cursor, a), b)
    decreases |b|
  {
    if b == [] {
      assert a + b == a;
    } else {
      var n := |b| - 1;
      DeliveriesConcat(cache, cursor, service, a, b[..n]);
      assert (a + b)[..|a + b| - 1] == a + b[..n];
    }
  }

  class WatchingResolver {
    const config: WatchConfig
    var cache: Cache
    var lastRevision: u64

    constructor (config: WatchConfig)
      ensures this.config == config && cache == map[] && lastRevision == 0 && Valid()
    {
      this.config := config;
      cache := map[];
      lastRevision := 0;
    }

    /** Only usable endpoints are ever cached. */
    ghost predicate Valid()
      reads this
    {
      CacheUsable(cache)
    }

    method HandleMessage(service: string, message: Message, now: nat)
      requires Valid()
      modifies this
      ensures Valid()
      ensures lastRevision == AdvancedCursor(old(lastRevision), message)
      ensures cache == Edited(old(cache), service, message, now)
      ensures ViewOf(cache, service)
              == Applied(ViewOf(old(cache), service), ChangeOf(message.eventType, message.instance))
      ensures message.eventType != Heartbeat && message.instance.Some? ==>
                var i := message.instance.value;
                if message.eventType == InstanceDeregistered || (i.status != Serving && i.status != Degraded)
                then i.endpoint !in ViewOf(cache, service)
                else !IsBlank(i.endpoint) ==>
                  i.endpoint in ViewOf(cache, service)
                  && ViewOf(cache, service)[i.endpoint] == (if i.weight == 0 then 1 else i.weight)
    {
      MessageMeansChange(cache, service, message, now);
      MessageEffect(cache, service, message, now);
      if message.revision.Some? && message.revision.value > 0 {
        lastRevision := Max(lastRevision, message.revision.value);
      }
      if message.eventType == Heartbeat {
        if service in cache {
          cache := cache[service := cache[service].(updatedAt := now)];
        }
        return;
      }
      if message.instance == None {
        return;
      }
      var instance := message.instance.value;
      var endpoint := MapDiscoveredInstance(instance);
      var entry := if service in cache then cache[service] else CachedEndpoints([], now);
      if message.eventType == InstanceDeregistered || !IsServing(instance.status) {
        WithoutIsSubset(entry.endpoints, instance.endpoint);
        entry := entry.(endpoints := Without(entry.endpoints, instance.endpoint));
        if entry.endpoints == [] {
          cache := cache - {service};
        } else {
          cache := cache[service := entry];
        }
      } else if endpoint.Some? {
        UpsertMeansPut(entry.endpoints, endpoint.value);
        entry := CachedEndpoints(Upsert(entry.endpoints, endpoint.value), now);
        cache := cache[service := entry];
      } else {
        cache := cache[service := entry];
      }
    }

    /** A session asks for the stream from the cursor and applies what it gets until it ends. */
    method RunWatchSession(service: string, session: Session) returns (ok: bool, fromRevision: u64)
      requires Valid()
      modifies this
      ensures Valid() && ok == session.clean
      ensures fromRevision == old(lastRevision)
      ensures cache == AfterDeliveries(old(cache), service, session.deliveries)
      ensures lastRevision == CursorAfter(old(lastRevision), session.deliveries)
    {
      fromRevision := lastRevision;
      var d := session.deliveries;
      for i := 0 to |d|
        invariant Valid()
        invariant cache == AfterDeliveries(old(cache), service, d[..i])
        invariant lastRevision == CursorAfter(old(lastRevision), d[..i])
      {
        assert d[..i + 1][..i] == d[..i];
        HandleMessage(service, d[i].message, d[i].now);
      }
      assert d[..|d|] == d;
      ok := session.clean;
    }

    /**
     The reconnect loop over its first sessions: the cache and the cursor see one uninterrupted
     stream of deliveries, and the delay after a failed session is the backoff of the failures
     since the last clean end. Every session asks for the stream from the cursor its predecessors left.
     */
    method RunReconnectLoop(service: string, sessions: seq<Session>, draws: seq<nat>)
      returns (delays: seq<Duration>, requested: seq<u64>)
      requires Valid() && |draws| == |sessions|
      requires forall i :: 0 <= i < |sessions| ==> DelayDraw(config, sessions, i, draws[i])
      modifies this
      ensures Valid()
      ensures cache == AfterDeliveries(old(cache), service, AllDeliveries(sessions))
      ensures lastRevision == CursorAfter(old(lastRevision), AllDeliveries(sessions))
      ensures |delays| == |sessions|
      ensures forall i :: 0 <= i < |sessions| ==> delays[i] == DelayAfter(config, sessions, i, draws[i])
      ensures requested == Requested(old(lastRevision), sessions)
      ensures forall i :: 0 <= i < |sessions| && sessions[i].clean ==> delays[i] == 0
    {
      hide AfterDeliveries, CursorAfter, AllDeliveries, ErrorRun, Backoff.DurationBackoff, Backoff.DurationDraw;
      EmptyPrefix(old(cache), old(lastRevision), service, sessions);
      var attempt: u32 := 0;
      delays, requested := [], [];
      for i := 0 to |sessions|
        invariant Valid() && |delays| == i
        invariant requested == Requested(old(lastRevision), sessions[..i])
        invariant attempt == Min(ErrorRun(sessions[..i]), U32_MAX)
        invariant cache == AfterDeliveries(old(cache), service, AllDeliveries(sessions[..i]))
        invariant lastRevision == CursorAfter(old(lastRevision), AllDeliveries(sessions[..i]))
        invariant forall j :: 0 <= j < i ==> delays[j] == DelayAfter(config, sessions, j, draws[j])
      {
        NextSession(sessions, i);
        DeliveriesConcat(old(cache), old(lastRevision), service, AllDeliveries(sessions[..i]), sessions[i].deliveries);
        RequestedGrows(old(lastRevision), sessions, i);
        var ok, fromRevision := RunWatchSession(service, sessions[i]);
        requested := requested + [fromRevision];
        var delay: Duration := 0;
        if ok {
          attempt := 0;
        } else {
          assert DelayDraw(config, sessions, i, draws[i]);
          delay := Backoff.DurationBackoff(attempt, config.initialBackoff, config.maxBackoff, draws[i]);
          attempt := SaturatingAdd(attempt, 1, U32_MAX);
        }
        assert delay == DelayAfter(config, sessions, i, draws[i]);
        delays := delays + [delay];
      }
      assert sessions[..|sessions|] == sessions;
    }

    method CachedEndpointsFor(service: string, now: nat) returns (found: Option<seq<ResolvedEndpoint>>)
      requires Valid()
      ensures found == Served(cache, service, now, config.cacheTtl)
      ensures found.Some? ==> found.value != [] && AllUsable(found.value)
    {
      if service !in cache {
        return None;
      }
      var cached := cache[service];
      if cached.endpoints == [] {
        return None;
      }
      if Max(now - cached.updatedAt, 0) > config.cacheTtl {
        return None;
      }
      found := Some(cached.endpoints);
    }

    /**
     A successful resolve returns a nonempty list of usable endpoints, from the cache while fresh
     and otherwise from the registry reply, which then replaces the cached list. No lock is held
     while the reply is awaited: `meanwhile` is what other tasks do to the cache in that time.
     */
    method Resolve(service: string, now: nat, reply: Result<seq<ServiceInstance>, ResolveError>,
                   meanwhile: seq<CacheOp>, storedAt: nat)
      returns (result: Result<seq<ResolvedEndpoint>, ResolveError>)
      requires Valid() && SnapshotsUsable(meanwhile)
      modifies this
      ensures Valid()
      ensures result.Ok? ==> result.value != [] && AllUsable(result.value)
      ensures match Served(old(cache), service, now, config.cacheTtl)
              case Some(found) => result == Ok(found) && cache == old(cache) && lastRevision == old(lastRevision)
              case None =>
                if IsBlank(service) then result == Err(Validation) && cache == old(cache) && lastRevision == old(lastRevision)
                else
                  var left := AfterOps(old(cache), meanwhile);
                  && result == DiscoverEndpoints(reply)
                  && lastRevision == CursorAfterOps(old(lastRevision), meanwhile)
                  && cache == (if result.Ok? then left[service := CachedEndpoints(result.value, storedAt)] else left)
    {
      var found := CachedEndpointsFor(service, now);
      if found.Some? {
        return Ok(found.value);
      }
      if IsBlank(service) {
        return Err(Validation);
      }
      OpsKeepUsable(cache, meanwhile);
      cache, lastRevision := AfterOps(cache, meanwhile), CursorAfterOps(lastRevision, meanwhile);
      result := DiscoverEndpoints(reply);
      if result.Ok? {
        HealthyEndpointsAre(reply.value);
        cache := cache[service := CachedEndpoints(result.value, storedAt)];
      }
    }
  }

  // ---- What a cache-served answer tells, over every interleaving ----

  /** The atomic changes of the shared cache, in the order the write lock grants them. */
  datatype CacheOp =
    | Deliver(service: string, message: Message, now: nat)
    | Store(service: string, endpoints: seq<ResolvedEndpoint>, now: nat)

  function AfterOps(cache: Cache, ops: seq<CacheOp>): Cache {
    if ops == [] then cache
    else
      var before := AfterOps(cache, ops[..|ops| - 1]);
      match ops[|ops| - 1]
      case Deliver(service, message, now) => Edited(before, service, message, now)
      case Store(service, endpoints, now) => before[service := CachedEndpoints(endpoints, now)]
  }

  function CursorAfterOps(cursor: u64, ops: seq<CacheOp>): u64 {
    if ops == [] then cursor
    else
      var before := CursorAfterOps(cursor, ops[..|ops| - 1]);
      match ops[|ops| - 1]
      case Deliver(_, message, _) => AdvancedCursor(before, message)
      case Store(_, _, _) => before
  }

  /** The cache of a new resolver after `ops`. */
  function CacheAfter(ops: seq<CacheOp>): Cache {
    AfterOps(map[], ops)
  }

  predicate CacheUsable(cache: Cache) {
    forall s :: s in cache ==> AllUsable(cache[s].endpoints)
  }

  lemma {:induction false} EditKeepsUsable(cache: Cache, service: string, message: Message, now: nat)
    requires CacheUsable(cache)
    ensures CacheUsable(Edited(cache, service, message, now))
  {
    var current := if service in cache then cache[service].endpoints else [];
    match ChangeOf(message.eventType, message.instance)
    case Put(name, weight) => UpsertMeansPut(current, ResolvedEndpoint(name, weight, true));
    case Remove(name) => WithoutIsSubset(current, name);
    case Keep =>
  }

  lemma {:induction false} OpsKeepUsable(cache: Cache, ops: seq<CacheOp>)
    requires CacheUsable(cache) && SnapshotsUsable(ops)
    ensures CacheUsable(AfterOps(cache, ops))
    decreases |ops|
  {
    if ops != [] {
      var init := ops[..|ops| - 1];
      OpsKeepUsable(cache, init);
      match ops[|ops| - 1]
      case Deliver(service, message, now) => EditKeepsUsable(AfterOps(cache, init), service, message, now);
      case Store(_, _, _) =>
    }
  }

  /** Upserts, heartbeats and stored snapshots refresh an entry; removals do not. */
  predicate Refreshes(op: CacheOp, service: string) {
    op.service == service &&
    match op
    case Deliver(_, message, _) =>
      || message.eventType == Heartbeat
      || (&& message.eventType == OtherEvent && message.instance.Some?
          && (message.instance.value.status == Serving || message.instance.value.status == Degraded)
          && !IsBlank(message.instance.value.endpoint))
    case Store(_, _, _) => true
  }

  /** The instant of the last refresh of a service. */
  function LastRefresh(ops: seq<CacheOp>, service: string): Option<nat> {
    if ops == [] then None
    else if Refreshes(ops[|ops| - 1], service) then Some(ops[|ops| - 1].now)
    else LastRefresh(ops[..|ops| - 1], service)
  }

  predicate SnapshotsUsable(ops: seq<CacheOp>) {
    forall i :: 0 <= i < |ops| && ops[i].Store? ==> AllUsable(ops[i].endpoints)
  }

  predicate SnapshotsDistinct(ops: seq<CacheOp>) {
    forall i :: 0 <= i < |ops| && ops[i].Store? ==> DuplicateFree(ops[i].endpoints)
  }

  ghost predicate RefreshedAt(ops: seq<CacheOp>, service: string, instant: nat) {
    exists j :: 0 <= j < |ops| && Refreshes(ops[j], service) && ops[j].now == instant
  }

  lemma {:induction false} RefreshedAtGrows(ops: seq<CacheOp>, op: CacheOp, service: string, instant: nat)
    requires RefreshedAt(ops, service, instant) || (Refreshes(op, service) && op.now == instant)
    ensures RefreshedAt(ops + [op], service, instant)
  {
    var all := ops + [op];
    if RefreshedAt(ops, service, instant) {
      var j :| 0 <= j < |ops| && Refreshes(ops[j], service) && ops[j].now == instant;
      assert all[j] == ops[j];
    } else {
      assert all[|ops|] == op;
    }
  }

  /** Entries hold usable endpoints, and the time stamp of a nonempty entry is that of a refresh. */
  ghost predicate EntrySound(ops: seq<CacheOp>, service: string, c: CachedEndpoints) {
    && AllUsable(c.endpoints)
    && (SnapshotsDistinct(ops) ==> DuplicateFree(c.endpoints))
    && (c.endpoints != [] ==> RefreshedAt(ops, service, c.updatedAt))
  }

  lemma {:induction false} DeliverKeepsEntrySound(ops: seq<CacheOp>, service: string, entry: Option<CachedEndpoints>, message: Message, now: nat)
    requires entry.Some? ==> EntrySound(ops, service, entry.value)
    ensures var op := Deliver(service, message, now);
            var entry' := EditedEntry(entry, message, now);
            entry'.Some? ==> EntrySound(ops + [op], service, entry'.value)
  {
    var op := Deliver(service, message, now);
    var all := ops + [op];
    assert SnapshotsDistinct(all) ==> SnapshotsDistinct(ops) by {
      forall i | 0 <= i < |ops| ensures all[i] == ops[i] {}
    }
    var entry' := EditedEntry(entry, message, now);
    if entry'.Some? && entry'.value.endpoints != [] {
      RefreshedAtGrows(ops, op, service, entry'.value.updatedAt);
    }
    var current := match entry case Some(c) => c case None => CachedEndpoints([], now);
    match ChangeOf(message.eventType, message.instance)
    case Put(name, weight) =>
      var e := ResolvedEndpoint(name, weight, true);
      UpsertMeansPut(current.endpoints, e);
      if DuplicateFree(current.endpoints) {
        UpsertKeepsDistinct(current.endpoints, e);
      }
    case Remove(name) =>
      WithoutIsSubset(current.endpoints, name);
      if DuplicateFree(current.endpoints) {
        WithoutKeepsDistinct(current.endpoints, name);
      }
    case Keep =>
  }

  lemma {:induction false} CacheIsSound(ops: seq<CacheOp>, service: string)
    requires SnapshotsUsable(ops)
    ensures service in CacheAfter(ops) ==> EntrySound(ops, service, CacheAfter(ops)[service])
    decreases |ops|
  {
    if ops != [] {
      var init, op := ops[..|ops| - 1], ops[|ops| - 1];
      assert ops == init + [op];
      CacheIsSound(init, service);
      var before := CacheAfter(init);
      if op.service == service {
        match op
        case Deliver(_, message, now) =>
          DeliverKeepsEntrySound(init, service, Lookup(before, service), message, now);
        case Store(_, endpoints, now) =>
          RefreshedAtGrows(init, op, service, now);
      } else {
        UntouchedEntryStaysSound(init, op, service);
      }
    }
  }

  lemma {:induction false} UntouchedEntryStaysSound(ops: seq<CacheOp>, op: CacheOp, service: string)
    requires service in CacheAfter(ops) ==> EntrySound(ops, service, CacheAfter(ops)[service])
    requires op.service != service
    ensures service in CacheAfter(ops + [op]) ==> EntrySound(ops + [op], service, CacheAfter(ops + [op])[service])
  {
    var all := ops + [op];
    assert all[..|ops|] == ops;
    assert SnapshotsDistinct(all) ==> SnapshotsDistinct(ops) by {
      forall i | 0 <= i < |ops| ensures all[i] == ops[i] {}
    }
    if service in CacheAfter(all) {
      var c := CacheAfter(ops)[service];
      if c.endpoints != [] {
        RefreshedAtGrows(ops, op, service, c.updatedAt);
      }
    }
  }

  /**
   Whatever the interleaving of stream events and snapshot stores, a cache-served answer is a
   nonempty list of usable endpoints, without duplicates if the snapshots have none, and some
   upsert, heartbeat or snapshot store refreshed that service within the time-to-live.
   */
  lemma {:induction false} ServedAnswerIsFresh(ops: seq<CacheOp>, service: string, now: nat, ttl: Duration)
    requires SnapshotsUsable(ops) && forall i :: 0 <= i < |ops| ==> ops[i].now <= now
    requires Served(CacheAfter(ops), service, now, ttl).Some?
    ensures var answer := Served(CacheAfter(ops), service, now, ttl).value;
            && answer != [] && AllUsable(answer)
            && (SnapshotsDistinct(ops) ==> DuplicateFree(answer))
            && exists j :: 0 <= j < |ops| && Refreshes(ops[j], service) && now - ttl <= ops[j].now <= now
  {
    CacheIsSound(ops, service);
    var c := CacheAfter(ops)[service];
    var j :| 0 <= j < |ops| && Refreshes(ops[j], service) && ops[j].now == c.updatedAt;
  }

  /** A nonempty entry carries the time stamp of the last refresh of its service, of whatever kind. */
  lemma {:induction false} StampIsLastRefresh(ops: seq<CacheOp>, service: string)
    ensures var cache := CacheAfter(ops);
            service in cache && cache[service].endpoints != [] ==>
              LastRefresh(ops, service) == Some(cache[service].updatedAt)
    decreases |ops|
  {
    if ops != [] {
      StampIsLastRefresh(ops[..|ops| - 1], service);
    }
  }

  lemma {:induction false} TableIsEmptyIff(endpoints: seq<ResolvedEndpoint>)
    ensures TableOf(endpoints) == map[] <==> endpoints == []
  {
    if endpoints != [] {
      assert endpoints[0].endpoint in TableOf(endpoints);
    }
  }

  /**
   Exactly when the cache answers, over every interleaving of events and snapshot stores: while the
   service has an endpoint and its last upsert, heartbeat or snapshot store is at most the
   time-to-live old. The answer then is the table of the service.
   */
  lemma {:induction false} ServedIff(ops: seq<CacheOp>, service: string, now: nat, ttl: Duration)
    ensures var cache, last := CacheAfter(ops), LastRefresh(ops, service);
            var served := Served(cache, service, now, ttl);
            && (served.Some? <==> ViewOf(cache, service) != map[] && last.Some? && now <= last.value + ttl)
            && (served.Some? ==> service in cache && served.value == cache[service].endpoints
                                 && TableOf(served.value) == ViewOf(cache, service))
  {
    var cache := CacheAfter(ops);
    StampIsLastRefresh(ops, service);
    if service in cache {
      TableIsEmptyIff(cache[service].endpoints);
    }
  }

  /**
   The possible delays after a session: none after a clean end; otherwise, with positive settings, the
   whole milliseconds up to the initial delay doubled per failure since the last clean end, sixteen
   times at most, and capped.
   */
  lemma {:induction false} DelaysExactly(config: WatchConfig, sessions: seq<Session>, i: nat, delay: nat)
    requires i < |sessions|
    ensures (exists draw :: DelayDraw(config, sessions, i, draw) && DelayAfter(config, sessions, i, draw) == delay)
            <==> if sessions[i].clean then delay == 0
                 else if config.initialBackoff == 0 || config.maxBackoff == 0 then delay == config.initialBackoff
                 else
                   var failed := ErrorRun(sessions[..i]);
                   && delay % 1_000_000 == 0 && delay / 1_000_000 <= 0xFFFF_FFFF_FFFF_FFFF
                   && delay <= config.initialBackoff * Pow2(if failed <= 16 then failed else 16)
                   && delay <= config.maxBackoff
  {
    var count := Min(ErrorRun(sessions[..i]), U32_MAX);
    Backoff.DurationDelaysExactly(count, config.initialBackoff, config.maxBackoff, delay);
    hide Pow2, Backoff.DurationDraw, Backoff.DurationBackoff, ErrorRun;
    if sessions[i].clean {
      assert DelayDraw(config, sessions, i, 0) && DelayAfter(config, sessions, i, 0) == 0;
    } else if millis :| Backoff.DurationDraw(count, config.initialBackoff, config.maxBackoff, millis)
                        && Backoff.DurationBackoff(count, config.initialBackoff, config.maxBackoff, millis) == delay
    {
      assert DelayDraw(config, sessions, i, millis) && DelayAfter(config, sessions, i, millis) == delay;
    }
  }
}
