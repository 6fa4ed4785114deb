/** Endpoints as the discovery registry describes them and as resolvers return them. */
module Endpoints {
  import opened MachineInt
  import opened Wrappers

  datatype ResolvedEndpoint = ResolvedEndpoint(endpoint: string, weight: u32, healthy: bool)

  /** Registry status; `UnknownStatus` stands for a number outside the enumeration. */
  datatype InstanceStatus = Unspecified | Starting | Serving | Degraded | Draining | Offline | UnknownStatus

  datatype ServiceInstance = ServiceInstance(endpoint: string, weight: u32, status: InstanceStatus)

  /** Text that is empty or all white space. */
  predicate IsBlank(s: string) {
    forall i :: 0 <= i < |s| ==> s[i] in {' ', '\t', '\n', '\r'}
  }

  predicate IsServing(status: InstanceStatus) {
    status == Serving || status == Degraded
  }

  function MapDiscoveredInstance(instance: ServiceInstance): Option<ResolvedEndpoint> {
    if IsBlank(instance.endpoint) then None
    else Some(ResolvedEndpoint(instance.endpoint, Max(instance.weight, 1), IsServing(instance.status)))
  }

  /** What callers may rely on for every endpoint a resolver hands out. */
  predicate Usable(e: ResolvedEndpoint) {
    e.healthy && !IsBlank(e.endpoint) && e.weight >= 1
  }

  predicate AllUsable(endpoints: seq<ResolvedEndpoint>) {
    forall i :: 0 <= i < |endpoints| ==> Usable(endpoints[i])
  }

  predicate DuplicateFree(endpoints: seq<ResolvedEndpoint>) {
    forall i, j :: 0 <= i < j < |endpoints| ==> endpoints[i].endpoint != endpoints[j].endpoint
  }

  datatype ResolveError = Validation | Transport | Discovery

  /** The instances of a discover response that survive the mapping and the health filter. */
  function HealthyEndpoints(instances: seq<ServiceInstance>): seq<ResolvedEndpoint> {
    if instances == [] then []
    else
      var rest := HealthyEndpoints(instances[1..]);
      match MapDiscoveredInstance(instances[0])
      case Some(e) => if e.healthy then [e] + rest else rest
      case None => rest
  }

  /** Outcome of a discover round trip: the reply of the registry, or a transport or RPC failure. */
  function DiscoverEndpoints(reply: Result<seq<ServiceInstance>, ResolveError>)
    : Result<seq<ResolvedEndpoint>, ResolveError>
  {
    var instances :- reply;
    var endpoints := HealthyEndpoints(instances);
    if endpoints == [] then Err(Discovery) else Ok(endpoints)
  }

  /** The endpoint `e` is what a serving or degraded instance with a name stands for. */
  predicate Represents(e: ResolvedEndpoint, instance: ServiceInstance) {
    && (instance.status == Serving || instance.status == Degraded)
    && !IsBlank(instance.endpoint)
    && e.endpoint == instance.endpoint && e.healthy
    && e.weight == (if instance.weight == 0 then 1 else instance.weight)
  }

  /**
   Discovery keeps exactly the serving or degraded instances with a name, healthy and with their
   weight, or 1 for a weight of zero.
   */
  lemma {:induction false} HealthyEndpointsAre(instances: seq<ServiceInstance>)
    ensures AllUsable(HealthyEndpoints(instances))
    ensures forall e :: e in HealthyEndpoints(instances) <==>
              exists i :: 0 <= i < |instances| && Represents(e, instances[i])
  {
    if instances != [] {
      HealthyEndpointsAre(instances[1..]);
      forall e ensures e in HealthyEndpoints(instances) <==>
              exists i :: 0 <= i < |instances| && Represents(e, instances[i])
      {
        if e in HealthyEndpoints(instances[1..]) {
          var i :| 0 <= i < |instances[1..]| && Represents(e, instances[1..][i]);
          assert instances[i + 1] == instances[1..][i];
        }
        if i :| 0 <= i < |instances| && Represents(e, instances[i]) {
          if i > 0 {
            assert instances[1..][i - 1] == instances[i];
          }
        }
      }
    }
  }

  /** Discovery keeps the order of the registry: it acts piece by piece, one endpoint at most for an instance. */
  lemma {:induction false} HealthyEndpointsInOrder(a: seq<ServiceInstance>, b: seq<ServiceInstance>)
    ensures HealthyEndpoints(a + b) == HealthyEndpoints(a) + HealthyEndpoints(b)
    ensures |HealthyEndpoints(a)| <= |a|
    decreases |a|
  {
    if a == [] {
      assert a + b == b;
    } else {
      var tail := a[1..];
      HealthyEndpointsInOrder(tail, b);
      var e := MapDiscoveredInstance(a[0]);
      var first := if e.Some? && e.value.healthy then [e.value] else [];
      assert (a + b)[1..] == tail + b && (a + b)[0] == a[0];
      hide MapDiscoveredInstance;
      calc {
        HealthyEndpoints(a + b);
        first + HealthyEndpoints(tail + b);
        first + (HealthyEndpoints(tail) + HealthyEndpoints(b));
        (first + HealthyEndpoints(tail)) + HealthyEndpoints(b);
        HealthyEndpoints(a) + HealthyEndpoints(b);
      }
    }
  }

  /** A discover round trip fails with the registry's error, or when no instance is left. */
  lemma {:induction false} DiscoverEndpointsFailsIff(reply: Result<seq<ServiceInstance>, ResolveError>)
    ensures reply.Err? ==> DiscoverEndpoints(reply) == Err(reply.error)
    ensures DiscoverEndpoints(reply).Ok? ==> reply.Ok? && DiscoverEndpoints(reply).value == HealthyEndpoints(reply.value)
    ensures reply.Ok? ==>
              (DiscoverEndpoints(reply) == Err(Discovery)
               <==> forall i :: 0 <= i < |reply.value| ==>
                      || (reply.value[i].status != Serving && reply.value[i].status != Degraded)
                      || IsBlank(reply.value[i].endpoint))
  {
    if reply.Ok? {
      var instances := reply.value;
      HealthyEndpointsAre(instances);
      forall i | 0 <= i < |instances| && (instances[i].status == Serving || instances[i].status == Degraded)
                 && !IsBlank(instances[i].endpoint)
        ensures HealthyEndpoints(instances) != []
      {
        var e := ResolvedEndpoint(instances[i].endpoint, if instances[i].weight == 0 then 1 else instances[i].weight, true);
        assert Represents(e, instances[i]);
        assert e in HealthyEndpoints(instances);
      }
      if HealthyEndpoints(instances) != [] {
        assert HealthyEndpoints(instances)[0] in HealthyEndpoints(instances);
        var i :| 0 <= i < |instances| && Represents(HealthyEndpoints(instances)[0], instances[i]);
      }
    }
  }

  lemma {:induction false} HealthyEndpointsKeepDistinct(instances: seq<ServiceInstance>)
    requires forall i, j :: 0 <= i < j < |instances| ==> instances[i].endpoint != instances[j].endpoint
    ensures DuplicateFree(HealthyEndpoints(instances))
    ensures forall k :: 0 <= k < |HealthyEndpoints(instances)| ==>
              exists i :: 0 <= i < |instances| && instances[i].endpoint == HealthyEndpoints(instances)[k].endpoint
  {
    if instances != [] {
      HealthyEndpointsKeepDistinct(instances[1..]);
      HealthyEndpointsAre(instances);
      var all := HealthyEndpoints(instances);
      forall k | 0 <= k < |all|
        ensures exists i :: 0 <= i < |instances| && instances[i].endpoint == all[k].endpoint
      {
        assert all[k] in all;
      }
      var rest := HealthyEndpoints(instances[1..]);
      forall k | 0 <= k < |rest| ensures rest[k].endpoint != instances[0].endpoint {
        var i :| 0 <= i < |instances[1..]| && instances[1..][i].endpoint == rest[k].endpoint;
        assert instances[0].endpoint != instances[i + 1].endpoint;
      }
    }
  }
}
