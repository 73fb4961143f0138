/** One public request handled from beginning to end without interference
    (handle_proxy_request), on the registry, limiter and gauges as objects. ServerSteps has
    the same actions interleaved with everything else. */
module ProxyHandler {
  import opened Common
  import opened ClientRegistry
  import opened RateLimit
  import Routing

  class Metrics {
    var totalRequests: u64
    var activeConnections: u64
    var rateLimited: u64

    constructor ()
      ensures totalRequests == 0 && activeConnections == 0 && rateLimited == 0
    {
      totalRequests, activeConnections, rateLimited := 0, 0, 0;
    }
  }

  /** What opening, marking, handshake, building and sending would yield. */
  datatype Io = Io(open: bool, mark: bool, handshake: bool, build: bool, send: Option<nat>)

  const PROXY_MARKER: byte := 0

  /** handle: the session on which a stream was opened; marker: what was written before the request. */
  datatype Outcome = Outcome(status: nat, handle: Option<nat>, marker: seq<byte>, forwarded: bool)

  /** The response once the client's entry has been found. */
  function Forward(handle: nat, heartbeat: bool, io: Io): Outcome {
    var marker: seq<byte> := if heartbeat then [PROXY_MARKER] else [];
    if !io.open then Outcome(502, None, [], false)
    else if heartbeat && !io.mark then Outcome(502, Some(handle), [], false)
    else if !io.handshake then Outcome(502, Some(handle), marker, false)
    else if !io.build then Outcome(500, Some(handle), marker, false)
    else match io.send
      case None => Outcome(502, Some(handle), marker, true)
      case Some(status) => Outcome(status, Some(handle), marker, true)
  }

  /** Of all that can happen after the client has been found, the client's own status reaches the caller exactly when
      stream, marker if the client reads one, handshake, building and sending all succeed; if only the request could
      not be built the status is 500, and any other failure is a 502. */
  lemma ForwardExactlyWhen(handle: nat, heartbeat: bool, io: Io)
    ensures var o := Forward(handle, heartbeat, io);
      var ready := io.open && (heartbeat ==> io.mark) && io.handshake;
      && (o.forwarded <==> ready && io.build)
      && (ready && io.build && io.send.Some? ==> o.status == io.send.value)
      && (ready && !io.build ==> o.status == 500)
      && (!ready || (io.build && io.send.None?) ==> o.status == 502)
      && o.handle == (if io.open then Some(handle) else None)
      && o.marker == (if io.open && io.mark && heartbeat then [0] else [])
  {
  }

  lemma UpThenDown(n: u64)
    ensures Wrap(Wrap(n + 1) - 1) == n
  {
  }

  method HandleProxyRequest(host: Option<string>, domain: string, now: nat, io: Io,
                            registry: Registry, metrics: Metrics, limiter: RateLimiter)
    returns (o: Outcome)
    requires registry.Valid()
    modifies metrics, limiter, registry.clients.Values
    ensures registry.clients == old(registry.clients) && registry.Valid()
    ensures metrics.totalRequests == Wrap(old(metrics.totalRequests) + 1)
    // Every exit gives both gauges back.
    ensures metrics.activeConnections == old(metrics.activeConnections)
    ensures forall id :: id in registry.clients ==> registry.clients[id].activeStreams == old(registry.clients[id].activeStreams)
    ensures match Routing.ExtractClient(host, domain)
            case None =>
              o == Outcome(if registry.clients == map[] then 503 else 404, None, [], false)
              && limiter.counters == old(limiter.counters) && metrics.rateLimited == old(metrics.rateLimited)
              && forall id :: id in registry.clients ==> registry.clients[id].requests == old(registry.clients[id].requests)
            case Some(id) =>
              var d := Decide(limiter.maxPerSecond, Stored(old(limiter.counters), id), now);
              && Stored(limiter.counters, id) == d.window
              && (forall key :: key != id ==> Stored(limiter.counters, key) == Stored(old(limiter.counters), key))
              && metrics.rateLimited == Wrap(old(metrics.rateLimited) + Bit(!d.allowed))
              && (forall k :: k in registry.clients ==>
                    registry.clients[k].requests == Wrap(old(registry.clients[k].requests) + Bit(k == id && d.allowed)))
              && (!d.allowed ==> o == Outcome(429, None, [], false))
              && (d.allowed && id !in registry.clients ==> o == Outcome(502, None, [], false))
              && (d.allowed && id in registry.clients ==> Answers(registry.clients[id], io, o))
  {
    hide Decide, Answers, Routing.ExtractClient;
    metrics.totalRequests := Wrap(metrics.totalRequests + 1);
    var routing := Routing.ExtractClient(host, domain);
    if routing == None {
      var connected := registry.List();
      if connected == [] {
        assert registry.clients == map[];
        return Outcome(503, None, [], false);
      }
      return Outcome(404, None, [], false);
    }
    o := HandleRouted(routing.value, now, io, registry, metrics, limiter);
  }

  /** The outcome goes with the I/O: the client's own status is what the caller gets, and only if the request reached
      the client; before that a failure is a 502, or a 500 where the request could not be built. */
  ghost predicate Answers(client: ClientEntry, io: Io, o: Outcome) {
    var ready := io.open && (client.supportsHeartbeat ==> io.mark) && io.handshake;
    && o == Forward(client.handle, client.supportsHeartbeat, io)
    && (o.forwarded <==> ready && io.build)
    && (ready && io.build && io.send.Some? ==> o.status == io.send.value)
    && (ready && !io.build ==> o.status == 500)
    && (!ready || (io.build && io.send.None?) ==> o.status == 502)
    && o.handle == (if io.open then Some(client.handle) else None)
    && o.marker == (if io.open && io.mark && client.supportsHeartbeat then [0] else [])
  }

  /** The rest once a name has been extracted: limiter, lookup, and the client if both let the request through. */
  method HandleRouted(id: string, now: nat, io: Io, registry: Registry, metrics: Metrics, limiter: RateLimiter)
    returns (o: Outcome)
    requires registry.Valid()
    modifies metrics`activeConnections, metrics`rateLimited, limiter, registry.clients.Values
    ensures metrics.activeConnections == old(metrics.activeConnections)
    ensures forall k :: k in registry.clients ==> registry.clients[k].activeStreams == old(registry.clients[k].activeStreams)
    ensures var d := Decide(limiter.maxPerSecond, Stored(old(limiter.counters), id), now);
      && Stored(limiter.counters, id) == d.window
      && (forall key :: key != id ==> Stored(limiter.counters, key) == Stored(old(limiter.counters), key))
      && metrics.rateLimited == Wrap(old(metrics.rateLimited) + Bit(!d.allowed))
      && (forall k :: k in registry.clients ==>
            registry.clients[k].requests == Wrap(old(registry.clients[k].requests) + Bit(k == id && d.allowed)))
      && (!d.allowed ==> o == Outcome(429, None, [], false))
      && (d.allowed && id !in registry.clients ==> o == Outcome(502, None, [], false))
      && (d.allowed && id in registry.clients ==> Answers(registry.clients[id], io, o))
  {
    hide Decide, Answers;
    var allowed := limiter.Check(id, now);
    if !allowed {
      metrics.rateLimited := Wrap(metrics.rateLimited + 1);
      return Outcome(429, None, [], false);
    }
    var client := registry.Get(id);
    if client == None {
      return Outcome(502, None, [], false);
    }
    o := ForwardTo(client.value, metrics, io);
  }

  /** The counted region: from taking both gauges up to one of its six exits. */
  method ForwardTo(client: ClientEntry, metrics: Metrics, io: Io) returns (o: Outcome)
    modifies client`requests, client`activeStreams, metrics`activeConnections
    ensures client.activeStreams == old(client.activeStreams)
    ensures metrics.activeConnections == old(metrics.activeConnections)
    ensures client.requests == Wrap(old(client.requests) + 1)
    ensures Answers(client, io, o)
  {
    UpThenDown(client.activeStreams);
    UpThenDown(metrics.activeConnections);
    client.requests := Wrap(client.requests + 1);
    client.activeStreams := Wrap(client.activeStreams + 1);
    metrics.activeConnections := Wrap(metrics.activeConnections + 1);
    if !io.open {
      Release(client, metrics);
      return Outcome(502, None, [], false);
    }
    var written: seq<byte> := [];
    if client.supportsHeartbeat {
      if !io.mark {
        Release(client, metrics);
        return Outcome(502, Some(client.handle), written, false);
      }
      written := written + [PROXY_MARKER];
    }
    if !io.handshake {
      Release(client, metrics);
      return Outcome(502, Some(client.handle), written, false);
    }
    if !io.build {
      Release(client, metrics);
      return Outcome(500, Some(client.handle), written, false);
    }
    if io.send == None {
      Release(client, metrics);
      return Outcome(502, Some(client.handle), written, true);
    }
    Release(client, metrics);
    return Outcome(io.send.value, Some(client.handle), written, true);
  }

  method Release(client: ClientEntry, metrics: Metrics)
    modifies client`activeStreams, metrics`activeConnections
    ensures client.activeStreams == Wrap(old(client.activeStreams) - 1)
    ensures metrics.activeConnections == Wrap(old(metrics.activeConnections) - 1)
  {
    client.activeStreams := Wrap(client.activeStreams - 1);
    metrics.activeConnections := Wrap(metrics.activeConnections - 1);
  }
}
