/** The server as a step system: client sessions (handle_client and its yamux driver)
    and public requests (handle_proxy_request) interleave, one atomic action at a time,
    over the shared registry, the reference-counted entries and the atomic gauges.

    A step names the session or request that moves and what its environment answered;
    outcomes of I/O are part of the step. */
module ServerSteps {
  import opened Common
  import opened FrameCodec
  import ClientRegistry
  import Routing

  datatype Config = Config(domain: string, tokens: seq<string>) {
    predicate ValidToken(token: string) {
      tokens == [] || token in tokens
    }
  }

  const STREAM_TYPE_PROXY: byte := 0
  const STREAM_TYPE_HEARTBEAT: byte := 1

  // ---- Sessions ----

  datatype SessionPhase =
    | Reading      // waiting for the first message
    | Replied      // success reply written, driver not yet spawned
    | Spawned      // driver spawned, not yet registered
    | Registered   // in the registry, waiting for the driver
    | Ended        // the driver has been awaited, not yet unregistered
    | Gone

  /** An aborted driver may still take some steps before it stops. */
  datatype Driver = NotStarted | Running | Aborted | Stopped {
    predicate Active() { Running? || Aborted? }
  }

  /** auth is set once the first message was an AuthReq whose token was accepted. */
  datatype Session = Session(auth: Option<AuthReq>, phase: SessionPhase, driver: Driver, entry: Option<nat>) {
    predicate Owns() { phase.Registered? || phase.Ended? }
  }

  datatype SessionAction =
    | Fail                    // timeout, unreadable or unexpected message, or a failed reply
    | Authenticate(req: AuthReq)
    | Spawn
    | Register
    | DriverStop
    | AwaitDriver
    | Unregister
    | Probe(written: bool)    // the driver opens a heartbeat stream; its one-byte write may fail

  // ---- Requests ----

  datatype RequestPhase =
    | Arrived | Admitted | Holding | CountedStream
    | Opening | Marking | Handshaking | Building | Sending
    | Releasing | HalfReleased | Released | Finished | Dropped

  /** entry and stream stay recorded after the request has let go of them;
      sent logs the request bytes handed to the stream. */
  datatype Request = Request(
    host: Option<string>, path: string, phase: RequestPhase,
    entry: Option<nat>, stream: Option<nat>, forwarded: bool, sent: seq<byte>)
  {
    /** The request still has its Arc of the entry. */
    predicate Holds() {
      entry.Some? && !phase.Finished? && !phase.Dropped?
    }
    /** Between its active_streams increment and decrement (a dropped future never decrements). */
    predicate InStreamRegion() {
      phase.CountedStream? || phase.Opening? || phase.Marking? || phase.Handshaking?
      || phase.Building? || phase.Sending? || phase.Releasing? || phase.Dropped?
    }
    /** Between its active_connections increment and decrement. */
    predicate InConnectionRegion() {
      phase.Opening? || phase.Marking? || phase.Handshaking?
      || phase.Building? || phase.Sending? || phase.Releasing? || phase.HalfReleased? || phase.Dropped?
    }
  }

  datatype RequestAction =
    | RateCheck(allowed: bool)
    | Lookup
    | CountStream
    | CountConnection
    | Open(ok: bool)
    | Mark(ok: bool, written: bool)
    | Handshake(ok: bool)
    | Build(ok: bool)
    | Respond
    | Chunk(bytes: seq<byte>)
    | ReleaseStream
    | ReleaseConnection
    | Return
    | Drop

  // ---- Shared state ----

  datatype Entry = Entry(clientId: string, handle: nat, heartbeat: bool, active: u64)

  datatype Source = Heartbeat | Proxied(request: nat)

  /** An outbound yamux stream: the session it belongs to, who opened it, what was written. */
  datatype Stream = Stream(session: nat, source: Source, content: seq<byte>)

  datatype State = State(
    sessions: seq<Session>,
    entries: seq<Entry>,
    registry: map<string, nat>,
    requests: seq<Request>,
    streams: seq<Stream>,
    activeConnections: u64)

  const Init := State([], [], map[], [], [], 0)

  datatype Step =
    | Accept
    | Arrive(host: Option<string>, path: string)
    | SessionStep(session: nat, act: SessionAction)
    | RequestStep(request: nat, move: RequestAction)

  // ---- Transitions; None means the step is not enabled ----

  function SessionNext(cfg: Config, s: State, i: nat, a: SessionAction): Option<State>
    requires i < |s.sessions|
  {
    var x := s.sessions[i];
    match a
    case Fail =>
      if x.phase.Reading? then Some(s.(sessions := s.sessions[i := x.(phase := Gone)])) else None
    case Authenticate(req) =>
      if !x.phase.Reading? then None
      else if !cfg.ValidToken(req.token) then Some(s.(sessions := s.sessions[i := x.(phase := Gone)]))
      else Some(s.(sessions := s.sessions[i := x.(auth := Some(req), phase := Replied)]))
    case Spawn =>
      if x.phase.Replied? then Some(s.(sessions := s.sessions[i := x.(phase := Spawned, driver := Running)])) else None
    case Register =>
      if !x.phase.Spawned? || x.auth.None? then None
      else
        var e := |s.entries|;
        var entry := Entry(x.auth.value.clientId, i, x.auth.value.SupportsHeartbeat(), 0);
        (match ClientRegistry.Registering(s.registry, entry.clientId, e)
         case Failure(_) => Some(s.(sessions := s.sessions[i := x.(phase := Gone, driver := Aborted)]))
         case Success(registry) =>
           Some(s.(sessions := s.sessions[i := x.(phase := Registered, entry := Some(e))],
                   entries := s.entries + [entry],
                   registry := registry)))
    case DriverStop =>
      if x.driver.Active() then Some(s.(sessions := s.sessions[i := x.(driver := Stopped)])) else None
    case AwaitDriver =>
      if x.phase.Registered? && x.driver.Stopped?
      then Some(s.(sessions := s.sessions[i := x.(phase := Ended)])) else None
    case Unregister =>
      if !x.phase.Ended? || x.auth.None? then None
      else Some(s.(sessions := s.sessions[i := x.(phase := Gone)],
                   registry := s.registry - {x.auth.value.clientId}))
    case Probe(written) =>
      if !x.driver.Active() || x.auth.None? || !x.auth.value.SupportsHeartbeat() then None
      else Some(s.(streams := s.streams + [Stream(i, Heartbeat, if written then [STREAM_TYPE_HEARTBEAT] else [])]))
  }

  function Moved(s: State, r: nat, q: Request): State
    requires r < |s.requests|
  {
    s.(requests := s.requests[r := q])
  }

  /** fetch_add(1) or fetch_sub(1) on one entry's active_streams. */
  function Gauged(s: State, e: nat, delta: int): State
    requires e < |s.entries|
  {
    s.(entries := s.entries[e := s.entries[e].(active := Wrap(s.entries[e].active + delta))])
  }

  function Written(s: State, st: nat, bytes: seq<byte>): State
    requires st < |s.streams|
  {
    s.(streams := s.streams[st := s.streams[st].(content := s.streams[st].content + bytes)])
  }

  function RequestNext(cfg: Config, s: State, r: nat, a: RequestAction): Option<State>
    requires r < |s.requests|
  {
    var q := s.requests[r];
    match a
    case RateCheck(allowed) =>
      if !q.phase.Arrived? then None
      else Some(Moved(s, r, q.(phase := if allowed then Admitted else Finished)))
    case Lookup =>
      if !q.phase.Admitted? then None
      else (match Routing.Dispatch(q.host, q.path, cfg.domain)
        case Tunnel(id) =>
          if id in s.registry
          then Some(Moved(s, r, q.(phase := Holding, entry := Some(s.registry[id]))))
          else Some(Moved(s, r, q.(phase := Finished)))
        case _ => None)
    case CountStream =>
      if !q.phase.Holding? || q.entry.None? || q.entry.value >= |s.entries| then None
      else Some(Moved(Gauged(s, q.entry.value, 1), r, q.(phase := CountedStream)))
    case CountConnection =>
      if !q.phase.CountedStream? then None
      else Some(Moved(s, r, q.(phase := Opening)).(activeConnections := Wrap(s.activeConnections + 1)))
    case Open(ok) =>
      if !q.phase.Opening? || q.entry.None? || q.entry.value >= |s.entries| then None
      else if !ok then Some(Moved(s, r, q.(phase := Releasing)))
      else
        var session := s.entries[q.entry.value].handle;
        if session >= |s.sessions| || !s.sessions[session].driver.Running? then None
        else Some(Moved(s, r, q.(phase := Marking, stream := Some(|s.streams|)))
                  .(streams := s.streams + [Stream(session, Proxied(r), [])]))
    case Mark(ok, written) =>
      if !q.phase.Marking? || q.entry.None? || q.entry.value >= |s.entries|
         || q.stream.None? || q.stream.value >= |s.streams| then None
      else if !s.entries[q.entry.value].heartbeat then Some(Moved(s, r, q.(phase := Handshaking)))
      else
        var s' := if ok || written then Written(s, q.stream.value, [STREAM_TYPE_PROXY]) else s;
        Some(Moved(s', r, q.(phase := if ok then Handshaking else Releasing)))
    case Handshake(ok) =>
      if !q.phase.Handshaking? then None
      else Some(Moved(s, r, q.(phase := if ok then Building else Releasing)))
    case Build(ok) =>
      if !q.phase.Building? then None
      else Some(Moved(s, r, q.(phase := if ok then Sending else Releasing, forwarded := ok)))
    case Respond =>
      if !q.phase.Sending? then None
      else Some(Moved(s, r, q.(phase := Releasing)))
    case Chunk(bytes) =>
      // The spawned connection task writes on its own, even after the handler is done.
      if !q.forwarded || q.stream.None? || q.stream.value >= |s.streams| then None
      else Some(Moved(Written(s, q.stream.value, bytes), r, q.(sent := q.sent + bytes)))
    case ReleaseStream =>
      if !q.phase.Releasing? || q.entry.None? || q.entry.value >= |s.entries| then None
      else Some(Moved(Gauged(s, q.entry.value, -1), r, q.(phase := HalfReleased)))
    case ReleaseConnection =>
      if !q.phase.HalfReleased? then None
      else Some(Moved(s, r, q.(phase := Released)).(activeConnections := Wrap(s.activeConnections - 1)))
    case Return =>
      if !q.phase.Released? then None else Some(Moved(s, r, q.(phase := Finished)))
    case Drop =>
      // A future can only be dropped where it is suspended.
      if q.phase.Opening? || q.phase.Marking? || q.phase.Handshaking? || q.phase.Sending?
      then Some(Moved(s, r, q.(phase := Dropped))) else None
  }

  function Next(cfg: Config, s: State, step: Step): Option<State> {
    match step
    case Accept => Some(s.(sessions := s.sessions + [Session(None, Reading, NotStarted, None)]))
    case Arrive(host, path) =>
      var phase := if Routing.Dispatch(host, path, cfg.domain).Tunnel? then Arrived else Finished;
      Some(s.(requests := s.requests + [Request(host, path, phase, None, None, false, [])]))
    case SessionStep(i, a) => if i < |s.sessions| then SessionNext(cfg, s, i, a) else None
    case RequestStep(r, a) => if r < |s.requests| then RequestNext(cfg, s, r, a) else None
  }

  /** The state after a schedule, from a freshly started server; None if some step was not enabled. */
  function Run(cfg: Config, schedule: seq<Step>): Option<State> {
    if schedule == [] then Some(Init)
    else match Run(cfg, schedule[..|schedule| - 1])
      case None => None
      case Some(s) => Next(cfg, s, schedule[|schedule| - 1])
  }

  ghost predicate Reachable(cfg: Config, s: State) {
    exists schedule :: Run(cfg, schedule) == Some(s)
  }

  // ---- The structural invariant ----

  ghost predicate SessionInv(cfg: Config, s: State, i: nat)
    requires i < |s.sessions|
  {
    var x := s.sessions[i];
    && (x.auth.Some? ==> cfg.ValidToken(x.auth.value.token))
    && (x.auth.None? ==> (x.phase.Reading? || x.phase.Gone?) && x.driver.NotStarted?)
    && (x.phase.Reading? ==> x.auth.None?)
    && (x.driver.NotStarted? <==> x.auth.None? || x.phase.Replied?)
    && (x.phase.Spawned? || x.phase.Registered? ==> x.driver.Running? || x.driver.Stopped?)
    && (x.phase.Ended? || (x.phase.Gone? && x.entry.Some?) ==> x.driver.Stopped?)
    && (x.driver.Aborted? ==> x.phase.Gone? && x.entry.None?)
    && (x.phase.Gone? ==> !x.driver.Running?)
    && (x.phase.Registered? || x.phase.Ended? || x.phase.Gone? || x.entry.None?)
    && (x.entry.Some? ==> x.entry.value < |s.entries| && s.entries[x.entry.value].handle == i)
    && (x.Owns() ==> x.auth.value.clientId in s.registry && x.entry == Some(s.registry[x.auth.value.clientId]))
  }

  ghost predicate EntryInv(s: State, e: nat)
    requires e < |s.entries|
  {
    var n := s.entries[e];
    && n.handle < |s.sessions|
    && s.sessions[n.handle].auth.Some?
    && s.sessions[n.handle].auth.value.clientId == n.clientId
    && s.sessions[n.handle].auth.value.SupportsHeartbeat() == n.heartbeat
    && s.sessions[n.handle].entry == Some(e)
    && n.clientId !in ClientRegistry.RESERVED_SUBDOMAINS
  }

  ghost predicate NameInv(s: State, id: string)
    requires id in s.registry
  {
    var e := s.registry[id];
    && e < |s.entries|
    && s.entries[e].clientId == id
    && s.entries[e].handle < |s.sessions|
    && s.sessions[s.entries[e].handle].Owns()
  }

  ghost predicate RequestInv(cfg: Config, s: State, r: nat)
    requires r < |s.requests|
  {
    var q := s.requests[r];
    && (q.entry.Some? ==> q.entry.value < |s.entries|)
    && (q.entry.Some? ==>
          Routing.Dispatch(q.host, q.path, cfg.domain) == Routing.Tunnel(s.entries[q.entry.value].clientId))
    && (q.entry.None? ==> q.phase.Arrived? || q.phase.Admitted? || q.phase.Finished?)
    && (q.phase.Arrived? || q.phase.Admitted? ==>
          q.entry.None? && q.stream.None? && !q.forwarded && Routing.Dispatch(q.host, q.path, cfg.domain).Tunnel?)
    && (q.stream.Some? ==> q.entry.Some? && q.stream.value < |s.streams|)
    && (q.stream.Some? ==> s.streams[q.stream.value].session == s.entries[q.entry.value].handle)
    && (q.stream.Some? ==> s.streams[q.stream.value].source == Proxied(r))
    && (q.phase.Marking? || q.phase.Handshaking? || q.phase.Building? || q.phase.Sending? ==> q.stream.Some?)
    && (q.phase.Holding? || q.phase.CountedStream? || q.phase.Opening? ==> q.stream.None?)
    && (q.forwarded ==> q.stream.Some? && !q.phase.Marking? && !q.phase.Handshaking? && !q.phase.Building?)
    && (!q.forwarded ==> q.sent == [])
  }

  ghost predicate StreamInv(s: State, st: nat)
    requires st < |s.streams|
  {
    var x := s.streams[st];
    && x.session < |s.sessions|
    && s.sessions[x.session].auth.Some?
    && match x.source
       case Heartbeat =>
         s.sessions[x.session].auth.value.SupportsHeartbeat() && (x.content == [] || x.content == [STREAM_TYPE_HEARTBEAT])
       case Proxied(r) =>
         && r < |s.requests| && s.requests[r].stream == Some(st)
         && var q := s.requests[r];
         var marker := if s.sessions[x.session].auth.value.SupportsHeartbeat() then [STREAM_TYPE_PROXY] else [];
         && (x.content == marker + q.sent || (x.content == [] && q.sent == [] && !q.forwarded))
         && (q.phase.Marking? ==> x.content == [])
         && (q.phase.Handshaking? || q.phase.Building? || q.forwarded ==> x.content == marker + q.sent)
  }

  ghost predicate Inv(cfg: Config, s: State) {
    && (forall i :: 0 <= i < |s.sessions| ==> SessionInv(cfg, s, i))
    && (forall e :: 0 <= e < |s.entries| ==> EntryInv(s, e))
    && (forall id :: id in s.registry ==> NameInv(s, id))
    && (forall r :: 0 <= r < |s.requests| ==> RequestInv(cfg, s, r))
    && (forall st :: 0 <= st < |s.streams| ==> StreamInv(s, st))
  }
}
