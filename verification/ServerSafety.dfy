/** What every step of every interleaving keeps, and what follows for sessions,
    routed requests and the streams they write to. */
module ServerSafety {
  import opened Common
  import opened FrameCodec
  import opened ServerSteps
  import ClientRegistry
  import Routing

  // ---- Session steps keep the invariant, one part at a time ----

  lemma SessionStepKeepsMover(cfg: Config, s: State, i: nat, a: SessionAction)
    requires i < |s.sessions| && SessionNext(cfg, s, i, a).Some? && SessionInv(cfg, s, i)
    ensures SessionInv(cfg, SessionNext(cfg, s, i, a).value, i)
  {
  }

  lemma SessionStepKeepsOther(cfg: Config, s: State, i: nat, a: SessionAction, j: nat)
    requires i < |s.sessions| && SessionNext(cfg, s, i, a).Some? && SessionInv(cfg, s, i)
    requires j < |s.sessions| && j != i && SessionInv(cfg, s, j)
    ensures SessionInv(cfg, SessionNext(cfg, s, i, a).value, j)
  {
    hide Config.ValidToken;
  }

  lemma SessionStepKeepsSession(cfg: Config, s: State, i: nat, a: SessionAction, j: nat)
    requires Inv(cfg, s) && i < |s.sessions| && SessionNext(cfg, s, i, a).Some? && j < |s.sessions|
    ensures SessionInv(cfg, SessionNext(cfg, s, i, a).value, j)
  {
    hide RequestInv, StreamInv, EntryInv, NameInv, SessionInv, SessionNext;
    assert SessionInv(cfg, s, i) && SessionInv(cfg, s, j);
    if j == i {
      SessionStepKeepsMover(cfg, s, i, a);
    } else {
      SessionStepKeepsOther(cfg, s, i, a, j);
    }
  }

  lemma SessionStepKeepsEntry(cfg: Config, s: State, i: nat, a: SessionAction, e: nat)
    requires Inv(cfg, s) && i < |s.sessions| && SessionNext(cfg, s, i, a).Some?
    requires e < |SessionNext(cfg, s, i, a).value.entries|
    ensures EntryInv(SessionNext(cfg, s, i, a).value, e)
  {
    hide RequestInv, StreamInv, NameInv;
    assert SessionInv(cfg, s, i);
    if e < |s.entries| {
      assert EntryInv(s, e);
    }
  }

  lemma SessionStepKeepsName(cfg: Config, s: State, i: nat, a: SessionAction, id: string)
    requires Inv(cfg, s) && i < |s.sessions| && SessionNext(cfg, s, i, a).Some?
    requires id in SessionNext(cfg, s, i, a).value.registry
    ensures NameInv(SessionNext(cfg, s, i, a).value, id)
  {
    hide RequestInv, StreamInv;
    assert SessionInv(cfg, s, i);
    if id in s.registry {
      assert NameInv(s, id);
      assert EntryInv(s, s.registry[id]);
    }
  }

  lemma SessionStepKeepsStream(cfg: Config, s: State, i: nat, a: SessionAction, st: nat)
    requires Inv(cfg, s) && i < |s.sessions| && SessionNext(cfg, s, i, a).Some?
    requires st < |SessionNext(cfg, s, i, a).value.streams|
    ensures StreamInv(SessionNext(cfg, s, i, a).value, st)
  {
    hide RequestInv, EntryInv, NameInv;
    assert SessionInv(cfg, s, i);
    if st < |s.streams| {
      assert StreamInv(s, st);
      var x := s.streams[st];
      var s' := SessionNext(cfg, s, i, a).value;
      assert s'.streams[st] == x && s'.requests == s.requests;
      assert s'.sessions[x.session].auth == s.sessions[x.session].auth;
    }
  }

  lemma SessionStepKeepsInv(cfg: Config, s: State, i: nat, a: SessionAction)
    requires Inv(cfg, s) && i < |s.sessions| && SessionNext(cfg, s, i, a).Some?
    ensures Inv(cfg, SessionNext(cfg, s, i, a).value)
  {
    var s' := SessionNext(cfg, s, i, a).value;
    assert |s'.sessions| == |s.sessions| && s'.requests == s.requests;
    forall j | 0 <= j < |s'.sessions| ensures SessionInv(cfg, s', j) { SessionStepKeepsSession(cfg, s, i, a, j); }
    forall e | 0 <= e < |s'.entries| ensures EntryInv(s', e) { SessionStepKeepsEntry(cfg, s, i, a, e); }
    forall id | id in s'.registry ensures NameInv(s', id) { SessionStepKeepsName(cfg, s, i, a, id); }
    forall st | 0 <= st < |s'.streams| ensures StreamInv(s', st) { SessionStepKeepsStream(cfg, s, i, a, st); }
    forall r | 0 <= r < |s'.requests| ensures RequestInv(cfg, s', r) { assert RequestInv(cfg, s, r); }
  }

  // ---- Request steps ----

  /** A request step leaves sessions, registry and other requests alone, and changes
      no entry beyond its gauge. */
  lemma RequestStepFrame(cfg: Config, s: State, r: nat, a: RequestAction)
    requires r < |s.requests| && RequestNext(cfg, s, r, a).Some?
    ensures var s' := RequestNext(cfg, s, r, a).value;
      && s'.sessions == s.sessions && s'.registry == s.registry
      && |s'.entries| == |s.entries| && |s'.requests| == |s.requests|
      && (forall e :: 0 <= e < |s.entries| ==> s'.entries[e].(active := 0) == s.entries[e].(active := 0))
      && (forall k :: 0 <= k < |s.requests| && k != r ==> s'.requests[k] == s.requests[k])
      && |s'.streams| >= |s.streams|
      && (forall st :: 0 <= st < |s.streams| ==>
           s'.streams[st].session == s.streams[st].session && s'.streams[st].source == s.streams[st].source)
  {
    hide Wrap, Routing.Dispatch;
  }

  // What a request step keeps of the request that moves.

  lemma StreamStepKeepsRequest(cfg: Config, s: State, r: nat, a: RequestAction)
    requires r < |s.requests| && RequestNext(cfg, s, r, a).Some? && RequestInv(cfg, s, r)
    requires a.Open? || a.Mark? || a.Chunk?
    ensures RequestInv(cfg, RequestNext(cfg, s, r, a).value, r)
  {
    hide Routing.Dispatch, Wrap;
  }

  lemma LookupKeepsRequest(cfg: Config, s: State, r: nat)
    requires r < |s.requests| && RequestNext(cfg, s, r, Lookup).Some? && RequestInv(cfg, s, r)
    requires var target := Routing.Dispatch(s.requests[r].host, s.requests[r].path, cfg.domain);
      target.Tunnel? && target.clientId in s.registry ==> NameInv(s, target.clientId)
    ensures RequestInv(cfg, RequestNext(cfg, s, r, Lookup).value, r)
  {
    hide Routing.Dispatch, Wrap;
  }

  lemma OtherStepKeepsRequest(cfg: Config, s: State, r: nat, a: RequestAction)
    requires r < |s.requests| && RequestNext(cfg, s, r, a).Some? && RequestInv(cfg, s, r)
    requires !a.Open? && !a.Mark? && !a.Chunk? && !a.Lookup?
    ensures RequestInv(cfg, RequestNext(cfg, s, r, a).value, r)
  {
    hide Routing.Dispatch, Wrap;
  }

  lemma RequestStepKeepsMover(cfg: Config, s: State, r: nat, a: RequestAction)
    requires Inv(cfg, s) && r < |s.requests| && RequestNext(cfg, s, r, a).Some?
    ensures RequestInv(cfg, RequestNext(cfg, s, r, a).value, r)
  {
    hide SessionInv, StreamInv, EntryInv, NameInv, RequestInv, RequestNext, Routing.Dispatch;
    assert RequestInv(cfg, s, r);
    if a.Lookup? {
      LookupKeepsRequest(cfg, s, r);
    } else if a.Open? || a.Mark? || a.Chunk? {
      StreamStepKeepsRequest(cfg, s, r, a);
    } else {
      OtherStepKeepsRequest(cfg, s, r, a);
    }
  }

  lemma RequestStepKeepsStream(cfg: Config, s: State, r: nat, a: RequestAction, st: nat)
    requires r < |s.requests| && RequestNext(cfg, s, r, a).Some? && RequestInv(cfg, s, r)
    requires s.requests[r].entry.Some? ==> EntryInv(s, s.requests[r].entry.value)
    requires st < |s.streams| ==> StreamInv(s, st)
    requires st < |RequestNext(cfg, s, r, a).value.streams|
    ensures StreamInv(RequestNext(cfg, s, r, a).value, st)
  {
    hide Wrap, Routing.Dispatch;
    var q, s' := s.requests[r], RequestNext(cfg, s, r, a).value;
    RequestStepFrame(cfg, s, r, a);
    if st < |s.streams| && s.streams[st].source != Proxied(r) {
      assert s'.streams[st] == s.streams[st];
      assert s.streams[st].source.Proxied? ==> s'.requests[s.streams[st].source.request] == s.requests[s.streams[st].source.request];
    }
  }

  lemma RequestStepKeepsInv(cfg: Config, s: State, r: nat, a: RequestAction)
    requires Inv(cfg, s) && r < |s.requests| && RequestNext(cfg, s, r, a).Some?
    ensures Inv(cfg, RequestNext(cfg, s, r, a).value)
  {
    hide RequestNext, StreamInv, Routing.Dispatch;
    var s' := RequestNext(cfg, s, r, a).value;
    RequestStepFrame(cfg, s, r, a);
    RequestStepKeepsMover(cfg, s, r, a);
    forall j | 0 <= j < |s'.sessions| ensures SessionInv(cfg, s', j) { assert SessionInv(cfg, s, j); }
    forall e | 0 <= e < |s'.entries| ensures EntryInv(s', e) { assert EntryInv(s, e); }
    forall id | id in s'.registry ensures NameInv(s', id) { assert NameInv(s, id); }
    forall st | 0 <= st < |s'.streams| ensures StreamInv(s', st) {
      assert RequestInv(cfg, s, r);
      assert s.requests[r].entry.Some? ==> EntryInv(s, s.requests[r].entry.value);
      assert st < |s.streams| ==> StreamInv(s, st);
      RequestStepKeepsStream(cfg, s, r, a, st);
    }
    forall k | 0 <= k < |s'.requests| ensures RequestInv(cfg, s', k) {
      assert RequestInv(cfg, s, k);
    }
  }

  // ---- Runs ----

  lemma StepKeepsInv(cfg: Config, s: State, step: Step)
    requires Inv(cfg, s) && Next(cfg, s, step).Some?
    ensures Inv(cfg, Next(cfg, s, step).value)
  {
    var s' := Next(cfg, s, step).value;
    match step {
      case SessionStep(i, a) => SessionStepKeepsInv(cfg, s, i, a);
      case RequestStep(r, a) => RequestStepKeepsInv(cfg, s, r, a);
      case Accept =>
        forall j | 0 <= j < |s'.sessions| ensures SessionInv(cfg, s', j) {
          if j < |s.sessions| { assert SessionInv(cfg, s, j); }
        }
        forall e | 0 <= e < |s'.entries| ensures EntryInv(s', e) { assert EntryInv(s, e); }
        forall id | id in s'.registry ensures NameInv(s', id) { assert NameInv(s, id); }
        forall r | 0 <= r < |s'.requests| ensures RequestInv(cfg, s', r) { assert RequestInv(cfg, s, r); }
        forall st | 0 <= st < |s'.streams| ensures StreamInv(s', st) { assert StreamInv(s, st); }
      case Arrive(_, _) =>
        forall j | 0 <= j < |s'.sessions| ensures SessionInv(cfg, s', j) { assert SessionInv(cfg, s, j); }
        forall e | 0 <= e < |s'.entries| ensures EntryInv(s', e) { assert EntryInv(s, e); }
        forall id | id in s'.registry ensures NameInv(s', id) { assert NameInv(s, id); }
        forall r | 0 <= r < |s'.requests| ensures RequestInv(cfg, s', r) {
          if r < |s.requests| { assert RequestInv(cfg, s, r); }
        }
        forall st | 0 <= st < |s'.streams| ensures StreamInv(s', st) { assert StreamInv(s, st); }
    }
  }

  lemma {:induction false} RunKeepsInv(cfg: Config, schedule: seq<Step>)
    requires Run(cfg, schedule).Some?
    ensures Inv(cfg, Run(cfg, schedule).value)
  {
    if schedule != [] {
      var before := schedule[..|schedule| - 1];
      RunKeepsInv(cfg, before);
      StepKeepsInv(cfg, Run(cfg, before).value, schedule[|schedule| - 1]);
    }
  }

  lemma ReachableInv(cfg: Config, s: State)
    requires Reachable(cfg, s)
    ensures Inv(cfg, s)
  {
    var schedule :| Run(cfg, schedule) == Some(s);
    RunKeepsInv(cfg, schedule);
  }

  // ---- Session ownership ----

  /** Session i is between its successful register and its unregister, under this name. */
  ghost predicate OwnsName(s: State, i: nat, id: string) {
    i < |s.sessions| && s.sessions[i].Owns() && s.sessions[i].auth.Some? && s.sessions[i].auth.value.clientId == id
  }

  /** In every reachable state a name is registered exactly when some session owns it; the
      owner is unique, and the filed entry is the owner's own, with the owner's handle. */
  lemma SessionOwnership(cfg: Config, s: State, id: string)
    requires Reachable(cfg, s)
    ensures id in s.registry <==> exists i: nat :: OwnsName(s, i, id)
    ensures forall i: nat, j: nat :: OwnsName(s, i, id) && OwnsName(s, j, id) ==> i == j
    ensures forall i: nat :: OwnsName(s, i, id) ==>
              id in s.registry && s.registry[id] < |s.entries|
              && s.entries[s.registry[id]].handle == i && s.sessions[i].entry == Some(s.registry[id])
  {
    ReachableInv(cfg, s);
    forall i: nat | OwnsName(s, i, id) ensures id in s.registry && s.registry[id] < |s.entries|
      && s.entries[s.registry[id]].handle == i && s.sessions[i].entry == Some(s.registry[id])
    {
      assert SessionInv(cfg, s, i);
    }
    if id in s.registry {
      assert NameInv(s, id);
      var e := s.registry[id];
      assert EntryInv(s, e);
      assert OwnsName(s, s.entries[e].handle, id);
    }
  }

  /** Only its own unregister takes a name away from its owner: no other step, in particular
      no losing duplicate's registration or departure, changes what is filed under the name. */
  lemma OnlyTheOwnerLeaves(cfg: Config, s: State, step: Step, id: string)
    requires Reachable(cfg, s) && Next(cfg, s, step).Some? && id in s.registry
    ensures s.registry[id] < |s.entries|
    ensures var s' := Next(cfg, s, step).value;
            var owner := s.entries[s.registry[id]].handle;
            if step == SessionStep(owner, Unregister)
            then s'.registry == s.registry - {id} && !s'.sessions[owner].Owns()
            else id in s'.registry && s'.registry[id] == s.registry[id]
  {
    hide Run, Reachable, RequestInv, StreamInv, Routing.Dispatch, RequestNext;
    SessionOwnership(cfg, s, id);
    ReachableInv(cfg, s);
    assert NameInv(s, id);
    if step.SessionStep? {
      assert SessionInv(cfg, s, step.session);
      if step.act.Unregister? {
        assert OwnsName(s, step.session, s.sessions[step.session].auth.value.clientId);
      }
    } else if step.RequestStep? {
      RequestStepFrame(cfg, s, step.request, step.move);
    }
  }

  /** Registration succeeds exactly for a free, unreserved name; a refused session,
      although it was told of its success, is over and its driver aborted. */
  lemma RegistrationOutcome(cfg: Config, s: State, i: nat)
    requires Reachable(cfg, s) && Next(cfg, s, SessionStep(i, Register)).Some?
    ensures var s' := Next(cfg, s, SessionStep(i, Register)).value;
            var id := s.sessions[i].auth.value.clientId;
            if id in ClientRegistry.RESERVED_SUBDOMAINS || id in s.registry
            then s'.registry == s.registry && s'.entries == s.entries
                 && s'.sessions[i].phase == Gone && s'.sessions[i].driver == Aborted
            else OwnsName(s', i, id) && s'.registry == s.registry[id := |s.entries|]
  {
    hide Run, Reachable, RequestInv, StreamInv, EntryInv, NameInv, RequestNext;
    ReachableInv(cfg, s);
    assert SessionInv(cfg, s, i);
  }

  /** The first message decides: exactly an accepted token (any, if none is configured) brings a session on,
      with that request on record; anything else ends it unauthenticated. Nothing else changes. */
  lemma AuthenticationOutcome(cfg: Config, s: State, i: nat, req: AuthReq)
    requires Reachable(cfg, s) && i < |s.sessions| && s.sessions[i].phase.Reading?
    ensures var accepted := cfg.tokens == [] || req.token in cfg.tokens;
      Next(cfg, s, SessionStep(i, Authenticate(req)))
      == Some(s.(sessions := s.sessions[i :=
           if accepted then Session(Some(req), Replied, NotStarted, None) else Session(None, Gone, NotStarted, None)]))
    ensures Next(cfg, s, SessionStep(i, Fail)) == Some(s.(sessions := s.sessions[i := Session(None, Gone, NotStarted, None)]))
  {
    hide Run, Reachable, RequestInv, StreamInv, EntryInv, NameInv;
    ReachableInv(cfg, s);
    assert SessionInv(cfg, s, i);
  }

  /** Whoever is authenticated in a reachable state presented a configured token, or none is configured. */
  lemma OnlyAcceptedTokens(cfg: Config, s: State, i: nat)
    requires Reachable(cfg, s) && i < |s.sessions| && s.sessions[i].auth.Some?
    ensures cfg.tokens == [] || s.sessions[i].auth.value.token in cfg.tokens
  {
    hide Run, Reachable, RequestInv, StreamInv, EntryInv, NameInv;
    ReachableInv(cfg, s);
    assert SessionInv(cfg, s, i);
  }

  /** A session's life: it owns its name only from a running driver on, its unregister comes only after
      the driver has stopped by itself, and a driver is aborted only where registering was refused. */
  lemma DriverLifecycle(cfg: Config, s: State, i: nat)
    requires Reachable(cfg, s) && i < |s.sessions|
    ensures var x := s.sessions[i];
      && (x.driver.NotStarted? <==> x.auth.None? || x.phase.Replied?)
      && (Next(cfg, s, SessionStep(i, Unregister)).Some? ==> x.driver.Stopped?)
      && (x.driver.Aborted? ==> x.phase.Gone? && x.entry.None?)
      && (x.phase.Gone? && x.auth.Some? && x.entry.None? ==> x.driver.Aborted? || x.driver.Stopped?)
  {
    hide Run, Reachable, RequestInv, StreamInv, EntryInv, NameInv;
    ReachableInv(cfg, s);
    assert SessionInv(cfg, s, i);
  }

  // ---- Delivery ----

  /** Session i presented an accepted token and asked for this name. */
  ghost predicate AuthenticatedAs(cfg: Config, s: State, i: nat, id: string) {
    i < |s.sessions| && s.sessions[i].auth.Some? && s.sessions[i].auth.value.clientId == id
    && (cfg.tokens == [] || s.sessions[i].auth.value.token in cfg.tokens)
  }

  /** Whatever a request was ever written to is a stream of a session that authenticated, with
      an accepted token, as the name in the request's Host, even if that session has since
      ended or been replaced; that name is not reserved and the stream carries no other request. */
  lemma DeliveryIntegrity(cfg: Config, s: State, r: nat)
    requires Reachable(cfg, s) && r < |s.requests| && s.requests[r].stream.Some?
    ensures var q := s.requests[r];
      q.stream.value < |s.streams| && q.entry.Some? && q.entry.value < |s.entries| && q.host.Some? &&
      var name := s.entries[q.entry.value].clientId;
      && Routing.BeforeColon(q.host.value) == Routing.HostFor(name, cfg.domain)
      && AuthenticatedAs(cfg, s, s.streams[q.stream.value].session, name)
      && name !in ClientRegistry.RESERVED_SUBDOMAINS
      && s.streams[q.stream.value].source == Proxied(r)
    ensures forall k :: 0 <= k < |s.requests| && s.requests[k].stream == s.requests[r].stream ==> k == r
  {
    ReachableInv(cfg, s);
    var q := s.requests[r];
    assert RequestInv(cfg, s, r);
    assert EntryInv(s, q.entry.value);
    assert SessionInv(cfg, s, s.entries[q.entry.value].handle);
    Routing.RoutedHost(q.host, q.path, cfg.domain, s.entries[q.entry.value].clientId);
    forall k | 0 <= k < |s.requests| && s.requests[k].stream == q.stream ensures k == r {
      assert RequestInv(cfg, s, k);
    }
  }

  /** Sent bytes are only ever logged against a stream. */
  lemma NothingSentWithoutStream(cfg: Config, s: State, r: nat)
    requires Reachable(cfg, s) && r < |s.requests| && s.requests[r].stream.None?
    ensures s.requests[r].sent == []
  {
    ReachableInv(cfg, s);
    assert RequestInv(cfg, s, r);
  }

  /** No reserved name is ever registered. */
  lemma ReservedNeverRegistered(cfg: Config, s: State, id: string)
    requires Reachable(cfg, s) && id in s.registry
    ensures id !in ClientRegistry.RESERVED_SUBDOMAINS
  {
    ReachableInv(cfg, s);
    assert NameInv(s, id);
    assert EntryInv(s, s.registry[id]);
  }

  // ---- Stream markers ----

  /** The bytes a client passes to its local service: a client that announced a version
      reads one marker byte first and answers heartbeats itself; an older one passes everything on. */
  function ForwardedToLocal(version: Option<string>, content: seq<byte>): seq<byte> {
    if version.None? then content
    else if content == [] || content[0] == STREAM_TYPE_HEARTBEAT then []
    else content[1..]
  }

  /** For every stream of every reachable state, at every moment: a heartbeat stream exists only for
      clients that announced a version and none of it reaches the local service; of a
      proxied stream exactly the request bytes written so far do. */
  lemma MarkerTransparency(cfg: Config, s: State, st: nat)
    requires Reachable(cfg, s) && st < |s.streams|
    ensures var x := s.streams[st];
      x.session < |s.sessions| && s.sessions[x.session].auth.Some? &&
      var version := s.sessions[x.session].auth.value.version;
      match x.source
      case Heartbeat => version.Some? && ForwardedToLocal(version, x.content) == []
      case Proxied(r) => r < |s.requests| && ForwardedToLocal(version, x.content) == s.requests[r].sent
  {
    ReachableInv(cfg, s);
    assert StreamInv(s, st);
  }

  /** The client takes the stream for a heartbeat and answers it. */
  predicate AnsweredByClient(version: Option<string>, content: seq<byte>) {
    version.Some? && content != [] && content[0] == STREAM_TYPE_HEARTBEAT
  }

  /** Exactly the heartbeat streams whose byte was written are answered as heartbeats, no request ever is. */
  lemma OnlyHeartbeatsAnswered(cfg: Config, s: State, st: nat)
    requires Reachable(cfg, s) && st < |s.streams|
    ensures var x := s.streams[st];
      x.session < |s.sessions| && s.sessions[x.session].auth.Some? &&
      (AnsweredByClient(s.sessions[x.session].auth.value.version, x.content) <==> x.source.Heartbeat? && x.content != [])
  {
    ReachableInv(cfg, s);
    assert StreamInv(s, st);
  }

  /** A probe opens one more stream to the session's client, which answers it exactly if its byte was written. */
  lemma ProbeOpensStream(cfg: Config, s: State, i: nat, written: bool)
    requires Reachable(cfg, s) && Next(cfg, s, SessionStep(i, Probe(written))).Some?
    ensures var s' := Next(cfg, s, SessionStep(i, Probe(written))).value;
      && |s'.streams| == |s.streams| + 1 && s.streams <= s'.streams && s' == s.(streams := s'.streams)
      && var x := s'.streams[|s.streams|];
         x.session == i && x.source == Heartbeat && s.sessions[i].auth.Some?
         && (AnsweredByClient(s.sessions[i].auth.value.version, x.content) <==> written)
  {
    hide Run, Reachable;
  }

  /** Whatever request bytes are written next reach the local service behind those before them, and no other stream. */
  lemma ChunksArrive(cfg: Config, s: State, r: nat, bytes: seq<byte>)
    requires Reachable(cfg, s) && Next(cfg, s, RequestStep(r, Chunk(bytes))).Some?
    ensures var q, s' := s.requests[r], Next(cfg, s, RequestStep(r, Chunk(bytes))).value;
      q.stream.Some? && q.stream.value < |s.streams| == |s'.streams| &&
      var session := s.streams[q.stream.value].session;
      session < |s.sessions| && s.sessions[session].auth.Some? &&
      var version := s.sessions[session].auth.value.version;
      && ForwardedToLocal(version, s'.streams[q.stream.value].content)
         == ForwardedToLocal(version, s.streams[q.stream.value].content) + bytes
      && forall st :: 0 <= st < |s.streams| && st != q.stream.value ==> s'.streams[st] == s.streams[st]
  {
    hide Run, Reachable, SessionInv, EntryInv, NameInv;
    ReachableInv(cfg, s);
    assert RequestInv(cfg, s, r);
    assert StreamInv(s, s.requests[r].stream.value);
  }

  /** The two sides must agree on markers: had the server written them for a client that does
      not read them, or not written them for one that does, the request would arrive altered
      (unless, in the second case, it is empty). */
  lemma MarkersMustAgree(version: Option<string>, marked: bool, body: seq<byte>)
    ensures ForwardedToLocal(version, (if marked then [STREAM_TYPE_PROXY] else []) + body) == body
       <==> marked == version.Some? || (!marked && body == [])
  {
    var content := (if marked then [STREAM_TYPE_PROXY] else []) + body;
    if marked && version.None? {
      assert |content| == |body| + 1;
    } else if !marked && version.Some? && body != [] {
      assert |ForwardedToLocal(version, content)| < |body|;
    }
  }

  // ---- The TLS gate ----

  /** In every reachable state the gate approves name.domain exactly when the name is reserved
      or registered, and an approved registered name is routed to its own tunnel, with or
      without a port, exactly when it is non-empty and colon-free, and so is the domain. */
  lemma GateAgreesWithRouting(cfg: Config, s: State, name: string, port: string, path: string, fallback: Option<nat>)
    requires Reachable(cfg, s)
    ensures Routing.TlsCheck(Routing.HostFor(name, cfg.domain), cfg.domain, s.registry, fallback)
         == if name in ClientRegistry.RESERVED_SUBDOMAINS || name in s.registry then Routing.Approved else Routing.Refused
    ensures name in s.registry ==>
      var host := Routing.HostFor(name, cfg.domain);
      && (Routing.Dispatch(Some(host), path, cfg.domain) == Routing.Tunnel(name) <==>
           name != "" && ':' !in name && ':' !in cfg.domain && path != Routing.TLS_CHECK_PATH)
      && Routing.Dispatch(Some(host + (":" + port)), path, cfg.domain) == Routing.Dispatch(Some(host), path, cfg.domain)
  {
    Routing.StripSuffixInverts(name, "." + cfg.domain, Routing.HostFor(name, cfg.domain));
    Routing.RoutedExactlyWhen(name, cfg.domain, port, path);
    if name in s.registry {
      ReservedNeverRegistered(cfg, s, name);
    }
  }

  // ---- States that are reached ----

  /** Reachability is closed under steps. */
  lemma ReachStep(cfg: Config, s: State, step: Step, s': State)
    requires Reachable(cfg, s) && Next(cfg, s, step).Some?
    requires var n := Next(cfg, s, step).value;
      && n.sessions == s'.sessions && n.entries == s'.entries && n.registry == s'.registry
      && n.requests == s'.requests && n.streams == s'.streams && n.activeConnections == s'.activeConnections
    ensures Reachable(cfg, s')
  {
    var schedule :| Run(cfg, schedule) == Some(s);
    assert (schedule + [step])[..|schedule|] == schedule;
    assert Run(cfg, schedule + [step]) == Some(s');
  }

  lemma InitReachable(cfg: Config)
    ensures Reachable(cfg, Init)
  {
    assert Run(cfg, []) == Some(Init);
  }

  /** One session whose client has been sent the success reply and whose driver runs. */
  function Told(req: AuthReq): State {
    Init.(sessions := [Session(Some(req), Spawned, Running, None)])
  }

  /** A client that presented an accepted token and was told of its success. */
  lemma ConnectReachable(cfg: Config, req: AuthReq)
    requires cfg.tokens == [] || req.token in cfg.tokens
    ensures Reachable(cfg, Told(req))
  {
    hide Run, Reachable, Routing.Dispatch;
    var s0 := Init.(sessions := [Session(None, Reading, NotStarted, None)]);
    var s1 := Init.(sessions := [Session(Some(req), Replied, NotStarted, None)]);
    InitReachable(cfg);
    ReachStep(cfg, Init, Accept, s0);
    ReachStep(cfg, s0, SessionStep(0, Authenticate(req)), s1);
    ReachStep(cfg, s1, SessionStep(0, Spawn), Told(req));
  }

  /** For every reserved name: a client with an accepted token is told of its success and refused. */
  lemma ToldButRefused(cfg: Config, req: AuthReq) returns (told: State, refused: State)
    requires (cfg.tokens == [] || req.token in cfg.tokens) && req.clientId in ClientRegistry.RESERVED_SUBDOMAINS
    ensures Reachable(cfg, told) && told.sessions == [Session(Some(req), Spawned, Running, None)]
    ensures Reachable(cfg, refused) && refused.sessions == [Session(Some(req), Gone, Aborted, None)]
    ensures Next(cfg, told, SessionStep(0, Register)) == Some(refused) && refused.registry == map[]
  {
    hide Run, Reachable;
    told, refused := Told(req), Init.(sessions := [Session(Some(req), Gone, Aborted, None)]);
    ConnectReachable(cfg, req);
    ReachStep(cfg, told, SessionStep(0, Register), refused);
    assert [Session(Some(req), Spawned, Running, None)][0 := refused.sessions[0]] == refused.sessions;
  }

  lemma RegisterReachable(cfg: Config, req: AuthReq) returns (s: State)
    requires (cfg.tokens == [] || req.token in cfg.tokens) && req.clientId !in ClientRegistry.RESERVED_SUBDOMAINS
    ensures Reachable(cfg, s) && s.registry == map[req.clientId := 0]
    ensures s.sessions == [Session(Some(req), Registered, Running, Some(0))]
  {
    hide Run, Reachable;
    ConnectReachable(cfg, req);
    s := Init.(sessions := [Session(Some(req), Registered, Running, Some(0))],
               entries := [Entry(req.clientId, 0, req.SupportsHeartbeat(), 0)],
               registry := map[req.clientId := 0]);
    ReachStep(cfg, Told(req), SessionStep(0, Register), s);
  }

  /** For every name that is empty or has a colon: it can be registered, the gate approves it then, and no request
      whatever reaches it. */
  lemma ApprovedButUnreachable(cfg: Config, req: AuthReq, fallback: Option<nat>) returns (s: State)
    requires (cfg.tokens == [] || req.token in cfg.tokens) && (req.clientId == "" || ':' in req.clientId)
    ensures Reachable(cfg, s) && req.clientId in s.registry
    ensures Routing.TlsCheck(Routing.HostFor(req.clientId, cfg.domain), cfg.domain, s.registry, fallback) == Routing.Approved
    ensures forall host, path :: Routing.Dispatch(host, path, cfg.domain) != Routing.Tunnel(req.clientId)
  {
    s := RegisterReachable(cfg, req);
    GateAgreesWithRouting(cfg, s, req.clientId, "", "", fallback);
    assert ':' in req.clientId ==> ':' in Routing.HostFor(req.clientId, cfg.domain);
    forall host: Option<string>, path | Routing.Dispatch(host, path, cfg.domain) == Routing.Tunnel(req.clientId) ensures false {
      Routing.RoutedHost(host, path, cfg.domain, req.clientId);
      Routing.BeforeColonCuts(host.value);
    }
  }
}
