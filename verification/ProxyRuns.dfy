/** The uninterrupted handler and the step system agree: taken one after another, a request's
    steps through its counted region have the outcome that ProxyHandler computes. */
module ProxyRuns {
  import opened Common
  import opened ServerSteps
  import opened ServerSafety
  import opened ServerProgress
  import opened ProxyHandler
  import Routing

  /** The actions of one request in a row. */
  function RunOf(cfg: Config, s: State, r: nat, acts: seq<RequestAction>): Option<State>
    decreases |acts|
  {
    if acts == [] then Some(s)
    else match Next(cfg, s, RequestStep(r, acts[0]))
      case None => None
      case Some(s') => RunOf(cfg, s', r, acts[1..])
  }

  lemma RunCons(cfg: Config, s: State, r: nat, a: RequestAction, rest: seq<RequestAction>)
    requires Next(cfg, s, RequestStep(r, a)).Some?
    ensures RunOf(cfg, s, r, [a] + rest) == RunOf(cfg, Next(cfg, s, RequestStep(r, a)).value, r, rest)
  {
    assert ([a] + rest)[1..] == rest;
  }

  const Leaving: seq<RequestAction> := [ReleaseStream] + ([ReleaseConnection] + ([Return] + []))

  function FromBuild(io: Io): seq<RequestAction> {
    [Build(io.build)] + if io.build then [Respond] + Leaving else Leaving
  }

  function FromHandshake(io: Io): seq<RequestAction> {
    [Handshake(io.handshake)] + if io.handshake then FromBuild(io) else Leaving
  }

  function FromMark(heartbeat: bool, io: Io): seq<RequestAction> {
    [Mark(io.mark, false)] + if heartbeat && !io.mark then Leaving else FromHandshake(io)
  }

  /** What a request does from taking its entry to its return, as its environment answers. */
  function Actions(heartbeat: bool, io: Io): seq<RequestAction> {
    [CountStream] + ([CountConnection] + ([Open(io.open)] + if io.open then FromMark(heartbeat, io) else Leaving))
  }

  /** s with request r in this condition and having opened these streams, counted on its entry and globally. */
  function During(s: State, r: nat, e: nat, q: Request, onEntry: nat, globally: nat, links: seq<Stream>): State
    requires r < |s.requests| && e < |s.entries|
  {
    s.(requests := s.requests[r := q],
       entries := s.entries[e := s.entries[e].(active := Wrap(s.entries[e].active + onEntry))],
       activeConnections := Wrap(s.activeConnections + globally),
       streams := s.streams + links)
  }

  lemma OneMove(cfg: Config, s: State, r: nat, a: RequestAction, rest: seq<RequestAction>, s': State)
    requires Next(cfg, s, RequestStep(r, a)).Some?
    requires var n := Next(cfg, s, RequestStep(r, a)).value;
      && n.sessions == s'.sessions && n.entries == s'.entries && n.registry == s'.registry
      && n.requests == s'.requests && n.streams == s'.streams && n.activeConnections == s'.activeConnections
    ensures RunOf(cfg, s, r, [a] + rest) == RunOf(cfg, s', r, rest)
  {
    hide Next;
    RunCons(cfg, s, r, a, rest);
  }

  /** As OneMove, for a request counted both ways that only changes condition. */
  lemma OneTurn(cfg: Config, s: State, r: nat, e: nat, q: Request, links: seq<Stream>, a: RequestAction, rest: seq<RequestAction>, q': Request)
    requires r < |s.requests| && e < |s.entries|
    requires Next(cfg, During(s, r, e, q, 1, 1, links), RequestStep(r, a))
          == Some(Moved(During(s, r, e, q, 1, 1, links), r, q'))
    ensures RunOf(cfg, During(s, r, e, q, 1, 1, links), r, [a] + rest)
         == RunOf(cfg, During(s, r, e, q', 1, 1, links), r, rest)
  {
    hide Next, RunOf;
    OneMove(cfg, During(s, r, e, q, 1, 1, links), r, a, rest, During(s, r, e, q', 1, 1, links));
  }

  lemma NoMoves(cfg: Config, s: State, r: nat)
    ensures RunOf(cfg, s, r, []) == Some(s)
  {
  }

  lemma ReleaseRun(cfg: Config, s: State, r: nat, e: nat, q: Request, links: seq<Stream>, rest: seq<RequestAction>)
    requires r < |s.requests| && e < |s.entries| && q.entry == Some(e) && q.phase.Releasing?
    ensures RunOf(cfg, During(s, r, e, q, 1, 1, links), r, [ReleaseStream] + rest)
         == RunOf(cfg, During(s, r, e, q.(phase := HalfReleased), 0, 1, links), r, rest)
  {
    hide RunOf, Wrap;
    UpThenDown(s.entries[e].active);
    SameWrap(s.entries[e].active);
    OneMove(cfg, During(s, r, e, q, 1, 1, links), r, ReleaseStream, rest, During(s, r, e, q.(phase := HalfReleased), 0, 1, links));
  }

  lemma SameWrap(n: u64)
    ensures Wrap(n) == n
  {
  }

  lemma LeavingRun(cfg: Config, s: State, r: nat, e: nat, q: Request, links: seq<Stream>)
    requires r < |s.requests| && e < |s.entries| && q.entry == Some(e) && q.phase.Releasing?
    ensures RunOf(cfg, During(s, r, e, q, 1, 1, links), r, Leaving)
         == Some(During(s, r, e, q.(phase := Finished), 0, 0, links))
  {
    hide RunOf, Wrap;
    UpThenDown(s.activeConnections);
    SameWrap(s.activeConnections);
    var half, out, gone := q.(phase := HalfReleased), q.(phase := Released), q.(phase := Finished);
    ReleaseRun(cfg, s, r, e, q, links, [ReleaseConnection] + ([Return] + []));
    OneMove(cfg, During(s, r, e, half, 0, 1, links), r, ReleaseConnection, [Return] + [], During(s, r, e, out, 0, 0, links));
    OneMove(cfg, During(s, r, e, out, 0, 0, links), r, Return, [], During(s, r, e, gone, 0, 0, links));
    NoMoves(cfg, During(s, r, e, gone, 0, 0, links), r);
  }

  lemma BuildRun(cfg: Config, s: State, r: nat, e: nat, q: Request, links: seq<Stream>, io: Io)
    requires r < |s.requests| && e < |s.entries| && q.entry == Some(e) && q.phase.Building?
    ensures RunOf(cfg, During(s, r, e, q, 1, 1, links), r, FromBuild(io))
         == Some(During(s, r, e, q.(phase := Finished, forwarded := io.build), 0, 0, links))
  {
    hide RunOf, Wrap;
    var over := q.(phase := Releasing, forwarded := io.build);
    if io.build {
      var sending := q.(phase := Sending, forwarded := true);
      OneTurn(cfg, s, r, e, q, links, Build(true), [Respond] + Leaving, sending);
      OneTurn(cfg, s, r, e, sending, links, Respond, Leaving, over);
    } else {
      OneTurn(cfg, s, r, e, q, links, Build(false), Leaving, over);
    }
    LeavingRun(cfg, s, r, e, over, links);
  }

  lemma HandshakeRun(cfg: Config, s: State, r: nat, e: nat, q: Request, links: seq<Stream>, io: Io)
    requires r < |s.requests| && e < |s.entries| && q.entry == Some(e) && q.phase.Handshaking? && !q.forwarded
    ensures RunOf(cfg, During(s, r, e, q, 1, 1, links), r, FromHandshake(io))
         == Some(During(s, r, e, q.(phase := Finished, forwarded := io.handshake && io.build), 0, 0, links))
  {
    hide RunOf, Wrap;
    if io.handshake {
      OneTurn(cfg, s, r, e, q, links, Handshake(true), FromBuild(io), q.(phase := Building));
      BuildRun(cfg, s, r, e, q.(phase := Building), links, io);
    } else {
      OneTurn(cfg, s, r, e, q, links, Handshake(false), Leaving, q.(phase := Releasing));
      LeavingRun(cfg, s, r, e, q.(phase := Releasing), links);
    }
  }

  lemma MarkRun(cfg: Config, s: State, r: nat, e: nat, q: Request, session: nat, io: Io)
    requires r < |s.requests| && e < |s.entries| && q.entry == Some(e) && q.phase.Marking? && !q.forwarded
    requires q.stream == Some(|s.streams|)
    ensures var heartbeat := s.entries[e].heartbeat;
      var marked := heartbeat && io.mark;
      RunOf(cfg, During(s, r, e, q, 1, 1, [Stream(session, Proxied(r), [])]), r, FromMark(heartbeat, io))
      == Some(During(s, r, e,
           q.(phase := Finished, forwarded := (heartbeat ==> io.mark) && io.handshake && io.build), 0, 0,
           [Stream(session, Proxied(r), if marked then [STREAM_TYPE_PROXY] else [])]))
  {
    hide RunOf, Wrap;
    var blank, marked := [Stream(session, Proxied(r), [])], [Stream(session, Proxied(r), [STREAM_TYPE_PROXY])];
    var on, over := q.(phase := Handshaking), q.(phase := Releasing);
    if !s.entries[e].heartbeat {
      OneTurn(cfg, s, r, e, q, blank, Mark(io.mark, false), FromHandshake(io), on);
      HandshakeRun(cfg, s, r, e, on, blank, io);
    } else if io.mark {
      assert [] + [STREAM_TYPE_PROXY] == [STREAM_TYPE_PROXY];
      assert (s.streams + blank)[|s.streams| := marked[0]] == s.streams + marked;
      OneMove(cfg, During(s, r, e, q, 1, 1, blank), r, Mark(true, false), FromHandshake(io), During(s, r, e, on, 1, 1, marked));
      HandshakeRun(cfg, s, r, e, on, marked, io);
    } else {
      OneTurn(cfg, s, r, e, q, blank, Mark(false, false), Leaving, over);
      LeavingRun(cfg, s, r, e, over, blank);
    }
  }

  lemma OpenRun(cfg: Config, s: State, r: nat, e: nat, q: Request, io: Io)
    requires r < |s.requests| && e < |s.entries| && q.entry == Some(e) && q.phase.Opening? && !q.forwarded && q.stream.None?
    requires io.open ==> s.entries[e].handle < |s.sessions| && s.sessions[s.entries[e].handle].driver.Running?
    ensures var heartbeat := s.entries[e].heartbeat;
      var o := Forward(s.entries[e].handle, heartbeat, io);
      RunOf(cfg, During(s, r, e, q, 1, 1, []), r, [Open(io.open)] + if io.open then FromMark(heartbeat, io) else Leaving)
      == Some(Answered(s, r, e, q, o))
  {
    hide RunOf, Wrap;
    var heartbeat, session := s.entries[e].heartbeat, s.entries[e].handle;
    assert s.streams + [] == s.streams;
    if io.open {
      var on := q.(phase := Marking, stream := Some(|s.streams|));
      OneMove(cfg, During(s, r, e, q, 1, 1, []), r, Open(true), FromMark(heartbeat, io),
              During(s, r, e, on, 1, 1, [Stream(session, Proxied(r), [])]));
      MarkRun(cfg, s, r, e, on, session, io);
    } else {
      OneTurn(cfg, s, r, e, q, [], Open(false), Leaving, q.(phase := Releasing));
      LeavingRun(cfg, s, r, e, q.(phase := Releasing), []);
    }
  }

  /** s once request r has returned with this outcome: gauges as before, at most one new stream,
      which belongs to the outcome's session and carries the outcome's marker. */
  function Answered(s: State, r: nat, e: nat, q: Request, o: Outcome): State
    requires r < |s.requests| && e < |s.entries|
  {
    During(s, r, e, q.(phase := Finished, forwarded := o.forwarded, stream := if o.handle.Some? then Some(|s.streams|) else None), 0, 0,
           if o.handle.Some? then [Stream(o.handle.value, Proxied(r), o.marker)] else [])
  }

  /** In every reachable state: a request that holds an entry and runs on without interruption
      returns, gives both gauges back, and has written and forwarded exactly what Forward says. */
  lemma SoloRun(cfg: Config, s: State, r: nat, io: Io)
    requires Reachable(cfg, s) && r < |s.requests| && s.requests[r].phase.Holding?
    requires io.open ==> CanOpen(s, s.requests[r])
    ensures var q := s.requests[r];
      var e := q.entry.GetOr(0);
      q.entry.Some? && e < |s.entries| &&
      var o := Forward(s.entries[e].handle, s.entries[e].heartbeat, io);
      var stream := if o.handle.Some? then Some(|s.streams|) else None;
      RunOf(cfg, s, r, Actions(s.entries[e].heartbeat, io))
      == Some(s.(requests := s.requests[r := q.(phase := Finished, forwarded := o.forwarded, stream := stream)],
                 streams := s.streams + if o.handle.Some? then [Stream(o.handle.value, Proxied(r), o.marker)] else []))
  {
    hide RunOf, Wrap, Reachable, Inv, Forward, FromMark, Leaving;
    ReachableInv(cfg, s);
    HoldingIsClean(cfg, s, r);
    var q, e := s.requests[r], s.requests[r].entry.value;
    SameWrap(s.entries[e].active);
    SameWrap(s.activeConnections);
    var counted, ready := q.(phase := CountedStream), q.(phase := Opening);
    var rest := [Open(io.open)] + if io.open then FromMark(s.entries[e].heartbeat, io) else Leaving;
    assert s.streams + [] == s.streams && s.entries[e := s.entries[e]] == s.entries;
    OneMove(cfg, s, r, CountStream, [CountConnection] + rest, During(s, r, e, counted, 1, 0, []));
    OneMove(cfg, During(s, r, e, counted, 1, 0, []), r, CountConnection, rest, During(s, r, e, ready, 1, 1, []));
    OpenRun(cfg, s, r, e, ready, io);
  }

  lemma HoldingIsClean(cfg: Config, s: State, r: nat)
    requires Inv(cfg, s) && r < |s.requests| && s.requests[r].phase.Holding?
    ensures var q := s.requests[r]; q.entry.Some? && q.entry.value < |s.entries| && q.stream.None? && !q.forwarded
  {
    hide SessionInv, EntryInv, StreamInv, NameInv;
    assert RequestInv(cfg, s, r);
  }

  /** From its arrival on: the limiter's decision, the lookup, and if both let it through the rest. */
  function WholeRun(allowed: bool, found: bool, heartbeat: bool, io: Io): seq<RequestAction> {
    [RateCheck(allowed)]
    + if !allowed then [] else [Lookup] + if found then Actions(heartbeat, io) else []
  }

  /** A refused request, and one for an unknown name, returns at once, holding nothing. */
  lemma TurnedAway(cfg: Config, s: State, r: nat, heartbeat: bool, io: Io)
    requires Reachable(cfg, s) && r < |s.requests| && s.requests[r].phase.Arrived?
    ensures var q, target := s.requests[r], Routing.Dispatch(s.requests[r].host, s.requests[r].path, cfg.domain);
      var gone := Some(s.(requests := s.requests[r := q.(phase := Finished)]));
      && target.Tunnel? && q.entry.None? && q.stream.None?
      && RunOf(cfg, s, r, WholeRun(false, target.clientId in s.registry, heartbeat, io)) == gone
      && (target.clientId !in s.registry ==> RunOf(cfg, s, r, WholeRun(true, false, heartbeat, io)) == gone)
  {
    hide RunOf, Wrap, Reachable, Inv, Actions, Routing.Dispatch;
    ReachableInv(cfg, s);
    ArrivedIsClean(cfg, s, r);
    var q := s.requests[r];
    var gone := s.(requests := s.requests[r := q.(phase := Finished)]);
    NoMoves(cfg, gone, r);
    assert [RateCheck(false)] + [] == [RateCheck(false)] && [Lookup] + [] == [Lookup];
    OneMove(cfg, s, r, RateCheck(false), [], gone);
    if Routing.Dispatch(q.host, q.path, cfg.domain).clientId !in s.registry {
      var admitted := s.(requests := s.requests[r := q.(phase := Admitted)]);
      assert admitted.requests[r := q.(phase := Finished)] == gone.requests;
      OneMove(cfg, s, r, RateCheck(true), [Lookup] + [], admitted);
      OneMove(cfg, admitted, r, Lookup, [], gone);
    }
  }

  /** An admitted request for a registered name ends as the handler computes it for that name's entry. */
  lemma LetThrough(cfg: Config, s: State, r: nat, io: Io)
    requires Reachable(cfg, s) && r < |s.requests| && s.requests[r].phase.Arrived?
    requires Routing.Dispatch(s.requests[r].host, s.requests[r].path, cfg.domain).Tunnel?
    requires var id := Routing.Dispatch(s.requests[r].host, s.requests[r].path, cfg.domain).clientId;
      id in s.registry && (io.open ==> CanOpen(s, s.requests[r].(entry := Some(s.registry[id]))))
    ensures var q := s.requests[r];
      var e := s.registry[Routing.Dispatch(q.host, q.path, cfg.domain).clientId];
      e < |s.entries| &&
      var o := Forward(s.entries[e].handle, s.entries[e].heartbeat, io);
      var stream := if o.handle.Some? then Some(|s.streams|) else None;
      RunOf(cfg, s, r, WholeRun(true, true, s.entries[e].heartbeat, io))
      == Some(s.(requests := s.requests[r := q.(phase := Finished, entry := Some(e), forwarded := o.forwarded, stream := stream)],
                 streams := s.streams + if o.handle.Some? then [Stream(o.handle.value, Proxied(r), o.marker)] else []))
  {
    hide RunOf, Wrap, Reachable, Inv, Forward, Actions, Routing.Dispatch;
    ReachableInv(cfg, s);
    ArrivedIsClean(cfg, s, r);
    var q := s.requests[r];
    var id := Routing.Dispatch(q.host, q.path, cfg.domain).clientId;
    var e := s.registry[id];
    var admitted := s.(requests := s.requests[r := q.(phase := Admitted)]);
    var holding := s.(requests := s.requests[r := q.(phase := Holding, entry := Some(e))]);
    assert admitted.requests[r := q.(phase := Holding, entry := Some(e))] == holding.requests;
    ReachStep(cfg, s, RequestStep(r, RateCheck(true)), admitted);
    ReachStep(cfg, admitted, RequestStep(r, Lookup), holding);
    SoloRun(cfg, holding, r, io);
    var rest := Actions(s.entries[e].heartbeat, io);
    OneMove(cfg, s, r, RateCheck(true), [Lookup] + rest, admitted);
    OneMove(cfg, admitted, r, Lookup, rest, holding);
    var done := RunOf(cfg, holding, r, rest).value;
    assert done.requests == s.requests[r := done.requests[r]];
  }

  lemma ArrivedIsClean(cfg: Config, s: State, r: nat)
    requires Inv(cfg, s) && r < |s.requests| && s.requests[r].phase.Arrived?
    ensures var q, target := s.requests[r], Routing.Dispatch(s.requests[r].host, s.requests[r].path, cfg.domain);
      && target.Tunnel? && q.entry.None? && q.stream.None? && !q.forwarded
      && (target.clientId in s.registry ==> s.registry[target.clientId] < |s.entries|)
  {
    hide SessionInv, EntryInv, StreamInv;
    assert RequestInv(cfg, s, r);
    var target := Routing.Dispatch(s.requests[r].host, s.requests[r].path, cfg.domain);
    if target.Tunnel? && target.clientId in s.registry {
      assert NameInv(s, target.clientId);
    }
  }
}
