/** Conservation of the two gauges that handle_proxy_request keeps: active_streams on each
    entry and the global active_connections. Both are wrapping 64-bit atomics. */
module ServerGauges {
  import opened Common
  import opened ServerSteps
  import opened ServerSafety
  import FrameCodec
  import ClientRegistry
  import Routing

  // ---- Which requests are counted where ----

  function InStreams(): Request -> bool { (q: Request) => q.InStreamRegion() }

  function InConnections(): Request -> bool { (q: Request) => q.InConnectionRegion() }

  function OnEntry(e: nat): Request -> bool { (q: Request) => q.entry == Some(e) && q.InStreamRegion() }

  /** Dropped futures stay in both regions for ever: nothing decrements for them. */
  function WasDropped(): Request -> bool { (q: Request) => q.phase.Dropped? }

  function InsideStreams(): Request -> bool { (q: Request) => q.InStreamRegion() && !q.phase.Dropped? }

  function InsideConnections(): Request -> bool { (q: Request) => q.InConnectionRegion() && !q.phase.Dropped? }

  function InsideOn(e: nat): Request -> bool {
    (q: Request) => q.entry == Some(e) && q.InStreamRegion() && !q.phase.Dropped?
  }

  function DroppedOn(e: nat): Request -> bool { (q: Request) => q.entry == Some(e) && q.phase.Dropped? }

  function BetweenIncrements(): Request -> bool { (q: Request) => q.phase.CountedStream? }

  function BetweenDecrements(): Request -> bool { (q: Request) => q.phase.HalfReleased? }

  // ---- The invariant: every gauge is its count, modulo 2^64 ----

  ghost predicate EntryGaugeInv(s: State, e: nat)
    requires e < |s.entries|
  {
    s.entries[e].active == Wrap(Count(s.requests, OnEntry(e)))
  }

  ghost predicate GaugeInv(s: State) {
    && s.activeConnections == Wrap(Count(s.requests, InConnections()))
    && forall e :: 0 <= e < |s.entries| ==> EntryGaugeInv(s, e)
  }

  /** A request step moves the global gauge exactly as it moves the request in or out of its region. */
  lemma RequestStepMovesConnections(cfg: Config, s: State, r: nat, a: RequestAction)
    requires r < |s.requests| && RequestNext(cfg, s, r, a).Some?
    ensures var s' := RequestNext(cfg, s, r, a).value;
      && s'.requests == s.requests[r := s'.requests[r]]
      && s'.activeConnections == Wrap(s.activeConnections
           + Bit(s'.requests[r].InConnectionRegion()) - Bit(s.requests[r].InConnectionRegion()))
  {
    hide Routing.Dispatch;
  }

  lemma RequestStepKeepsConnections(cfg: Config, s: State, r: nat, a: RequestAction)
    requires s.activeConnections == Wrap(Count(s.requests, InConnections()))
    requires r < |s.requests| && RequestNext(cfg, s, r, a).Some?
    ensures var s' := RequestNext(cfg, s, r, a).value;
            s'.activeConnections == Wrap(Count(s'.requests, InConnections()))
  {
    hide RequestNext, Wrap, Count;
    RequestStepMovesConnections(cfg, s, r, a);
    var q, q' := s.requests[r], RequestNext(cfg, s, r, a).value.requests[r];
    CountUpdate(s.requests, r, q', InConnections());
    WrapShift(Count(s.requests, InConnections()), Bit(InConnections()(q')) - Bit(InConnections()(q)));
  }

  /** A request step moves an entry's gauge exactly as it moves the request in or out of its region. */
  lemma RequestStepMovesGauge(cfg: Config, s: State, r: nat, a: RequestAction, e: nat)
    requires r < |s.requests| && RequestNext(cfg, s, r, a).Some? && RequestInv(cfg, s, r) && e < |s.entries|
    ensures var s' := RequestNext(cfg, s, r, a).value;
      && |s'.entries| == |s.entries|
      && s'.requests == s.requests[r := s'.requests[r]]
      && s'.entries[e].active == Wrap(s.entries[e].active
           + Bit(s'.requests[r].entry == Some(e) && s'.requests[r].InStreamRegion())
           - Bit(s.requests[r].entry == Some(e) && s.requests[r].InStreamRegion()))
  {
    hide Routing.Dispatch;
  }

  lemma RequestStepKeepsEntryGauge(cfg: Config, s: State, r: nat, a: RequestAction, e: nat)
    requires r < |s.requests| && RequestNext(cfg, s, r, a).Some? && RequestInv(cfg, s, r)
    requires e < |s.entries| && EntryGaugeInv(s, e)
    ensures |RequestNext(cfg, s, r, a).value.entries| == |s.entries|
    ensures EntryGaugeInv(RequestNext(cfg, s, r, a).value, e)
  {
    hide RequestNext, Wrap, Count, RequestInv;
    RequestStepMovesGauge(cfg, s, r, a, e);
    var q, q' := s.requests[r], RequestNext(cfg, s, r, a).value.requests[r];
    CountUpdate(s.requests, r, q', OnEntry(e));
    WrapShift(Count(s.requests, OnEntry(e)), Bit(OnEntry(e)(q')) - Bit(OnEntry(e)(q)));
  }

  /** Nobody can be counted on an entry that does not exist yet. */
  lemma FreshEntryUncounted(cfg: Config, s: State)
    requires Inv(cfg, s)
    ensures Count(s.requests, OnEntry(|s.entries|)) == 0
  {
    hide Count, SessionInv, StreamInv, EntryInv, NameInv;
    CountZero(s.requests, OnEntry(|s.entries|));
    forall r | 0 <= r < |s.requests| ensures !OnEntry(|s.entries|)(s.requests[r]) {
      assert RequestInv(cfg, s, r);
    }
  }

  lemma RequestStepKeepsGauges(cfg: Config, s: State, r: nat, a: RequestAction)
    requires Inv(cfg, s) && GaugeInv(s) && r < |s.requests| && RequestNext(cfg, s, r, a).Some?
    ensures GaugeInv(RequestNext(cfg, s, r, a).value)
  {
    hide RequestNext, EntryGaugeInv, RequestInv, SessionInv, StreamInv, EntryInv, NameInv, Wrap, Count;
    RequestStepKeepsConnections(cfg, s, r, a);
    RequestStepFrame(cfg, s, r, a);
    var s' := RequestNext(cfg, s, r, a).value;
    forall e | 0 <= e < |s'.entries| ensures EntryGaugeInv(s', e) {
      assert EntryGaugeInv(s, e) && RequestInv(cfg, s, r);
      RequestStepKeepsEntryGauge(cfg, s, r, a, e);
    }
  }

  lemma SessionStepKeepsGauges(cfg: Config, s: State, i: nat, a: SessionAction)
    requires Inv(cfg, s) && GaugeInv(s) && i < |s.sessions| && SessionNext(cfg, s, i, a).Some?
    ensures GaugeInv(SessionNext(cfg, s, i, a).value)
  {
    hide Count, RequestInv, StreamInv, EntryInv, NameInv, SessionInv;
    var s' := SessionNext(cfg, s, i, a).value;
    assert s'.requests == s.requests && s'.activeConnections == s.activeConnections;
    FreshEntryUncounted(cfg, s);
    forall e | 0 <= e < |s'.entries| ensures EntryGaugeInv(s', e) {
      if e < |s.entries| { assert EntryGaugeInv(s, e); }
    }
  }

  /** A newly arrived request is counted nowhere. */
  lemma ArrivalKeepsGauges(s: State, q: Request)
    requires GaugeInv(s) && (q.phase.Arrived? || q.phase.Finished?)
    ensures GaugeInv(s.(requests := s.requests + [q]))
  {
    hide Count, Wrap;
    CountAppend(s.requests, q, InConnections());
    forall e | 0 <= e < |s.entries| ensures EntryGaugeInv(s.(requests := s.requests + [q]), e) {
      assert EntryGaugeInv(s, e);
      CountAppend(s.requests, q, OnEntry(e));
    }
  }

  lemma StepKeepsGauges(cfg: Config, s: State, step: Step)
    requires Inv(cfg, s) && GaugeInv(s) && Next(cfg, s, step).Some?
    ensures GaugeInv(Next(cfg, s, step).value)
  {
    hide RequestNext, SessionNext, EntryGaugeInv, Inv, Wrap, Count, Routing.Dispatch;
    match step {
      case RequestStep(r, a) => RequestStepKeepsGauges(cfg, s, r, a);
      case SessionStep(i, a) => SessionStepKeepsGauges(cfg, s, i, a);
      case Arrive(host, path) => ArrivalKeepsGauges(s, Next(cfg, s, step).value.requests[|s.requests|]);
      case Accept =>
        var s' := Next(cfg, s, step).value;
        forall e | 0 <= e < |s'.entries| ensures EntryGaugeInv(s', e) {
          assert EntryGaugeInv(s, e);
          SameGauge(s, s', e);
        }
    }
  }

  lemma SameGauge(s: State, s': State, e: nat)
    requires e < |s.entries| && s'.entries == s.entries && s'.requests == s.requests && EntryGaugeInv(s, e)
    ensures EntryGaugeInv(s', e)
  {
  }

  lemma {:induction false} RunKeepsGauges(cfg: Config, schedule: seq<Step>)
    requires Run(cfg, schedule).Some?
    ensures GaugeInv(Run(cfg, schedule).value)
  {
    if schedule != [] {
      var before := schedule[..|schedule| - 1];
      RunKeepsGauges(cfg, before);
      RunKeepsInv(cfg, before);
      StepKeepsGauges(cfg, Run(cfg, before).value, schedule[|schedule| - 1]);
    }
  }

  lemma ReachableGauges(cfg: Config, s: State)
    requires Reachable(cfg, s)
    ensures GaugeInv(s)
  {
    var schedule :| Run(cfg, schedule) == Some(s);
    RunKeepsGauges(cfg, schedule);
  }

  // ---- Conservation ----

  /** While fewer than 2^64 requests have arrived, the global gauge is the requests inside its
      region plus the futures dropped there, and so is each entry's gauge for that entry. */
  lemma GaugeConservation(cfg: Config, s: State)
    requires Reachable(cfg, s) && |s.requests| < 0x1_0000_0000_0000_0000
    ensures s.activeConnections == Count(s.requests, InsideConnections()) + Count(s.requests, WasDropped())
    ensures forall e :: 0 <= e < |s.entries| ==>
              s.entries[e].active == Count(s.requests, InsideOn(e)) + Count(s.requests, DroppedOn(e))
  {
    hide Run, Reachable, Count;
    ReachableGauges(cfg, s);
    CountAtMost(s.requests, InConnections());
    CountSplit(s.requests, InConnections(), InsideConnections(), WasDropped());
    forall e | 0 <= e < |s.entries|
      ensures s.entries[e].active == Count(s.requests, InsideOn(e)) + Count(s.requests, DroppedOn(e))
    {
      assert EntryGaugeInv(s, e);
      CountAtMost(s.requests, OnEntry(e));
      CountSplit(s.requests, OnEntry(e), InsideOn(e), DroppedOn(e));
    }
  }

  /** No fetch_sub underflows, on whichever exit a request leaves by. */
  lemma NoUnderflow(cfg: Config, s: State, r: nat)
    requires Reachable(cfg, s) && |s.requests| < U64 && r < |s.requests|
    ensures Next(cfg, s, RequestStep(r, ReleaseStream)).Some? ==> s.entries[s.requests[r].entry.value].active >= 1
    ensures Next(cfg, s, RequestStep(r, ReleaseConnection)).Some? ==> s.activeConnections >= 1
  {
    hide Run, Reachable, Count, Routing.Dispatch;
    ReachableGauges(cfg, s);
    var q := s.requests[r];
    if q.phase.Releasing? && q.entry.Some? && q.entry.value < |s.entries| {
      var e := q.entry.value;
      assert EntryGaugeInv(s, e);
      CountPositive(s.requests, r, OnEntry(e));
      CountAtMost(s.requests, OnEntry(e));
    }
    if q.phase.HalfReleased? {
      CountPositive(s.requests, r, InConnections());
      CountAtMost(s.requests, InConnections());
    }
  }

  // ---- Summing over entries ----

  ghost function SumGauges(s: State, n: nat, keep: nat -> bool): nat
    requires n <= |s.entries|
  {
    if n == 0 then 0
    else SumGauges(s, n - 1, keep) + if keep(n - 1) then s.entries[n - 1].active else 0
  }

  function CountedBelow(n: nat, keep: nat -> bool): Request -> bool {
    (q: Request) => q.entry.Some? && q.entry.value < n && keep(q.entry.value) && q.InStreamRegion()
  }

  lemma {:induction false} SumIsCount(s: State, n: nat, keep: nat -> bool)
    requires GaugeInv(s) && |s.requests| < U64 && n <= |s.entries|
    ensures SumGauges(s, n, keep) == Count(s.requests, CountedBelow(n, keep))
  {
    hide Count;
    if n == 0 {
      CountZero(s.requests, CountedBelow(0, keep));
      forall i | 0 <= i < |s.requests| ensures !CountedBelow(0, keep)(s.requests[i]) {
        var below: Option<nat> := s.requests[i].entry;
        assert below.Some? ==> below.value >= 0;
      }
    } else {
      SumIsCount(s, n - 1, keep);
      assert EntryGaugeInv(s, n - 1);
      CountAtMost(s.requests, OnEntry(n - 1));
      if keep(n - 1) {
        CountSplit(s.requests, CountedBelow(n, keep), CountedBelow(n - 1, keep), OnEntry(n - 1));
      } else {
        CountSame(s.requests, CountedBelow(n, keep), CountedBelow(n - 1, keep));
      }
    }
  }

  function Every(): nat -> bool { (e: nat) => true }

  /** Summed over all entries ever created, the per-entry gauges and the global gauge differ
      exactly by the requests that are between two paired updates. */
  lemma GaugesDifferOnlyBetweenUpdates(cfg: Config, s: State)
    requires Reachable(cfg, s) && |s.requests| < U64
    ensures s.activeConnections + Count(s.requests, BetweenIncrements())
         == SumGauges(s, |s.entries|, Every()) + Count(s.requests, BetweenDecrements())
  {
    hide Run, Reachable, Count, SessionInv, StreamInv, EntryInv, NameInv, SumGauges;
    ReachableGauges(cfg, s);
    ReachableInv(cfg, s);
    SumIsCount(s, |s.entries|, Every());
    forall r | 0 <= r < |s.requests|
      ensures CountedBelow(|s.entries|, Every())(s.requests[r]) == InStreams()(s.requests[r])
    {
      assert RequestInv(cfg, s, r);
    }
    CountSame(s.requests, CountedBelow(|s.entries|, Every()), InStreams());
    CountAtMost(s.requests, InConnections());
    var both := (q: Request) => q.InStreamRegion() && q.InConnectionRegion();
    CountSplit(s.requests, InStreams(), both, BetweenIncrements());
    CountSplit(s.requests, InConnections(), both, BetweenDecrements());
  }

  /** Somebody still has the entry: the registry, its session, or a request's Arc. */
  ghost predicate Live(s: State, e: nat) {
    || (exists id :: id in s.registry && s.registry[id] == e)
    || (exists i :: 0 <= i < |s.sessions| && s.sessions[i].Owns() && s.sessions[i].entry == Some(e))
    || (exists r :: 0 <= r < |s.requests| && s.requests[r].Holds() && s.requests[r].entry == Some(e))
  }

  ghost function Alive(s: State): nat -> bool { (e: nat) => Live(s, e) }

  ghost function DroppedOnLive(s: State): Request -> bool {
    (q: Request) => q.phase.Dropped? && q.entry.Some? && Live(s, q.entry.value)
  }

  ghost function DroppedOnFreed(s: State): Request -> bool {
    (q: Request) => q.phase.Dropped? && !(q.entry.Some? && Live(s, q.entry.value))
  }

  /** Summed over the live entries only, the gauges count the requests inside plus the futures
      dropped on entries that are still live; a freed entry takes its leaked count with it.
      So the sum equals inside plus all dropped exactly when no future was dropped on an
      entry that has since been freed. */
  lemma LiveGaugeSum(cfg: Config, s: State)
    requires Reachable(cfg, s) && |s.requests| < U64
    ensures SumGauges(s, |s.entries|, Alive(s))
         == Count(s.requests, InsideStreams()) + Count(s.requests, DroppedOnLive(s))
    ensures SumGauges(s, |s.entries|, Alive(s)) == Count(s.requests, InsideStreams()) + Count(s.requests, WasDropped())
       <==> forall r :: 0 <= r < |s.requests| && s.requests[r].phase.Dropped? ==>
              s.requests[r].entry.Some? && Live(s, s.requests[r].entry.value)
  {
    hide Run, Reachable, Count, SessionInv, StreamInv, EntryInv, NameInv, SumGauges;
    ReachableGauges(cfg, s);
    ReachableInv(cfg, s);
    var counted := CountedBelow(|s.entries|, Alive(s));
    SumIsCount(s, |s.entries|, Alive(s));
    forall r | 0 <= r < |s.requests|
      ensures Bit(counted(s.requests[r])) == Bit(InsideStreams()(s.requests[r])) + Bit(DroppedOnLive(s)(s.requests[r]))
    {
      assert RequestInv(cfg, s, r);
      if InsideStreams()(s.requests[r]) {
        assert s.requests[r].Holds();
        assert Live(s, s.requests[r].entry.value);
      }
    }
    CountSplit(s.requests, counted, InsideStreams(), DroppedOnLive(s));
    CountSplit(s.requests, WasDropped(), DroppedOnLive(s), DroppedOnFreed(s));
    CountZero(s.requests, DroppedOnFreed(s));
  }

  /** A client that may register, and a host that routes to it. */
  ghost predicate Routable(cfg: Config, req: FrameCodec.AuthReq, host: Option<string>, path: string) {
    && (cfg.tokens == [] || req.token in cfg.tokens)
    && req.clientId !in ClientRegistry.RESERVED_SUBDOMAINS
    && Routing.Dispatch(host, path, cfg.domain) == Routing.Tunnel(req.clientId)
  }

  /** That client's only session in the given phase, with one request to it in the given phase. */
  function LeakState(req: FrameCodec.AuthReq, x: SessionPhase, driver: Driver,
                     host: Option<string>, path: string, q: RequestPhase, streams: u64, connections: u64): State {
    State([Session(Some(req), x, driver, Some(0))],
          [Entry(req.clientId, 0, req.SupportsHeartbeat(), streams)],
          if x.Gone? then map[] else map[req.clientId := 0],
          [Request(host, path, q, if q.Arrived? || q.Admitted? then None else Some(0), None, false, [])],
          [], connections)
  }

  lemma LeakRegister(cfg: Config, req: FrameCodec.AuthReq, host: Option<string>, path: string)
    requires Routable(cfg, req, host, path)
    ensures Reachable(cfg, LeakState(req, Registered, Running, host, path, Arrived, 0, 0))
  {
    hide Run, Reachable, Routing.Dispatch;
    ConnectReachable(cfg, req);
    var s4 := LeakState(req, Registered, Running, host, path, Arrived, 0, 0);
    ReachStep(cfg, Told(req), SessionStep(0, Register), s4.(requests := []));
    ReachStep(cfg, s4.(requests := []), Arrive(host, path), s4);
  }

  lemma LeakLookup(cfg: Config, req: FrameCodec.AuthReq, host: Option<string>, path: string)
    requires Routable(cfg, req, host, path)
    ensures Reachable(cfg, LeakState(req, Registered, Running, host, path, Holding, 0, 0))
  {
    hide Run, Reachable, Routing.Dispatch;
    LeakRegister(cfg, req, host, path);
    var at := q => LeakState(req, Registered, Running, host, path, q, 0, 0);
    ReachStep(cfg, at(Arrived), RequestStep(0, RateCheck(true)), at(Admitted));
    ReachStep(cfg, at(Admitted), RequestStep(0, Lookup), at(Holding));
  }

  lemma LeakDrop(cfg: Config, req: FrameCodec.AuthReq, host: Option<string>, path: string)
    requires Routable(cfg, req, host, path)
    ensures Reachable(cfg, LeakState(req, Registered, Running, host, path, Dropped, 1, 1))
  {
    hide Run, Reachable, Routing.Dispatch;
    LeakLookup(cfg, req, host, path);
    var at := (q, n, m) => LeakState(req, Registered, Running, host, path, q, n, m);
    ReachStep(cfg, at(Holding, 0, 0), RequestStep(0, CountStream), at(CountedStream, 1, 0));
    ReachStep(cfg, at(CountedStream, 1, 0), RequestStep(0, CountConnection), at(Opening, 1, 1));
    ReachStep(cfg, at(Opening, 1, 1), RequestStep(0, Drop), at(Dropped, 1, 1));
  }

  lemma LeakLeave(cfg: Config, req: FrameCodec.AuthReq, host: Option<string>, path: string)
    requires Routable(cfg, req, host, path)
    ensures Reachable(cfg, LeakState(req, Gone, Stopped, host, path, Dropped, 1, 1))
  {
    hide Run, Reachable, Routing.Dispatch;
    LeakDrop(cfg, req, host, path);
    var at := (x, d) => LeakState(req, x, d, host, path, Dropped, 1, 1);
    ReachStep(cfg, at(Registered, Running), SessionStep(0, DriverStop), at(Registered, Stopped));
    ReachStep(cfg, at(Registered, Stopped), SessionStep(0, AwaitDriver), at(Ended, Stopped));
    ReachStep(cfg, at(Ended, Stopped), SessionStep(0, Unregister), at(Gone, Stopped));
  }

  lemma LeakCounts(s: State)
    requires |s.entries| == 1 && |s.requests| == 1 && s.requests[0].phase.Dropped?
    requires s.registry == map[] && (forall i :: 0 <= i < |s.sessions| ==> s.sessions[i].phase.Gone?)
    ensures SumGauges(s, 1, Alive(s)) == 0
    ensures Count(s.requests, InsideStreams()) == 0 && Count(s.requests, WasDropped()) == 1
  {
    CountZero(s.requests, InsideStreams());
    CountAppend([], s.requests[0], WasDropped());
    assert [] + [s.requests[0]] == s.requests;
    assert !Live(s, 0);
    assert SumGauges(s, 1, Alive(s)) == SumGauges(s, 0, Alive(s));
  }

  /** The condition of LiveGaugeSum can fail: the client c of base domain d connects, one request
      to c.d is dropped while its stream is being opened, and then the client leaves. */
  lemma LeakOnFreedEntry() returns (s: State)
    ensures Reachable(Config("d", []), s)
    ensures SumGauges(s, |s.entries|, Alive(s)) == 0 && s.activeConnections == 1
    ensures Count(s.requests, InsideStreams()) == 0 && Count(s.requests, WasDropped()) == 1
  {
    hide Run, Reachable, Routing.Dispatch, SumGauges, Count;
    var req, host := FrameCodec.AuthReq("c", "", None), Some(Routing.HostFor("c", "d"));
    Routing.RoutedExactlyWhen("c", "d", "", "/");
    LeakLeave(Config("d", []), req, host, "/");
    s := LeakState(req, Gone, Stopped, host, "/", Dropped, 1, 1);
    LeakCounts(s);
  }
}
