/** When each action of the server's step system can happen, and that nobody gets stuck. */
module ServerProgress {
  import opened Common
  import opened ServerSteps
  import opened ServerSafety
  import Routing

  predicate Enabled(cfg: Config, s: State, step: Step) {
    Next(cfg, s, step).Some?
  }

  /** The driver of the session whose entry the request holds is running: only then can it get a stream. */
  predicate CanOpen(s: State, q: Request) {
    q.entry.Some? && q.entry.value < |s.entries| &&
    var session := s.entries[q.entry.value].handle;
    session < |s.sessions| && s.sessions[session].driver == Running
  }

  /** Where each action of a session is possible in a reachable state. */
  lemma SessionEnabledExactlyWhen(cfg: Config, s: State, i: nat, a: SessionAction)
    requires Reachable(cfg, s) && i < |s.sessions|
    ensures var x := s.sessions[i];
      Enabled(cfg, s, SessionStep(i, a)) <==>
      match a
      case Fail => x.phase == Reading
      case Authenticate(_) => x.phase == Reading
      case Spawn => x.phase == Replied
      case Register => x.phase == Spawned
      case DriverStop => x.driver == Running || x.driver == Aborted
      case AwaitDriver => x.phase == Registered && x.driver == Stopped
      case Unregister => x.phase == Ended
      case Probe(_) => (x.driver == Running || x.driver == Aborted) && x.auth.Some? && x.auth.value.version.Some?
  {
    hide Run, Reachable, RequestInv, StreamInv, EntryInv, NameInv;
    ReachableInv(cfg, s);
    assert SessionInv(cfg, s, i);
  }

  /** The same for requests: a stream can be opened only while the session's driver runs, and a future
      dropped only where it waits. */
  lemma RequestEnabledExactlyWhen(cfg: Config, s: State, r: nat, a: RequestAction)
    requires Reachable(cfg, s) && r < |s.requests|
    ensures var q := s.requests[r];
      Enabled(cfg, s, RequestStep(r, a)) <==>
      match a
      case RateCheck(_) => q.phase == Arrived
      case Lookup => q.phase == Admitted
      case CountStream => q.phase == Holding
      case CountConnection => q.phase == CountedStream
      case Open(ok) => q.phase == Opening && (ok ==> CanOpen(s, q))
      case Mark(_, _) => q.phase == Marking
      case Handshake(_) => q.phase == Handshaking
      case Build(_) => q.phase == Building
      case Respond => q.phase == Sending
      case Chunk(_) => q.forwarded
      case ReleaseStream => q.phase == Releasing
      case ReleaseConnection => q.phase == HalfReleased
      case Return => q.phase == Released
      case Drop => q.phase in {Opening, Marking, Handshaking, Sending}
  {
    hide Run, Reachable, SessionInv, StreamInv, NameInv, Wrap, Routing.Dispatch;
    ReachableInv(cfg, s);
    assert RequestInv(cfg, s, r);
    if s.requests[r].entry.Some? {
      assert EntryInv(s, s.requests[r].entry.value);
    }
  }

  /** A request that is neither over nor dropped can always go on, whatever became of its session: one of these
      actions is possible. */
  lemma NoRequestStuck(cfg: Config, s: State, r: nat) returns (a: RequestAction)
    requires Reachable(cfg, s) && r < |s.requests|
    requires s.requests[r].phase != Finished && s.requests[r].phase != Dropped
    ensures Enabled(cfg, s, RequestStep(r, a)) && a != Drop && !a.Chunk?
    ensures Next(cfg, s, RequestStep(r, a)).value.requests[r].phase != s.requests[r].phase
  {
    hide Run, Reachable, Wrap, Routing.Dispatch;
    match s.requests[r].phase {
      case Arrived => a := RateCheck(false);
      case Admitted => a := Lookup;
      case Holding => a := CountStream;
      case CountedStream => a := CountConnection;
      case Opening => a := Open(false);
      case Marking => a := Mark(false, false);
      case Handshaking => a := Handshake(false);
      case Building => a := Build(false);
      case Sending => a := Respond;
      case Releasing => a := ReleaseStream;
      case HalfReleased => a := ReleaseConnection;
      case Released => a := Return;
    }
    RequestEnabledExactlyWhen(cfg, s, r, a);
  }

  /** Nor is a session that is not over ever stuck: it or its driver can take a step that brings it on. */
  lemma NoSessionStuck(cfg: Config, s: State, i: nat) returns (a: SessionAction)
    requires Reachable(cfg, s) && i < |s.sessions| && s.sessions[i].phase != Gone
    ensures Enabled(cfg, s, SessionStep(i, a)) && !a.Probe?
    ensures var x' := Next(cfg, s, SessionStep(i, a)).value.sessions[i];
            x'.phase != s.sessions[i].phase || (x'.driver == Stopped && s.sessions[i].driver == Running)
  {
    hide Run, Reachable, RequestInv, StreamInv, EntryInv, NameInv;
    ReachableInv(cfg, s);
    assert SessionInv(cfg, s, i);
    match s.sessions[i].phase {
      case Reading => a := Fail;
      case Replied => a := Spawn;
      case Spawned => a := Register;
      case Registered => a := if s.sessions[i].driver == Stopped then AwaitDriver else DriverStop;
      case Ended => a := Unregister;
    }
    SessionEnabledExactlyWhen(cfg, s, i, a);
  }
}
