/** The yamux driver loop of one client connection and its heartbeat counter
    (spawn_yamux_driver). Times are milliseconds since the driver started. */
module Heartbeat {
  import opened Common

  const MAX_MISSED: nat := 5
  const TICK: nat := 15_000          // HEARTBEAT_INTERVAL_SECS
  const PROBE_LIMIT: nat := 10_000
  const TIMEOUT: nat := 90_000       // HEARTBEAT_TIMEOUT_SECS

  datatype ProbeResult = Pong | ProbeError | ProbeTimeout

  /** The branches of the select, in the order in which they are taken. */
  datatype Event =
    | InboundStream
    | YamuxError
    | YamuxClosed
    | OpenStream
    | HandlesDropped
    | Probe(result: ProbeResult)

  datatype Exit = StillRunning | ConnectionOver | NoHandles | DeadPeer

  /** missed_heartbeats after these events. */
  function Missed(events: seq<Event>): nat {
    if events == [] then 0
    else
      var n := |events| - 1;
      match events[n]
      case Probe(Pong) => 0
      case Probe(_) => Missed(events[..n]) + 1
      case _ => Missed(events[..n])
  }

  /** How the loop is left right after the last of these events, if it is. */
  function ExitAfter(events: seq<Event>): Exit {
    if events == [] then StillRunning
    else match events[|events| - 1]
      case YamuxError | YamuxClosed => ConnectionOver
      case HandlesDropped => NoHandles
      case Probe(_) => if Missed(events) >= MAX_MISSED then DeadPeer else StillRunning
      case _ => StillRunning
  }

  function Probes(events: seq<Event>): seq<ProbeResult> {
    if events == [] then []
    else
      var n := |events| - 1;
      Probes(events[..n]) + if events[n].Probe? then [events[n].result] else []
  }

  ghost predicate LastFailed(probes: seq<ProbeResult>, k: nat) {
    k <= |probes| && forall i :: |probes| - k <= i < |probes| ==> !probes[i].Pong?
  }

  /** Nothing so far has ended the connection, and never have the last five probes all failed. */
  ghost predicate Alive(events: seq<Event>) {
    && (forall i :: 0 <= i < |events| ==> !events[i].YamuxError? && !events[i].YamuxClosed? && !events[i].HandlesDropped?)
    && (forall k :: 0 <= k <= |events| ==> !LastFailed(Probes(events[..k]), 5))
  }

  /** How an event leaves a loop that was alive before it. */
  lemma LeftExactlyWhen(before: seq<Event>, event: Event)
    requires Alive(before)
    ensures var events := before + [event];
      && (ExitAfter(events) == StillRunning <==> Alive(events))
      && (ExitAfter(events) == ConnectionOver <==> event.YamuxError? || event.YamuxClosed?)
      && (ExitAfter(events) == NoHandles <==> event.HandlesDropped?)
      && (ExitAfter(events) == DeadPeer <==> event.Probe? && !event.result.Pong? && LastFailed(Probes(events), 5))
  {
    hide LastFailed, Probes, Missed;
    var events := before + [event];
    assert events[..|before|] == before && before[..|before|] == before && events[..|events|] == events;
    MissedIsTrailingRun(before, 5);
    MissedIsTrailingRun(events, 5);
    OneMoreEvent(before, event);
    assert forall k :: 0 <= k <= |before| ==> events[..k] == before[..k];
    if event.Probe? && !event.result.Pong? && LastFailed(Probes(events), 5) {
      assert !Alive(events) by { assert events[..|events|] == events; }
    }
  }

  lemma OneMoreEvent(before: seq<Event>, event: Event)
    ensures Missed(before + [event]) ==
            if !event.Probe? then Missed(before) else if event.result.Pong? then 0 else Missed(before) + 1
  {
    assert (before + [event])[..|before|] == before;
  }

  lemma NoEventsAlive()
    ensures Alive([]) && Missed([]) == 0 && ExitAfter([]) == StillRunning
  {
  }

  /** The loop, fed with the branches it takes; without heartbeat support no probe is ever taken. */
  method Drive(events: seq<Event>, supportsHeartbeat: bool) returns (exit: Exit, handled: nat, missed: nat)
    requires !supportsHeartbeat ==> forall i :: 0 <= i < |events| ==> !events[i].Probe?
    ensures handled <= |events| && missed == Missed(events[..handled])
    ensures exit.StillRunning? <==> Alive(events[..handled])
    ensures exit.StillRunning? ==> handled == |events|
    ensures handled > 0 ==> Alive(events[..handled - 1])
    ensures exit == ConnectionOver <==> handled > 0 && (events[handled - 1].YamuxError? || events[handled - 1].YamuxClosed?)
    ensures exit == NoHandles <==> handled > 0 && events[handled - 1].HandlesDropped?
    ensures exit == DeadPeer <==> handled > 0 && events[handled - 1].Probe? && !events[handled - 1].result.Pong?
                                  && LastFailed(Probes(events[..handled]), 5)
    ensures exit.DeadPeer? ==> supportsHeartbeat && missed == MAX_MISSED
    ensures exit == ExitAfter(events[..handled])
  {
    hide Alive, Probes, LastFailed, Missed, ExitAfter;
    exit, handled, missed := StillRunning, 0, 0;
    NoEventsAlive();
    assert events[..0] == [];
    while handled < |events| && exit.StillRunning?
      invariant handled <= |events|
      invariant missed == Missed(events[..handled]) && exit == ExitAfter(events[..handled])
      invariant exit.StillRunning? <==> Alive(events[..handled])
      invariant handled > 0 ==> Alive(events[..handled - 1])
      invariant missed <= MAX_MISSED && (exit.StillRunning? ==> missed < MAX_MISSED)
      invariant exit.DeadPeer? ==> supportsHeartbeat && missed == MAX_MISSED
      decreases |events| - handled
    {
      var seen := events[..handled + 1];
      assert seen[..handled] == events[..handled] && seen[handled] == events[handled];
      assert seen == events[..handled] + [events[handled]];
      LeftExactlyWhen(events[..handled], events[handled]);
      OneMoreEvent(events[..handled], events[handled]);
      MissedIsTrailingRun(seen, MAX_MISSED);
      match events[handled] {
        case InboundStream =>
        case YamuxError => exit := ConnectionOver;
        case YamuxClosed => exit := ConnectionOver;
        case OpenStream =>
        case HandlesDropped => exit := NoHandles;
        case Probe(result) =>
          if result.Pong? {
            missed := 0;
          } else {
            missed := missed + 1;
          }
          if missed >= MAX_MISSED {
            exit := DeadPeer;
          }
      }
      handled := handled + 1;
    }
    if handled > 0 {
      assert events[..handled] == events[..handled - 1] + [events[handled - 1]];
      LeftExactlyWhen(events[..handled - 1], events[handled - 1]);
    }
  }

  // ---- The counter is the trailing run of failed probes ----

  lemma {:induction false} MissedIsTrailingRun(events: seq<Event>, k: nat)
    ensures Missed(events) >= k <==> LastFailed(Probes(events), k)
  {
    if events != [] {
      var n := |events| - 1;
      var before, all := Probes(events[..n]), Probes(events);
      if events[n].Probe? {
        assert all == before + [events[n].result];
        if k > 0 {
          MissedIsTrailingRun(events[..n], k - 1);
          assert forall i :: 0 <= i < |before| ==> all[i] == before[i];
          if LastFailed(all, k) && !events[n].result.Pong? {
            assert LastFailed(before, k - 1);
          }
          assert all[|before|] == events[n].result;
        }
      } else {
        assert all == before;
        MissedIsTrailingRun(events[..n], k);
      }
    }
  }

  // ---- How long a dead peer is kept ----

  /** When probe n (from 1) ends: it starts at its tick or, if later, when the one before has ended,
      and takes duration(n). */
  ghost function EndOf(n: nat, duration: nat -> nat): nat {
    if n == 0 then 0 else StartOf(n, duration) + duration(n)
  }

  ghost function StartOf(n: nat, duration: nat -> nat): nat
    requires n > 0
    decreases n, 0
  {
    var free := EndOf(n - 1, duration);
    if free > n * TICK then free else n * TICK
  }

  /** The results of the first n probes, in order. */
  function Results(n: nat, result: nat -> ProbeResult): seq<ProbeResult> {
    seq(n, i requires 0 <= i < n => result(i + 1))
  }

  lemma {:induction false} ProbesStartOnTheirTick(n: nat, duration: nat -> nat)
    requires n > 0 && forall i: nat :: duration(i) <= PROBE_LIMIT
    ensures StartOf(n, duration) == n * TICK
  {
    if n > 1 {
      ProbesStartOnTheirTick(n - 1, duration);
    }
  }

  /** The last probe that has ended by time t. */
  lemma {:induction false} LastEndedBy(t: nat, n: nat, duration: nat -> nat) returns (k: nat)
    requires EndOf(n, duration) > t && n > 0
    ensures k < n && EndOf(k, duration) <= t < EndOf(k + 1, duration)
  {
    if EndOf(n - 1, duration) <= t {
      k := n - 1;
    } else {
      k := LastEndedBy(t, n - 1, duration);
    }
  }

  lemma {:induction false} EndsIncrease(a: nat, b: nat, duration: nat -> nat)
    requires a <= b
    ensures EndOf(a, duration) <= EndOf(b, duration)
  {
    if a < b {
      EndsIncrease(a, b - 1, duration);
    }
  }

  /** Events after the last probe do not change the counter: if it has reached the limit,
      the loop was left at some probe. */
  lemma {:induction false} LeftAtLimit(events: seq<Event>)
    requires Missed(events) >= MAX_MISSED
    ensures exists k :: 0 < k <= |events| && ExitAfter(events[..k]) == DeadPeer
  {
    var n := |events| - 1;
    if events[n].Probe? {
      assert events[..n + 1] == events;
    } else {
      LeftAtLimit(events[..n]);
      var k :| 0 < k <= n && ExitAfter(events[..n][..k]) == DeadPeer;
      assert events[..n][..k] == events[..k];
    }
  }

  /** With probes of at most ten seconds and nothing else taking time: if no probe that is still open
      after t succeeds (the peer has stopped answering at t), then the n-th probe has ended within 85 seconds of t,
      under the declared timeout, and by then the loop has been left, whatever inbound streams
      and stream openings came between the probes. */
  lemma DeadPeerDropped(t: nat, duration: nat -> nat, result: nat -> ProbeResult) returns (n: nat)
    requires forall i: nat :: duration(i) <= PROBE_LIMIT
    requires forall i: nat :: i > 0 && EndOf(i, duration) > t ==> !result(i).Pong?
    ensures EndOf(n, duration) <= t + 85_000 < t + TIMEOUT
    ensures forall events :: Probes(events) == Results(n, result) ==>
              exists k :: 0 < k <= |events| && ExitAfter(events[..k]) == DeadPeer
  {
    var far := t / TICK + 1;
    ProbesStartOnTheirTick(far, duration);
    var last := LastEndedBy(t, far, duration);
    n := last + MAX_MISSED;
    forall i | last < i <= n ensures !result(i).Pong? {
      EndsIncrease(last + 1, i, duration);
    }
    ProbesStartOnTheirTick(n, duration);
    if last > 0 {
      ProbesStartOnTheirTick(last, duration);
    }
    forall events | Probes(events) == Results(n, result)
      ensures exists k :: 0 < k <= |events| && ExitAfter(events[..k]) == DeadPeer
    {
      MissedIsTrailingRun(events, MAX_MISSED);
      LeftAtLimit(events);
    }
  }

  /** 85 seconds are needed: a peer that answers its first probe at once and falls silent then, with every
      further probe running into its limit, is dropped with the probe that ends 85 seconds later, and with
      none before, whatever comes between the probes. */
  lemma DeadPeerBoundAttained(duration: nat -> nat, result: nat -> ProbeResult)
    requires duration(1) == 0 && result(1).Pong?
    requires forall i: nat :: duration(i) <= PROBE_LIMIT && (i > 1 ==> duration(i) == PROBE_LIMIT && !result(i).Pong?)
    ensures EndOf(1, duration) == TICK && EndOf(6, duration) == TICK + 85_000
    ensures forall events :: Probes(events) == Results(6, result) ==>
              exists k :: 0 < k <= |events| && ExitAfter(events[..k]) == DeadPeer
    ensures forall events :: Probes(events) <= Results(5, result) ==> ExitAfter(events) != DeadPeer
  {
    ProbesStartOnTheirTick(1, duration);
    ProbesStartOnTheirTick(6, duration);
    forall events | Probes(events) == Results(6, result)
      ensures exists k :: 0 < k <= |events| && ExitAfter(events[..k]) == DeadPeer
    {
      MissedIsTrailingRun(events, MAX_MISSED);
      LeftAtLimit(events);
    }
    forall events | Probes(events) <= Results(5, result) ensures ExitAfter(events) != DeadPeer {
      MissedIsTrailingRun(events, MAX_MISSED);
      assert Probes(events) != [] ==> Probes(events)[0] == Results(5, result)[0];
    }
  }
}
