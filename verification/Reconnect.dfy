/** One tunnel's client task: a session attempt with its published statuses
    (run_cancellable, run_session_with_status) and the reconnect loop with its backoff
    (start_tunnel_internal). */
module Reconnect {
  import opened Common
  import opened FrameCodec
  import Routing
  import ServerSteps
  import ServerSafety

  datatype Reason = Io(text: string) | AuthFailed(message: string) | Unexpected(reply: Message)

  datatype Status = Stopped | Connecting | Connected(route: string) | Error(reason: Reason)

  /** How the connection attempt up to the first reply goes. */
  datatype Answer = NoAnswer(text: string) | Replied(reply: Message)

  /** Where in the attempt the cancellation branch wins, if it does. */
  datatype Interrupt = Never | WhileConnecting | WhileConnected

  /** One turn of the loop, as the environment decides it. */
  datatype Round = Round(answer: Answer, interrupt: Interrupt, cancelledAtCheck: bool, cancelledInSleep: bool)

  function StripPrefix(s: string, prefix: string): Option<string> {
    if prefix <= s then Some(s[|prefix|..]) else None
  }

  const OK_PREFIX := "OK \U{2014} "

  /** The reply handle_client writes for an accepted token. */
  function AcceptReply(clientId: string, domain: string, publicPort: nat): Message {
    AuthResponse(AuthRes(true, OK_PREFIX + Routing.HostFor(clientId, domain), Some(publicPort), Some(clientId)))
  }

  /** The reply it writes for any other. */
  function RefusalReply(): Message {
    AuthResponse(AuthRes(false, "Invalid token", None, None))
  }

  function ServerReply(cfg: ServerSteps.Config, req: AuthReq, publicPort: nat): Message {
    if cfg.ValidToken(req.token) then AcceptReply(req.clientId, cfg.domain, publicPort) else RefusalReply()
  }

  /** The route shown for a session, or why there is none. */
  function Route(answer: Answer): Result<string, Reason> {
    match answer
    case NoAnswer(text) => Failure(Io(text))
    case Replied(AuthResponse(res)) =>
      if !res.success then Failure(AuthFailed(res.message))
      else Success("http://" + StripPrefix(res.message, OK_PREFIX).GetOr(res.assignedRoute.GetOr("-")))
    case Replied(other) => Failure(Unexpected(other))
  }

  /** Exactly an accepting reply gives a route: the address in the message, or if it has none the assigned route, or a dash.
      A refusal, any other reply and no reply each give their own reason. */
  lemma RouteExactlyWhen(answer: Answer)
    ensures match answer
            case NoAnswer(text) => Route(answer) == Failure(Io(text))
            case Replied(AuthResponse(res)) =>
              && (!res.success ==> Route(answer) == Failure(AuthFailed(res.message)))
              && (res.success ==> Route(answer).Success?)
              && (res.success ==> forall url :: res.message == "OK \U{2014} " + url ==> Route(answer) == Success("http://" + url))
              && (res.success && !("OK \U{2014} " <= res.message) ==>
                   Route(answer) == Success("http://" + if res.assignedRoute.Some? then res.assignedRoute.value else "-"))
            case Replied(other) => Route(answer) == Failure(Unexpected(other))
  {
    if answer.Replied? && answer.reply.AuthResponse? && answer.reply.res.success {
      forall url | answer.reply.res.message == OK_PREFIX + url ensures Route(answer) == Success("http://" + url) {
        assert (OK_PREFIX + url)[|OK_PREFIX|..] == url;
      }
    }
  }

  // ---- One turn ----

  predicate EndsOk(r: Round) {
    r.interrupt.WhileConnecting? || Route(r.answer).Success?
  }

  /** The token has been cancelled by the end of this turn. */
  predicate Cancelled(r: Round) {
    || r.interrupt.WhileConnecting?
    || (r.interrupt.WhileConnected? && Route(r.answer).Success?)
    || r.cancelledAtCheck
    || r.cancelledInSleep
  }

  /** Cancellation was seen before the sleep. */
  predicate CancelledBeforeSleep(r: Round) {
    Cancelled(r.(cancelledInSleep := false))
  }

  /** A turn is the last if the token was cancelled anywhere in it, and sleeps unless that was before the sleep. A
      cancellation while connected counts only if the reply accepted the client. */
  lemma CancelledExactlyWhen(r: Round)
    ensures var accepted := r.answer.Replied? && r.answer.reply.AuthResponse? && r.answer.reply.res.success;
      var before := r.interrupt.WhileConnecting? || (r.interrupt.WhileConnected? && accepted) || r.cancelledAtCheck;
      && (CancelledBeforeSleep(r) <==> before)
      && (Cancelled(r) <==> before || r.cancelledInSleep)
      && (EndsOk(r) <==> r.interrupt.WhileConnecting? || accepted)
  {
    RouteExactlyWhen(r.answer);
  }

  function AttemptStatuses(r: Round): seq<Status> {
    if r.interrupt.WhileConnecting? then [Connecting, Stopped]
    else match Route(r.answer)
      case Failure(reason) => [Connecting, Status.Error(reason)]
      case Success(route) => [Connecting, Connected(route)] + if r.interrupt.WhileConnected? then [Stopped] else []
  }

  function RoundStatuses(r: Round): seq<Status> {
    AttemptStatuses(r)
    + (match Route(r.answer)
       case Failure(reason) => if r.interrupt.WhileConnecting? then [Stopped] else [Status.Error(reason)]
       case Success(_) => [Stopped])
    + if CancelledBeforeSleep(r) then [Stopped]
      else [Connecting] + if r.cancelledInSleep then [Stopped] else []
  }

  /** Everything a turn publishes when nothing is cancelled in it. */
  lemma QuietTurn(r: Round)
    requires !Cancelled(r)
    ensures match r.answer
            case NoAnswer(text) =>
              RoundStatuses(r) == [Connecting, Status.Error(Io(text)), Status.Error(Io(text)), Connecting]
            case Replied(AuthResponse(res)) =>
              if res.success
              then exists route :: RoundStatuses(r) == [Connecting, Connected(route), Stopped, Connecting]
              else RoundStatuses(r)
                   == [Connecting, Status.Error(AuthFailed(res.message)), Status.Error(AuthFailed(res.message)), Connecting]
            case Replied(other) =>
              RoundStatuses(r) == [Connecting, Status.Error(Unexpected(other)), Status.Error(Unexpected(other)), Connecting]
  {
    RouteExactlyWhen(r.answer);
    CancelledExactlyWhen(r);
    match Route(r.answer) {
      case Success(route) => assert RoundStatuses(r) == [Connecting, Connected(route), Stopped, Connecting];
      case Failure(_) =>
    }
  }

  const MAX_BACKOFF: nat := 30

  function Min(a: nat, b: nat): nat { if a <= b then a else b }

  /** backoff_secs after these turns. */
  function Backoff(rounds: seq<Round>): nat
    decreases |rounds|, 1
  {
    if rounds == [] then 1 else Min(2 * SleepAfter(rounds), MAX_BACKOFF)
  }

  /** How long the loop sleeps after the last of these turns. */
  function SleepAfter(rounds: seq<Round>): nat
    requires rounds != []
    decreases |rounds|, 0
  {
    var n := |rounds| - 1;
    if EndsOk(rounds[n]) then 1 else Backoff(rounds[..n])
  }

  // ---- A run of the task ----

  predicate NoneCancelled(rounds: seq<Round>) {
    forall i :: 0 <= i < |rounds| ==> !Cancelled(rounds[i])
  }

  /** Everything published in these turns, none of them cut short. */
  function Published(rounds: seq<Round>): seq<Status> {
    if rounds == [] then [] else Published(rounds[..|rounds| - 1]) + RoundStatuses(rounds[|rounds| - 1])
  }

  function Sleeps(rounds: seq<Round>): seq<nat> {
    if rounds == [] then []
    else
      var n := |rounds| - 1;
      Sleeps(rounds[..n]) + if CancelledBeforeSleep(rounds[n]) then [] else [SleepAfter(rounds)]
  }

  class StatusChannel {
    var published: seq<Status>

    constructor ()
      ensures published == []
    {
      published := [];
    }

    method Send(s: Status)
      modifies this
      ensures published == old(published) + [s]
    {
      published := published + [s];
    }
  }

  method RunSessionWithStatus(answer: Answer, tx: StatusChannel) returns (r: Result<(), Reason>)
    modifies tx
    ensures match Route(answer)
            case Failure(reason) => r == Failure(reason) && tx.published == old(tx.published)
            case Success(route) => r == Success(()) && tx.published == old(tx.published) + [Connected(route)]
    ensures match answer
            case NoAnswer(text) => r == Failure(Io(text)) && tx.published == old(tx.published)
            case Replied(AuthResponse(res)) =>
              if res.success
              then r == Success(()) && |tx.published| == |old(tx.published)| + 1
                   && tx.published[|old(tx.published)|].Connected? && old(tx.published) <= tx.published
              else r == Failure(AuthFailed(res.message)) && tx.published == old(tx.published)
            case Replied(other) => r == Failure(Unexpected(other)) && tx.published == old(tx.published)
  {
    match answer {
      case NoAnswer(text) => return Failure(Io(text));
      case Replied(AuthResponse(res)) =>
        if !res.success {
          return Failure(AuthFailed(res.message));
        }
        var url := StripPrefix(res.message, OK_PREFIX).GetOr(res.assignedRoute.GetOr("-"));
        tx.Send(Connected("http://" + url));
        return Success(());
      case Replied(other) => return Failure(Unexpected(other));
    }
  }

  method RunCancellable(round: Round, tx: StatusChannel) returns (r: Result<(), Reason>)
    modifies tx
    ensures tx.published == old(tx.published) + AttemptStatuses(round)
    ensures r.Success? == EndsOk(round)
    ensures r.Failure? ==> Route(round.answer) == Failure(r.error)
    // In particular:
    ensures round.interrupt.WhileConnecting? ==>
              r == Success(()) && tx.published == old(tx.published) + [Connecting, Stopped]
    ensures !round.interrupt.WhileConnecting? ==>
              match round.answer
              case NoAnswer(text) => r == Failure(Io(text)) && tx.published == old(tx.published) + [Connecting, Status.Error(Io(text))]
              case Replied(AuthResponse(res)) =>
                if res.success
                then r == Success(()) && exists route ::
                       tx.published == old(tx.published) + [Connecting, Connected(route)]
                                       + if round.interrupt.WhileConnected? then [Stopped] else []
                else r == Failure(AuthFailed(res.message))
                     && tx.published == old(tx.published) + [Connecting, Status.Error(AuthFailed(res.message))]
              case Replied(other) =>
                r == Failure(Unexpected(other)) && tx.published == old(tx.published) + [Connecting, Status.Error(Unexpected(other))]
  {
    RouteExactlyWhen(round.answer);
    tx.Send(Connecting);
    if round.interrupt.WhileConnecting? {
      tx.Send(Stopped);
      return Success(());
    }
    r := RunSessionWithStatus(round.answer, tx);
    if r.Failure? {
      tx.Send(Status.Error(r.error));
    } else if round.interrupt.WhileConnected? {
      tx.Send(Stopped);
    }
  }

  /** One turn of the loop: what it publishes, whether it is the last, and how long it slept, if it did. */
  method Turn(round: Round, backoffSecs: nat, tx: StatusChannel) returns (over: bool, slept: seq<nat>, next: nat)
    modifies tx
    ensures tx.published == old(tx.published) + RoundStatuses(round) && over == Cancelled(round)
    ensures var pause := if EndsOk(round) then 1 else backoffSecs;
      && slept == (if CancelledBeforeSleep(round) then [] else [pause])
      && (!over ==> next == Min(2 * pause, MAX_BACKOFF))
  {
    next := backoffSecs;
    var result := RunCancellable(round, tx);
    match result {
      case Success(_) =>
        tx.Send(Stopped);
        next := 1;
      case Failure(reason) =>
        tx.Send(Status.Error(reason));
    }
    if CancelledBeforeSleep(round) {
      tx.Send(Stopped);
      return true, [], next;
    }
    tx.Send(Connecting);
    slept := [next];
    if round.cancelledInSleep {
      tx.Send(Stopped);
      return true, slept, next;
    }
    next := Min(next * 2, MAX_BACKOFF);
    over := false;
  }

  /** The spawned task, for as many turns as the environment provides; done means it left its loop. */
  method ReconnectLoop(rounds: seq<Round>, tx: StatusChannel) returns (done: bool, turns: nat, sleeps: seq<nat>)
    modifies tx
    ensures turns <= |rounds| && tx.published == old(tx.published) + Published(rounds[..turns])
    ensures sleeps == Sleeps(rounds[..turns])
    ensures done <==> turns > 0 && Cancelled(rounds[turns - 1])
    ensures NoneCancelled(rounds[..if done then turns - 1 else turns]) && (!done ==> turns == |rounds|)
  {
    hide RoundStatuses, Cancelled, CancelledBeforeSleep, EndsOk;
    var backoffSecs := 1;
    done, turns, sleeps := false, 0, [];
    while turns < |rounds| && !done
      invariant turns <= |rounds|
      invariant tx.published == old(tx.published) + Published(rounds[..turns])
      invariant sleeps == Sleeps(rounds[..turns])
      invariant !done ==> backoffSecs == Backoff(rounds[..turns]) && NoneCancelled(rounds[..turns])
      invariant done ==> turns > 0 && Cancelled(rounds[turns - 1]) && NoneCancelled(rounds[..turns - 1])
      decreases |rounds| - turns
    {
      assert rounds[..turns + 1][..turns] == rounds[..turns] && rounds[..turns + 1][turns] == rounds[turns];
      var slept;
      done, slept, backoffSecs := Turn(rounds[turns], backoffSecs, tx);
      sleeps := sleeps + slept;
      turns := turns + 1;
    }
  }

  // ---- Status runs ----

  /** Connected comes directly after Connecting, and what follows it is Stopped. */
  ghost predicate ConnectedInPlace(p: seq<Status>) {
    forall i :: 0 <= i < |p| && p[i].Connected? ==>
      i > 0 && p[i - 1].Connecting? && (i + 1 < |p| ==> p[i + 1].Stopped?)
  }

  lemma ConcatInPlace(a: seq<Status>, b: seq<Status>)
    requires ConnectedInPlace(a) && ConnectedInPlace(b) && (a != [] ==> !a[|a| - 1].Connected?)
    ensures ConnectedInPlace(a + b)
  {
  }

  lemma RoundInPlace(r: Round)
    ensures ConnectedInPlace(RoundStatuses(r)) && RoundStatuses(r) != []
    ensures RoundStatuses(r)[0] == Connecting && !RoundStatuses(r)[|RoundStatuses(r)| - 1].Connected?
    ensures RoundStatuses(r)[|RoundStatuses(r)| - 1] == Stopped <==> Cancelled(r)
  {
  }

  lemma PublishedLast(rounds: seq<Round>)
    requires rounds != []
    ensures Published(rounds) == Published(rounds[..|rounds| - 1]) + RoundStatuses(rounds[|rounds| - 1])
  {
  }

  /** In every run Connected is published only directly after Connecting and followed only by
      Stopped; the last status is Stopped exactly when the task was cancelled in its last turn,
      which is when the loop is left. */
  lemma {:induction false} StatusesOfRun(rounds: seq<Round>)
    ensures ConnectedInPlace(Published(rounds))
    ensures rounds != [] ==> Published(rounds) != []
    ensures rounds != [] ==> (Published(rounds)[|Published(rounds)| - 1] == Stopped <==> Cancelled(rounds[|rounds| - 1]))
    ensures rounds != [] ==> !Published(rounds)[|Published(rounds)| - 1].Connected?
  {
    if rounds != [] {
      var n := |rounds| - 1;
      PublishedLast(rounds);
      hide Published, RoundStatuses, Cancelled, ConnectedInPlace;
      StatusesOfRun(rounds[..n]);
      RoundInPlace(rounds[n]);
      ConcatInPlace(Published(rounds[..n]), RoundStatuses(rounds[n]));
    }
  }

  /** The same holds if the task is aborted anywhere. */
  lemma StatusesOfAbortedRun(rounds: seq<Round>, cut: nat)
    requires cut <= |Published(rounds)|
    ensures ConnectedInPlace(Published(rounds)[..cut])
  {
    StatusesOfRun(rounds);
  }

  // ---- Backoff ----

  function Pow2(k: nat): nat {
    if k == 0 then 1 else 2 * Pow2(k - 1)
  }

  /** Attempts since the last one that ended Ok, or since the first. */
  function SinceOk(rounds: seq<Round>): nat
    requires rounds != []
  {
    var n := |rounds| - 1;
    if EndsOk(rounds[n]) || n == 0 then 0 else SinceOk(rounds[..n]) + 1
  }

  /** The sleep after an attempt is min(2^k, 30) seconds. */
  lemma {:induction false} BackoffClosedForm(rounds: seq<Round>)
    requires rounds != []
    ensures SleepAfter(rounds) == Min(Pow2(SinceOk(rounds)), MAX_BACKOFF)
  {
    var n := |rounds| - 1;
    if !EndsOk(rounds[n]) && n > 0 {
      BackoffClosedForm(rounds[..n]);
    }
  }

  function Sum(s: seq<nat>): nat {
    if s == [] then 0 else Sum(s[..|s| - 1]) + s[|s| - 1]
  }

  /** n failures from the start sleep 2^n - 1 seconds in all up to five, and 31 + 30(n-5) from then on. */
  lemma {:induction false} FailuresTotal(rounds: seq<Round>)
    requires NoneCancelled(rounds) && forall i :: 0 <= i < |rounds| ==> !EndsOk(rounds[i])
    ensures rounds != [] ==> SleepAfter(rounds) == if |rounds| <= 5 then Pow2(|rounds| - 1) else MAX_BACKOFF
    ensures Sum(Sleeps(rounds)) == if |rounds| <= 5 then Pow2(|rounds|) - 1 else 31 + 30 * (|rounds| - 5)
  {
    if rounds != [] {
      var n := |rounds| - 1;
      var before := rounds[..n];
      assert forall i :: 0 <= i < n ==> before[i] == rounds[i];
      FailuresTotal(before);
      assert !Cancelled(rounds[n]) && !CancelledBeforeSleep(rounds[n]);
      assert (Sleeps(before) + [SleepAfter(rounds)])[..|Sleeps(before)|] == Sleeps(before);
      assert Pow2(5) == 32 && Pow2(4) == 16 && Pow2(3) == 8 && Pow2(2) == 4 && Pow2(1) == 2;
    }
  }

  /** A session that passed authentication, however it ends, resets the delay to one second. */
  lemma AuthenticatedResets(rounds: seq<Round>, res: AuthRes)
    requires rounds != [] && rounds[|rounds| - 1].answer == Replied(AuthResponse(res)) && res.success
    ensures EndsOk(rounds[|rounds| - 1]) && SleepAfter(rounds) == 1 && SinceOk(rounds) == 0
  {
  }

  /** An attempt that was not cancelled and not accepted, refused ones included, goes on from the delay before:
      it doubles up to the limit. */
  lemma RefusedKeepsDelay(rounds: seq<Round>)
    requires rounds != [] && !rounds[|rounds| - 1].interrupt.WhileConnecting?
    requires match rounds[|rounds| - 1].answer
             case Replied(AuthResponse(res)) => !res.success
             case _ => true
    ensures !EndsOk(rounds[|rounds| - 1])
    ensures var before := rounds[..|rounds| - 1];
      && (before == [] ==> SleepAfter(rounds) == 1)
      && (before != [] ==> SleepAfter(rounds) == Min(2 * SleepAfter(before), 30) && SinceOk(rounds) == SinceOk(before) + 1)
  {
    RouteExactlyWhen(rounds[|rounds| - 1].answer);
  }

  /** Both ends agree on who is in: the client counts the server's reply as accepted exactly when the server
      brings the session on, and then shows the client's address; otherwise it reports the server's refusal. */
  lemma HandshakeAgrees(cfg: ServerSteps.Config, s: ServerSteps.State, i: nat, req: AuthReq, publicPort: nat)
    requires ServerSteps.Reachable(cfg, s) && i < |s.sessions| && s.sessions[i].phase.Reading?
    ensures var route := Route(Replied(ServerReply(cfg, req, publicPort)));
      var next := ServerSteps.Next(cfg, s, ServerSteps.SessionStep(i, ServerSteps.Authenticate(req)));
      && next.Some? && i < |next.value.sessions|
      && (route.Success? <==> next.value.sessions[i].phase.Replied?)
      && (route.Success? ==> route.value == "http://" + (req.clientId + ("." + cfg.domain)))
      && (route.Failure? ==> route.error == AuthFailed("Invalid token"))
      && (route.Success? <==> cfg.tokens == [] || req.token in cfg.tokens)
  {
    ServerSafety.AuthenticationOutcome(cfg, s, i, req);
    var host := Routing.HostFor(req.clientId, cfg.domain);
    assert (OK_PREFIX + host)[|OK_PREFIX|..] == host;
  }

  /** The route a client shows for the server's acceptance is the address under which the
      server routes to that client. */
  lemma ShownRouteIsRouted(clientId: string, domain: string, publicPort: nat, path: string)
    ensures Route(Replied(AcceptReply(clientId, domain, publicPort))) == Success("http://" + Routing.HostFor(clientId, domain))
    ensures clientId != "" && clientId != "dashboard" && ':' !in clientId && ':' !in domain && path != Routing.TLS_CHECK_PATH
       <==> Routing.Dispatch(Some(Routing.HostFor(clientId, domain)), path, domain) == Routing.Tunnel(clientId)
  {
    var host := Routing.HostFor(clientId, domain);
    assert (OK_PREFIX + host)[|OK_PREFIX|..] == host;
    Routing.RoutedExactlyWhen(clientId, domain, "", path);
  }
}
