/** Sharing Caddy's single on-demand TLS endpoint with other applications (CaddyManager):
    the manager's reads and writes interleave with writes by anybody else. */
module CaddyChain {
  import opened Common

  /** The endpoint Caddy has configured, if any, the manager's saved fallback, and every text the
      manager has taken for an endpoint so far. */
  datatype World = World(endpoint: Option<string>, fallback: Option<string>, seen: seq<string>)

  /** How a read goes: no 200; the configured endpoint as a JSON string (no 200 if none is set); or a
      200 whose body is no JSON string, of which the trimmed text is taken. */
  datatype Reading = NoAnswer | Exact | Garbled(text: string)

  function TextRead(endpoint: Option<string>, r: Reading): Option<string> {
    match r
    case NoAnswer => None
    case Exact => endpoint
    case Garbled(text) => Some(text)
  }

  /** What happens between the two applications and Caddy, one request at a time.
      applied: the write took effect, whatever the answer was. */
  datatype Step =
    | Read(reading: Reading)
    | Claim(applied: bool)
    | Restore(applied: bool)
    | Foreign(endpoint: Option<string>)

  predicate IsForeign(ours: string, endpoint: string) {
    endpoint != "" && endpoint != ours
  }

  function Next(ours: string, w: World, step: Step): World {
    match step
    case Read(r) =>
      (match TextRead(w.endpoint, r)
       case None => w
       case Some(current) =>
         w.(seen := w.seen + [current], fallback := if IsForeign(ours, current) then Some(current) else w.fallback))
    case Claim(applied) => if applied then w.(endpoint := Some(ours)) else w
    case Restore(applied) => if applied && w.fallback.Some? then w.(endpoint := w.fallback) else w
    case Foreign(endpoint) => w.(endpoint := endpoint)
  }

  function Run(ours: string, w: World, steps: seq<Step>): World {
    if steps == [] then w else Next(ours, Run(ours, w, steps[..|steps| - 1]), steps[|steps| - 1])
  }

  function ForeignWrites(endpoints: seq<Option<string>>): seq<Step> {
    seq(|endpoints|, i requires 0 <= i < |endpoints| => Foreign(endpoints[i]))
  }

  class Caddy {
    var endpoint: Option<string>

    constructor (endpoint: Option<string>)
      ensures this.endpoint == endpoint
    {
      this.endpoint := endpoint;
    }

    method Get(r: Reading) returns (text: Option<string>)
      ensures text == TextRead(endpoint, r)
    {
      return TextRead(endpoint, r);
    }

    method Patch(value: string, applied: bool)
      modifies this
      ensures endpoint == if applied then Some(value) else old(endpoint)
    {
      if applied {
        endpoint := Some(value);
      }
    }

    /** Other applications write in between. */
    method OthersWrite(endpoints: seq<Option<string>>)
      modifies this
      ensures endpoint == if endpoints == [] then old(endpoint) else endpoints[|endpoints| - 1]
    {
      var i := 0;
      while i < |endpoints|
        invariant i <= |endpoints|
        invariant endpoint == if i == 0 then old(endpoint) else endpoints[i - 1]
      {
        endpoint := endpoints[i];
        i := i + 1;
      }
    }
  }

  lemma {:induction false} OthersRun(ours: string, w: World, endpoints: seq<Option<string>>)
    ensures Run(ours, w, ForeignWrites(endpoints))
         == if endpoints == [] then w else w.(endpoint := endpoints[|endpoints| - 1])
  {
    if endpoints != [] {
      var n := |endpoints| - 1;
      OthersRun(ours, w, endpoints[..n]);
      assert ForeignWrites(endpoints)[..n] == ForeignWrites(endpoints[..n]);
    }
  }

  lemma {:induction false} RunConcat(ours: string, w: World, a: seq<Step>, b: seq<Step>)
    ensures Run(ours, w, a + b) == Run(ours, Run(ours, w, a), b)
  {
    if b == [] {
      assert a + b == a;
    } else {
      var n := |b| - 1;
      RunConcat(ours, w, a, b[..n]);
      assert (a + b)[..|a| + n] == a + b[..n];
    }
  }

  lemma OneStep(ours: string, w: World, step: Step)
    ensures Run(ours, w, [step]) == Next(ours, w, step)
  {
    assert [step][..0] == [];
  }

  /** read, others write, write: as three stages of one run. */
  lemma ThreeStages(ours: string, w: World, first: Step, others: seq<Option<string>>, last: Step)
    ensures Run(ours, w, [first] + ForeignWrites(others) + [last])
         == Next(ours, Run(ours, Next(ours, w, first), ForeignWrites(others)), last)
  {
    RunConcat(ours, w, [first] + ForeignWrites(others), [last]);
    RunConcat(ours, w, [first], ForeignWrites(others));
    OneStep(ours, w, first);
    OneStep(ours, Run(ours, Next(ours, w, first), ForeignWrites(others)), last);
  }

  /** The answer to a write: a 200, or anything else, which may still have been applied. */
  datatype Answer = Ok200 | NotOk(applied: bool) {
    predicate Applied() { Ok200? || applied }
  }

  class CaddyManager {
    const ourEndpoint: string
    var fallback: Option<string>
    ghost var seen: seq<string>

    constructor (ourEndpoint: string)
      ensures this.ourEndpoint == ourEndpoint && fallback == None && seen == []
    {
      this.ourEndpoint := ourEndpoint;
      fallback, seen := None, [];
    }

    ghost function View(caddy: Caddy): World
      reads this, caddy
    {
      World(caddy.endpoint, fallback, seen)
    }

    /** The outcomes of the two requests, and what others write between them, are given. */
    method Register(caddy: Caddy, r: Reading, others: seq<Option<string>>, patch: Answer) returns (ok: bool)
      modifies this, caddy
      ensures View(caddy)
           == Run(ourEndpoint, old(View(caddy)), [Read(r)] + ForeignWrites(others) + [Claim(patch.Applied())])
      ensures ok == patch.Ok200? && (ok ==> caddy.endpoint == Some(ourEndpoint))
      ensures r.NoAnswer? || (r.Exact? && old(caddy.endpoint).None?) ==> fallback == old(fallback) && seen == old(seen)
    {
      ThreeStages(ourEndpoint, View(caddy), Read(r), others, Claim(patch.Applied()));
      OthersRun(ourEndpoint, Next(ourEndpoint, View(caddy), Read(r)), others);
      var body := caddy.Get(r);
      if body.Some? {
        seen := seen + [body.value];
        if body.value != "" && body.value != ourEndpoint {
          fallback := Some(body.value);
        }
      }
      caddy.OthersWrite(others);
      caddy.Patch(ourEndpoint, patch.Applied());
      return patch.Ok200?;
    }

    method Unregister(caddy: Caddy, patch: Answer)
      modifies this, caddy
      ensures View(caddy) == Next(ourEndpoint, old(View(caddy)), Restore(patch.Applied()))
      ensures fallback == old(fallback) && (fallback.None? ==> caddy.endpoint == old(caddy.endpoint))
      ensures fallback.Some? && patch.Ok200? ==> caddy.endpoint == fallback
    {
      if fallback.Some? {
        caddy.Patch(fallback.value, patch.Applied());
      }
    }

    /** One watchdog round. It writes only if it read something other than our endpoint. */
    method CheckAndReregister(caddy: Caddy, r: Reading, others: seq<Option<string>>, patch: Answer)
      modifies this, caddy
      ensures View(caddy) == Run(ourEndpoint, old(View(caddy)),
        if TextRead(old(caddy.endpoint), r).Some? && TextRead(old(caddy.endpoint), r) != Some(ourEndpoint)
        then [Read(r)] + ForeignWrites(others) + [Claim(patch.Applied())]
        else [Read(r)])
      // In particular, a round without an answer, or that finds us, changes nothing that is configured or saved:
      ensures r.NoAnswer? || (r.Exact? && (old(caddy.endpoint).None? || old(caddy.endpoint) == Some(ourEndpoint))) ==>
                caddy.endpoint == old(caddy.endpoint) && fallback == old(fallback)
    {
      ThreeStages(ourEndpoint, View(caddy), Read(r), others, Claim(patch.Applied()));
      OneStep(ourEndpoint, View(caddy), Read(r));
      OthersRun(ourEndpoint, Next(ourEndpoint, View(caddy), Read(r)), others);
      var current := caddy.Get(r);
      if current.None? {
        return;
      }
      seen := seen + [current.value];
      if current.value == ourEndpoint {
        return;
      }
      if current.value != "" {
        fallback := current;
      }
      caddy.OthersWrite(others);
      caddy.Patch(ourEndpoint, patch.Applied());
    }

    /** The address asked for a domain that is not ours, if an endpoint is saved. */
    method FallbackUrl(domain: string) returns (url: Option<string>)
      ensures url.Some? == fallback.Some?
      ensures url.Some? ==> exists sep :: sep in ["?", "&"] && url.value == fallback.value + sep + "domain=" + domain
                              && (sep == "&" <==> '?' in fallback.value)
    {
      if fallback.None? {
        return None;
      }
      var separator := if '?' in fallback.value then "&" else "?";
      return Some(fallback.value + separator + "domain=" + domain);
    }
  }

  // ---- Under every interleaving ----

  /** The last text read that was neither empty nor ours. */
  function LastForeign(ours: string, seen: seq<string>): Option<string> {
    if seen == [] then None
    else
      var n := |seen| - 1;
      if IsForeign(ours, seen[n]) then Some(seen[n]) else LastForeign(ours, seen[..n])
  }

  lemma {:induction false} LastForeignIsForeign(ours: string, seen: seq<string>)
    ensures LastForeign(ours, seen).Some? ==> IsForeign(ours, LastForeign(ours, seen).value)
    ensures LastForeign(ours, seen).None? <==> forall i :: 0 <= i < |seen| ==> !IsForeign(ours, seen[i])
  {
    if seen != [] {
      LastForeignIsForeign(ours, seen[..|seen| - 1]);
    }
  }

  lemma StepKeepsLastForeign(ours: string, w: World, step: Step)
    requires w.fallback == LastForeign(ours, w.seen)
    ensures Next(ours, w, step).fallback == LastForeign(ours, Next(ours, w, step).seen)
  {
    if step.Read? && TextRead(w.endpoint, step.reading).Some? {
      assert (w.seen + [TextRead(w.endpoint, step.reading).value])[..|w.seen|] == w.seen;
    }
  }

  /** However registrations, watchdog rounds, restores, failed requests and foreign writes interleave:
      the saved fallback is the last foreign text that was read, never empty and never our own. */
  lemma {:induction false} FallbackIsLastForeign(ours: string, start: Option<string>, steps: seq<Step>)
    ensures var w := Run(ours, World(start, None, []), steps);
      && w.fallback == LastForeign(ours, w.seen)
      && w.fallback != Some("") && w.fallback != Some(ours)
  {
    hide Next, LastForeign;
    var w0 := World(start, None, []);
    LastForeignIsForeign(ours, []);
    if steps != [] {
      var n := |steps| - 1;
      FallbackIsLastForeign(ours, start, steps[..n]);
      StepKeepsLastForeign(ours, Run(ours, w0, steps[..n]), steps[n]);
    }
    LastForeignIsForeign(ours, Run(ours, w0, steps).seen);
  }

  // ---- What a claim overwrites ----

  /** Somebody else's endpoint stands at Caddy and is not the saved fallback: claiming now loses it. */
  predicate WouldLose(ours: string, w: World) {
    w.endpoint.Some? && IsForeign(ours, w.endpoint.value) && w.fallback != w.endpoint
  }

  /** What stands at Caddy unread: the start or somebody's last write, until an exact read or a write of our
      own. Garbled text that replaces the fallback makes whatever stands there unread again. */
  function Unread(ours: string, start: Option<string>, steps: seq<Step>): Option<string> {
    if steps == [] then start
    else
      var before := steps[..|steps| - 1];
      var w := Run(ours, World(start, None, []), before);
      match steps[|steps| - 1]
      case Read(NoAnswer) => Unread(ours, start, before)
      case Read(Exact) => None
      case Read(Garbled(text)) => if IsForeign(ours, text) then w.endpoint else Unread(ours, start, before)
      case Claim(applied) => if applied then None else Unread(ours, start, before)
      case Restore(applied) => if applied && w.fallback.Some? then None else Unread(ours, start, before)
      case Foreign(endpoint) => endpoint
  }

  /** In every run, the endpoint that a claim would overwrite is ours, empty, unset or the saved fallback, unless
      an unread foreign endpoint stands there that differs from the fallback; then it is lost. */
  lemma {:induction false} LosesExactlyWhenUnread(ours: string, start: Option<string>, steps: seq<Step>)
    ensures var w, unread := Run(ours, World(start, None, []), steps), Unread(ours, start, steps);
      && (unread.Some? ==> w.endpoint == unread)
      && (WouldLose(ours, w) <==> unread.Some? && IsForeign(ours, unread.value) && w.fallback != unread)
  {
    if steps != [] {
      LosesExactlyWhenUnread(ours, start, steps[..|steps| - 1]);
    }
  }

  /** A read, writes by others and a claim, as in registering and in a watchdog round that claims, from
      any state: the claim loses an endpoint exactly when a foreign one other
      than the fallback was written after the read, or there was no such write and the read was not
      exact while one stood there. What is lost is then neither configured nor saved. */
  lemma ClaimLosesExactlyWhen(ours: string, w: World, r: Reading, others: seq<Option<string>>)
    ensures var read := Next(ours, w, Read(r));
      var before := Run(ours, read, ForeignWrites(others));
      var after := Next(ours, before, Claim(true));
      var last := if others == [] then w.endpoint else others[|others| - 1];
      && before.endpoint == last
      && (WouldLose(ours, before) <==>
           (others == [] ==> !r.Exact?) && last.Some? && IsForeign(ours, last.value) && read.fallback != last)
      && (WouldLose(ours, before) ==> after.endpoint != last && after.fallback != last)
  {
    OthersRun(ours, Next(ours, w, Read(r)), others);
  }

  /** For instance an endpoint written between a successful read and the claim: it is overwritten, and
      unregistering restores the one that was read. */
  lemma WrittenInBetween(ours: string, first: string, second: string)
    requires IsForeign(ours, first) && IsForeign(ours, second) && first != second
    ensures var w := Run(ours, World(Some(first), None, []), [Read(Exact)] + ForeignWrites([Some(second)]) + [Claim(true)]);
      && w.endpoint == Some(ours) && w.fallback == Some(first) && second !in w.seen
      && Next(ours, w, Restore(true)).endpoint == Some(first)
  {
    var w0 := World(Some(first), None, []);
    ThreeStages(ours, w0, Read(Exact), [Some(second)], Claim(true));
    OthersRun(ours, Next(ours, w0, Read(Exact)), [Some(second)]);
  }

  /** Nor is an endpoint saved that registering could not read: it claims all the same, and there is nothing to restore. */
  lemma ClaimedUnread(ours: string, first: string)
    requires IsForeign(ours, first)
    ensures var w := Run(ours, World(Some(first), None, []), [Read(NoAnswer)] + ForeignWrites([]) + [Claim(true)]);
      w == World(Some(ours), None, []) && Next(ours, w, Restore(true)) == w
  {
    var w0 := World(Some(first), None, []);
    ThreeStages(ours, w0, Read(NoAnswer), [], Claim(true));
    OthersRun(ours, Next(ours, w0, Read(NoAnswer)), []);
  }

  // ---- Giving the endpoint back ----

  /** Watchdog rounds that find our endpoint or get no answer: such a round only reads. */
  function QuietRounds(answered: seq<bool>): seq<Step> {
    seq(|answered|, i requires 0 <= i < |answered| => Read(if answered[i] then Exact else NoAnswer))
  }

  lemma {:induction false} QuietRoundsKeep(ours: string, w: World, answered: seq<bool>)
    requires w.endpoint == Some(ours)
    ensures var w' := Run(ours, w, QuietRounds(answered));
      w'.endpoint == w.endpoint && w'.fallback == w.fallback
  {
    if answered != [] {
      var n := |answered| - 1;
      QuietRoundsKeep(ours, w, answered[..n]);
      assert QuietRounds(answered)[..n] == QuietRounds(answered[..n]);
    }
  }

  /** Registering and unregistering, with any number of watchdog rounds in between, nobody else writing and
      the other requests succeeding, restores what was configured exactly when that was a non-empty
      endpoint; an unset or empty one is left pointing at us. */
  lemma RegisterThenUnregister(ours: string, start: Option<string>, answered: seq<bool>)
    requires ours != ""
    ensures var w := Run(ours, World(start, None, []), ([Read(Exact)] + [Claim(true)]) + QuietRounds(answered) + [Restore(true)]);
      && (w.endpoint == start <==> start.Some? && start.value != "")
      && (w.endpoint != start ==> w.endpoint == Some(ours))
  {
    var w0 := World(start, None, []);
    var registered := Next(ours, Next(ours, w0, Read(Exact)), Claim(true));
    RunConcat(ours, w0, [Read(Exact)], [Claim(true)]);
    OneStep(ours, w0, Read(Exact));
    OneStep(ours, Next(ours, w0, Read(Exact)), Claim(true));
    RunConcat(ours, w0, [Read(Exact)] + [Claim(true)], QuietRounds(answered));
    QuietRoundsKeep(ours, registered, answered);
    RunConcat(ours, w0, ([Read(Exact)] + [Claim(true)]) + QuietRounds(answered), [Restore(true)]);
    OneStep(ours, Run(ours, registered, QuietRounds(answered)), Restore(true));
  }

  /** An unset endpoint answered with a 200 and a text that is no JSON string ends up configured as that text. */
  lemma GarbledIsRestored(ours: string, text: string)
    requires IsForeign(ours, text)
    ensures Run(ours, World(None, None, []), [Read(Garbled(text))] + ForeignWrites([]) + [Claim(true)]).fallback == Some(text)
    ensures Next(ours, Run(ours, World(None, None, []), [Read(Garbled(text))] + ForeignWrites([]) + [Claim(true)]),
                 Restore(true)).endpoint == Some(text)
  {
    ThreeStages(ours, World(None, None, []), Read(Garbled(text)), [], Claim(true));
    OthersRun(ours, Next(ours, World(None, None, []), Read(Garbled(text))), []);
  }

  /** After somebody overwrote our endpoint, a successful watchdog round chains to them: we are
      configured again and they are the fallback. */
  lemma WatchdogChains(ours: string, w: World, theirs: string)
    requires IsForeign(ours, theirs)
    ensures var w' := Run(ours, w, [Foreign(Some(theirs))] + [Read(Exact)] + [Claim(true)]);
      w'.endpoint == Some(ours) && w'.fallback == Some(theirs)
  {
    var over := Next(ours, w, Foreign(Some(theirs)));
    RunConcat(ours, w, [Foreign(Some(theirs))] + [Read(Exact)], [Claim(true)]);
    RunConcat(ours, w, [Foreign(Some(theirs))], [Read(Exact)]);
    OneStep(ours, w, Foreign(Some(theirs)));
    OneStep(ours, over, Read(Exact));
    OneStep(ours, Next(ours, over, Read(Exact)), Claim(true));
  }
}
