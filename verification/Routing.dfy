/** Host-header routing of public requests and the on-demand TLS gate
    (serve_http, extract_routing and api_tls_check). */
module Routing {
  import opened Common
  import ClientRegistry

  /** The part of a host before its first colon. */
  function BeforeColon(h: string): string {
    if h == "" || h[0] == ':' then "" else [h[0]] + BeforeColon(h[1..])
  }

  function StripSuffix(s: string, suffix: string): Option<string> {
    if |suffix| <= |s| && s[|s| - |suffix|..] == suffix
    then Some(s[..|s| - |suffix|])
    else None
  }

  function HostFor(name: string, domain: string): string {
    name + ("." + domain)
  }

  function ExtractClient(host: Option<string>, domain: string): Option<string> {
    match host
    case None => None
    case Some(h) =>
      match StripSuffix(BeforeColon(h), "." + domain)
      case None => None
      case Some(name) => if name == "" then None else Some(name)
  }

  const TLS_CHECK_PATH := "/api/tls-check"

  datatype Target = Dashboard | Tunnel(clientId: string) | NoTunnel

  /** Where serve_http sends a request; an absent or unreadable Host header is None. */
  function Dispatch(host: Option<string>, path: string, domain: string): Target {
    if path == TLS_CHECK_PATH then Dashboard
    else if BeforeColon(host.GetOr("")) == HostFor("dashboard", domain) then Dashboard
    else match ExtractClient(host, domain)
      case Some(name) => Tunnel(name)
      case None => NoTunnel
  }

  /** Chained means the question was passed to the saved fallback endpoint. */
  datatype TlsAnswer = Approved | Refused | Chained(reply: Option<nat>) {
    function Status(): nat {
      match this
      case Approved => 200
      case Refused => 403
      case Chained(reply) => if reply.Some? && 100 <= reply.value <= 999 then reply.value else 403
    }
  }

  /** api_tls_check; fallback is what asking the chained endpoint would yield
      (None when there is no manager, no saved endpoint, or no answer). */
  function TlsCheck<E>(requested: string, domain: string, clients: map<string, E>, fallback: Option<nat>): TlsAnswer {
    match StripSuffix(requested, "." + domain)
    case None => Chained(fallback)
    case Some(name) =>
      if name in ClientRegistry.RESERVED_SUBDOMAINS then Approved
      else if name in clients then Approved
      else Refused
  }

  lemma {:induction false} BeforeColonCuts(h: string)
    ensures ':' !in BeforeColon(h)
    ensures BeforeColon(h) <= h
    ensures BeforeColon(h) == h <==> ':' !in h
  {
    if h != "" && h[0] != ':' {
      BeforeColonCuts(h[1..]);
      assert h == [h[0]] + h[1..];
    }
  }

  /** Appending a port changes nothing that the router looks at. */
  lemma {:induction false} PortIsIgnored(h: string, port: string)
    ensures BeforeColon(h + (":" + port)) == BeforeColon(h)
  {
    if h == "" {
      assert (h + (":" + port))[0] == ':';
    } else if h[0] != ':' {
      assert (h + (":" + port))[1..] == h[1..] + (":" + port);
      PortIsIgnored(h[1..], port);
    }
  }

  lemma StripSuffixInverts(name: string, suffix: string, s: string)
    ensures StripSuffix(s, suffix) == Some(name) <==> s == name + suffix
  {
    if |suffix| <= |s| {
      assert s == s[..|s| - |suffix|] + s[|s| - |suffix|..];
    }
    if s == name + suffix {
      assert s[|s| - |suffix|..] == suffix;
      assert s[..|s| - |suffix|] == name;
    }
  }

  /** Exactly which names reach their own tunnel when asked for as name.domain,
      with or without a port. */
  lemma RoutedExactlyWhen(name: string, domain: string, port: string, path: string)
    ensures Dispatch(Some(HostFor(name, domain)), path, domain) == Tunnel(name) <==>
            name != "" && ':' !in name && ':' !in domain && name != "dashboard" && path != TLS_CHECK_PATH
    ensures Dispatch(Some(HostFor(name, domain) + (":" + port)), path, domain)
         == Dispatch(Some(HostFor(name, domain)), path, domain)
  {
    var h := HostFor(name, domain);
    BeforeColonCuts(h);
    PortIsIgnored(h, port);
    StripSuffixInverts(name, "." + domain, BeforeColon(h));
    assert ':' in h <==> ':' in name || ':' in domain by {
      assert h == name + ("." + domain);
      if ':' in domain { assert ':' in "." + domain; }
    }
    if h == HostFor("dashboard", domain) {
      StripSuffixInverts("dashboard", "." + domain, h);
      StripSuffixInverts(name, "." + domain, h);
    }
  }

  /** Where every request goes. The dashboard has the gate's path and its own host, with or without a port; a
      tunnel has all other hosts name.domain; the rest goes nowhere. */
  lemma DispatchExactlyWhen(host: Option<string>, path: string, domain: string)
    ensures var h := if host.Some? then BeforeColon(host.value) else "";
      var own := path == "/api/tls-check" || h == "dashboard" + ("." + domain);
      && (Dispatch(host, path, domain) == Dashboard <==> own)
      && (forall name: string :: Dispatch(host, path, domain) == Tunnel(name) <==>
           !own && host.Some? && name != "" && h == name + ("." + domain))
      && (Dispatch(host, path, domain) == NoTunnel <==>
           !own && (host.None? || forall name: string :: name != "" ==> h != HostFor(name, domain)))
  {
    var h := if host.Some? then BeforeColon(host.value) else "";
    forall name: string ensures StripSuffix(h, "." + domain) == Some(name) <==> h == HostFor(name, domain) {
      StripSuffixInverts(name, "." + domain, h);
    }
    var found := StripSuffix(h, "." + domain);
    if found.Some? {
      assert h == HostFor(found.value, domain);
    }
  }

  /** A routed request's host is, up to its port, the name it was routed to under the base domain. */
  lemma RoutedHost(host: Option<string>, path: string, domain: string, name: string)
    requires Dispatch(host, path, domain) == Tunnel(name)
    ensures name != "" && host.Some? && BeforeColon(host.value) == HostFor(name, domain)
    ensures name != "dashboard"
  {
    StripSuffixInverts(name, "." + domain, BeforeColon(host.value));
  }

  /** The gate approves exactly the reserved and registered names under the base domain,
      and asks the fallback exactly for names outside it. The answer is a 200 if it approves, or if the
      name is outside and the fallback answered 200. */
  lemma TlsGateExact<E>(requested: string, domain: string, clients: map<string, E>, fallback: Option<nat>)
    ensures var answer := TlsCheck(requested, domain, clients, fallback);
      && (answer.Chained? <==> forall name: string :: requested != HostFor(name, domain))
      && (answer == Approved <==>
           exists name: string :: requested == HostFor(name, domain)
                          && (name in ClientRegistry.RESERVED_SUBDOMAINS || name in clients))
      && (answer.Status() == 200 <==>
           answer == Approved || (fallback == Some(200) && forall name: string :: requested != HostFor(name, domain)))
      && (answer.Status() != 200 ==>
           answer.Status() == if answer.Chained? && fallback.Some? && 100 <= fallback.value <= 999 then fallback.value else 403)
  {
    var suffix := "." + domain;
    forall name: string ensures StripSuffix(requested, suffix) == Some(name) <==> requested == HostFor(name, domain) {
      StripSuffixInverts(name, suffix, requested);
    }
    match StripSuffix(requested, suffix) {
      case None =>
      case Some(name) => assert requested == HostFor(name, domain);
    }
  }
}
