# Zo Tunnel, verified model

Zo Tunnel exposes local HTTP services through a public server: clients keep one
multiplexed control connection to the server, and the server forwards public requests,
chosen by the subdomain in their Host header, over streams of that connection. This
project models the parts of the repository that carry state and states what they keep
over every run.

## What is modelled

| file | models |
|---|---|
| Common.dfy, Selecting.dfy | optional values, wrapping 64-bit counters, counting and filtering |
| ClientRegistry.dfy | the shared registry of connected clients |
| Routing.dfy | Host routing and the on-demand TLS gate |
| ServerSteps.dfy | the server as a step system: any number of sessions and requests interleave, one atomic action at a time, with every I/O outcome left to the environment |
| ServerSafety.dfy | the invariant of that system; ownership, delivery, markers, the TLS gate |
| ServerProgress.dfy | when each step is possible; nobody gets stuck |
| ServerGauges.dfy | conservation of the two atomic gauges |
| ProxyHandler.dfy, ProxyRuns.dfy | one public request as imperative code on objects, and its agreement with the step system |
| RateLimit.dfy | the per-key limiter |
| Heartbeat.dfy | the driver loop and its dead-peer detection |
| FrameCodec.dfy | the control-channel frames |
| TunnelConfig.dfy, TunnelManager.dfy | the client's saved list, its running tunnels, connect and disconnect |
| Reconnect.dfy | one tunnel's task: statuses and backoff |
| Reconcile.dfy | keyed reconciliation of cards and rows in the two web pages |
| CaddyChain.dfy | sharing Caddy's on-demand TLS endpoint with other applications |
| VersionOrder.dfy | comparing release tags |

In the step system an entry outlives its place in the registry: requests keep the entry
they looked up, so looking up, opening and writing are separate steps between which the
session may end or be replaced. A request's future may be dropped wherever it is suspended.
An aborted driver may still take steps before it stops. The stepping methods elsewhere are
proved against functions on values, and the lemmas are about those functions.

## Where the code differs from what it is said to do

* The limiter calls itself a sliding window. It is a fixed window that starts at an admitted
  request, and lets through up to (L+1)*max - 1 requests in L seconds (RateBoundAttained).
* The success reply is written before the client is registered, so a client may be told of its
  success and then refused (RegistrationOutcome says when, ToldButRefused reaches it).
* A request future that is dropped never decrements its gauges. When its client has left as
  well, the entry's share of the leak disappears with the entry while the global
  gauge keeps it, so the sum over live entries is not inside plus dropped in general
  (LiveGaugeSum gives the exact condition, LeakOnFreedEntry a state that violates it).
* A payload of 2^32 bytes or more whose length modulo 2^32 is at most 16 MiB passes the size check of
  write_message, which looks at the cut length, and is misread (CutFrame, CutFrameExample).
* An entry added with an id that is already in use is stored; only client ids are compared
  (AddingKeepsDistinct, CallKeepsCoherent).
* A client may register an empty name or one with a colon. The TLS gate approves it, but no request
  reaches it (ApprovedButUnreachable), although the client is shown a route (ShownRouteIsRouted).
* Unregistering leaves our endpoint in Caddy if none, or an empty one, was set before (RegisterThenUnregister).
* An endpoint that another application writes between our read and our claim, or that stands there when
  registering could not read it, is overwritten and not saved (ClaimLosesExactlyWhen, WrittenInBetween, ClaimedUnread).
* A 200 answer that is no JSON string is saved as the fallback and later configured (GarbledIsRestored).
* A save that fails before writing leaves the change in memory; the next connection does not have it (RunsReload).
* Cards whose id is empty, or also carried by a later card, are never in the lookup table and so never
  removed (AllIndexedExactlyWhen); the second run moves nothing only under the condition of SecondRunIsIdle.
* Parts of a version that are no numbers are skipped and later ones move up. A tag replaces the patch number by the
  first number among its parts after its first dot, or by 0: 1.2.3-rc.7 is taken for 1.2.7 and
  offered over 1.2.3, and 1.2.0 is not offered over 1.2.0-rc (TaggedParse, MisreadExamples; PreReleasesAreMisread
  says exactly when the order is right).
* The repository's README places Traefik in front of the server; the code drives Caddy. The model follows the code.

## Model

| member | source | states |
|---|---|---|
| ServerSafety.StepKeepsInv | crates/zo-tunnel-server/src/server.rs:348-445 | Every step of every session and request, whatever its I/O outcome, keeps the structural invariant that ties sessions, registry, entries, requests and streams together |
| ServerSafety.RunKeepsInv | crates/zo-tunnel-server/src/server.rs:348-445 | The invariant holds after every schedule, of any length and any number of sessions and requests, from a freshly started server |
| ServerSafety.SessionOwnership | crates/zo-tunnel-server/src/server.rs:407-436 | In every reachable state a name is registered if and only if some session is between its successful register and its unregister under that name; that session is unique and the filed entry is its own, with its own handle |
| ServerSafety.OnlyTheOwnerLeaves | crates/zo-tunnel-server/src/server.rs:407-436 | The only step that changes what is filed under a registered name is the owner's own unregister, and it removes nothing else; no losing duplicate evicts the winner |
| ServerSafety.RegistrationOutcome | crates/zo-tunnel-server/src/registry.rs:61-94 | A session told of its success is registered exactly when the name is neither reserved nor taken at that moment; otherwise registry and entries are unchanged, the session is over and its driver aborted |
| ServerSafety.AuthenticationOutcome | crates/zo-tunnel-server/src/server.rs:366-405 | A session's first message brings it on, with that request on record, if and only if no tokens are configured or its token is one of them; any other message, failure or timeout ends it unauthenticated; nothing else changes |
| ServerSafety.OnlyAcceptedTokens | crates/zo-tunnel-server/src/config.rs:191-196 | In every reachable state, whoever is authenticated presented one of the configured tokens, or none is configured |
| ServerSafety.DriverLifecycle | crates/zo-tunnel-server/src/server.rs:407-436 | A driver starts only after the reply and is aborted only where registering was refused; a session unregisters only after its driver has stopped by itself |
| ServerSafety.ToldButRefused | crates/zo-tunnel-server/src/server.rs:383-424 | For every reserved name and accepted token: a reachable state in which a client has been told of its success, and the registration step that refuses it |
| ServerSafety.ReservedNeverRegistered | crates/zo-tunnel-server/src/registry.rs:69-75 | No reserved name is in the registry of any reachable state |
| ServerSafety.RequestStepFrame | crates/zo-tunnel-server/src/proxy.rs:85-268 | A request step leaves sessions, registry, other requests and the owners of streams alone and changes no entry beyond its gauge |
| ServerSafety.DeliveryIntegrity | crates/zo-tunnel-server/src/proxy.rs:94-161 | Whatever a request was written to is a stream of a session that authenticated as the name in the request's Host, with a configured token unless none is configured, also if that session has since ended or been replaced; the name is not reserved and no other request shares the stream |
| ServerSafety.NothingSentWithoutStream | crates/zo-tunnel-server/src/proxy.rs:144-161 | A request for which no stream was opened has had no byte sent anywhere |
| ServerSafety.MarkerTransparency | crates/zo-tunnel-client/src/client.rs:224-263 | At every moment of every run: heartbeat streams exist only for clients that announced a version and nothing of them reaches the local service; of a proxied stream exactly the request bytes written so far do |
| ServerSafety.OnlyHeartbeatsAnswered | crates/zo-tunnel-client/src/client.rs:240-247 | The client answers a stream as a heartbeat if and only if it is one whose byte was written; no request is ever taken for one |
| ServerSafety.ProbeOpensStream | crates/zo-tunnel-server/src/server.rs:112-121 | A probe opens one more stream to the session's own client, which answers it if and only if its byte was written |
| ServerSafety.ChunksArrive | crates/zo-tunnel-client/src/client.rs:248-255 | Request bytes written next reach the local service right behind those before them, and touch no other stream |
| ServerSafety.MarkersMustAgree | crates/zo-tunnel-protocol/src/lib.rs:86-91 | A body arrives unaltered if and only if the server writes markers exactly for the clients that read them (or the body is empty and unmarked) |
| ServerSafety.GateAgreesWithRouting | crates/zo-tunnel-server/src/dashboard.rs:344-398 | In every reachable state the TLS gate approves name.domain if and only if the name is reserved or registered; a registered name is routed to its own tunnel, with or without a port, if and only if name and domain are colon-free, the name is non-empty and the path is not the gate's own |
| ServerSafety.ApprovedButUnreachable | crates/zo-tunnel-server/src/dashboard.rs:383-389 | For every name that is empty or has a colon: a reachable state in which it is registered and approved by the gate, while no Host and path whatever is routed to it |
| ServerProgress.SessionEnabledExactlyWhen | crates/zo-tunnel-server/src/server.rs:348-445 | In every reachable state, the phase and driver in which each action of a session is possible |
| ServerProgress.RequestEnabledExactlyWhen | crates/zo-tunnel-server/src/proxy.rs:85-268 | The same for each action of a request; a stream can be opened only while its session's driver runs, a future dropped only at its four waiting points |
| ServerProgress.NoRequestStuck | crates/zo-tunnel-server/src/proxy.rs:85-268 | A request that is neither over nor dropped can always go on to its next phase, whatever became of its session |
| ServerProgress.NoSessionStuck | crates/zo-tunnel-server/src/server.rs:348-445 | A session that is not over can always go on, or its driver stop |
| ServerGauges.StepKeepsGauges | crates/zo-tunnel-server/src/proxy.rs:138-249 | Every step keeps both kinds of gauge equal, modulo 2^64, to the number of requests counted there |
| ServerGauges.RunKeepsGauges | crates/zo-tunnel-server/src/proxy.rs:138-249 | So they are after every schedule |
| ServerGauges.GaugeConservation | crates/zo-tunnel-server/src/proxy.rs:138-249 | With fewer than 2^64 requests so far, active_connections is the requests inside its region plus the futures dropped there, and each entry's active_streams is the same for that entry |
| ServerGauges.NoUnderflow | crates/zo-tunnel-server/src/proxy.rs:146-249 | Whenever a fetch_sub is about to happen, on whichever of the six exits, the gauge is at least 1 |
| ServerGauges.SumIsCount | crates/zo-tunnel-server/src/registry.rs:18-24 | The sum of the gauges of any set of entries is the number of requests counted on them |
| ServerGauges.GaugesDifferOnlyBetweenUpdates | crates/zo-tunnel-server/src/proxy.rs:138-142 | The global gauge and the sum over all entries ever created differ exactly by the requests between two paired updates |
| ServerGauges.LiveGaugeSum | crates/zo-tunnel-server/src/proxy.rs:125-142 | Summed over live entries only, the gauges count the requests inside plus the futures dropped on live entries; this equals inside plus all dropped if and only if no future was dropped on an entry freed since |
| ServerGauges.LeakOnFreedEntry | crates/zo-tunnel-server/src/proxy.rs:138-161 | A concrete reachable state in which that condition fails: a request dropped while opening its stream, whose client then leaves |
| ProxyHandler.HandleProxyRequest | crates/zo-tunnel-server/src/proxy.rs:85-268 | One request on its own: 503 or 404 without a name, 429 if refused, 502 for an unknown name, and otherwise the outcome of its forwarding, where the client's own status is returned if and only if every stage succeeds; the limiter's window for that name and no other, request and rejection counters move as that exit demands, and both gauges end as they began |
| ProxyHandler.ForwardTo | crates/zo-tunnel-server/src/proxy.rs:133-249 | All six exits give both gauges back; the status is the client's own if every stage succeeds, 500 if only the request could not be built, 502 otherwise; the stream is opened on the entry's session and carries the marker if and only if the client reads one |
| ProxyHandler.HandleRouted | crates/zo-tunnel-server/src/proxy.rs:114-131 | The limiter decides first, then the lookup, and only a request that passes both touches the client's counters |
| ProxyHandler.ForwardExactlyWhen | crates/zo-tunnel-server/src/proxy.rs:143-267 | For every combination of stage outcomes: status, session, marker, and whether the request reached the client |
| ProxyRuns.SoloRun | crates/zo-tunnel-server/src/proxy.rs:133-249 | In every reachable state, a request that holds an entry and runs on uninterrupted through the step system returns, restores both gauges, and has opened, marked and forwarded exactly what the handler method computes |
| ProxyRuns.LetThrough | crates/zo-tunnel-server/src/proxy.rs:114-249 | From its arrival on, an admitted request for a registered name ends in the step system as the handler computes it for that name's entry |
| ProxyRuns.TurnedAway | crates/zo-tunnel-server/src/proxy.rs:114-131 | A refused request, and one for an unknown name, ends at once without touching entries, gauges or streams |
| ClientRegistry.Registry.Register | crates/zo-tunnel-server/src/registry.rs:61-94 | Fails if and only if the name is reserved or taken, and then changes nothing; otherwise files a fresh entry with zeroed gauges under that name only |
| ClientRegistry.Registry.Unregister | crates/zo-tunnel-server/src/registry.rs:97-99 | Takes out that name and nothing else |
| ClientRegistry.Registry.Get | crates/zo-tunnel-server/src/registry.rs:102-104 | Finds the shared entry if and only if the name is registered; the entry bears the name asked for |
| ClientRegistry.Registry.List | crates/zo-tunnel-server/src/registry.rs:107-122 | Lists every registered client exactly once, each with its own request count and gauge |
| ClientRegistry.ReservedExactly | crates/zo-tunnel-server/src/config.rs:8 | The five reserved names and no others |
| Routing.RoutedExactlyWhen | crates/zo-tunnel-server/src/server.rs:494-529 | name.domain reaches the tunnel of that name if and only if the name is non-empty and not the dashboard's, neither has a colon and the path is not the gate's; a port changes nothing |
| Routing.DispatchExactlyWhen | crates/zo-tunnel-server/src/server.rs:507-529 | For every Host and path: dashboard, tunnel of which name, or nowhere, each if and only if its condition on path and host holds |
| Routing.RoutedHost | crates/zo-tunnel-server/src/proxy.rs:34-49 | A request routed to a name has, up to its port, exactly name.domain as its host |
| Routing.BeforeColonCuts | crates/zo-tunnel-server/src/proxy.rs:36-37 | Cutting a host at its first colon gives a colon-free prefix, the host itself if and only if it has none |
| Routing.PortIsIgnored | crates/zo-tunnel-server/src/server.rs:508-513 | Appending a port to any host changes nothing the router looks at |
| Routing.StripSuffixInverts | crates/zo-tunnel-server/src/proxy.rs:38-40 | Stripping a suffix yields a name if and only if the string is that name followed by the suffix |
| Routing.TlsGateExact | crates/zo-tunnel-server/src/dashboard.rs:350-397 | The fallback is asked if and only if the requested domain is not under the base domain; approval is exactly for reserved or registered names under it; the answer is 200 if and only if approved, or outside with the fallback answering 200, and otherwise the fallback's status if it is one, or 403 |
| RateLimit.RateLimiter.Check | crates/zo-tunnel-server/src/metrics.rs:76-95 | Decides by the key's own stored window alone, updates that window and no other key's |
| RateLimit.RateBound | crates/zo-tunnel-server/src/metrics.rs:76-95 | For every non-decreasing run of one key, every limit from 1 and every L from 1, any stretch of L seconds admits at most (L+1)*max - 1 requests |
| RateLimit.RateBoundAttained | crates/zo-tunnel-server/src/metrics.rs:76-95 | For every limit and every L some run admits exactly that many: the bound cannot be improved, and the limiter is no sliding window |
| RateLimit.RefusalIsJust | crates/zo-tunnel-server/src/metrics.rs:84-93 | A refused request has max earlier admissions less than a second before it |
| RateLimit.ModestKeyNeverRefused | crates/zo-tunnel-server/src/metrics.rs:84-93 | A key whose arrivals never exceed max within a second is never refused |
| RateLimit.StoredAsIfAlone | crates/zo-tunnel-server/src/metrics.rs:81-82 | After any interleaving of keys, a key's stored window is the one its own requests alone would have left |
| RateLimit.KeysAreIndependent | crates/zo-tunnel-server/src/metrics.rs:76-95 | Each request of an interleaved run is decided as in a run of its own key's requests alone |
| Heartbeat.Drive | crates/zo-tunnel-server/src/server.rs:77-158 | The loop runs on if and only if nothing has ended the connection, handles are left and never have five probes in a row failed; it ends with the first event that breaks this, as over if and only if that is an error or close, without handles if and only if those were dropped, and as dead if and only if it is the failed probe that completes the five |
| Heartbeat.LeftExactlyWhen | crates/zo-tunnel-server/src/server.rs:78-156 | The same for one event after a history that has not ended the loop |
| Heartbeat.MissedIsTrailingRun | crates/zo-tunnel-server/src/server.rs:128-147 | missed_heartbeats is at least k if and only if the last k probes all failed, whatever other events lie between |
| Heartbeat.ProbesStartOnTheirTick | crates/zo-tunnel-server/src/server.rs:71-126 | With probes of at most 10 s, probe n starts exactly at n ticks of 15 s: no probe delays the next |
| Heartbeat.DeadPeerDropped | crates/zo-tunnel-protocol/src/lib.rs:30-34 | From any moment after which no probe succeeds, some probe has ended within 85 s, under the declared 90 s, by which the loop has been left, whatever inbound streams and stream openings came between the probes |
| Heartbeat.DeadPeerBoundAttained | crates/zo-tunnel-server/src/server.rs:113-155 | 85 s are needed: a silent peer whose probes all time out is dropped with the probe that ends 85 s later and with none before, whatever comes between the probes |
| FrameCodec.WriteMessage | crates/zo-tunnel-protocol/src/lib.rs:193-214 | Appends exactly one frame, or nothing if encoding fails or the 32-bit length is over the limit |
| FrameCodec.WriteExactlyWhen | crates/zo-tunnel-protocol/src/lib.rs:193-203 | Nothing is written if and only if the payload cannot be encoded or its length modulo 2^32 is over 16 MiB, each with its own error |
| FrameCodec.ReadMessage | crates/zo-tunnel-protocol/src/lib.rs:217-258 | Takes one frame and leaves the rest untouched, or fails with the error of the first check that does not pass, having read exactly what was needed to see it |
| FrameCodec.FrameLayout | crates/zo-tunnel-protocol/src/lib.rs:205-209 | Every written frame byte by byte: version 1, the number of the message's kind, the payload length from its highest byte down, the payload, empty for pings, pongs and closes |
| FrameCodec.ReadExactlyWhen | crates/zo-tunnel-protocol/src/lib.rs:217-258 | Each refusal if and only if its condition on the bytes holds: another version, a type outside 1 to 9, more than 16 MiB, cut short, undecodable; type 4 is never accepted |
| FrameCodec.BigEndian | crates/zo-tunnel-protocol/src/lib.rs:208 | The four length bytes read back as the number |
| FrameCodec.TypesAreDistinct | crates/zo-tunnel-protocol/src/lib.rs:56-73 | A byte decodes to a message type if and only if it is that type's byte |
| FrameCodec.DecodeInvertsEncode | crates/zo-tunnel-protocol/src/lib.rs:148-187 | Every message's payload decodes, under its own type, to the message |
| FrameCodec.FrameRoundTrip | crates/zo-tunnel-protocol/src/lib.rs:193-258 | A written frame followed by any bytes reads back as the message leaving exactly those bytes, if and only if the payload is at most 16 MiB |
| FrameCodec.CutFrame | crates/zo-tunnel-protocol/src/lib.rs:195-203 | A longer payload is written if and only if its length modulo 2^32 is at most 16 MiB, and then read as the cut length, the rest of it left for the next read |
| FrameCodec.CutFrameExample | crates/zo-tunnel-protocol/src/lib.rs:195-203 | A lawful codec and a message of 2^32 payload bytes that is written without complaint and read back as a different one |
| FrameCodec.ReadTakesOneFrame | crates/zo-tunnel-protocol/src/lib.rs:217-257 | Every successful read consumes 6 bytes plus the declared length, which is within the limit |
| FrameCodec.NoPrefixAccepted | crates/zo-tunnel-protocol/src/lib.rs:220-254 | No proper prefix of an accepted frame is accepted |
| FrameCodec.StreamRoundTrip | crates/zo-tunnel-protocol/src/lib.rs:193-258 | Any sequence of messages within the limit, written one after another and followed by any bytes, reads back unchanged and in order, leaving exactly those bytes |
| TunnelConfig.SaveThenLoad | crates/zo-tunnel-client/src/config.rs:190-222 | Loading after a save gives the list in memory if the save succeeded or failed only after writing; if it failed before, if and only if the old file already gave it; if in the middle, if and only if what it left happens to read as it |
| TunnelConfig.TunnelsConfig.AddTunnel | crates/zo-tunnel-client/src/config.rs:232-255 | Memory, file and result after an addition: each refusal in its order, the stored entry, the failing save |
| TunnelConfig.TunnelsConfig.UpdateTunnel | crates/zo-tunnel-client/src/config.rs:258-295 | The same for an update of the first tunnel with the id |
| TunnelConfig.TunnelsConfig.RemoveTunnel | crates/zo-tunnel-client/src/config.rs:298-307 | The same for a removal, which needs the id to exist |
| TunnelConfig.TunnelsConfig.GetTunnel | crates/zo-tunnel-client/src/config.rs:310-312 | Finds the first tunnel with the id, or none if there is none |
| TunnelConfig.BlankExactlyWhen | crates/zo-tunnel-client/src/config.rs:238-244 | A string counts as empty if and only if trimming it leaves nothing |
| TunnelConfig.SpacesExactly | crates/zo-tunnel-client/src/config.rs:238 | What is trimmed: the 25 characters that Unicode calls white space |
| TunnelConfig.AddedExactly | crates/zo-tunnel-client/src/config.rs:232-255 | Each error of an addition, in the order of its checks, and otherwise the entry, under its own id or the generated one if it has none, at the end of the list |
| TunnelConfig.UpdatedExactly | crates/zo-tunnel-client/src/config.rs:258-295 | Each error of an update, and otherwise only the first tunnel of the id changed, to the given fields |
| TunnelConfig.RemovedExactly | crates/zo-tunnel-client/src/config.rs:298-307 | An unknown id is an error; otherwise the first tunnel of the id is gone and returned, the others in their order |
| TunnelConfig.AddingKeepsDistinct | crates/zo-tunnel-client/src/config.rs:232-255 | Adding always keeps client ids distinct, and ids distinct if and only if the entry is refused (blank client id or address, client id claimed) or its id is not in use |
| TunnelConfig.UpdatingKeepsDistinct | crates/zo-tunnel-client/src/config.rs:258-295 | Updating keeps ids and client ids distinct |
| TunnelConfig.RemovingKeepsDistinct | crates/zo-tunnel-client/src/config.rs:298-307 | Removing keeps both distinct, and the id is gone |
| TunnelConfig.MutationPersists | crates/zo-tunnel-client/src/config.rs:232-307 | A mutation that returns Ok has saved exactly the list in memory; one refused by validation changes nothing; one whose save fails has changed the memory as if it had succeeded |
| TunnelConfig.AcceptedExactlyWhen | crates/zo-tunnel-client/src/config.rs:232-307 | A mutation passes validation if and only if its checks on blanks, claimed names and known ids all do; then it changes the list, saves it, and returns Ok if and only if the save succeeds; otherwise nothing changes |
| TunnelConfig.MutationReloads | crates/zo-tunnel-client/src/config.rs:190-307 | From a list that loading the file would give, a mutation keeps it so if and only if it does not lose its save: accepted, not an update that changes nothing, and its save failing before the write or leaving a file that reads differently |
| TunnelManager.TunnelManager.StartTunnelInternal | crates/zo-tunnel-client/src/tunnel_manager.rs:139-219 | Refuses if and only if the id is running; otherwise one new task runs under that id |
| TunnelManager.TunnelManager.StopTunnel | crates/zo-tunnel-client/src/tunnel_manager.rs:222-233 | Fails if and only if the id is not running; otherwise its handle and its task, and no other, are gone |
| TunnelManager.TunnelManager.AddTunnel | crates/zo-tunnel-client/src/tunnel_manager.rs:236-246 | State and result of storing the entry and then starting it; AddingRuns says what that runs |
| TunnelManager.TunnelManager.UpdateTunnel | crates/zo-tunnel-client/src/tunnel_manager.rs:249-267 | State and result of stopping first, then updating, then starting again; UpdatingRuns says what that runs |
| TunnelManager.TunnelManager.RemoveTunnel | crates/zo-tunnel-client/src/tunnel_manager.rs:270-275 | State and result of stopping, then removing |
| TunnelManager.TunnelManager.StartTunnel | crates/zo-tunnel-client/src/tunnel_manager.rs:278-287 | State and result of starting a configured tunnel by its id |
| TunnelManager.TunnelManager.RestartTunnel | crates/zo-tunnel-client/src/tunnel_manager.rs:290-294 | State and result of stopping and then starting from the config |
| TunnelManager.TunnelManager.StartAll | crates/zo-tunnel-client/src/tunnel_manager.rs:121-136 | Tries every enabled entry of the list, in order, skipping ids already running |
| TunnelManager.TunnelManager.StopAll | crates/zo-tunnel-client/src/tunnel_manager.rs:338-343 | Nothing runs afterwards and every running tunnel's task is gone, whatever the order |
| TunnelManager.AddingRuns | crates/zo-tunnel-client/src/tunnel_manager.rs:236-246 | Adding an enabled entry runs exactly it under a new task, unless its id already runs, which is reported; a disabled, refused or unsaved one starts nothing; all other handles stay |
| TunnelManager.UpdatingRuns | crates/zo-tunnel-client/src/tunnel_manager.rs:249-267 | Updating to an enabled entry runs exactly that under a new task; in all other cases, errors included, the tunnel ends up stopped; all other handles stay |
| TunnelManager.RemovingRuns | crates/zo-tunnel-client/src/tunnel_manager.rs:270-275 | The tunnel is stopped whether or not the removal succeeds; all other handles stay |
| TunnelManager.StartingRuns | crates/zo-tunnel-client/src/tunnel_manager.rs:278-287 | Starting a listed, stopped id runs its listed entry under a new task; an unlisted or running one is an error and changes nothing |
| TunnelManager.RestartingRuns | crates/zo-tunnel-client/src/tunnel_manager.rs:290-294 | A listed tunnel runs afresh, whether it ran or not; an unlisted id is an error and stopped; all other handles stay |
| TunnelManager.NoSharedSubdomain | crates/zo-tunnel-client/src/tunnel_manager.rs:139-219 | In a coherent manager no two running tunnels claim one subdomain |
| TunnelManager.CallKeepsCoherent | crates/zo-tunnel-client/src/tunnel_manager.rs:121-343 | Any one call, failing or not and however its save goes, keeps a coherent manager coherent if and only if it is not an addition that passes validation under an id already in use |
| TunnelManager.RunsKeepCoherent | crates/zo-tunnel-client/src/tunnel_manager.rs:121-343 | Over any run of calls without reused ids: ids and client ids stay distinct, each running entry is its config entry, and exactly one live task belongs to each running tunnel |
| TunnelManager.RunsCoherentExactlyWhen | crates/zo-tunnel-client/src/tunnel_manager.rs:121-343 | A run of calls stays coherent throughout if and only if none of its calls reuses an id |
| TunnelManager.FreshExactlyWhen | crates/zo-tunnel-client/src/tunnel_manager.rs:105-118 | A fresh manager is coherent if and only if ids and client ids of its list are distinct |
| TunnelManager.StoppingAllStops | crates/zo-tunnel-client/src/tunnel_manager.rs:338-343 | stop_all leaves no tunnel and no task running |
| TunnelManager.StartsFirstOfEachId | crates/zo-tunnel-client/src/tunnel_manager.rs:131-141 | Started from nothing, exactly the listed ids run, each with the first entry of that id |
| TunnelManager.StartAllRunsEnabled | crates/zo-tunnel-client/src/tunnel_manager.rs:121-136 | A fresh manager's start_all runs only enabled entries, and all of them if and only if no two different enabled ones share an id |
| TunnelManager.AppState.constructor | crates/zo-tunnel-client/src/web_server.rs:30-50 | With saved credentials there is a manager over the saved list (an unreadable or missing file counts as empty), but nothing runs yet |
| TunnelManager.AppState.Connect | crates/zo-tunnel-client/src/web_server.rs:63-104 | The previous manager is stopped first; on success a fresh one over the saved list runs what start_all runs; if saving credentials fails there is none, and the credentials are whatever that save left |
| TunnelManager.AppState.Disconnect | crates/zo-tunnel-client/src/web_server.rs:107-115 | The manager has stopped everything and is gone; the credentials are gone if their deletion succeeds, and a failing deletion is ignored |
| TunnelManager.ReconnectRestores | crates/zo-tunnel-client/src/web_server.rs:63-115 | After any run of calls without reused ids, once the file had the list and if no later call loses its save, disconnecting leaves nothing running and connecting again loads the same list and runs exactly its enabled entries |
| TunnelManager.RestoredExactlyWhen | crates/zo-tunnel-client/src/web_server.rs:63-115 | For a coherent manager, disconnecting and connecting restores list and running tunnels if and only if loading the file gives the list it holds |
| TunnelManager.RunsReload | crates/zo-tunnel-client/src/tunnel_manager.rs:236-275 | Through a whole run the file stays what a load needs if and only if no call of it loses its save |
| TunnelManager.OkReloads | crates/zo-tunnel-client/src/tunnel_manager.rs:236-275 | A mutation that returns Ok brings the file up to date, whatever it was before |
| Reconnect.RunSessionWithStatus | crates/zo-tunnel-client/src/client.rs:171-278 | Ok, with the one status Connected, if and only if the reply is an AuthRes with success; a refusal gives its message, any other reply itself and an I/O error its text, and nothing is published |
| Reconnect.RouteExactlyWhen | crates/zo-tunnel-client/src/client.rs:190-212 | What each answer means, for all of them: which are accepted and the address shown (from the message, else the assigned route, else a dash), and the reason given for the rest |
| Reconnect.HandshakeAgrees | crates/zo-tunnel-server/src/server.rs:366-405 | The client counts the server's reply as accepted if and only if the server brings the session on, that is if and only if the token is acceptable, and shows the client's address then and the server's refusal otherwise |
| Reconnect.RunCancellable | crates/zo-tunnel-client/src/client.rs:60-82 | The statuses and result of one attempt for each kind of answer and cancellation, in order |
| Reconnect.Turn | crates/zo-tunnel-client/src/tunnel_manager.rs:162-200 | One turn of the loop: what it publishes, how long it sleeps, whether it is the last and the next delay |
| Reconnect.CancelledExactlyWhen | crates/zo-tunnel-client/src/tunnel_manager.rs:179-197 | A turn is the last if and only if the token was cancelled in it, and sleeps unless that was before the sleep; an attempt ends Ok if and only if accepted or cancelled while connecting |
| Reconnect.QuietTurn | crates/zo-tunnel-client/src/tunnel_manager.rs:162-189 | All a turn publishes, in order, when nothing is cancelled, for each kind of answer |
| Reconnect.ReconnectLoop | crates/zo-tunnel-client/src/tunnel_manager.rs:158-201 | The task publishes and sleeps as its turns say, leaves the loop only in a turn in which it was cancelled, and never runs past one |
| Reconnect.StatusesOfRun | crates/zo-tunnel-client/src/tunnel_manager.rs:158-201 | In every run Connected comes only directly after Connecting and is followed only by Stopped, never Error; the last status is Stopped if and only if the task was cancelled in its last turn |
| Reconnect.StatusesOfAbortedRun | crates/zo-tunnel-client/src/tunnel_manager.rs:229-230 | The order of statuses also holds if the task is aborted anywhere |
| Reconnect.BackoffClosedForm | crates/zo-tunnel-client/src/tunnel_manager.rs:159-199 | The sleep after an attempt is min(2^k, 30) seconds, k counting the attempts since the last that ended Ok |
| Reconnect.FailuresTotal | crates/zo-tunnel-client/src/tunnel_manager.rs:159-199 | n failures from the start sleep 2^n - 1 seconds in all for n up to 5, and 31 + 30(n-5) from then on |
| Reconnect.AuthenticatedResets | crates/zo-tunnel-client/src/client.rs:187-278 | A session whose reply was an AuthRes with success, however it ends, resets the delay to one second |
| Reconnect.RefusedKeepsDelay | crates/zo-tunnel-client/src/tunnel_manager.rs:171-199 | An attempt neither accepted nor cancelled, refused ones included, does not: the delay doubles up to 30 s |
| Reconnect.ShownRouteIsRouted | crates/zo-tunnel-client/src/client.rs:196-205 | The route shown for the server's acceptance is http:// and the name under the base domain; the server routes that address to this client if and only if the name is non-empty, not dashboard, and name and domain are colon-free, on paths other than the gate's |
| Reconcile.Container.BuildIndex | web/client/app.js:231-238 | The table maps each non-empty id to the last card that carries it |
| Reconcile.Container.NextCard | web/client/app.js:253-256 | Stops at the first card from a position on, or at the end |
| Reconcile.Container.PlaceNext | web/client/app.js:252-261 | After one placement the cards so far are the placed ones, the others and the pending cards keep their order, and a node is inserted only if the next card was a different one |
| Reconcile.Container.PlaceAll | web/client/app.js:240-262 | After the loop the first cards are one per list element, known nodes reused; the table holds what the list did not name |
| Reconcile.Container.RemoveAll | web/client/app.js:264-267 | Exactly the nodes left in the table are gone, and the rest keeps its order |
| Reconcile.Container.RenderTunnels | web/client/app.js:194-268 | For any old children: the cards end as the new list in order, known nodes reused and new ones built, followed only by cards the table never knew; all other children are kept in place order, and the placeholder is hidden; nothing is moved if and only if the result begins the old card order |
| Reconcile.Container.ClearCards | web/client/app.js:198-226 | For an empty list no card is left, all other children stay in order, and the placeholder is shown, appended if it was missing |
| Reconcile.Container.RefreshRows | web/app.js:166-217 | The same for rows: the children end as the new list in order, known rows reused, with the empty and the placeholder cases; nothing is moved if and only if the result begins the old order |
| Reconcile.Container.PlaceRows | web/app.js:195-211 | After the loop the first children are one row per client, in order; the rest waits behind in its old order |
| Reconcile.AllIndexedExactlyWhen | web/client/app.js:231-238 | No old card escapes the table, and so none is left over, if and only if all cards' ids are non-empty and pairwise distinct |
| Reconcile.IndexIsLast | web/client/app.js:231-238 | A card is the one the table knows if and only if no later card carries its id |
| Reconcile.Swept | web/client/app.js:264-267 | What placing and removing leave: the placed cards, then the never-indexed ones, with the other children unchanged |
| Reconcile.SweptRows | web/app.js:213-216 | The same for rows |
| Reconcile.SecondRunIsIdle | web/client/app.js:230-267 | A second run with the same list picks the same nodes and moves nothing if and only if the list's ids are non-empty and distinct and no left-over card carries one of them |
| Reconcile.SecondRowRunIsIdle | web/app.js:185-216 | The same for rows |
| CaddyChain.CaddyManager.Register | crates/zo-tunnel-server/src/caddy.rs:101-163 | Endpoint, fallback and everything read afterwards are those of a read (unanswered, exact, or a 200 that is no JSON string), any foreign writes, and a claim of the endpoint; an unanswered read changes no fallback; Ok if and only if the claim was answered 200, and then our endpoint is set |
| CaddyChain.CaddyManager.Unregister | crates/zo-tunnel-server/src/caddy.rs:167-191 | Restores the saved fallback, if there is one, and nothing otherwise |
| CaddyChain.CaddyManager.CheckAndReregister | crates/zo-tunnel-server/src/caddy.rs:208-253 | A watchdog round is a read followed by foreign writes and a claim exactly when it took a text other than our endpoint from it; a round that is unanswered or finds us changes nothing |
| CaddyChain.CaddyManager.FallbackUrl | crates/zo-tunnel-server/src/caddy.rs:257-263 | The address asked has the domain as its last query parameter, with & if and only if the endpoint already has a query |
| CaddyChain.FallbackIsLastForeign | crates/zo-tunnel-server/src/caddy.rs:101-253 | Under every interleaving of reads, claims, restores, failed requests and foreign writes, the saved fallback is the last foreign text that was read, never empty and never our own |
| CaddyChain.LosesExactlyWhenUnread | crates/zo-tunnel-server/src/caddy.rs:101-253 | In every run, the endpoint a claim would overwrite is ours, empty, unset or the saved fallback, if and only if no unread foreign endpoint other than the fallback stands there |
| CaddyChain.ClaimLosesExactlyWhen | crates/zo-tunnel-server/src/caddy.rs:108-140 | From any state, a read, others' writes and a claim lose an endpoint if and only if the last such write is foreign and not the fallback, or there was none and the read was not exact while such an endpoint stood there |
| CaddyChain.WrittenInBetween | crates/zo-tunnel-server/src/caddy.rs:214-242 | An endpoint written between read and claim is overwritten, never saved, and not what unregistering restores |
| CaddyChain.ClaimedUnread | crates/zo-tunnel-server/src/caddy.rs:128-140 | An endpoint that registering could not read is overwritten all the same, and there is nothing to restore |
| CaddyChain.GarbledIsRestored | crates/zo-tunnel-server/src/caddy.rs:109-121 | An unset endpoint answered with a 200 that is no JSON string ends up configured as that text |
| CaddyChain.RegisterThenUnregister | crates/zo-tunnel-server/src/caddy.rs:101-253 | With any number of watchdog rounds in between, successful calls and nobody else writing, registering and unregistering restores the endpoint if and only if one that is not empty was set; an unset or empty one stays pointing at us |
| CaddyChain.WatchdogChains | crates/zo-tunnel-server/src/caddy.rs:208-253 | After a foreign overwrite a successful round puts us back and saves theirs as the fallback |
| VersionOrder.NumbersExactly | crates/zo-tunnel-protocol/src/self_update.rs:114 | A part is a number if it is digits below 2^32, with or without a plus sign; an empty part or a lone plus sign is none |
| VersionOrder.ReleaseRoundTrip | crates/zo-tunnel-protocol/src/self_update.rs:111-120 | For components below 2^32 the printed A.B.C and vA.B.C parse back to the triple |
| VersionOrder.NewerIsPrecedence | crates/zo-tunnel-protocol/src/self_update.rs:111-122 | On plain releases is_newer is the numeric precedence of item 11 of Semantic Versioning 2.0.0: major, then minor, then patch, as of one number of 96 bits |
| VersionOrder.NewerIsStrictOrder | crates/zo-tunnel-protocol/src/self_update.rs:111-122 | On all strings is_newer is irreflexive and transitive, and two strings are incomparable if and only if they parse alike |
| VersionOrder.UpgradesNeverCycle | crates/zo-tunnel-protocol/src/self_update.rs:138-141 | Any chain of accepted upgrades strictly increases from each point to every later one and so never returns |
| VersionOrder.PreReleasesAreMisread | crates/zo-tunnel-protocol/src/self_update.rs:111-122 | Against a plain release, in each direction and in both, is_newer is the precedence of a pre-release (item 11 of Semantic Versioning 2.0.0) if and only if major or minor differ, or the number taken from its tag lies on the same side of the release's patch number as the pre-release does, and never when it equals it |
| VersionOrder.AnyThirdPart | crates/zo-tunnel-protocol/src/self_update.rs:113-120 | Whatever follows the minor number, dots included, its first numeric part is compared as the patch number, in both directions |
| VersionOrder.TaggedParse | crates/zo-tunnel-protocol/src/self_update.rs:113-120 | A.B.C-tag and A.B.C+tag, with or without v, are read as A, B and the first number among the tag's parts after its first dot, 0 if there is none; C is lost |
| VersionOrder.DottedTag | crates/zo-tunnel-protocol/src/self_update.rs:114 | The number of a tag like rc.7 becomes the patch number |
| VersionOrder.DotFreeTag | crates/zo-tunnel-protocol/src/self_update.rs:114-119 | A tag without a dot counts as patch 0 |
| VersionOrder.TaggedAgainstRelease | crates/zo-tunnel-protocol/src/self_update.rs:111-122 | A tagged version is newer or older than a plain release exactly as its major, minor and tag number are |
| VersionOrder.OwnRelease | crates/zo-tunnel-protocol/src/self_update.rs:111-122 | A pre-release is offered over its own release if and only if its tag's number exceeds the patch number; the release over it if and only if it is below |
| VersionOrder.TwoPreReleases | crates/zo-tunnel-protocol/src/self_update.rs:111-122 | Two pre-releases are compared by major, minor and their tags' numbers alone |
| VersionOrder.TwoPreReleasesExactlyWhen | crates/zo-tunnel-protocol/src/self_update.rs:111-122 | For two pre-releases is_newer is the precedence of item 11, identifiers included, if and only if major or minor differ, or the tags' numbers compare as the patch numbers do and, if those are equal, as the tags do |
| VersionOrder.ChainOfItemEleven | crates/zo-tunnel-protocol/src/self_update.rs:111-122 | The precedence of tags used in these statements orders the standard's own example: alpha, alpha.1, alpha.beta, beta, beta.2, beta.11, rc.1 |
| VersionOrder.OneSeries | crates/zo-tunnel-protocol/src/self_update.rs:111-122 | rc.M and rc.N of one release, for any kind of tag, are compared as M and N, and that is their precedence |
| VersionOrder.TwoSeriesExample | crates/zo-tunnel-protocol/src/self_update.rs:138-141 | For any release, beta.2 is offered over rc.1, which it precedes |
| VersionOrder.BuildMetadataIsMisread | crates/zo-tunnel-protocol/src/self_update.rs:111-122 | Against a plain release, in both directions, is_newer ignores build metadata as item 10 demands if and only if major or minor differ, or the tag's number and the patch number compare alike with the release's |
| VersionOrder.MisreadExamples | crates/zo-tunnel-protocol/src/self_update.rs:138-141 | 1.2.3-rc.7 is offered over 1.2.3, and 1.2.0 is not offered over 1.2.0-rc |
| VersionOrder.TaggedPart | crates/zo-tunnel-protocol/src/self_update.rs:114 | A part with a character other than a digit after its first is no number |

## Left out

- TCP, TLS, hyper and yamux: opening, writing, handshakes, probes and replies have any outcome the step or parameter gives them; that a live client's pong arrives in time is not claimed.
- JSON, YAML and UTF-8: a parameter (Codec) whose decoders undo its encoders; the config file holds the list itself.
- The characters of a Caddy answer: a read is unanswered, gives the endpoint, or gives some other text (what trimming leaves of a body that is no JSON string).
- Storing and answering over HTTP in check_fallback: the answer is the parameter fallback of TlsCheck.
- Concurrent calls to the tunnel manager or the connect and disconnect handlers: the check for a running id and the insertion are separate in the code, and coherence is claimed only for calls one after another.
- Randomness of generated ids: the generated id is a parameter; whether it is in use is part of ReusesId.
- Clocks: times are parameters; the limiter's are non-decreasing per key where a lemma says so, and the driver's branches other than probes take no time.
- TunnelConfig.SaveThenLoad: which part of a failing save went wrong is not modelled, only what is on disk afterwards (the old file, a damaged one, or the new one).
- ProxyHandler.HandleProxyRequest: header rewriting, the path, error texts and the body of the response are not modelled.
- ServerSafety.MarkerTransparency: the client's five-second limit on reading the marker is not modelled; a stream that runs into it forwards nothing.
- FrameCodec.DecodeInvertsEncode: holds under the Codec's law; that serde and UTF-8 satisfy it is not proved.
- Reconcile.Container.RenderTunnels: the contents of cards and rows (text, buttons, colours) and their update are not modelled; the lookup object is a proper map, without the names JavaScript objects inherit.
- Status changes as seen by the web page: the watch channel keeps only the latest status; the model records all that are sent.
- The 200 ms pause of restart_tunnel, the task's started_at, and list_tunnels with its reachability probe.
- The connection times and byte counters of the client list.
- Session cookies, dashboard login, uptime and byte totals, failed-authentication and connection totals, and max_connections_per_client, which the code never enforces: easy or no claims.
- File permissions, PID files, systemd, command lines, downloading and replacing the binary.
