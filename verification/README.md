# A Dafny model of tls-proxy-tunnel

tls-proxy-tunnel is a layer-4 proxy. It accepts TCP connections, reads the SNI of a TLS ClientHello
without consuming it, picks an upstream, optionally opens a tunnel through an HTTP proxy with CONNECT,
and then relays bytes both ways. This project models its protocols and loops and proves what they keep
in every run.

Sockets are byte streams with an arbitrary script of operating-system answers (some bytes, would
block, failure); a script that has run out is a task still waiting, so statements about scripts are
statements about every finite prefix of a run. Environment variables are a map, some of whose values
may not be Unicode; clocks are monotone numbers; the DNS resolver, the connector, the URL and address
parsers, the SNI extraction, the classification of non-ASCII letters and hash-map iteration orders are
arbitrary parameters. Loops and objects the program mutates are methods and classes; each is tied to a
function or relation, and the theorems are proved about that. Concurrent parts are transition systems
whose steps interleave freely.

| file | part of the program |
|---|---|
| HeaderValues, ConnectRequest, Sockets, ConnectResponse, HttpConnect | the CONNECT client |
| Relay, CopyCounted | the two-way relay: the machine, and the copy loop proved to run it |
| Tunnel | one proxied connection, end to end |
| DnsCache, DnsConcurrent | the DNS cache, called in sequence and concurrently |
| Config, Routing, Builder | loading, validation, routing, server construction |
| Drain, DrainTermination, DrainLimits | listeners, admission, graceful shutdown, and what these do not cover |
| Deployment | the pieces put together |

Reading order for the main results: `Drain.DrainSafe`, `DrainTermination.DrainTerminates`,
`DrainLimits.CutsRequestIff`, `HttpConnect.HandshakeIndependent`, `Tunnel.TunnelDelivers`,
`Deployment.SniReachesWire`, `Deployment.StaticTargetReachesWire`,
`DnsConcurrent.NeverMixed`, `DnsConcurrent.AloneIsSequential`, `DnsCache.HitMeans`,
`Routing.RoutingTotalIff`, `Relay.DirectionsIndependent`.

## Where the code does not do what one would expect

The model follows the code; each of these has an exact condition.

- Upstream bytes that arrive in the same read as the end of the CONNECT response head are dropped.
  Nothing is lost exactly when the last handshake read stops at the end of the head
  (`Tunnel.NothingLostIff`); no fragmentation can lose anything exactly when no longer read would open
  the tunnel (`Tunnel.LossFreeIff`), which for a head with a 2xx status of its own means that nothing
  follows it within the buffer (`Tunnel.OpenHeadLossFreeIff`).
- The status is parsed from everything read, not from the head alone. Status and verdict are
  independent of fragmentation exactly when the head holds a second token or the buffer never does
  (`ConnectResponse.StatusIndependentIff`, `HttpConnect.HandshakeIndependent`).
- A zero-length write ends the write loop early and the response is awaited anyway; the upstream then
  sees a truncated request, and only then (`Tunnel.TunnelTransparent`). Such a tunnel can open and
  close cleanly, wherever the request was cut (`Tunnel.StalledTunnelCloses`).
- Nothing in the target or the headers is escaped. A strict peer, which ends lines at CRLF alone and trims
  nothing, reads back what was meant exactly when the target has no space and no CRLF, no name has a
  colon, and no name or resolved value has a CRLF
  (`ConnectRequest.RequestRoundTrip`, `ConnectRequest.HeadersRoundTrip`).
- The ClientHello is looked at once, with what has arrived by then. A hello split over two segments may
  show no SNI and take the default route (`Deployment.SplitHelloTakesDefault`); the exact condition
  under which the cut does not matter is `Deployment.RouteIndependentIff`.
- The comment at src/servers/mod.rs:100 says that closing the tracker stops new spawns. It does not: a
  connection can still be spawned exactly when some listener has not exited, can start, and can admit
  somebody (`DrainLimits.SpawnsLaterIff`, `DrainLimits.SpawnAfterClose`). Draining is safe for another
  reason: only tracked tasks spawn.
- A health connection's HTTP task is untracked, and the runtime that `run` drops when it returns ends it
  (`Drain.ReturnedMeansDead`). A graceful shutdown can therefore cut off a request, exactly when some
  listener can start, admit a client and send it to a health check (`DrainLimits.CutsRequestIff`,
  `Deployment.ShutdownCutsIff`).
- Such a task has given its permit back, so `maxclients` bounds the clients served at once exactly on
  listeners that cannot reach a health check (`DrainLimits.ServedWithinLimitIff`).
- The three-second TTL of a failed lookup has no effect while no address is stored
  (`DnsCache.EmptyListNeverHits`).
- A failed lookup leaves the stored list and extends it by three seconds, so a stale answer is served for
  as long as lookups keep failing (`DnsCache.ServedWhileFailing`). A served answer is younger than its 60 s
  exactly when the most recent lookup succeeded (`DnsCache.HitIsFreshIff`); this holds of every run exactly
  when lookups cannot fail, or cannot find a usable address (`DnsCache.NeverStaleIff`).
- Under concurrent calls the cached list, time and TTL can come from different lookups. The time a hit
  compares with is always less than 60 s old (`DnsConcurrent.HitAge`), but the list it returns can be of
  any age, even if every lookup succeeds (`DnsConcurrent.ListsYoungerIff`). A hit overstays the TTL of the
  lookup its time comes from exactly when that one failed, the TTL is from a success, and 3 s have passed
  (`DnsConcurrent.HitOverstaysIff`); some run has such a hit exactly when lookups can fail and can find a
  usable address (`DnsConcurrent.NeverOverstaysIff`). A hit can be empty, in some run, exactly when
  successful lookups can find usable addresses and can also find none (`DnsConcurrent.NeverEmptyHitIff`).
  The list itself is never a mix, and calls that do not overlap behave like the sequential cache
  (`DnsConcurrent.AloneIsSequential`).
- The cache does not record the address family it was filled for. Its callers are safe exactly when each
  takes either family or asks in the mode of all before it (`DnsCache.NeverLeaksIff`); the program's are,
  because an upstream's protocol never changes.
- The dynamic CONNECT target names the first SNI, the route follows the first SNI the map knows
  (`Routing.TargetFollowsFirstSni`).
- Validation compares listen entries as text. What it accepts has distinct addresses exactly when the
  address parser is injective on these texts (`Builder.AddressesDistinctIff`, `Builder.TwoSpellings`).

## Model

| member | source | states |
|---|---|---|
| HeaderValues.ResolveExpandsOnlyFirst | src/upstreams/proxy_to_upstream/http.rs:129-152 | the first `$` and the longest run of letters, digits and underscores after it, in any script, decide: an empty name leaves the value, a defined variable replaces just the placeholder, an undefined or non-Unicode one is an error; later `$`s are untouched |
| HeaderValues.PlaceholderExists | src/upstreams/proxy_to_upstream/http.rs:130-142 | every value with a `$` has such a reading, so the case analysis is complete |
| HeaderValues.ResolveByCharacter | src/upstreams/proxy_to_upstream/http.rs:129-152 | a value written out in UTF-8 characters: the name is the run of ASCII letters, digits, underscores and other alphanumeric characters after the first `$`, and the environment is asked for exactly this |
| ConnectRequest.BuildRequest | src/upstreams/proxy_to_upstream/http.rs:18-29 | for every map order: succeeds exactly when every header value resolves, and is then the request for those fields; otherwise names a variable that is missing or not Unicode |
| ConnectRequest.BareRequestOnWire | src/upstreams/proxy_to_upstream/http.rs:18-21 | the bytes of a request without headers, as literals |
| ConnectRequest.HeaderOnWire | src/upstreams/proxy_to_upstream/http.rs:23-29 | the bytes one header more adds, before the closing empty line |
| ConnectRequest.RequestRoundTrip | src/upstreams/proxy_to_upstream/http.rs:18-29 | a strict line parser (lines end at CRLF alone, nothing is trimmed) recovers target and fields, in order, if and only if the target has no space and no CRLF, no name a colon, and no name or value a CRLF |
| ConnectRequest.HeadersRoundTrip | src/upstreams/proxy_to_upstream/http.rs:23-28 | for every iteration order the fields are each configured header exactly once with its resolved value, and the strict parser reads exactly these if and only if target, names and resolved values are clean, so also against what environment variables hold |
| ConnectRequest.TerminatorOnlyAtEnd | src/upstreams/proxy_to_upstream/http.rs:21-29 | CR LF CR LF ends the request, and occurs nowhere else if and only if target, names and values hold none, no name begins with CRLF and no value ends with one |
| Sockets.TcpStream.TryWrite | src/upstreams/proxy_to_upstream/http.rs:38 | one non-blocking write: what it puts on the wire for each kernel answer |
| Sockets.TcpStream.TryRead | src/upstreams/proxy_to_upstream/http.rs:56 | one non-blocking read into the rest of the buffer |
| Sockets.TcpStream.Peek | src/servers/protocol/tcp.rs:105 | an awaited peek: shows what has arrived by the first ready answer, consumes nothing, can fail or keep waiting |
| Sockets.PeekMeans | src/servers/protocol/tcp.rs:105 | the first answer that is not "would block" decides a peek, whatever follows |
| ConnectResponse.ParseU16Meaning | src/upstreams/proxy_to_upstream/http.rs:118 | the status parses exactly when it is an optional `+` and digits of value at most 65535, leading zeros included; bounded accumulation agrees with unbounded value |
| ConnectResponse.TokensConcat | src/upstreams/proxy_to_upstream/http.rs:114-117 | white-space splitting of text that ends in white space is not affected by what follows |
| ConnectResponse.SecondWordDecides | src/upstreams/proxy_to_upstream/http.rs:112-124 | the second word of the text, between any of the six ASCII blanks, is the status; with one word there is none |
| ConnectResponse.StatusLine | src/upstreams/proxy_to_upstream/http.rs:111-124 | "HTTP/1.1 " and any three digits, alone or before a blank, give their value |
| ConnectResponse.ReadLoopClass | src/upstreams/proxy_to_upstream/http.rs:53-77 | for every stream and script the loop can only end as the stream decides: head complete within 16384 bytes, buffer full without one, or end of stream; a zero read is always end of stream |
| ConnectResponse.ReadLoopEnds | src/upstreams/proxy_to_upstream/http.rs:53-77 | enough ready reads without failure always end the loop |
| ConnectResponse.FailureEndsReading | src/upstreams/proxy_to_upstream/http.rs:74-76 | a failure before the loop has ended is an error, whatever follows |
| ConnectResponse.ReadByStream | src/upstreams/proxy_to_upstream/http.rs:51-73 | an undisturbed reading gives the head if it ends within the first 16384 bytes, otherwise an overflow if there are so many and an early close if not |
| ConnectResponse.FragmentationIndependent | src/upstreams/proxy_to_upstream/http.rs:51-77 | any two ways of cutting the same stream into reads end in the same class |
| ConnectResponse.StatusIndependent | src/upstreams/proxy_to_upstream/http.rs:65-66 | a head with two tokens gives the same status whatever was coalesced behind it |
| ConnectResponse.StatusIndependentIff | src/upstreams/proxy_to_upstream/http.rs:65-66 | exact condition under which the status does not depend on coalesced bytes |
| HttpConnect.WriteLoopCompletes | src/upstreams/proxy_to_upstream/http.rs:35-47 | the loop writes everything unless the transport fails or accepts a zero-length write |
| HttpConnect.WritingEnds | src/upstreams/proxy_to_upstream/http.rs:36-46 | while bytes are left a failure is an error and a zero-length write a stall, whatever follows |
| HttpConnect.TransportDecides | src/upstreams/proxy_to_upstream/http.rs:36-76 | the handshake waits while the transport has not answered, and a failure of the transport in either loop is an I/O error, whatever follows |
| HttpConnect.WriteRequest | src/upstreams/proxy_to_upstream/http.rs:34-47 | the write loop: at every exit the wire holds exactly the first `written` request bytes |
| HttpConnect.ReadResponseHead | src/upstreams/proxy_to_upstream/http.rs:51-77 | the read loop over a fixed buffer: ends as the specification says, buffer and stream split exactly at `total` |
| HttpConnect.EstablishedMeans | src/upstreams/proxy_to_upstream/http.rs:79-108 | a tunnel opens exactly on a complete head with a status from 200 to 299 |
| HttpConnect.HandshakeIndependent | src/upstreams/proxy_to_upstream/http.rs:51-108 | the verdict of the whole handshake, error included, is the same for all ways of cutting the stream if and only if the response is never read, or a head that ends within the buffer holds two tokens or the buffer holds fewer |
| HttpConnect.NoHeadNoTunnel | src/upstreams/proxy_to_upstream/http.rs:57-73 | over an undisturbed connection: "closed before response" exactly for fewer than 16384 bytes without a head, "header too large" exactly for that many without a head in the first 16384 |
| HttpConnect.OrdinaryResponse | src/upstreams/proxy_to_upstream/http.rs:79-125 | an "HTTP/1.1 ddd" response opens the tunnel exactly for 200 to 299, and 403, 502, 503 and every other code give their own errors |
| HttpConnect.Connect | src/upstreams/proxy_to_upstream/http.rs:12-109 | the whole client: a header that does not resolve leaves the socket untouched; otherwise wire, number of response bytes taken, rest of stream and verdict are as specified |
| Relay.MicroKeepsInv | src/upstreams/proxy_to_upstream/relay.rs:76-97 | each step of a copy keeps: delivered is a prefix of what was read, counter <= total <= delivered, with the exact relation at each program point |
| Relay.DirectionInvariant | src/upstreams/proxy_to_upstream/relay.rs:76-97 | the same in every state of every run, and what is known at each kind of end |
| Relay.DirectionMonotone | src/upstreams/proxy_to_upstream/relay.rs:78-97 | counters and delivered bytes only grow; the writer is shut down at most once and nothing is written afterwards |
| Relay.DirectionRests | src/upstreams/proxy_to_upstream/relay.rs:78-97 | a direction finishes or waits for its socket within a number of steps linear in the answers it got |
| Relay.CauseMeans | src/upstreams/proxy_to_upstream/relay.rs:79-92 | a copy still running has had no failure; read and write errors end it only on a failure or a zero-length write, and a clean end has delivered everything |
| Relay.ErrorsEndCopy | src/upstreams/proxy_to_upstream/relay.rs:82-92 | in every run the first failure of a read, and the first failure or zero-length write of a chunk, end the copy with nothing more on the wire |
| Relay.CopyCompletes | src/upstreams/proxy_to_upstream/relay.rs:71-98 | completeness: if the sockets keep serving it a copy ends cleanly, with every byte delivered and counted and the writer shut down |
| Relay.ShutdownCompletes | src/upstreams/proxy_to_upstream/relay.rs:83-96 | any answer but "would block" completes the shutdown, whose result is ignored |
| Relay.DirectionsIndependent | src/upstreams/proxy_to_upstream/relay.rs:53-64 | under every schedule each direction is where it would be alone; the join never fails and resolves only to the totals of two finished directions |
| Relay.RelayResult | src/upstreams/proxy_to_upstream/relay.rs:53-64 | the returned pair equals both counters, both writers are shut down once, both ends are accounted for by cause |
| Relay.FairEnd | src/upstreams/proxy_to_upstream/relay.rs:53-64 | every fair schedule ends in the same state: both directions where they rest alone, and the join of their results |
| Relay.RelayReturns | src/upstreams/proxy_to_upstream/relay.rs:53-64 | a fair enough schedule makes the relay return unless a read, a write or a shutdown of a socket stays pending |
| Relay.RelayCompletes | src/upstreams/proxy_to_upstream/relay.rs:53-64 | under every fair schedule a relay whose sockets keep serving it returns the two stream lengths, with everything delivered |
| CopyCounted.CopyTask.Read | src/upstreams/proxy_to_upstream/relay.rs:79-87 | one awaited read, as steps of the machine |
| CopyCounted.CopyTask.WriteAll | src/upstreams/proxy_to_upstream/relay.rs:88-92 | the partial-write loop of one chunk, as steps of the machine |
| CopyCounted.CopyTask.Shutdown | src/upstreams/proxy_to_upstream/relay.rs:83-96 | the awaited shutdown, its result ignored, as steps of the machine; it may never complete |
| CopyCounted.CopyTask.Run | src/upstreams/proxy_to_upstream/relay.rs:71-98 | the copy loop runs the machine to rest; a finished copy is settled |
| CopyCounted.FinishedIsSettled | src/upstreams/proxy_to_upstream/relay.rs:78-97 | every finished copy: counter equals total; everything delivered on clean end; on a write error at most delivered, by less than one chunk |
| CopyCounted.RunBoth | src/upstreams/proxy_to_upstream/relay.rs:20-65 | the two copy tasks and the join of their results: they end as under every fair interleaving |
| Tunnel.ProxyConnection | src/upstreams/proxy_to_upstream/mod.rs:45-91 | dialling through the cache, connecting, handshake, relay: which error each step gives and that none touches the client; both wires, both unread streams, the cache and the result as under every fair interleaving of the two copies |
| Tunnel.TunnelPrefix | src/upstreams/proxy_to_upstream/mod.rs:67-88 | at every moment of every tunnel the upstream's wire is the written part of the request and then a prefix of the client's stream, the client's wire a prefix of the upstream stream behind the handshake |
| Tunnel.TunnelTransparent | src/upstreams/proxy_to_upstream/mod.rs:76-87 | clean close: nothing is left unread, the client got the upstream stream minus the handshake's bytes; the upstream got the written part of the request and the whole client stream, the whole request if and only if no zero-length write cut it |
| Tunnel.DirectTransparent | src/upstreams/proxy_to_upstream/mod.rs:68-75 | clean close without CONNECT: the identity both ways, and the totals are the stream lengths |
| Tunnel.DirectDelivers | src/upstreams/proxy_to_upstream/mod.rs:68-75 | direct forwarding over sockets that keep serving delivers both streams and closes cleanly |
| Tunnel.TunnelDelivers | src/upstreams/proxy_to_upstream/mod.rs:76-87 | a tunnel over such sockets to an upstream that answers with an ordinary 2xx head opens, delivers request, client stream and the rest of the upstream stream, and closes cleanly |
| Tunnel.StalledTunnelCloses | src/upstreams/proxy_to_upstream/http.rs:36-47 | a request cut anywhere by a zero-length write can still open a tunnel that closes cleanly |
| Tunnel.NothingLostIff | src/upstreams/proxy_to_upstream/http.rs:62-66 | nothing behind the response head is lost exactly when the last read stopped there |
| Tunnel.LossFreeIff | src/upstreams/proxy_to_upstream/http.rs:51-66 | over all requests and all fragmentations, opened tunnels never lose a byte if and only if no longer read within the buffer has a 2xx status |
| Tunnel.OpenHeadLossFreeIff | src/upstreams/proxy_to_upstream/http.rs:51-66 | for a head with a 2xx status of its own: if and only if nothing follows it within the buffer |
| DnsCache.UpstreamAddress.CheckValid | src/servers/upstream_address/mod.rs:36-44 | valid exactly when both fields are set and less than the TTL has elapsed |
| DnsCache.UpstreamAddress.Resolve | src/servers/upstream_address/mod.rs:62-121 | reply and new cache for hit, failed lookup and successful lookup |
| DnsCache.CacheSummary | src/servers/upstream_address/mod.rs:83-84 | over every run the list comes from the last successful lookup alone, the timing from the last lookup alone |
| DnsCache.HitMeans | src/servers/upstream_address/mod.rs:63-70 | a hit is exactly the kept non-empty answer of the most recent success, within the TTL of the most recent lookup |
| DnsCache.LookedIff | src/servers/upstream_address/mod.rs:63-77 | the resolver is asked exactly when the time is up or no usable address is stored |
| DnsCache.HitIsFreshIff | src/servers/upstream_address/mod.rs:63-84 | the answer a hit returns is younger than 60 s if and only if the most recent lookup succeeded |
| DnsCache.ServedWhileFailing | src/servers/upstream_address/mod.rs:79-86 | for every n a run with one success and n failures three seconds apart, after which the answer is served 59 + 3 n seconds after it was recorded |
| DnsCache.NeverStaleIff | src/servers/upstream_address/mod.rs:63-84 | over all runs with given outcomes of lookups, no served answer is 60 s old or older if and only if lookups cannot fail or cannot find a usable address |
| DnsCache.LookupGap | src/servers/upstream_address/mod.rs:83-84 | after the first success consecutive lookups are at least the TTL of the earlier one apart |
| DnsCache.LookupRate | src/servers/upstream_address/mod.rs:36-44 | any window holds at most window / 3 s + 1 lookups |
| DnsCache.EmptyListNeverHits | src/servers/upstream_address/mod.rs:46-48 | without a usable stored address every call asks the resolver |
| DnsCache.SameModeSameFamily | src/servers/upstream_address/mod.rs:91-118 | a caller with a fixed mode only ever gets addresses of that family, cached or fresh |
| DnsCache.NeverLeaksIff | src/servers/upstream_address/mod.rs:63-118 | over all runs with given modes of the callers, every reply has only addresses of its caller's family if and only if each caller takes either family or asks in the mode of all before it |
| DnsCache.ProxyToUpstream.DialList | src/upstreams/proxy_to_upstream/connect.rs:18-29 | exactly the protocols other than tcp, tcp4 and tcp6 are refused; a tcp4 upstream is only ever handed IPv4 addresses and a tcp6 one IPv6 addresses |
| DnsCache.DialedMeans | src/servers/upstream_address/mod.rs:36-121 | dialling case by case: unknown protocol, stored list in time, failed lookup (list kept, 3 s), successful lookup (the addresses of the family, for tcp all of them, in the order of the answer, 60 s) |
| DnsConcurrent.NextKeepsInv | src/servers/upstream_address/mod.rs:62-121 | every lock operation and every reading of the clock keeps list, time and TTL explained by finished lookups, and every call by what it has seen; nothing recorded is ever changed |
| DnsConcurrent.NeverMixed | src/servers/upstream_address/mod.rs:62-121 | in every interleaving every returned list is the complete filtered answer of one finished successful lookup: its own, or the last one stored before it read the list |
| DnsConcurrent.HitReturnsLastStore | src/servers/upstream_address/mod.rs:63-70 | a hit returns the list stored last before its read; it is empty only if another call stored it after this one had found a non-empty list |
| DnsConcurrent.NeverEmptyHitIff | src/servers/upstream_address/mod.rs:63-115 | over all interleavings with given outcomes of lookups, no hit is empty if and only if all successful answers are usable or none is |
| DnsConcurrent.HitAge | src/servers/upstream_address/mod.rs:36-44 | in every run the time a hit compares with was recorded by a finished lookup less than 60 s before; if the returned list is from that lookup, it is younger than 60 s too |
| DnsConcurrent.ListsYoungerIff | src/servers/upstream_address/mod.rs:63-118 | over all interleavings with given outcomes of lookups, no bound at all holds for the age of returned lists, unless no answer is usable and there are no hits |
| DnsConcurrent.HitOverstaysIff | src/servers/upstream_address/mod.rs:36-44 | in every run a hit exceeds that lookup's own TTL if and only if it failed, the TTL is from a success, and 3 s have passed |
| DnsConcurrent.NeverOverstaysIff | src/servers/upstream_address/mod.rs:83-84 | over all interleavings with given outcomes of lookups, no hit overstays if and only if lookups cannot fail or cannot find a usable address |
| DnsConcurrent.AloneIsSequential | src/servers/upstream_address/mod.rs:62-121 | every run whose calls do not overlap, with time passing anywhere, is a run of the sequential cache: same replies, same lookups, same fields |
| DnsConcurrent.AloneHitMeans | src/servers/upstream_address/mod.rs:63-70 | in such runs a hit is the kept answer of the most recent success, within the TTL of the most recent lookup, and younger than 60 s if and only if that one succeeded |
| DnsConcurrent.FamilyAlways | src/upstreams/proxy_to_upstream/mod.rs:37-57 | in every interleaving a tcp4 upstream only gets IPv4 addresses and a tcp6 one IPv6; a call that looked up gets all of its answer that is of the family, for tcp the whole answer |
| DnsConcurrent.TimingCanMix | src/servers/upstream_address/mod.rs:83-84 | witness run: a hit 59 s after a failed lookup, because its time is stored and its TTL is not yet |
| Config.LoadUpstreams | src/config/loader.rs:122-137 | succeeds exactly when every URL is usable; built-ins first, configured names over them, nothing else |
| Config.UrlUsableIff | src/config/loader.rs:27-56 | a URL is usable exactly when it parses to a host, a port and one of three schemes, and becomes "host:port" and the scheme; otherwise which error |
| Config.LoadedExactly | src/config/loader.rs:122-137 | the whole map: every configured name with its own address and scheme, ban, echo and health as themselves where not configured |
| Config.LoadedMeans | src/config/loader.rs:42-50 | built-in names are always defined and proxied upstreams speak a known protocol |
| Config.CheckListens | src/config/loader.rs:162-170 | finds a repeated listen string exactly when there is one |
| Config.AddUsed | src/config/loader.rs:172-182 | collects exactly the names validation counts as used |
| Config.CheckUsed | src/config/loader.rs:184-188 | finds an undefined used name exactly when there is one |
| Config.VerifyConfig | src/config/loader.rs:153-198 | accepts exactly the configurations with distinct listen strings and defined upstreams, for every iteration order, although used names accumulate; a rejection names a real culprit |
| Routing.Route | src/servers/protocol/tcp.rs:111-147 | first SNI the map knows decides name and override, otherwise the default; the target is dynamic or static as configured |
| Routing.RoutedIsUnique | src/servers/protocol/tcp.rs:111-147 | the routing promise determines the decision |
| Routing.RouteByConfig | src/servers/builder.rs:19-30 | routing in terms of the configuration: defaults for missing fields, SNI entries only under TLS, an entry's own settings only if it has any, and when there is a target |
| Routing.StaticTarget | src/servers/protocol/tcp.rs:143-147 | a static target is used exactly as configured, whatever the SNIs |
| Routing.RoutingTotalIff | src/config/loader.rs:172-188 | the upstream check accepts exactly the configurations under which every client is routed to a defined upstream, with `default: None` and non-TLS SNI maps included |
| Routing.NoFallback | src/servers/protocol/tcp.rs:154-172 | for accepted configurations the fall-back and the "default upstream not found" error are unreachable |
| Routing.TargetSplits | src/servers/protocol/tcp.rs:140-142 | a dynamic target splits at its last colon into the first SNI and the port in decimal without leading zeros, and is clean if and only if the SNI is |
| Routing.TargetFollowsFirstSni | src/servers/protocol/tcp.rs:118-142 | the target names the matched SNI exactly when the match is the first SNI |
| Builder.BuildServer | src/servers/builder.rs:17-54 | one proxy with its own semaphore for each parsable listen entry of one server |
| Builder.Attach | src/servers/builder.rs:87-89 | the shared map replaces the placeholder of every proxy in place |
| Builder.Build | src/servers/builder.rs:12-94 | exactly one proxy per parsable listen entry, distinct semaphores at their limits, one shared upstream map: every upstream of its own kind with its own address and protocol, and health entries with one metrics entry per proxy, about that proxy |
| Builder.AddressesDistinctIff | src/config/loader.rs:161-170 | for distinct listen texts the built listen addresses are pairwise distinct if and only if the parser is injective on the texts that parse |
| Builder.TwoSpellings | src/servers/builder.rs:30-36 | witness: an accepted configuration with one address in two spellings |
| Drain.NextKeepsInv | src/servers/protocol/tcp.rs:29-80 | every atomic step keeps: tracker count = live listeners + live connections, free permits + holders = limit, and who can be where |
| Drain.InvAlways | src/servers/mod.rs:53-107 | the same in every state of every run |
| Drain.PermitsConserved | src/servers/protocol/tcp.rs:62-79 | in every reachable state permits are conserved, permit holders never exceed the limit, the gauge is exact, health listeners hold none |
| Drain.AdmittedIff | src/servers/protocol/tcp.rs:62-72 | in every reachable state an accepted connection gets a permit exactly when fewer than the limit are held, and is dropped exactly when the limit is reached |
| Drain.ActiveCountsMe | src/servers/protocol/tcp.rs:89-91 | the active figure computed inside a running admitted handler is at least 1, at open and at close |
| Drain.ListenerOptions | src/servers/protocol/tcp.rs:18-80 | in every reachable state, exactly which actions a listener task can take next |
| Drain.ConnOptions | src/servers/protocol/tcp.rs:50-79 | the same for a connection task |
| Drain.MainOptions | src/servers/mod.rs:75-106 | the same for `run`: it passes each stage exactly when its condition holds, and is released by the tracker exactly when every listener has exited and no connection is left |
| Drain.ExitedMeans | src/servers/protocol/tcp.rs:29-44 | in every run a listener has exited only because it could not start, its accept failed, or it saw the cancellation; turning clients away does not end it |
| Drain.CancelledIff | src/servers/mod.rs:60-73 | in every run the token is cancelled exactly when a signal has come |
| Drain.DrainSafe | src/servers/mod.rs:96-106 | once the tracker has reported empty, no listener, connection or missing permit exists in that or any later state, for every interleaving |
| Drain.ReturnedMeansDead | src/servers/mod.rs:52-107 | once `run` has returned, in that and every later state it is cancelled and closed and nothing is alive: no listener, no connection, no detached HTTP task |
| DrainTermination.Progress | src/servers/mod.rs:96-106 | after cancellation some step is enabled until `run` has returned |
| DrainTermination.Decreases | src/servers/protocol/tcp.rs:29-80 | every draining step decreases the measure |
| DrainTermination.StepsBounded | src/servers/protocol/tcp.rs:29-80 | between any two moments of any run: measure after plus draining steps is at most measure before plus seven per arrival |
| DrainTermination.DrainTerminates | src/servers/mod.rs:96-106 | after cancellation, in every run, arrivals, repeated signals and retries included, the draining steps are bounded by the measure plus seven for each client that still arrives, and none is possible exactly when `run` has returned, with nothing alive |
| DrainTermination.UndisturbedDrain | src/servers/mod.rs:96-106 | without arrivals, signals and retries the drain takes at most as many steps as the measure says |
| DrainTermination.MeasureBound | src/servers/mod.rs:96-106 | the bound in plain counts of queued clients, listeners, connections and detached tasks |
| DrainLimits.SpawnAfterClose | src/servers/mod.rs:100-103 | every listener that can start and admit somebody can spawn a connection while `run` waits on the closed tracker, in some run |
| DrainLimits.SpawnsLaterIff | src/servers/mod.rs:100-103 | in every reachable state, closed or not, some continuation spawns a connection if and only if a listener has not exited, can start, and can admit somebody |
| DrainLimits.CutsRequestIff | src/upstreams/mod.rs:69-83 | some run returns while an HTTP task still serves a client, which cuts it off, if and only if a listener can start, admit a client and send it to a health check |
| DrainLimits.ServedWithinLimitIff | src/servers/protocol/tcp.rs:62-79 | handlers running plus HTTP tasks of a listener stay within `maxclients` in every reachable state if and only if the listener cannot send a client to a health check |
| DrainLimits.AdmittedBesideDetached | src/servers/protocol/tcp.rs:74-79 | the way it happens: a client is admitted with the permit a detached one gave back |
| Deployment.MetricsAreExact | src/upstreams/mod.rs:123-126 | every health check any proxy can reach shows one entry per proxy, with its configured name, listen address and limit, about its own semaphore alone, whose permits are those the model's run starts with, and the entry reports the permits held on it in every state |
| Deployment.BuiltIsInitial | src/servers/builder.rs:41-52 | the built objects are the initial state of the run-time model: permits of every semaphore, and which listeners are health servers |
| Deployment.HealthReachableIff | src/servers/protocol/tcp.rs:111-131 | a listener's run-time flags say exactly whether routing can send some client to a health check |
| Deployment.ShutdownCutsIff | src/servers/mod.rs:96-106 | in terms of the configuration: some shutdown cuts off a request if and only if a listener can start, admit a client and route it to a health check |
| Deployment.ServerCapacity | src/servers/builder.rs:28-53 | a server admits at most `maxclients` times the number of its listen entries that parse, and nobody if its default is a health check |
| Deployment.RouteConnection | src/servers/protocol/tcp.rs:100-172 | one peek at up to 4096 bytes, which may fail or keep waiting, then routing by what it showed, then the routed upstream, else the default one, else none; nothing is consumed |
| Deployment.RouteIndependentIff | src/servers/protocol/tcp.rs:100-131 | the route is the same however the stream arrives if and only if the listener is not TLS or every prefix a peek can show leads to the same decision |
| Deployment.UpstreamSeesRequestThenClient | src/upstreams/proxy_to_upstream/mod.rs:76-87 | cutting the upstream's wire at its first empty line gives a request that parses to the intended target and headers, and then exactly the client's bytes |
| Deployment.SniReachesWire | src/servers/protocol/tcp.rs:103-176 | from accepted configuration and what the peek saw to the wire: the selected proxy upstream is the routed one, speaks a known protocol, and reads a CONNECT for the first SNI and the configured port with exactly the configured headers, and then all the client sent |
| Deployment.StaticTargetReachesWire | src/servers/protocol/tcp.rs:133-176 | the static counterpart, on any listener: the upstream reads a CONNECT for exactly the configured text |

## Left out

- TLS record and ClientHello parsing (src/servers/protocol/tls.rs): the SNI list is an arbitrary function of the peeked buffer.
- YAML, URL and socket-address syntax: parsers are arbitrary functions; logging, signals and command line are not modelled.
- The rejection of other configuration versions than 1 and 2 and of unknown log formats (src/config/loader.rs:69-87), and of files that cannot be read or parsed.
- Lenient readings of the CONNECT request, by peers that end lines at a lone LF or trim values.
- Non-ASCII white space in the CONNECT response: `split_whitespace` is modelled on ASCII, and other bytes are not white space.
- HTTP serving of the health upstream: only that its task is detached from tracker and permit. The ban and echo upstreams' own byte handling is left out.
- The connect timeout and the order in which addresses are dialled: whether the connector reaches an address list in time is a parameter. Failures of `set_nodelay` and `peer_addr` are left out.
- Counter wrap-around at 2^64 bytes, and the panic of semaphores larger than the runtime's maximum: counts are unbounded.
- `time_remaining`: it is only logged.
- Tunnel.ProxyConnection: the two copies run one after the other; what holds at every moment in between is proved of the interleaved machine (Tunnel.TunnelPrefix). The relay's answers are scripts of their own, not what the handshake left over.
