/** The pieces put together: a validated configuration, the server built from it, its runs, and what a
    tunnelled connection looks like from the upstream's side. */
module Deployment {
  import opened Common
  import opened Sockets
  import opened HeaderValues
  import opened ConnectRequest
  import opened ConnectResponse
  import opened HttpConnect
  import opened Relay
  import opened Tunnel
  import opened Config
  import opened Routing
  import opened Builder
  import D = Drain
  import L = DrainLimits

  // ---------------------------------------------------------------------------
  // From the built server to its run-time parameters
  // ---------------------------------------------------------------------------

  predicate LeadsToHealth(config: ParsedConfig, name: string) {
    name in config.upstream && config.upstream[name].Health?
  }

  function SpecFor(config: ParsedConfig, o: Origin): D.Spec
    requires o.0 in config.servers
  {
    var p := SettingsOf(o.0, config.servers[o.0]);
    D.Spec(p.limit,
           LeadsToHealth(config, p.defaultAction),
           p.tls && p.sni.Some?
           && exists sni :: sni in p.sni.value && LeadsToHealth(config, p.sni.value[sni].UpstreamName()),
           p.protocol in {"tcp", "tcp4", "tcp6"})
  }

  function Specs(config: ParsedConfig, origins: seq<Origin>): seq<D.Spec>
    requires forall o :: o in origins ==> o.0 in config.servers
  {
    seq(|origins|, k requires 0 <= k < |origins| => SpecFor(config, origins[k]))
  }

  /** The run-time parameters say exactly which listeners can send a client to a health check. */
  lemma HealthReachableIff(config: ParsedConfig, o: Origin)
    requires o.0 in config.servers
    ensures var p := SettingsOf(o.0, config.servers[o.0]);
            SpecFor(config, o).health || SpecFor(config, o).sniHealth <==>
            exists sniffed, d :: Routed(p, Observed(p, sniffed), d) && LeadsToHealth(config, d.upstream)
  {
    var p := SettingsOf(o.0, config.servers[o.0]);
    if SpecFor(config, o).health {
      var d := Decision(p.defaultAction, p.via, TargetFor(p.via, []));
      assert forall k :: !FirstMatch(p, [], k);
      assert Observed(p, []) == [] && Routed(p, Observed(p, []), d);
    } else if SpecFor(config, o).sniHealth {
      var sni :| sni in p.sni.value && LeadsToHealth(config, p.sni.value[sni].UpstreamName());
      var d := SniChooses(p, sni);
      assert Routed(p, Observed(p, [sni]), d);
    }
    if sniffed, d :| Routed(p, Observed(p, sniffed), d) && LeadsToHealth(config, d.upstream) {
      if k :| FirstMatch(p, Observed(p, sniffed), k) {
        assert LeadsToHealth(config, p.sni.value[Observed(p, sniffed)[k]].UpstreamName());
      }
    }
  }

  /** Listener `o` starts, and can admit a client whose SNIs lead to a health check. */
  ghost predicate AdmitsHealthClient(config: ParsedConfig, o: Origin)
    requires o.0 in config.servers
  {
    var p, server := SettingsOf(o.0, config.servers[o.0]), config.servers[o.0];
    && (server.protocol.None? || server.protocol.value in {"tcp", "tcp4", "tcp6"})
    && (server.maxclients > 0
        || LeadsToHealth(config, if server.defaultAction.Some? then server.defaultAction.value else "ban"))
    && exists sniffed, d :: Routed(p, Observed(p, sniffed), d) && LeadsToHealth(config, d.upstream)
  }

  /** In terms of the configuration: some shutdown of the built server cuts off a request exactly when some
      listener can start and admit a client that its routing sends to a health check. */
  lemma ShutdownCutsIff(config: ParsedConfig, origins: seq<Origin>)
    requires forall o :: o in origins ==> o.0 in config.servers
    ensures L.CutsRequest(Specs(config, origins)) <==> exists o :: o in origins && AdmitsHealthClient(config, o)
  {
    var specs := Specs(config, origins);
    L.CutsRequestIff(specs);
    forall k | 0 <= k < |origins| ensures L.CanDetach(specs[k]) <==> AdmitsHealthClient(config, origins[k]) {
      HealthReachableIff(config, origins[k]);
    }
    if o :| o in origins && AdmitsHealthClient(config, o) {
      var k :| 0 <= k < |origins| && origins[k] == o;
      assert L.CanDetach(specs[k]);
    }
  }

  /** What `Builder.Build` guarantees about its results. */
  ghost predicate Built(config: ParsedConfig, parse: AddrParser, origins: seq<Origin>, proxies: seq<Proxy>,
                        upstream: UpstreamMap)
    reads proxies, set p | p in proxies :: p.maxclients
  {
    && Enumerates(origins, Listenable(config.servers, parse))
    && AllBuilt(config.servers, parse, origins, proxies)
    && (forall p :: p in proxies ==> p.upstream == upstream)
    && EntriesFor(upstream.entries, config, proxies)
  }

  /** The built server is where the run-time model starts: each semaphore object holds the permits its
      listener starts with, and each proxy's flags are those of its parameters. */
  lemma BuiltIsInitial(config: ParsedConfig, parse: AddrParser, origins: seq<Origin>, proxies: seq<Proxy>,
                       upstream: UpstreamMap)
    requires Built(config, parse, origins, proxies, upstream)
    requires forall o :: o in origins ==> o.0 in config.servers
    ensures var specs := Specs(config, origins);
            && |D.Initial(specs).free| == |proxies|
            && (forall k :: 0 <= k < |proxies| ==>
                  && proxies[k].maxclients.permits == D.Initial(specs).free[k]
                  && (proxies[k].IsHealthServer() <==> specs[k].health))
  {
    forall k | 0 <= k < |proxies|
      ensures proxies[k].maxclients.permits == D.Initial(Specs(config, origins)).free[k]
      ensures proxies[k].IsHealthServer() <==> Specs(config, origins)[k].health
    {
      assert BuiltFrom(config.servers, parse, origins[k], proxies[k]);
      assert proxies[k] in proxies;
      var action := proxies[k].settings.defaultAction;
      assert action in upstream.entries <==> action in config.upstream;
    }
  }

  /** What a client of `/metrics` on any listener `j` that has the health check `name` is shown. */
  ghost function ShownBy(proxy: Proxy, name: string): seq<MetricsEntry>
    reads proxy
  {
    if name in proxy.upstream.entries && proxy.upstream.entries[name].HealthUpstream?
    then proxy.upstream.entries[name].metrics else []
  }

  /** From there on, in every state of every run: every health check that any proxy can reach shows one entry
      for each proxy, with the name and limit its configuration gives, about that proxy's own semaphore and
      no other, and the entry reports exactly the permits held on it. */
  lemma MetricsAreExact(config: ParsedConfig, parse: AddrParser, origins: seq<Origin>, proxies: seq<Proxy>,
                        upstream: UpstreamMap, states: seq<D.State>, steps: seq<D.Step>,
                        j: nat, name: string, k: nat, x: nat)
    requires Built(config, parse, origins, proxies, upstream)
    requires forall o :: o in origins ==> o.0 in config.servers
    requires j < |proxies| && LeadsToHealth(config, name)
    requires D.IsRun(Specs(config, origins), states, steps) && k < |proxies| && x < |states|
    ensures |ShownBy(proxies[j], name)| == |proxies|
    ensures var entry := ShownBy(proxies[j], name)[k];
            && entry.name == origins[k].0 && entry.limit == config.servers[origins[k].0].maxclients
            && Some(entry.listen) == parse(config.servers[origins[k].0].listen[origins[k].1])
            && entry.semaphore.permits == states[0].free[k]
            && (forall m :: 0 <= m < |proxies| ==> (entry.semaphore == proxies[m].maxclients <==> m == k))
            && D.Gauge(entry.limit, states[x].free[k]) == D.Holders(states[x], k)
  {
    BuiltIsInitial(config, parse, origins, proxies, upstream);
    D.PermitsConserved(Specs(config, origins), states, steps, x, k);
    assert BuiltFrom(config.servers, parse, origins[k], proxies[k]);
    assert proxies[j] in proxies;
  }

  /** How many of the first `n` listen addresses belong to server `name`. */
  ghost function AddressesOf(origins: seq<Origin>, name: string, n: nat): nat
    requires n <= |origins|
  {
    if n == 0 then 0 else AddressesOf(origins, name, n - 1) + (if origins[n - 1].0 == name then 1 else 0)
  }

  /** The listen entries of server `name` that parse. */
  ghost function ListenableOf(servers: map<string, ServerConfig>, parse: AddrParser, name: string): set<Origin> {
    set o | o in Listenable(servers, parse) && o.0 == name
  }

  ghost function Named(origins: seq<Origin>, name: string): set<Origin> {
    set o | o in origins && o.0 == name
  }

  lemma NamedSnoc(origins: seq<Origin>, last: Origin, name: string)
    requires last !in origins
    ensures |Named(origins + [last], name)| == |Named(origins, name)| + (if last.0 == name then 1 else 0)
  {
    var before := Named(origins, name);
    assert Named(origins + [last], name) == if last.0 == name then before + {last} else before;
  }

  lemma {:induction false} AddressesCounted(origins: seq<Origin>, name: string, n: nat)
    requires n <= |origins| && forall i, j :: 0 <= i < j < |origins| ==> origins[i] != origins[j]
    ensures AddressesOf(origins, name, n) == |Named(origins[..n], name)|
  {
    if n == 0 {
      assert Named(origins[..0], name) == {};
    } else {
      hide Named;
      AddressesCounted(origins, name, n - 1);
      var last := origins[n - 1];
      assert origins[..n] == origins[..n - 1] + [last];
      NamedSnoc(origins[..n - 1], last, name);
    }
  }

  /** Connections of server `name` holding a permit, over its addresses among the first `n`. */
  ghost function HeldBy(s: D.State, origins: seq<Origin>, name: string, n: nat): nat
    requires n <= |origins| == |s.listeners|
  {
    if n == 0 then 0
    else HeldBy(s, origins, name, n - 1) + (if origins[n - 1].0 == name then D.Holders(s, n - 1) else 0)
  }

  lemma {:induction false} HeldByPrefix(config: ParsedConfig, origins: seq<Origin>, name: string, n: nat,
                                        states: seq<D.State>, steps: seq<D.Step>, x: nat)
    requires forall o :: o in origins ==> o.0 in config.servers
    requires name in config.servers && n <= |origins|
    requires D.IsRun(Specs(config, origins), states, steps) && x < |states|
    ensures HeldBy(states[x], origins, name, n) <= config.servers[name].maxclients * AddressesOf(origins, name, n)
    ensures SpecFor(config, (name, 0)).health ==> HeldBy(states[x], origins, name, n) == 0
  {
    hide D.Next, D.Enabled, D.Initial;
    if n > 0 {
      HeldByPrefix(config, origins, name, n - 1, states, steps, x);
      D.PermitsConserved(Specs(config, origins), states, steps, x, n - 1);
      var most := config.servers[name].maxclients;
      var before := AddressesOf(origins, name, n - 1);
      if origins[n - 1].0 == name {
        assert Specs(config, origins)[n - 1] == SpecFor(config, origins[n - 1]) == SpecFor(config, (name, 0));
        assert D.Holders(states[x], n - 1) <= most;
        TimesSuccessor(most, before);
      }
    }
  }

  /** A server never has more admitted connections at once than `maxclients` times the number of its listen
      entries that parse, and none if its default is a health check. */
  lemma ServerCapacity(config: ParsedConfig, parse: AddrParser, origins: seq<Origin>, name: string,
                       states: seq<D.State>, steps: seq<D.Step>, x: nat)
    requires Enumerates(origins, Listenable(config.servers, parse)) && name in config.servers
    requires forall o :: o in origins ==> o.0 in config.servers
    requires D.IsRun(Specs(config, origins), states, steps) && x < |states|
    ensures HeldBy(states[x], origins, name, |origins|)
            <= config.servers[name].maxclients * |ListenableOf(config.servers, parse, name)|
    ensures SpecFor(config, (name, 0)).health ==> HeldBy(states[x], origins, name, |origins|) == 0
  {
    hide D.Next, D.Enabled, D.Initial;
    HeldByPrefix(config, origins, name, |origins|, states, steps, x);
    AddressesCounted(origins, name, |origins|);
    assert origins[..|origins|] == origins;
    assert Named(origins, name) == ListenableOf(config.servers, parse, name);
  }

  // ---------------------------------------------------------------------------
  // One connection
  // ---------------------------------------------------------------------------

  const HELLO: nat := 4096

  /** The zero-filled peek buffer. */
  function PeekBuffer(hello: Text): (buf: Text)
    ensures |buf| == 4096 && buf[..Min(|hello|, 4096)] == hello[..Min(|hello|, 4096)]
    ensures forall i :: |hello| <= i < 4096 ==> buf[i] == 0
  {
    if |hello| >= HELLO then hello[..HELLO] else hello + seq(HELLO - |hello|, _ => 0)
  }

  datatype RouteEnd = Chosen(decision: Decision, upstream: Option<UpstreamKind>) | PeekFailed | StillPeeking

  /** `accept` up to the hand-over to an upstream. One peek decides: it shows what the client has sent by
      then, and consumes nothing. */
  method RouteConnection(p: Settings, upstream: map<string, UpstreamKind>, inbound: TcpStream,
                         getSni: Text -> seq<Text>)
    returns (r: RouteEnd)
    modifies inbound`readAnswers
    ensures !p.tls ==> r.Chosen? && Routed(p, [], r.decision) && unchanged(inbound)
    ensures p.tls ==>
              var peek := PeekLoop(|inbound.unread|, 4096, old(inbound.readAnswers));
              && (r.PeekFailed? <==> peek.Failed?) && (r.StillPeeking? <==> peek.Waiting?)
              && (r.Chosen? ==> Routed(p, getSni(PeekBuffer(inbound.unread[..peek.n])), r.decision))
    ensures r.Chosen? ==>
              r.upstream == if r.decision.upstream in upstream then Some(upstream[r.decision.upstream])
                            else if p.defaultAction in upstream then Some(upstream[p.defaultAction])
                            else None
  {
    var snis: seq<Text> := [];
    if p.tls {
      var peek, hello := inbound.Peek(HELLO);
      match peek
      case Waiting => return StillPeeking;
      case Failed => return PeekFailed;
      case Moved(_) => snis := getSni(PeekBuffer(hello));
    }
    var d := Route(p, snis);
    return Chosen(d, Select(upstream, d.upstream, p.defaultAction));
  }

  // --- one peek is not the whole hello -------------------------------------------

  /** The client's stream `stream`, arriving as `answers` say, is routed to `d`. */
  ghost predicate RoutedWith(p: Settings, getSni: Text -> seq<Text>, stream: Text, answers: seq<Answer>, d: Decision) {
    if p.tls then
      var peek := PeekLoop(|stream|, HELLO, answers);
      peek.Moved? && Routed(p, getSni(PeekBuffer(stream[..peek.n])), d)
    else Routed(p, [], d)
  }

  /** What one peek can show: something, if the client sends anything at all, and at most 4096 bytes. */
  predicate Visible(stream: Text, k: nat) {
    k <= Min(|stream|, 4096) && (k == 0 <==> stream == [])
  }

  /** However the stream arrives, it is routed the same way. */
  ghost predicate RouteSettled(p: Settings, getSni: Text -> seq<Text>, stream: Text) {
    forall a, b, d, e ::
      RoutedWith(p, getSni, stream, a, d) && RoutedWith(p, getSni, stream, b, e) ==> d == e
  }

  /** Every prefix that a peek can show leads to the same decision. */
  ghost predicate PrefixesAgree(p: Settings, getSni: Text -> seq<Text>, stream: Text) {
    forall k: nat, m: nat, d, e | Visible(stream, k) && Visible(stream, m) ::
      Routed(p, getSni(PeekBuffer(stream[..k])), d) && Routed(p, getSni(PeekBuffer(stream[..m])), e) ==> d == e
  }

  /** The route is independent of fragmentation exactly when the listener is not a TLS listener, or all
      these prefixes agree. */
  lemma RouteIndependentIff(p: Settings, getSni: Text -> seq<Text>, stream: Text)
    ensures RouteSettled(p, getSni, stream) <==> !p.tls || PrefixesAgree(p, getSni, stream)
  {
    hide Routed, PeekBuffer;
    if !p.tls {
      forall a, b, d, e | RoutedWith(p, getSni, stream, a, d) && RoutedWith(p, getSni, stream, b, e) ensures d == e {
        RoutedIsUnique(p, [], d, e);
      }
    } else if RouteSettled(p, getSni, stream) {
      forall k: nat, m: nat, d, e | Visible(stream, k) && Visible(stream, m)
        && Routed(p, getSni(PeekBuffer(stream[..k])), d) && Routed(p, getSni(PeekBuffer(stream[..m])), e)
        ensures d == e
      {
        assert RoutedWith(p, getSni, stream, [Ready(k)], d) && RoutedWith(p, getSni, stream, [Ready(m)], e);
      }
    } else {
      var a, b, d, e :| RoutedWith(p, getSni, stream, a, d) && RoutedWith(p, getSni, stream, b, e) && d != e;
      var k, m := PeekLoop(|stream|, HELLO, a).n, PeekLoop(|stream|, HELLO, b).n;
      assert Visible(stream, k) && Visible(stream, m);
    }
  }

  /** A first segment without a complete SNI takes the default route, whatever the rest of the hello says:
      if the SNI leads elsewhere, the route depends on how TCP cut the hello. */
  lemma SplitHelloTakesDefault(p: Settings, getSni: Text -> seq<Text>, stream: Text, k: nat, d: Decision, e: Decision)
    requires p.tls && Visible(stream, k) && getSni(PeekBuffer(stream[..k])) == []
    requires RoutedWith(p, getSni, stream, [Ready(k)], d) && RoutedWith(p, getSni, stream, [Ready(|stream|)], e)
    ensures d.upstream == p.defaultAction && d.via == p.via
    ensures e.upstream != p.defaultAction ==> !RouteSettled(p, getSni, stream)
  {
    assert PeekLoop(|stream|, HELLO, [Ready(k)]) == Moved(k);
    NoSniNoTarget(p, d);
  }

  /** Text that is followed by anything keeps its only terminator as the first one. */
  lemma RequestHeadEnds(target: Text, fields: seq<Field>, rest: Text)
    requires FramedRequest(target, fields)
    ensures var request := RequestText(target, fields); HeadEnds(request + rest, |request|)
  {
    hide RequestText, FramedRequest;
    var request := RequestText(target, fields);
    var s := request + rest;
    var e := |request|;
    TerminatorOnlyAtEnd(target, fields);
    assert s[e - 4..e] == request[e - 4..e];
    var before := s[..e - 1];
    forall i | 0 <= i <= e - 5 ensures !TerminatorAt(before, i) {
      TerminatorBytes(before, i);
      TerminatorBytes(request, i);
    }
  }

  /** What arrived at the upstream is a CONNECT for this target with these fields, and then the client. */
  ghost predicate ReadsAs(wire: Text, target: Text, fields: seq<Field>, client: Text) {
    exists e: nat :: HeadEnds(wire, e) && ParseRequest(wire[..e]) == Some((target, fields)) && wire[e..] == client
  }

  /** A cleanly closed tunnel, seen by the upstream proxy: cutting what arrives at its first empty line
      gives a request that parses to the intended target and header fields, followed by exactly the
      client's bytes, ClientHello included. */
  lemma UpstreamSeesRequestThenClient(client: Text, upstream: Text, target: Text, fields: seq<Field>,
                                      w: seq<Answer>, r: seq<Answer>, tx: seq<Answer>, rx: seq<Answer>,
                                      schedule: seq<Act>)
    requires CleanRequest(target, fields)
    requires ClosedCleanly(TunnelAfter(client, upstream, Some(RequestText(target, fields)), w, r, tx, rx, schedule))
    requires !WriteLoop(|RequestText(target, fields)|, 0, w).Stalled?
    ensures ReadsAs(TunnelAfter(client, upstream, Some(RequestText(target, fields)), w, r, tx, rx, schedule).toUpstream,
                    target, fields, client)
  {
    hide RequestText, HeadEnds, CleanRequest, FramedRequest, ParseRequest, TunnelAfter;
    var request := RequestText(target, fields);
    TunnelTransparent(client, upstream, request, w, r, tx, rx, schedule);
    CleanIsFramed(target, fields);
    RequestHeadEnds(target, fields, client);
    RequestRoundTrip(target, fields);
    var wire := request + client;
    assert wire[..|request|] == request && wire[|request|..] == client;
  }

  /** The target an SNI listener derives: the first SNI, a colon, the configured port. */
  ghost predicate TargetNames(target: Text, sni: Text, port: nat) {
    && |target| > |sni| && target[..|sni|] == sni && [target[|sni|]] == Ascii(":")
    && ParseU16(target[|sni| + 1..]) == Some(port) && Digits(target[|sni| + 1..])
  }

  /** What the routing of this client looked at. */
  ghost function SnisSeen(p: Settings, getSni: Text -> seq<Text>, client: Text, answers: seq<Answer>): seq<Text> {
    var peek := PeekLoop(|client|, 4096, answers);
    if p.tls && peek.Moved? then getSni(PeekBuffer(client[..peek.n])) else []
  }

  /** The same with a static target, on any listener: the selected proxy upstream reads a CONNECT for exactly
      the configured text. */
  lemma StaticTargetReachesWire(config: ParsedConfig, name: string, p: Settings, getSni: Text -> seq<Text>,
                                client: Text, answers: seq<Answer>, d: Decision, addr: string, protocol: string,
                                order: seq<Text>, env: Env, upstream: Text,
                                w: seq<Answer>, r: seq<Answer>, tx: seq<Answer>, rx: seq<Answer>, schedule: seq<Act>)
    requires Acceptable(config) && LoadedUpstreams(config.upstream)
    requires name in config.servers && p == SettingsOf(name, config.servers[name])
    requires RoutedWith(p, getSni, client, answers, d)
    requires Select(config.upstream, d.upstream, p.defaultAction) == Some(UpstreamKind.Proxy(addr, protocol))
    requires !d.via.useSniAsTarget && d.via.target != [] && CleanTarget(d.via.target)
    requires Enumerates(order, d.via.headers.Keys) && AllResolve(d.via.headers, env)
    requires forall f :: f in ResolvedFields(order, d.via.headers, env) ==> CleanField(f)
    requires var request := RequestText(d.via.target, ResolvedFields(order, d.via.headers, env));
             && ClosedCleanly(TunnelAfter(client, upstream, Some(request), w, r, tx, rx, schedule))
             && !WriteLoop(|request|, 0, w).Stalled?
    ensures d.target == Some(d.via.target)
    ensures d.upstream in config.upstream && config.upstream[d.upstream] == UpstreamKind.Proxy(addr, protocol)
    ensures protocol in {"tcp", "tcp4", "tcp6"}
    ensures var fields := ResolvedFields(order, d.via.headers, env);
            var t := TunnelAfter(client, upstream, Some(RequestText(d.via.target, fields)), w, r, tx, rx, schedule);
            && ReadsAs(t.toUpstream, d.via.target, fields, client)
            && ExactlyTheHeaders(fields, d.via.headers, env)
  {
    hide TunnelAfter, WriteLoop, ClosedCleanly, RequestText, ReadsAs, CleanField, PeekBuffer;
    var snis := SnisSeen(p, getSni, client, answers);
    assert Routed(p, Observed(p, snis), d);
    NoFallback(config, name, snis, d);
    StaticTarget(p, Observed(p, snis), d);
    FieldsAreTheHeaders(d.via.headers, order, env);
    UpstreamSeesRequestThenClient(client, upstream, d.via.target, ResolvedFields(order, d.via.headers, env),
                                  w, r, tx, rx, schedule);
  }

  /** From configuration to wire. A client of a TLS listener of an accepted configuration sends `client`;
      by the time of the peek `k` of these bytes have arrived, with a clean first SNI in them. If the route
      leads to a proxy upstream under settings that derive the target from the SNI, that upstream exists,
      speaks a known protocol, and, once its tunnel has closed cleanly, has read a CONNECT for this SNI and
      the configured port with the configured headers, and then all the client sent, the hello included. */
  lemma SniReachesWire(config: ParsedConfig, name: string, p: Settings, getSni: Text -> seq<Text>,
                       client: Text, k: nat, d: Decision, target: Text, addr: string, protocol: string,
                       order: seq<Text>, env: Env, upstream: Text,
                       w: seq<Answer>, r: seq<Answer>, tx: seq<Answer>, rx: seq<Answer>, schedule: seq<Act>)
    requires Acceptable(config) && LoadedUpstreams(config.upstream)
    requires name in config.servers && p == SettingsOf(name, config.servers[name]) && p.tls
    requires Visible(client, k) && RoutedWith(p, getSni, client, [Ready(k)], d)
    requires var snis := getSni(PeekBuffer(client[..k])); snis != [] && CleanTarget(snis[0])
    requires Select(config.upstream, d.upstream, p.defaultAction) == Some(UpstreamKind.Proxy(addr, protocol))
    requires d.via.useSniAsTarget && d.via.targetPort <= 65535 && d.target == Some(target)
    requires Enumerates(order, d.via.headers.Keys) && AllResolve(d.via.headers, env)
    requires forall f :: f in ResolvedFields(order, d.via.headers, env) ==> CleanField(f)
    requires var request := RequestText(target, ResolvedFields(order, d.via.headers, env));
             && ClosedCleanly(TunnelAfter(client, upstream, Some(request), w, r, tx, rx, schedule))
             && !WriteLoop(|request|, 0, w).Stalled?
    ensures d.upstream in config.upstream && config.upstream[d.upstream] == UpstreamKind.Proxy(addr, protocol)
    ensures protocol in {"tcp", "tcp4", "tcp6"}
    ensures TargetNames(target, getSni(PeekBuffer(client[..k]))[0], d.via.targetPort)
    ensures var fields := ResolvedFields(order, d.via.headers, env);
            var t := TunnelAfter(client, upstream, Some(RequestText(target, fields)), w, r, tx, rx, schedule);
            && ReadsAs(t.toUpstream, target, fields, client)
            && ExactlyTheHeaders(fields, d.via.headers, env)
  {
    hide TunnelAfter, WriteLoop, ClosedCleanly, RequestText, ReadsAs, CleanField, ParseU16;
    var snis := getSni(PeekBuffer(client[..k]));
    assert PeekLoop(|client|, HELLO, [Ready(k)]) == Moved(k);
    NoFallback(config, name, snis, d);
    TargetSplits(d.via, snis);
    FieldsAreTheHeaders(d.via.headers, order, env);
    UpstreamSeesRequestThenClient(client, upstream, target, ResolvedFields(order, d.via.headers, env),
                                  w, r, tx, rx, schedule);
  }
}
