/** From the SNI list of one connection to an upstream, its CONNECT settings and its CONNECT target
    (`accept`). */
module Routing {
  import opened Common
  import opened Config
  import opened ConnectRequest
  import opened ConnectResponse

  /** What one listener needs for routing; fixed when the server is built. */
  datatype Settings = Settings(
    name: string,
    tls: bool,
    sni: Option<map<Text, SniTarget>>,
    defaultAction: string,
    via: Via,
    protocol: string,
    limit: nat)

  /** The settings a server's configuration gives each of its listeners. */
  function SettingsOf(name: string, server: ServerConfig): Settings {
    Settings(name,
             server.tls == Some(true),
             server.sni,
             if server.defaultAction.Some? then server.defaultAction.value else "ban",
             server.via,
             if server.protocol.Some? then server.protocol.value else "tcp",
             server.maxclients)
  }

  datatype Decision = Decision(upstream: string, via: Via, target: Option<Text>)

  /** Decimal text of a number, as `format!` prints a port. */
  function Decimal(n: nat): (s: Text)
    ensures s != [] && forall b :: b in s ==> IsDigit(b)
  {
    if n < 10 then [(48 + n) as byte] else Decimal(n / 10) + [(48 + n % 10) as byte]
  }

  /** The CONNECT target for the chosen settings. It names the first SNI of the list. */
  function TargetFor(via: Via, snis: seq<Text>): Option<Text> {
    if via.useSniAsTarget then (if snis == [] then None else Some(snis[0] + [COLON] + Decimal(via.targetPort)))
    else if via.target != [] then Some(via.target)
    else None
  }

  /** `snis[k]` is the first entry of the list that the SNI map knows. */
  ghost predicate FirstMatch(p: Settings, snis: seq<Text>, k: int) {
    && p.sni.Some? && 0 <= k < |snis| && snis[k] in p.sni.value
    && forall m :: 0 <= m < k ==> snis[m] !in p.sni.value
  }

  /** What routing promises. */
  ghost predicate Routed(p: Settings, snis: seq<Text>, d: Decision) {
    && (forall k :: FirstMatch(p, snis, k) ==>
          var entry := p.sni.value[snis[k]];
          && d.upstream == entry.UpstreamName()
          && d.via == (if entry.ViaOverride().Some? then entry.ViaOverride().value else p.via))
    && ((forall k :: !FirstMatch(p, snis, k)) ==> d.upstream == p.defaultAction && d.via == p.via)
    && d.target == TargetFor(d.via, snis)
  }

  method Route(p: Settings, snis: seq<Text>) returns (d: Decision)
    ensures Routed(p, snis, d)
  {
    var matched := p.defaultAction;
    var over: Option<Via> := None;
    if snis != [] && p.sni.Some? {
      var entries := p.sni.value;
      var k := 0;
      while k < |snis|
        invariant 0 <= k <= |snis| && matched == p.defaultAction && over == None
        invariant forall m :: 0 <= m < k ==> snis[m] !in entries
      {
        if snis[k] in entries {
          assert FirstMatch(p, snis, k);
          matched := entries[snis[k]].UpstreamName();
          over := entries[snis[k]].ViaOverride();
          break;
        }
        k := k + 1;
      }
    }
    var via := if over.Some? then over.value else p.via;
    d := Decision(matched, via, TargetFor(via, snis));
  }

  /** The promise leaves no choice. */
  lemma RoutedIsUnique(p: Settings, snis: seq<Text>, d: Decision, e: Decision)
    requires Routed(p, snis, d) && Routed(p, snis, e)
    ensures d == e
  {
    if k :| FirstMatch(p, snis, k) {
    }
  }

  /** A static target is used as it is configured, whatever the SNIs. */
  lemma StaticTarget(p: Settings, snis: seq<Text>, d: Decision)
    requires Routed(p, snis, d) && !d.via.useSniAsTarget
    ensures d.target == if d.via.target == [] then None else Some(d.via.target)
  {
  }

  /** Only a TLS listener looks for SNIs at all. */
  function Observed(p: Settings, sniffed: seq<Text>): seq<Text> {
    if p.tls then sniffed else []
  }

  /** `sniffed[k]` is the first SNI that a TLS server has an entry for. */
  ghost predicate FirstEntry(server: ServerConfig, sniffed: seq<Text>, k: int) {
    && server.tls == Some(true) && server.sni.Some?
    && 0 <= k < |sniffed| && sniffed[k] in server.sni.value
    && forall m :: 0 <= m < k ==> sniffed[m] !in server.sni.value
  }

  /** Routing in terms of the configuration: the first entry decides, with its own CONNECT settings if it has
      any; otherwise the server's default, which is "ban" if it has none, with the server's settings. */
  lemma RouteByConfig(name: string, server: ServerConfig, sniffed: seq<Text>, d: Decision)
    requires Routed(SettingsOf(name, server), Observed(SettingsOf(name, server), sniffed), d)
    ensures forall k :: FirstEntry(server, sniffed, k) ==>
              match server.sni.value[sniffed[k]]
              case Simple(upstream) => d.upstream == upstream && d.via == server.via
              case Extended(upstream, None) => d.upstream == upstream && d.via == server.via
              case Extended(upstream, Some(via)) => d.upstream == upstream && d.via == via
    ensures (forall k :: !FirstEntry(server, sniffed, k)) ==>
              && d.via == server.via
              && d.upstream == match server.defaultAction
                               case None => "ban"
                               case Some(action) => action
    ensures d.via.useSniAsTarget ==> (d.target.None? <==> server.tls != Some(true) || sniffed == [])
    ensures !d.via.useSniAsTarget ==> d.target == if d.via.target == [] then None else Some(d.via.target)
  {
    var p := SettingsOf(name, server);
    forall k ensures FirstEntry(server, sniffed, k) <==> FirstMatch(p, Observed(p, sniffed), k) {
    }
  }

  /** Upstream selection, with its fall-back to the default name. */
  function Select<U>(upstream: map<string, U>, chosen: string, defaultAction: string): Option<U> {
    if chosen in upstream then Some(upstream[chosen])
    else if defaultAction in upstream then Some(upstream[defaultAction])
    else None
  }

  // ---------------------------------------------------------------------------
  // Validation makes routing total
  // ---------------------------------------------------------------------------

  /** Every name routing can choose, for any client, is defined. */
  ghost predicate RoutesTotally(config: ParsedConfig) {
    forall name, sniffed, d ::
      name in config.servers && Routed(SettingsOf(name, config.servers[name]),
                                       Observed(SettingsOf(name, config.servers[name]), sniffed), d)
      ==> d.upstream in config.upstream
  }

  /** One chosen name is one that validation looked at. */
  lemma ChosenIsUsed(name: string, server: ServerConfig, sniffed: seq<Text>, d: Decision)
    requires Routed(SettingsOf(name, server), Observed(SettingsOf(name, server), sniffed), d)
    ensures d.upstream in UsedBy(server) || (server.defaultAction.None? && d.upstream == "ban")
  {
    var p := SettingsOf(name, server);
    var snis := Observed(p, sniffed);
    if k :| FirstMatch(p, snis, k) {
      assert p.sni.value[snis[k]].UpstreamName() in UsedBy(server);
    }
  }

  /** An entry of the SNI map is chosen by a client that names it alone. */
  lemma SniChooses(p: Settings, key: Text) returns (d: Decision)
    requires p.sni.Some? && key in p.sni.value
    ensures Routed(p, [key], d) && d.upstream == p.sni.value[key].UpstreamName()
  {
    var entry := p.sni.value[key];
    var via := if entry.ViaOverride().Some? then entry.ViaOverride().value else p.via;
    d := Decision(entry.UpstreamName(), via, TargetFor(via, [key]));
    assert FirstMatch(p, [key], 0);
    assert forall k :: FirstMatch(p, [key], k) ==> k == 0;
  }

  /** Every name validation looks at is chosen for some client. */
  lemma UsedIsChosen(name: string, server: ServerConfig, used: string) returns (sniffed: seq<Text>, d: Decision)
    requires used in UsedBy(server)
    ensures Routed(SettingsOf(name, server), Observed(SettingsOf(name, server), sniffed), d) && d.upstream == used
  {
    var p := SettingsOf(name, server);
    if server.defaultAction == Some(used) {
      sniffed := [];
      d := Decision(used, p.via, TargetFor(p.via, []));
      assert forall k :: !FirstMatch(p, [], k);
    } else {
      var key :| key in server.sni.value && server.sni.value[key].UpstreamName() == used;
      sniffed := [key];
      d := SniChooses(p, key);
    }
  }

  /** The check of the upstream names is exactly right: a configuration whose names are defined routes
      every client to a defined upstream, and one with an undefined name has a client that is not. */
  lemma RoutingTotalIff(config: ParsedConfig)
    requires "ban" in config.upstream
    ensures RoutesTotally(config) <==> UsedDefined(config)
  {
    if UsedDefined(config) {
      forall name, sniffed, d |
        name in config.servers && Routed(SettingsOf(name, config.servers[name]),
                                         Observed(SettingsOf(name, config.servers[name]), sniffed), d)
        ensures d.upstream in config.upstream
      {
        ChosenIsUsed(name, config.servers[name], sniffed, d);
      }
    } else {
      var name :| name in config.servers && !(UsedBy(config.servers[name]) <= config.upstream.Keys);
      var used :| used in UsedBy(config.servers[name]) && used !in config.upstream;
      var sniffed, d := UsedIsChosen(name, config.servers[name], used);
    }
  }

  /** For an accepted configuration neither the fall-back nor the "default upstream not found" error of
      `accept` can be reached. */
  lemma NoFallback(config: ParsedConfig, name: string, sniffed: seq<Text>, d: Decision)
    requires Acceptable(config) && LoadedUpstreams(config.upstream) && name in config.servers
    requires Routed(SettingsOf(name, config.servers[name]),
                    Observed(SettingsOf(name, config.servers[name]), sniffed), d)
    ensures d.upstream in config.upstream
    ensures Select(config.upstream, d.upstream, SettingsOf(name, config.servers[name]).defaultAction)
            == Some(config.upstream[d.upstream])
  {
    assert {"ban", "echo", "health"} <= config.upstream.Keys;
    assert "ban" in {"ban", "echo", "health"};
    RoutingTotalIff(config);
  }

  // ---------------------------------------------------------------------------
  // CONNECT targets
  // ---------------------------------------------------------------------------

  lemma {:induction false} DecimalValueSnoc(acc: nat, s: Text, d: byte)
    requires (forall b :: b in s ==> IsDigit(b)) && IsDigit(d)
    ensures forall b :: b in s + [d] ==> IsDigit(b)
    ensures DecimalValue(acc, s + [d]) == DecimalValue(acc, s) * 10 + (d as int - 48)
    decreases |s|
  {
    if s == [] {
      assert [] + [d] == [d] && [d][1..] == [];
    } else {
      assert s[0] in s && (s + [d])[1..] == s[1..] + [d];
      DecimalValueSnoc(acc * 10 + (s[0] as int - 48), s[1..], d);
    }
  }

  lemma {:induction false} DecimalIsValue(n: nat)
    ensures DecimalValue(0, Decimal(n)) == n
  {
    if n >= 10 {
      DecimalIsValue(n / 10);
      DecimalValueSnoc(0, Decimal(n / 10), (48 + n % 10) as byte);
    } else {
      assert Decimal(n)[1..] == [];
    }
  }

  /** A dynamic target splits at its last colon into the first SNI and the configured port, whatever
      the SNI contains, and it reads back from a request line exactly when the SNI would. */
  lemma TargetSplits(via: Via, snis: seq<Text>)
    requires via.useSniAsTarget && snis != [] && via.targetPort <= 65535
    ensures var t, n := TargetFor(via, snis).value, |snis[0]|;
            && t[..n] == snis[0] && [t[n]] == Ascii(":") && COLON !in t[n + 1..]
            && ParseU16(t[n + 1..]) == Some(via.targetPort)
            && Digits(t[n + 1..]) && (t[n + 1] as int == '0' as int ==> via.targetPort == 0)
    ensures CleanTarget(TargetFor(via, snis).value) <==> CleanTarget(snis[0])
  {
    var port := Decimal(via.targetPort);
    var t, n := TargetFor(via, snis).value, |snis[0]|;
    assert t[n + 1..] == port;
    assert port[0] in port;
    DecimalIsValue(via.targetPort);
    ParseU16Meaning(port, via.targetPort);
    DigitsAreClean(port);
    DecimalStart(via.targetPort);
    NoCrlfAcross(snis[0], COLON, port);
  }

  /** No leading zeros. */
  lemma {:induction false} DecimalStart(n: nat)
    ensures Decimal(n)[0] == 48 ==> n == 0
  {
    if n >= 10 {
      DecimalStart(n / 10);
    }
  }

  lemma DigitsAreClean(s: Text)
    requires forall b :: b in s ==> IsDigit(b)
    ensures CleanTarget(s) && Digits(s)
  {
    assert forall i :: 0 <= i < |s| ==> s[i] in s;
    forall i | 0 <= i < |s| - 1 ensures !(s[i] == CR && s[i + 1] == LF) {
      assert s[i] in s;
    }
  }

  /** The target always names the first SNI of the hello, while the route follows the first SNI the map
      knows: the two agree exactly when those are the same name. */
  lemma TargetFollowsFirstSni(p: Settings, snis: seq<Text>, k: int, d: Decision)
    requires FirstMatch(p, snis, k) && Routed(p, snis, d) && d.via.useSniAsTarget
    ensures d.target == Some(snis[0] + [COLON] + Decimal(d.via.targetPort))
    ensures d.target == Some(snis[k] + [COLON] + Decimal(d.via.targetPort)) <==> snis[k] == snis[0]
  {
    var port := [COLON] + Decimal(d.via.targetPort);
    assert snis[0] + [COLON] + Decimal(d.via.targetPort) == snis[0] + port;
    assert snis[k] + [COLON] + Decimal(d.via.targetPort) == snis[k] + port;
    if snis[0] + port == snis[k] + port {
      assert |snis[0]| == |snis[k]|;
      assert snis[0] == (snis[0] + port)[..|snis[0]|] == snis[k];
    }
  }

  /** Without any SNI a dynamic target degrades to direct forwarding. */
  lemma NoSniNoTarget(p: Settings, d: Decision)
    requires Routed(p, [], d)
    ensures d.upstream == p.defaultAction && d.via == p.via
    ensures d.target.Some? <==> !p.via.useSniAsTarget && p.via.target != []
  {
    assert forall k :: !FirstMatch(p, [], k);
  }
}
