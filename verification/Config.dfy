/** Configuration: the upstream map of `load_config` and the checks of `verify_config`. */
module Config {
  import opened Common

  /** Settings of the HTTP CONNECT hop. */
  datatype Via = Via(headers: map<Text, Text>, target: Text, useSniAsTarget: bool, targetPort: nat)

  /** Per-SNI routing entry. */
  datatype SniTarget = Simple(name: string) | Extended(upstream: string, via: Option<Via>) {
    function UpstreamName(): string {
      match this
      case Simple(name) => name
      case Extended(upstream, _) => upstream
    }

    function ViaOverride(): Option<Via> {
      match this
      case Simple(_) => None
      case Extended(_, via) => via
    }
  }

  datatype ServerConfig = ServerConfig(
    listen: seq<string>,
    protocol: Option<string>,
    tls: Option<bool>,
    sni: Option<map<Text, SniTarget>>,
    defaultAction: Option<string>,
    via: Via,
    maxclients: nat)

  /** A configured upstream. The metrics of `Health` are attached when the server is built. */
  datatype UpstreamKind = Ban | Echo | Health | Proxy(addr: string, protocol: string)

  datatype ParsedConfig = ParsedConfig(servers: map<string, ServerConfig>, upstream: map<string, UpstreamKind>)

  datatype ConfigError =
    | DuplicateListen(listen: string)
    | UpstreamNotFound(name: string)
    | InvalidUrl(url: string)
    | InvalidScheme(url: string)

  // ---------------------------------------------------------------------------
  // The upstream map
  // ---------------------------------------------------------------------------

  /** A parsed URL: scheme, host if any, port or known default if any. */
  datatype Url = Url(scheme: string, host: Option<string>, port: Option<string>)

  /** What the URL library makes of a string. */
  type UrlParser = string -> Option<Url>

  function ParseUpstream(url: string, parse: UrlParser): Result<UpstreamKind, ConfigError> {
    match parse(url)
    case None => Err(InvalidUrl(url))
    case Some(u) =>
      if u.host.None? || u.port.None? then Err(InvalidUrl(url))
      else if u.scheme != "tcp" && u.scheme != "tcp4" && u.scheme != "tcp6" then Err(InvalidScheme(url))
      else Ok(Proxy(u.host.value + ":" + u.port.value, u.scheme))
  }

  const BUILT_INS: map<string, UpstreamKind> := map["ban" := Ban, "echo" := Echo, "health" := Health]

  /** `upstream` is the map once the names in `done` have been inserted over the built-ins. */
  ghost predicate LoadedFrom(upstream: map<string, UpstreamKind>, configured: map<string, string>, done: set<string>,
                             parse: UrlParser)
  {
    && upstream.Keys == BUILT_INS.Keys + done
    && (forall name :: name in done ==>
          name in configured && ParseUpstream(configured[name], parse) == Ok(upstream[name]))
    && (forall name :: name in BUILT_INS && name !in done ==> upstream[name] == BUILT_INS[name])
  }

  /** Built-ins first, then every configured upstream, which may replace a built-in of the same name. */
  method LoadUpstreams(configured: map<string, string>, order: seq<string>, parse: UrlParser)
    returns (r: Result<map<string, UpstreamKind>, ConfigError>)
    requires Enumerates(order, configured.Keys)
    ensures r.Ok? <==> forall name :: name in configured ==> ParseUpstream(configured[name], parse).Ok?
    ensures r.Ok? ==> LoadedFrom(r.value, configured, configured.Keys, parse)
    ensures r.Err? ==> exists name :: name in configured && ParseUpstream(configured[name], parse) == Err(r.error)
  {
    var upstream := BUILT_INS;
    ghost var done: set<string> := {};
    for i := 0 to |order|
      invariant done <= configured.Keys && forall k :: 0 <= k < i ==> order[k] in done
      invariant LoadedFrom(upstream, configured, done, parse)
    {
      var name := order[i];
      assert name in configured.Keys;
      var parsed := ParseUpstream(configured[name], parse);
      if parsed.Err? {
        return Err(parsed.error);
      }
      LoadNext(upstream, configured, done, parse, name);
      upstream := upstream[name := parsed.value];
      done := done + {name};
    }
    assert done == configured.Keys by {
      assert forall k :: k in configured.Keys ==> k in order;
    }
    assert forall k :: k in configured ==> k in done;
    return Ok(upstream);
  }

  lemma LoadNext(upstream: map<string, UpstreamKind>, configured: map<string, string>, done: set<string>,
                 parse: UrlParser, name: string)
    requires LoadedFrom(upstream, configured, done, parse)
    requires name in configured && ParseUpstream(configured[name], parse).Ok?
    ensures LoadedFrom(upstream[name := ParseUpstream(configured[name], parse).value], configured, done + {name}, parse)
  {
  }

  /** A URL is usable exactly when it parses to a host, a port and one of three schemes. What is wrong with it
      otherwise is checked in this order. */
  lemma UrlUsableIff(url: string, parse: UrlParser)
    ensures match parse(url)
            case Some(Url(scheme, Some(host), Some(port))) =>
              if scheme in {"tcp", "tcp4", "tcp6"} then
                ParseUpstream(url, parse) == Ok(UpstreamKind.Proxy(host + ":" + port, scheme))
              else ParseUpstream(url, parse) == Err(InvalidScheme(url))
            case _ => ParseUpstream(url, parse) == Err(InvalidUrl(url))
  {
  }

  /** The whole upstream map: every configured name with its own host, port and scheme, and the built-ins
      that are not configured. */
  lemma LoadedExactly(configured: map<string, string>, upstream: map<string, UpstreamKind>, parse: UrlParser)
    requires LoadedFrom(upstream, configured, configured.Keys, parse)
    ensures upstream.Keys == {"ban", "echo", "health"} + configured.Keys
    ensures "ban" !in configured ==> upstream["ban"] == Ban
    ensures "echo" !in configured ==> upstream["echo"] == Echo
    ensures "health" !in configured ==> upstream["health"] == Health
    ensures forall name :: name in configured ==>
              match parse(configured[name])
              case Some(Url(scheme, Some(host), Some(port))) =>
                upstream[name] == UpstreamKind.Proxy(host + ":" + port, scheme) && scheme in {"tcp", "tcp4", "tcp6"}
              case _ => false
  {
    assert BUILT_INS.Keys == {"ban", "echo", "health"};
    forall name | name in configured ensures ParseUpstream(configured[name], parse) == Ok(upstream[name]) {
      UrlUsableIff(configured[name], parse);
    }
  }

  /** Upstream maps that `LoadUpstreams` can produce: the built-in names are always there, and every
      proxied upstream speaks a protocol the connector knows. */
  ghost predicate LoadedUpstreams(upstream: map<string, UpstreamKind>) {
    && {"ban", "echo", "health"} <= upstream.Keys
    && (forall name :: name in upstream && upstream[name].Proxy? ==> upstream[name].protocol in {"tcp", "tcp4", "tcp6"})
  }

  lemma LoadedMeans(configured: map<string, string>, upstream: map<string, UpstreamKind>, parse: UrlParser)
    requires LoadedFrom(upstream, configured, configured.Keys, parse)
    ensures LoadedUpstreams(upstream)
  {
    forall name | name in upstream && upstream[name].Proxy?
      ensures upstream[name].protocol in {"tcp", "tcp4", "tcp6"}
    {
      if name in configured {
        assert ParseUpstream(configured[name], parse).Ok?;
      } else {
        assert upstream[name] == BUILT_INS[name];
      }
    }
  }

  // ---------------------------------------------------------------------------
  // Validation
  // ---------------------------------------------------------------------------

  /** The upstream names one server refers to, as far as validation looks: SNI targets count only
      where TLS is on. */
  ghost function UsedBy(server: ServerConfig): set<string> {
    (if server.tls == Some(true) && server.sni.Some?
     then set sni | sni in server.sni.value :: server.sni.value[sni].UpstreamName() else {})
    + (if server.defaultAction.Some? then {server.defaultAction.value} else {})
  }

  /** No listen string occurs twice, within a server or across servers. */
  ghost predicate ListensDistinct(servers: map<string, ServerConfig>) {
    forall n, i, m, j | n in servers && m in servers && 0 <= i < |servers[n].listen| && 0 <= j < |servers[m].listen| ::
      servers[n].listen[i] == servers[m].listen[j] ==> n == m && i == j
  }

  ghost predicate UsedDefined(config: ParsedConfig) {
    forall n :: n in config.servers ==> UsedBy(config.servers[n]) <= config.upstream.Keys
  }

  ghost predicate Acceptable(config: ParsedConfig) {
    ListensDistinct(config.servers) && UsedDefined(config)
  }

  /** The listen strings of the first `s` servers in `order`. */
  ghost function Listens(servers: map<string, ServerConfig>, order: seq<string>, s: nat): set<string>
    requires s <= |order| && forall n :: n in order ==> n in servers
  {
    set a, i | 0 <= a < s && 0 <= i < |servers[order[a]].listen| :: servers[order[a]].listen[i]
  }

  ghost function Used(servers: map<string, ServerConfig>, order: seq<string>, s: nat): set<string>
    requires s <= |order| && forall n :: n in order ==> n in servers
  {
    set a, u | 0 <= a < s && u in UsedBy(servers[order[a]]) :: u
  }

  ghost predicate DistinctSoFar(servers: map<string, ServerConfig>, order: seq<string>, s: nat)
    requires s <= |order| && forall n :: n in order ==> n in servers
  {
    forall a, i, b, j |
      0 <= a < s && 0 <= b < s && 0 <= i < |servers[order[a]].listen| && 0 <= j < |servers[order[b]].listen| ::
      servers[order[a]].listen[i] == servers[order[b]].listen[j] ==> a == b && i == j
  }

  /** Adds one server's listen strings to those seen before; `dup` is the first that was there already. */
  method CheckListens(listen: seq<string>, seen: set<string>) returns (all: set<string>, dup: Option<nat>)
    ensures dup.None? <==> (forall i :: 0 <= i < |listen| ==> listen[i] !in seen)
                           && (forall i, j :: 0 <= i < j < |listen| ==> listen[i] != listen[j])
    ensures dup.None? ==> all == seen + set i | 0 <= i < |listen| :: listen[i]
    ensures dup.Some? ==> dup.value < |listen|
                          && (listen[dup.value] in seen
                              || exists i :: 0 <= i < dup.value && listen[i] == listen[dup.value])
  {
    all := seen;
    for l := 0 to |listen|
      invariant all == seen + set i | 0 <= i < l :: listen[i]
      invariant forall i :: 0 <= i < l ==> listen[i] !in seen
      invariant forall i, j :: 0 <= i < j < l ==> listen[i] != listen[j]
    {
      if listen[l] in all {
        return all, Some(l);
      }
      all := all + {listen[l]};
    }
    return all, None;
  }

  /** Adds the upstream names one server uses. */
  method AddUsed(server: ServerConfig, before: set<string>) returns (used: set<string>)
    ensures used == before + UsedBy(server)
  {
    used := before;
    if server.tls == Some(true) && server.sni.Some? {
      var targets := server.sni.value;
      var rest := targets.Keys;
      while rest != {}
        invariant rest <= targets.Keys
        invariant used == before + set k | k in targets.Keys - rest :: targets[k].UpstreamName()
        decreases |rest|
      {
        var k :| k in rest;
        used := used + {targets[k].UpstreamName()};
        rest := rest - {k};
      }
      assert targets.Keys - {} == targets.Keys;
    }
    if server.defaultAction.Some? {
      used := used + {server.defaultAction.value};
    }
  }

  method CheckUsed(used: set<string>, upstream: map<string, UpstreamKind>) returns (missing: Option<string>)
    ensures missing.None? <==> used <= upstream.Keys
    ensures missing.Some? ==> missing.value in used && missing.value !in upstream
  {
    var rest := used;
    while rest != {}
      invariant rest <= used && used - rest <= upstream.Keys
      decreases |rest|
    {
      var key :| key in rest;
      if key !in upstream {
        return Some(key);
      }
      rest := rest - {key};
    }
    return None;
  }

  /** The listen string at position `i` of server `n` occurs a second time in the configuration. */
  ghost predicate OccursTwice(servers: map<string, ServerConfig>, n: string, i: nat) {
    && n in servers && i < |servers[n].listen|
    && exists m, j :: m in servers && 0 <= j < |servers[m].listen|
                      && (m != n || j != i) && servers[m].listen[j] == servers[n].listen[i]
  }

  /** Accepts exactly the acceptable configurations, whatever order the hash maps iterate in, and
      returns them unchanged. A rejection names a listen string that really occurs twice or an
      upstream that is really used and missing. */
  method VerifyConfig(config: ParsedConfig, order: seq<string>) returns (r: Result<ParsedConfig, ConfigError>)
    requires Enumerates(order, config.servers.Keys)
    ensures r.Ok? <==> Acceptable(config)
    ensures r.Ok? ==> r.value == config
    ensures r.Err? ==>
              match r.error
              case DuplicateListen(l) =>
                exists n: string, i: nat :: OccursTwice(config.servers, n, i) && config.servers[n].listen[i] == l
              case UpstreamNotFound(u) =>
                u !in config.upstream && exists n :: n in config.servers && u in UsedBy(config.servers[n])
              case _ => false
  {
    var servers := config.servers;
    assert forall n :: n in order ==> n in servers.Keys;
    var used: set<string> := {};
    var listens: set<string> := {};
    for s := 0 to |order|
      invariant listens == Listens(servers, order, s)
      invariant used == Used(servers, order, s) && used <= config.upstream.Keys
      invariant DistinctSoFar(servers, order, s)
    {
      var server := servers[order[s]];
      var all, dup := CheckListens(server.listen, listens);
      if dup.Some? {
        DuplicateFound(servers, order, s, dup.value);
        return Err(DuplicateListen(server.listen[dup.value]));
      }
      DistinctNext(servers, order, s);
      listens := all;
      used := AddUsed(server, used);
      var missing := CheckUsed(used, config.upstream);
      if missing.Some? {
        MissingFound(config, order, s, missing.value);
        return Err(UpstreamNotFound(missing.value));
      }
    }
    AllChecked(config, order);
    return Ok(config);
  }

  lemma DuplicateFound(servers: map<string, ServerConfig>, order: seq<string>, s: nat, d: nat)
    requires Enumerates(order, servers.Keys) && s < |order| && (forall n :: n in order ==> n in servers)
    requires d < |servers[order[s]].listen|
    requires var listen := servers[order[s]].listen;
             listen[d] in Listens(servers, order, s) || exists i :: 0 <= i < d && listen[i] == listen[d]
    ensures OccursTwice(servers, order[s], d) && !ListensDistinct(servers)
  {
    var listen := servers[order[s]].listen;
    if listen[d] in Listens(servers, order, s) {
      var a, i :| 0 <= a < s && 0 <= i < |servers[order[a]].listen| && servers[order[a]].listen[i] == listen[d];
      assert order[a] != order[s] && order[a] in servers;
    }
  }

  lemma DistinctNext(servers: map<string, ServerConfig>, order: seq<string>, s: nat)
    requires s < |order| && (forall n :: n in order ==> n in servers) && DistinctSoFar(servers, order, s)
    requires forall i :: 0 <= i < |servers[order[s]].listen| ==>
               servers[order[s]].listen[i] !in Listens(servers, order, s)
    requires forall i, j :: 0 <= i < j < |servers[order[s]].listen| ==>
               servers[order[s]].listen[i] != servers[order[s]].listen[j]
    ensures DistinctSoFar(servers, order, s + 1)
    ensures Listens(servers, order, s + 1) ==
            Listens(servers, order, s) + set i | 0 <= i < |servers[order[s]].listen| :: servers[order[s]].listen[i]
    ensures Used(servers, order, s + 1) == Used(servers, order, s) + UsedBy(servers[order[s]])
  {
  }

  lemma MissingFound(config: ParsedConfig, order: seq<string>, s: nat, u: string)
    requires Enumerates(order, config.servers.Keys) && s < |order| && (forall n :: n in order ==> n in config.servers)
    requires u in Used(config.servers, order, s + 1) && u !in config.upstream
    ensures !UsedDefined(config) && exists n :: n in config.servers && u in UsedBy(config.servers[n])
  {
    var a :| 0 <= a < s + 1 && u in UsedBy(config.servers[order[a]]);
    assert order[a] in config.servers;
  }

  lemma AllChecked(config: ParsedConfig, order: seq<string>)
    requires Enumerates(order, config.servers.Keys) && (forall n :: n in order ==> n in config.servers)
    requires DistinctSoFar(config.servers, order, |order|)
    requires Used(config.servers, order, |order|) <= config.upstream.Keys
    ensures Acceptable(config)
  {
    var servers := config.servers;
    forall n, i, m, j |
      n in servers && m in servers && 0 <= i < |servers[n].listen| && 0 <= j < |servers[m].listen|
      && servers[n].listen[i] == servers[m].listen[j]
      ensures n == m && i == j
    {
      assert n in order && m in order;
      var a :| 0 <= a < |order| && order[a] == n;
      var b :| 0 <= b < |order| && order[b] == m;
    }
    forall n | n in servers ensures UsedBy(servers[n]) <= config.upstream.Keys {
      assert n in order;
      var a :| 0 <= a < |order| && order[a] == n;
      assert UsedBy(servers[n]) <= Used(servers, order, |order|);
    }
  }
}
