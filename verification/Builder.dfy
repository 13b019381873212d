/** Building the server from a configuration: one proxy and one semaphore per listen address, one
    metrics list and one upstream map shared by all (`From<ParsedConfig> for Server`). */
module Builder {
  import opened Common
  import opened Config
  import opened Routing
  import opened DnsCache

  class Semaphore {
    var permits: nat

    constructor (permits: nat)
      ensures this.permits == permits
    {
      this.permits := permits;
    }
  }

  datatype MetricsEntry = MetricsEntry(name: string, listen: SocketAddr, limit: nat, semaphore: Semaphore)

  /** A runtime upstream. */
  datatype Upstream =
    | BanUpstream
    | EchoUpstream
    | HealthUpstream(metrics: seq<MetricsEntry>)
    | ProxyUpstream(addr: string, protocol: string)

  /** The shared upstream map: proxies hold a reference to it. */
  class UpstreamMap {
    const entries: map<string, Upstream>

    constructor (entries: map<string, Upstream>)
      ensures this.entries == entries
    {
      this.entries := entries;
    }
  }

  class Proxy {
    const settings: Settings
    const listen: SocketAddr
    const maxclients: Semaphore
    var upstream: UpstreamMap

    constructor (settings: Settings, listen: SocketAddr, maxclients: Semaphore, upstream: UpstreamMap)
      ensures this.settings == settings && this.listen == listen
      ensures this.maxclients == maxclients && this.upstream == upstream
    {
      this.settings, this.listen, this.maxclients, this.upstream := settings, listen, maxclients, upstream;
    }

    predicate IsHealthServer()
      reads this
    {
      settings.defaultAction in upstream.entries && upstream.entries[settings.defaultAction].HealthUpstream?
    }
  }

  /** What the library makes of a listen string. */
  type AddrParser = string -> Option<SocketAddr>

  /** Position `i` in the listen list of server `name`. */
  type Origin = (string, nat)

  /** The listen entries that parse. */
  ghost function Listenable(servers: map<string, ServerConfig>, parse: AddrParser): set<Origin> {
    set n, i: nat | n in servers && i < |servers[n].listen| && parse(servers[n].listen[i]).Some? :: (n, i)
  }

  /** `proxy` is what the listen entry `o` calls for. */
  ghost predicate BuiltFrom(servers: map<string, ServerConfig>, parse: AddrParser, o: Origin, proxy: Proxy)
    reads proxy.maxclients
  {
    && o.0 in servers && o.1 < |servers[o.0].listen|
    && proxy.settings == SettingsOf(o.0, servers[o.0])
    && parse(servers[o.0].listen[o.1]) == Some(proxy.listen)
    && proxy.maxclients.permits == proxy.settings.limit
  }

  ghost predicate AllBuilt(servers: map<string, ServerConfig>, parse: AddrParser, origins: seq<Origin>,
                           proxies: seq<Proxy>)
    reads set p | p in proxies :: p.maxclients
  {
    && |proxies| == |origins|
    && (forall k :: 0 <= k < |proxies| ==> BuiltFrom(servers, parse, origins[k], proxies[k]))
    && (forall k, m :: 0 <= k < m < |proxies| ==>
          proxies[k] != proxies[m] && proxies[k].maxclients != proxies[m].maxclients)
  }

  /** `origins` lists, once each, the parsable entries of the servers in `names`. */
  ghost predicate Covers(servers: map<string, ServerConfig>, parse: AddrParser, origins: seq<Origin>,
                         names: set<string>)
  {
    && (forall i, j :: 0 <= i < j < |origins| ==> origins[i] != origins[j])
    && (forall o: Origin :: o in origins <==> o.0 in names && o in Listenable(servers, parse))
  }

  /** The same with server `name` done up to position `l`. */
  ghost predicate CoversUpTo(servers: map<string, ServerConfig>, parse: AddrParser, origins: seq<Origin>,
                             names: set<string>, name: string, l: nat)
  {
    && (forall i, j :: 0 <= i < j < |origins| ==> origins[i] != origins[j])
    && (forall o: Origin :: o in origins <==>
          (o.0 in names || (o.0 == name && o.1 < l)) && o in Listenable(servers, parse))
  }

  /** Pass 1 for one server: one proxy with its own semaphore for each listen entry that parses. */
  method BuildServer(servers: map<string, ServerConfig>, name: string, parse: AddrParser, placeholder: UpstreamMap,
                     before: seq<Proxy>, ghost origins: seq<Origin>, ghost names: set<string>)
    returns (proxies: seq<Proxy>, ghost all: seq<Origin>)
    requires name in servers && name !in names
    requires AllBuilt(servers, parse, origins, before) && Covers(servers, parse, origins, names)
    ensures AllBuilt(servers, parse, all, proxies) && Covers(servers, parse, all, names + {name})
    ensures forall p :: p in proxies && p !in before ==> fresh(p) && fresh(p.maxclients)
  {
    hide AllBuilt, Covers;
    var server := servers[name];
    var settings := SettingsOf(name, server);
    proxies, all := before, origins;
    CoversNone(servers, parse, origins, names, name);
    for l := 0 to |server.listen|
      invariant AllBuilt(servers, parse, all, proxies)
      invariant CoversUpTo(servers, parse, all, names, name, l)
      invariant forall p :: p in proxies && p !in before ==> fresh(p) && fresh(p.maxclients)
    {
      var addr := parse(server.listen[l]);
      CoversNext(servers, parse, all, names, name, l);
      if addr.None? {
        continue;
      }
      var semaphore := new Semaphore(settings.limit);
      var proxy := new Proxy(settings, addr.value, semaphore, placeholder);
      BuiltNext(servers, parse, all, proxies, (name, l), proxy);
      proxies, all := proxies + [proxy], all + [(name, l)];
    }
    CoversAll(servers, parse, all, names, name);
  }

  lemma BuiltNext(servers: map<string, ServerConfig>, parse: AddrParser, origins: seq<Origin>, proxies: seq<Proxy>,
                  o: Origin, proxy: Proxy)
    requires AllBuilt(servers, parse, origins, proxies) && BuiltFrom(servers, parse, o, proxy)
    requires forall p :: p in proxies ==> p != proxy && p.maxclients != proxy.maxclients
    ensures AllBuilt(servers, parse, origins + [o], proxies + [proxy])
  {
  }

  lemma CoversNone(servers: map<string, ServerConfig>, parse: AddrParser, origins: seq<Origin>,
                   names: set<string>, name: string)
    requires Covers(servers, parse, origins, names) && name !in names
    ensures CoversUpTo(servers, parse, origins, names, name, 0)
  {
  }

  lemma CoversAll(servers: map<string, ServerConfig>, parse: AddrParser, origins: seq<Origin>,
                  names: set<string>, name: string)
    requires name in servers && CoversUpTo(servers, parse, origins, names, name, |servers[name].listen|)
    ensures Covers(servers, parse, origins, names + {name})
  {
  }

  lemma CoversNext(servers: map<string, ServerConfig>, parse: AddrParser, origins: seq<Origin>,
                   names: set<string>, name: string, l: nat)
    requires name in servers && name !in names && l < |servers[name].listen|
    requires CoversUpTo(servers, parse, origins, names, name, l)
    ensures parse(servers[name].listen[l]).None? ==> CoversUpTo(servers, parse, origins, names, name, l + 1)
    ensures parse(servers[name].listen[l]).Some? ==>
              CoversUpTo(servers, parse, origins + [(name, l)], names, name, l + 1)
  {
    assert (name, l) in Listenable(servers, parse) <==> parse(servers[name].listen[l]).Some?;
  }

  /** Pass 1: `order` is the iteration order of the server map. */
  method BuildProxies(servers: map<string, ServerConfig>, order: seq<string>, parse: AddrParser,
                      placeholder: UpstreamMap)
    returns (proxies: seq<Proxy>, ghost origins: seq<Origin>)
    requires Enumerates(order, servers.Keys)
    ensures AllBuilt(servers, parse, origins, proxies) && Enumerates(origins, Listenable(servers, parse))
    ensures forall p :: p in proxies ==> fresh(p) && fresh(p.maxclients)
  {
    proxies, origins := [], [];
    ghost var names: set<string> := {};
    for s := 0 to |order|
      invariant names == set k | 0 <= k < s :: order[k]
      invariant AllBuilt(servers, parse, origins, proxies) && Covers(servers, parse, origins, names)
      invariant forall p :: p in proxies ==> fresh(p) && fresh(p.maxclients)
    {
      assert order[s] in servers.Keys;
      proxies, origins := BuildServer(servers, order[s], parse, placeholder, proxies, origins, names);
      names := names + {order[s]};
    }
    assert names == servers.Keys by {
      assert forall n :: n in servers.Keys ==> n in order;
    }
  }

  /** The metrics snapshot of pass 2. */
  function MetricsOf(proxies: seq<Proxy>): (m: seq<MetricsEntry>)
    ensures |m| == |proxies|
    ensures forall k :: 0 <= k < |m| ==>
              m[k] == MetricsEntry(proxies[k].settings.name, proxies[k].listen, proxies[k].settings.limit,
                                   proxies[k].maxclients)
  {
    seq(|proxies|, k requires 0 <= k < |proxies| =>
      MetricsEntry(proxies[k].settings.name, proxies[k].listen, proxies[k].settings.limit, proxies[k].maxclients))
  }

  /** Pass 3: the runtime form of a configured upstream. */
  function Runtime(kind: UpstreamKind, metrics: seq<MetricsEntry>): Upstream {
    match kind
    case Ban => BanUpstream
    case Echo => EchoUpstream
    case Health => HealthUpstream(metrics)
    case Proxy(addr, protocol) => ProxyUpstream(addr, protocol)
  }

  /** One entry for each proxy, about that proxy. */
  ghost predicate ReportsOn(metrics: seq<MetricsEntry>, proxies: seq<Proxy>) {
    && |metrics| == |proxies|
    && forall k :: 0 <= k < |proxies| ==>
         && metrics[k].semaphore == proxies[k].maxclients
         && metrics[k].name == proxies[k].settings.name
         && metrics[k].listen == proxies[k].listen
         && metrics[k].limit == proxies[k].settings.limit
  }

  /** Every configured upstream at run time: of its own kind, with its own address and protocol, and for a
      health check with the metrics of these proxies. */
  ghost predicate EntriesFor(entries: map<string, Upstream>, config: ParsedConfig, proxies: seq<Proxy>) {
    && entries.Keys == config.upstream.Keys
    && forall name :: name in config.upstream ==>
         match config.upstream[name]
         case Ban => entries[name] == BanUpstream
         case Echo => entries[name] == EchoUpstream
         case Health => entries[name].HealthUpstream? && ReportsOn(entries[name].metrics, proxies)
         case Proxy(addr, protocol) => entries[name] == ProxyUpstream(addr, protocol)
  }

  /** Building the entries one by one gives what each upstream calls for. */
  lemma RuntimeEntries(config: ParsedConfig, proxies: seq<Proxy>, metrics: seq<MetricsEntry>)
    requires ReportsOn(metrics, proxies)
    ensures EntriesFor(map name | name in config.upstream :: Runtime(config.upstream[name], metrics), config, proxies)
  {
    hide ReportsOn;
  }

  /** Hands the shared map to every proxy in place. */
  method Attach(proxies: seq<Proxy>, upstream: UpstreamMap)
    modifies proxies
    ensures forall p :: p in proxies ==> p.upstream == upstream
  {
    for k := 0 to |proxies|
      invariant forall m :: 0 <= m < k ==> proxies[m].upstream == upstream
    {
      proxies[k].upstream := upstream;
    }
  }

  /** The whole build. `origins` tells which listen entry each proxy came from: there is exactly one
      proxy for each entry that parses, with a semaphore of its own; all proxies share one upstream map,
      and its health entries carry the metrics of exactly these proxies. */
  method Build(config: ParsedConfig, order: seq<string>, parse: AddrParser)
    returns (proxies: seq<Proxy>, upstream: UpstreamMap, ghost origins: seq<Origin>)
    requires Enumerates(order, config.servers.Keys)
    ensures Enumerates(origins, Listenable(config.servers, parse))
    ensures AllBuilt(config.servers, parse, origins, proxies)
    ensures forall p :: p in proxies ==> p.upstream == upstream
    ensures EntriesFor(upstream.entries, config, proxies)
    ensures forall p :: p in proxies ==> fresh(p) && fresh(p.maxclients)
  {
    var placeholder := new UpstreamMap(map[]);
    proxies, origins := BuildProxies(config.servers, order, parse, placeholder);
    var metrics := MetricsOf(proxies);
    upstream := new UpstreamMap(map name | name in config.upstream :: Runtime(config.upstream[name], metrics));
    RuntimeEntries(config, proxies, metrics);
    Attach(proxies, upstream);
  }

  // ---------------------------------------------------------------------------
  // Listen addresses
  // ---------------------------------------------------------------------------

  ghost predicate AddressesDistinct(proxies: seq<Proxy>) {
    forall k, m :: 0 <= k < m < |proxies| ==> proxies[k].listen != proxies[m].listen
  }

  /** No two configured listen strings that parse stand for one address. */
  ghost predicate ParseInjective(servers: map<string, ServerConfig>, parse: AddrParser) {
    forall o, q :: o in Listenable(servers, parse) && q in Listenable(servers, parse) ==>
      var s, t := servers[o.0].listen[o.1], servers[q.0].listen[q.1];
      parse(s) == parse(t) ==> s == t
  }

  /** Validation compares listen entries as text. The listeners it lets through have distinct addresses
      exactly when the parser is injective on these texts. */
  lemma AddressesDistinctIff(servers: map<string, ServerConfig>, parse: AddrParser, origins: seq<Origin>,
                             proxies: seq<Proxy>)
    requires ListensDistinct(servers)
    requires Enumerates(origins, Listenable(servers, parse)) && AllBuilt(servers, parse, origins, proxies)
    ensures AddressesDistinct(proxies) <==> ParseInjective(servers, parse)
  {
    hide SettingsOf;
    if AddressesDistinct(proxies) {
      forall o, q | o in Listenable(servers, parse) && q in Listenable(servers, parse)
        && parse(servers[o.0].listen[o.1]) == parse(servers[q.0].listen[q.1])
        ensures servers[o.0].listen[o.1] == servers[q.0].listen[q.1]
      {
        assert o in origins && q in origins;
        var k :| 0 <= k < |origins| && origins[k] == o;
        var m :| 0 <= m < |origins| && origins[m] == q;
        assert BuiltFrom(servers, parse, origins[k], proxies[k]) && BuiltFrom(servers, parse, origins[m], proxies[m]);
      }
    } else {
      var k, m :| 0 <= k < m < |proxies| && proxies[k].listen == proxies[m].listen;
      var o, q := origins[k], origins[m];
      assert BuiltFrom(servers, parse, o, proxies[k]) && BuiltFrom(servers, parse, q, proxies[m]);
      assert o in origins && q in origins;
      assert o.0 in servers && q.0 in servers && o.1 < |servers[o.0].listen| && q.1 < |servers[q.0].listen|;
      assert o != q;
      assert servers[o.0].listen[o.1] != servers[q.0].listen[q.1];
    }
  }

  /** One address in two spellings: any configuration that lists both on one server, each once, passes
      validation, although the second listener cannot bind. */
  lemma TwoSpellings(parse: AddrParser, via: Via) returns (config: ParsedConfig)
    requires parse("[::1]:80").Some? && parse("[::1]:80") == parse("[0:0:0:0:0:0:0:1]:80")
    ensures config.servers.Keys == {"web"} && config.servers["web"].listen == ["[::1]:80", "[0:0:0:0:0:0:0:1]:80"]
    ensures Acceptable(config) && !ParseInjective(config.servers, parse)
  {
    var listen := ["[::1]:80", "[0:0:0:0:0:0:0:1]:80"];
    config := ParsedConfig(map["web" := ServerConfig(listen, None, None, None, None, via, 1)], BUILT_INS);
    assert |listen[0]| != |listen[1]|;
    var o, q: Origin := ("web", 0), ("web", 1);
    assert o in Listenable(config.servers, parse) && q in Listenable(config.servers, parse);
  }
}
