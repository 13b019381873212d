/** The DNS cache of one upstream (`UpstreamAddress`), used by one caller at a time. */
module DnsCache {
  import opened Common

  datatype SocketAddr = V4(ip: nat, port: nat) | V6(ip: nat, port: nat)

  datatype Mode = Ipv4AndIpv6 | Ipv4 | Ipv6

  /** `ResolutionMode::from`; unknown names fall back to both families. */
  function ModeOf(protocol: string): Mode {
    if protocol == "tcp4" then Ipv4 else if protocol == "tcp6" then Ipv6 else Ipv4AndIpv6
  }

  predicate Admits(mode: Mode, a: SocketAddr) {
    match mode
    case Ipv4AndIpv6 => true
    case Ipv4 => a.V4?
    case Ipv6 => a.V6?
  }

  /** The addresses of the requested family, in answer order. */
  function Keep(mode: Mode, answer: seq<SocketAddr>): (kept: seq<SocketAddr>)
    ensures forall a :: a in kept <==> a in answer && Admits(mode, a)
    ensures mode == Ipv4AndIpv6 ==> kept == answer
  {
    if answer == [] then [] else
      var rest := Keep(mode, answer[1..]);
      assert answer == [answer[0]] + answer[1..];
      if Admits(mode, answer[0]) then [answer[0]] + rest else rest
  }

  /** Nanoseconds. */
  const SECOND: nat := 1_000_000_000
  const SUCCESS_TTL: nat := 60 * SECOND
  const FAILURE_TTL: nat := 3 * SECOND

  /** The three locked fields. */
  datatype Cache = Cache(addresses: seq<SocketAddr>, time: Option<nat>, ttl: Option<nat>)

  const EMPTY := Cache([], None, None)

  /** `elapsed() < ttl`, with the monotonic clock's saturating subtraction. */
  predicate IsValid(time: Option<nat>, ttl: Option<nat>, now: nat) {
    time.Some? && ttl.Some? && Max(0, now - time.value) < ttl.value
  }

  /** One call: when it checks the cache, when a lookup it makes is recorded, and what the resolver
      answers if it is asked (`None` is a failed lookup). */
  datatype Call = Call(mode: Mode, checkedAt: nat, finishedAt: nat, answer: Option<seq<SocketAddr>>)

  datatype Reply = Reply(addresses: Option<seq<SocketAddr>>, looked: bool)

  function Serve(c: Cache, call: Call): (Cache, Reply) {
    if c.addresses != [] && IsValid(c.time, c.ttl, call.checkedAt) then (c, Reply(Some(c.addresses), false))
    else match call.answer
         case None => (Cache(c.addresses, Some(call.finishedAt), Some(FAILURE_TTL)), Reply(None, true))
         case Some(answer) =>
           var kept := Keep(call.mode, answer);
           (Cache(kept, Some(call.finishedAt), Some(SUCCESS_TTL)), Reply(Some(kept), true))
  }

  class UpstreamAddress {
    var addresses: seq<SocketAddr>
    var time: Option<nat>
    var ttl: Option<nat>

    constructor ()
      ensures View() == EMPTY
    {
      addresses, time, ttl := [], None, None;
    }

    function View(): Cache
      reads this
    {
      Cache(addresses, time, ttl)
    }

    method IsResolved() returns (r: bool)
      ensures r <==> addresses != []
    {
      r := addresses != [];
    }

    method CheckValid(now: nat) returns (r: bool)
      ensures r <==> IsValid(time, ttl, now)
    {
      var t := time;
      if t.Some? {
        var l := ttl;
        if l.Some? {
          return Max(0, now - t.value) < l.value;
        }
      }
      return false;
    }

    method Resolve(call: Call) returns (r: Reply)
      modifies this
      ensures (View(), r) == Serve(old(View()), call)
    {
      var resolved := IsResolved();
      var valid := false;
      if resolved {
        valid := CheckValid(call.checkedAt);
      }
      if resolved && valid {
        return Reply(Some(addresses), false);
      }
      match call.answer {
        case None =>
          time := Some(call.finishedAt);
          ttl := Some(FAILURE_TTL);
          return Reply(None, true);
        case Some(answer) =>
          var kept := Keep(call.mode, answer);
          addresses := kept;
          time := Some(call.finishedAt);
          ttl := Some(SUCCESS_TTL);
          return Reply(Some(kept), true);
      }
    }
  }

  // ---------------------------------------------------------------------------
  // Whole runs
  // ---------------------------------------------------------------------------

  type Run = seq<Call>

  /** Calls follow one another on a monotone clock. */
  ghost predicate Sequential(h: Run) {
    && (forall i :: 0 <= i < |h| ==> h[i].checkedAt <= h[i].finishedAt)
    && (forall i, j :: 0 <= i < j < |h| ==> h[i].finishedAt <= h[j].checkedAt)
  }

  /** The cache after the first `n` calls. */
  ghost function After(h: Run, n: nat): Cache
    requires n <= |h|
  {
    if n == 0 then EMPTY else Serve(After(h, n - 1), h[n - 1]).0
  }

  ghost function ReplyTo(h: Run, i: nat): Reply
    requires i < |h|
  {
    Serve(After(h, i), h[i]).1
  }

  ghost predicate Looked(h: Run, i: nat)
    requires i < |h|
  {
    ReplyTo(h, i).looked
  }

  ghost predicate Succeeded(h: Run, i: nat)
    requires i < |h|
  {
    Looked(h, i) && h[i].answer.Some?
  }

  ghost predicate LastLookup(h: Run, j: int, n: nat)
    requires n <= |h|
  {
    0 <= j < n && Looked(h, j) && forall m :: j < m < n ==> !Looked(h, m)
  }

  ghost predicate LastSuccess(h: Run, k: int, n: nat)
    requires n <= |h|
  {
    0 <= k < n && Succeeded(h, k) && forall m :: k < m < n ==> !Succeeded(h, m)
  }

  ghost function TtlOf(call: Call): nat {
    if call.answer.Some? then SUCCESS_TTL else FAILURE_TTL
  }

  /** After `n` calls the timing fields come from lookup `j` (-1: there was none). */
  ghost predicate TimingFrom(h: Run, j: int, n: nat)
    requires n <= |h|
  {
    if j >= 0 then
      LastLookup(h, j, n) && After(h, n).time == Some(h[j].finishedAt) && After(h, n).ttl == Some(TtlOf(h[j]))
    else
      After(h, n) == EMPTY && forall m :: 0 <= m < n ==> !Looked(h, m)
  }

  /** After `n` calls the stored list comes from successful lookup `k` (-1: there was none). */
  ghost predicate ListFrom(h: Run, k: int, n: nat)
    requires n <= |h|
  {
    if k >= 0 then
      LastSuccess(h, k, n) && After(h, n).addresses == Keep(h[k].mode, h[k].answer.value)
    else
      After(h, n).addresses == [] && forall m :: 0 <= m < n ==> !Succeeded(h, m)
  }

  lemma TimingStep(h: Run, j: int, n: nat)
    requires n < |h| && TimingFrom(h, j, n)
    ensures TimingFrom(h, if Looked(h, n) then n else j, n + 1)
  {
  }

  lemma ListStep(h: Run, k: int, n: nat)
    requires n < |h| && ListFrom(h, k, n)
    ensures ListFrom(h, if Succeeded(h, n) then n else k, n + 1)
  {
  }

  /** The cache is a summary of the run: its list comes from the last successful lookup alone, its
      timing from the last lookup alone. */
  lemma {:induction false} CacheSummary(h: Run, n: nat) returns (j: int, k: int)
    requires n <= |h|
    ensures -1 <= k <= j < n && TimingFrom(h, j, n) && ListFrom(h, k, n)
  {
    if n == 0 {
      j, k := -1, -1;
    } else {
      j, k := CacheSummary(h, n - 1);
      TimingStep(h, j, n - 1);
      ListStep(h, k, n - 1);
      if Looked(h, n - 1) {
        j := n - 1;
        if h[n - 1].answer.Some? {
          k := n - 1;
        }
      }
    }
  }

  /** A cache hit returns exactly the kept, non-empty answer of the most recent successful lookup, and
      the most recent lookup of any kind was recorded less than its own TTL ago. */
  lemma HitMeans(h: Run, i: nat) returns (j: nat, k: nat)
    requires Sequential(h) && i < |h| && !Looked(h, i)
    ensures LastSuccess(h, k, i) && LastLookup(h, j, i) && k <= j
    ensures ReplyTo(h, i).addresses == Some(Keep(h[k].mode, h[k].answer.value))
    ensures Keep(h[k].mode, h[k].answer.value) != []
    ensures h[i].checkedAt - h[j].finishedAt < TtlOf(h[j])
  {
    var a, b := CacheSummary(h, i);
    j, k := a, b;
  }

  /** ... and when both hold, the call is a hit: the resolver is asked exactly when the list is empty
      or its time is up. */
  lemma LookedIff(h: Run, i: nat, j: nat)
    requires Sequential(h) && i < |h| && LastLookup(h, j, i)
    ensures Looked(h, i) <==>
            || h[i].checkedAt - h[j].finishedAt >= TtlOf(h[j])
            || !UsableListAt(h, i)
  {
    var a, k := CacheSummary(h, i);
    assert a == j;
    UsableListIff(h, i, k);
  }

  /** The last successful lookup before call `i` found a usable address. */
  ghost predicate UsableListAt(h: Run, i: nat)
    requires i <= |h|
  {
    exists k :: LastSuccess(h, k, i) && Keep(h[k].mode, h[k].answer.value) != []
  }

  lemma UsableListIff(h: Run, i: nat, k: int)
    requires i <= |h| && -1 <= k < i
    requires if k >= 0 then LastSuccess(h, k, i) else forall m :: 0 <= m < i ==> !Succeeded(h, m)
    ensures UsableListAt(h, i) <==> k >= 0 && Keep(h[k].mode, h[k].answer.value) != []
  {
    if UsableListAt(h, i) {
      var m :| LastSuccess(h, m, i) && Keep(h[m].mode, h[m].answer.value) != [];
      assert m == k;
    }
  }

  // --- how often the resolver is asked -----------------------------------------

  /** Every successful lookup found at least one usable address. */
  ghost predicate AlwaysUsable(h: Run) {
    forall i :: 0 <= i < |h| && Succeeded(h, i) ==> Keep(h[i].mode, h[i].answer.value) != []
  }

  /** Calls from `first` on, where `first` succeeded and no success is unusable. */
  ghost predicate Steady(h: Run, first: nat) {
    Sequential(h) && AlwaysUsable(h) && first < |h| && Succeeded(h, first)
  }

  /** After the first success, a lookup is followed by no other for its TTL. */
  lemma LookupGap(h: Run, first: nat, i: nat, j: nat)
    requires Steady(h, first) && first <= i < j < |h| && Looked(h, i) && Looked(h, j)
    ensures h[j].checkedAt >= h[i].finishedAt + TtlOf(h[i])
  {
    var l, s := CacheSummary(h, j);
    assert l >= i && s >= first;
    assert h[j].checkedAt - h[l].finishedAt >= TtlOf(h[l]);
    if l != i {
      LookupGap(h, first, i, l);
      assert h[l].checkedAt <= h[l].finishedAt;
    }
  }

  /** `lookups` are positions of lookups, in order, from `first` on. */
  ghost predicate LookupsFrom(h: Run, first: nat, lookups: seq<nat>) {
    && (forall x :: 0 <= x < |lookups| ==> first <= lookups[x] < |h| && Looked(h, lookups[x]))
    && (forall x, y :: 0 <= x < y < |lookups| ==> lookups[x] < lookups[y])
  }

  lemma {:induction false} LookupSpread(h: Run, first: nat, lookups: seq<nat>, x: nat)
    requires Steady(h, first) && LookupsFrom(h, first, lookups) && x < |lookups|
    ensures h[lookups[x]].checkedAt >= h[lookups[0]].checkedAt + FAILURE_TTL * x
  {
    if x > 0 {
      LookupSpread(h, first, lookups, x - 1);
      var i, j := lookups[x - 1], lookups[x];
      LookupGap(h, first, i, j);
      assert h[i].checkedAt <= h[i].finishedAt;
    }
  }

  /** Any window of `window` nanoseconds contains at most window / 3 s + 1 lookups. */
  lemma LookupRate(h: Run, first: nat, lookups: seq<nat>, from: nat, window: nat)
    requires Steady(h, first) && LookupsFrom(h, first, lookups)
    requires forall x :: 0 <= x < |lookups| ==> from <= h[lookups[x]].checkedAt <= from + window
    ensures |lookups| <= window / FAILURE_TTL + 1
  {
    if lookups != [] {
      var n := |lookups| - 1;
      LookupSpread(h, first, lookups, n);
      assert from <= h[lookups[0]].checkedAt && h[lookups[n]].checkedAt <= from + window;
      Quotient(n, window);
    }
  }

  lemma Quotient(n: nat, window: nat)
    requires FAILURE_TTL * n <= window
    ensures n <= window / FAILURE_TTL
  {
  }

  /** Without a stored address nothing limits the rate: the three-second TTL of a failure is
      recorded but never consulted, and the very next call asks the resolver again. */
  lemma EmptyListNeverHits(h: Run, i: nat)
    requires i < |h|
    ensures !UsableListAt(h, i) ==> Looked(h, i)
  {
    var j, k := CacheSummary(h, i);
    UsableListIff(h, i, k);
  }

  // --- how old a served answer can be ----------------------------------------------

  /** A lookup that finds a usable list stored is at least 60 s later than the success it comes from. */
  lemma LookupAfterSuccess(h: Run, k: nat, j: nat)
    requires Sequential(h) && j < |h| && Looked(h, j) && LastSuccess(h, k, j)
    requires Keep(h[k].mode, h[k].answer.value) != []
    ensures h[j].checkedAt - h[k].finishedAt >= SUCCESS_TTL
  {
    var l, s := CacheSummary(h, j);
    assert s == k <= l;
    UsableListIff(h, j, k);
    LookedIff(h, j, l);
    if l != k {
      LookupAfterSuccess(h, k, l);
      assert h[l].checkedAt <= h[l].finishedAt;
    }
  }

  /** The answer a hit returns is younger than its own TTL exactly when the most recent lookup succeeded: a
      failed one leaves the list and extends it. */
  lemma HitIsFreshIff(h: Run, i: nat, j: nat, k: nat)
    requires Sequential(h) && i < |h| && !Looked(h, i) && LastSuccess(h, k, i) && LastLookup(h, j, i)
    ensures h[i].checkedAt - h[k].finishedAt < SUCCESS_TTL <==> h[j].answer.Some?
  {
    var a, b := HitMeans(h, i);
    assert a == j && b == k;
    if h[j].answer.Some? {
      assert Succeeded(h, j);
    } else {
      LookupAfterSuccess(h, k, j);
    }
  }

  /** What the resolver may come back with; None is a failure. */
  type Pool = iset<Option<seq<SocketAddr>>>

  ghost predicate Usable(mode: Mode, answer: Option<seq<SocketAddr>>) {
    answer.Some? && Keep(mode, answer.value) != []
  }

  ghost predicate NoneUsable(mode: Mode, pool: Pool) {
    forall answer :: answer in pool ==> !Usable(mode, answer)
  }

  /** Calls of one mode, answered as `pool` allows. */
  ghost predicate Drawn(h: Run, mode: Mode, pool: Pool) {
    Sequential(h) && forall i :: 0 <= i < |h| ==> h[i].mode == mode && h[i].answer in pool
  }

  ghost predicate NeverStale(mode: Mode, pool: Pool) {
    forall h: Run, i: nat, k: nat |
      Drawn(h, mode, pool) && i < |h| && !Looked(h, i) && LastSuccess(h, k, i) ::
      h[i].checkedAt - h[k].finishedAt < SUCCESS_TTL
  }

  /** One success, `n` failures three seconds apart from the moment its TTL is over, and one more call. */
  function StaleRun(mode: Mode, u: seq<SocketAddr>, n: nat): Run {
    seq(n + 2, m requires 0 <= m < n + 2 =>
      if m == 0 then Call(mode, 0, 0, Some(u)) else
      var at := (57 + 3 * m - (if m == n + 1 then 1 else 0)) * SECOND;
      Call(mode, at, at, None))
  }

  lemma {:induction false} StaleRunKeeps(mode: Mode, u: seq<SocketAddr>, n: nat, m: nat)
    requires Keep(mode, u) != [] && m <= n
    ensures var h := StaleRun(mode, u, n);
            && After(h, m + 1) == Cache(Keep(mode, u), Some(h[m].finishedAt), Some(TtlOf(h[m])))
            && Looked(h, m)
  {
    hide Keep;
    var h := StaleRun(mode, u, n);
    if m == 0 {
      assert After(h, 0) == EMPTY;
    } else {
      StaleRunKeeps(mode, u, n, m - 1);
    }
  }

  /** Stale answers are served for as long as lookups keep failing: after `n` failures the answer of the
      only success is served 59 + 3 n seconds after it was recorded. */
  lemma ServedWhileFailing(mode: Mode, u: seq<SocketAddr>, n: nat)
    requires Keep(mode, u) != []
    ensures var h := StaleRun(mode, u, n);
            && Sequential(h) && (forall m :: 0 <= m <= n ==> Looked(h, m) && (h[m].answer.Some? <==> m == 0))
            && ReplyTo(h, n + 1) == Reply(Some(Keep(mode, u)), false)
            && h[n + 1].checkedAt - h[0].finishedAt == (59 + 3 * n) * SECOND
  {
    hide Keep;
    var h := StaleRun(mode, u, n);
    forall m | 0 <= m <= n ensures Looked(h, m) {
      StaleRunKeeps(mode, u, n, m);
    }
    StaleRunKeeps(mode, u, n, n);
  }

  /** That an answer is served for its 60 s at most holds of every run exactly when lookups cannot fail, or
      cannot find a usable address. */
  lemma NeverStaleIff(mode: Mode, pool: Pool)
    ensures NeverStale(mode, pool) <==> None !in pool || NoneUsable(mode, pool)
  {
    hide Keep, Looked, StaleRun;
    if None !in pool || NoneUsable(mode, pool) {
      forall h: Run, i: nat, k: nat |
        Drawn(h, mode, pool) && i < |h| && !Looked(h, i) && LastSuccess(h, k, i)
        ensures h[i].checkedAt - h[k].finishedAt < SUCCESS_TTL
      {
        var j, b := HitMeans(h, i);
        assert b == k && Usable(mode, h[k].answer);
        HitIsFreshIff(h, i, j, k);
      }
    } else {
      var answer :| answer in pool && Usable(mode, answer);
      StaleRunIsStale(mode, pool, answer.value);
    }
  }

  lemma StaleRunIsStale(mode: Mode, pool: Pool, u: seq<SocketAddr>)
    requires Some(u) in pool && None in pool && Keep(mode, u) != []
    ensures !NeverStale(mode, pool)
  {
    var h := StaleRun(mode, u, 1);
    ServedWhileFailing(mode, u, 1);
    assert Drawn(h, mode, pool) && !Looked(h, 2) && LastSuccess(h, 0, 2);
  }

  // --- address families ----------------------------------------------------------

  /** A caller that always asks in the same mode is only ever handed addresses of that family, cached
      or fresh, although the cache does not record the mode. */
  lemma SameModeSameFamily(h: Run, mode: Mode, i: nat)
    requires i < |h| && forall m :: 0 <= m < |h| ==> h[m].mode == mode
    ensures ReplyTo(h, i).addresses.Some? ==> forall a :: a in ReplyTo(h, i).addresses.value ==> Admits(mode, a)
  {
    var j, k := CacheSummary(h, i);
  }

  ghost predicate HasModes(h: Run, ms: seq<Mode>) {
    |h| == |ms| && forall i :: 0 <= i < |h| ==> h[i].mode == ms[i]
  }

  ghost predicate InFamily(h: Run, i: nat)
    requires i < |h|
  {
    ReplyTo(h, i).addresses.Some? ==> forall a :: a in ReplyTo(h, i).addresses.value ==> Admits(h[i].mode, a)
  }

  /** Whatever the timing and the answers, callers with these modes get addresses of their own families. */
  ghost predicate NeverLeaks(ms: seq<Mode>) {
    forall h: Run, i: nat | Sequential(h) && HasModes(h, ms) && i < |h| :: InFamily(h, i)
  }

  /** Every caller takes either family, or asks in the mode of all callers before. */
  predicate Compatible(ms: seq<Mode>) {
    forall i, j :: 0 <= i < j < |ms| ==> ms[j] == Ipv4AndIpv6 || ms[i] == ms[j]
  }

  /** Everybody calls at time 0, and the first lookup to succeed is that of call `i`. */
  function LeakRun(ms: seq<Mode>, i: nat, a: SocketAddr): Run {
    seq(|ms|, m requires 0 <= m < |ms| => Call(ms[m], 0, 0, if m == i then Some([a]) else None))
  }

  lemma {:induction false} LeakRunKeeps(ms: seq<Mode>, i: nat, a: SocketAddr, n: nat)
    requires i < |ms| && n <= |ms| && Admits(ms[i], a)
    ensures var c := After(LeakRun(ms, i, a), n);
            if n <= i then c.addresses == [] else c == Cache([a], Some(0), Some(SUCCESS_TTL))
  {
    if n > 0 {
      LeakRunKeeps(ms, i, a, n - 1);
      assert [a][1..] == [] && Keep(ms[i], []) == [];
    }
  }

  lemma Leak(ms: seq<Mode>, i: nat, j: nat)
    requires i < j < |ms| && ms[j] != Ipv4AndIpv6 && ms[i] != ms[j]
    ensures !NeverLeaks(ms)
  {
    hide Keep;
    var a := if ms[j] == Ipv4 then V6(0, 0) else V4(0, 0);
    var h := LeakRun(ms, i, a);
    LeakRunKeeps(ms, i, a, j);
    assert Sequential(h) && HasModes(h, ms);
    assert ReplyTo(h, j) == Reply(Some([a]), false);
    assert a in ReplyTo(h, j).addresses.value && !Admits(h[j].mode, a);
    assert !InFamily(h, j);
  }

  /** The cache does not record the mode its list was kept for. Its callers are safe exactly when their modes
      are compatible in the order of the calls. */
  lemma NeverLeaksIff(ms: seq<Mode>)
    ensures NeverLeaks(ms) <==> Compatible(ms)
  {
    if Compatible(ms) {
      forall h: Run, i: nat | Sequential(h) && HasModes(h, ms) && i < |h| ensures InFamily(h, i) {
        var j, k := CacheSummary(h, i);
      }
    } else {
      var i, j :| 0 <= i < j < |ms| && ms[j] != Ipv4AndIpv6 && ms[i] != ms[j];
      Leak(ms, i, j);
    }
  }

  /** The shortest leak: a cached IPv6 address is handed to a later IPv4 caller. */
  lemma MixedModesLeak(a: SocketAddr)
    requires a.V6?
    ensures var h := [Call(Ipv6, 0, 0, Some([a])), Call(Ipv4, 1, 1, None)];
            Sequential(h) && ReplyTo(h, 1) == Reply(Some([a]), false) && !Admits(Ipv4, a)
  {
    var h := [Call(Ipv6, 0, 0, Some([a])), Call(Ipv4, 1, 1, None)];
    assert Keep(Ipv6, [a]) == [a] by {
      assert Keep(Ipv6, []) == [];
    }
    assert After(h, 0) == EMPTY;
    assert After(h, 1) == Cache([a], Some(0), Some(SUCCESS_TTL));
  }

  // ---------------------------------------------------------------------------
  // Dialling
  // ---------------------------------------------------------------------------

  /** The IPv4 addresses of an answer, in its order. */
  function OnlyV4(answer: seq<SocketAddr>): seq<SocketAddr> {
    if answer == [] then []
    else if answer[0].V4? then [answer[0]] + OnlyV4(answer[1..])
    else OnlyV4(answer[1..])
  }

  function OnlyV6(answer: seq<SocketAddr>): seq<SocketAddr> {
    if answer == [] then []
    else if answer[0].V6? then [answer[0]] + OnlyV6(answer[1..])
    else OnlyV6(answer[1..])
  }

  /** What a protocol name keeps of an answer. */
  lemma {:induction false} ProtocolKeeps(protocol: string, answer: seq<SocketAddr>)
    ensures var kept := Keep(ModeOf(protocol), answer);
            && (protocol == "tcp4" ==> kept == OnlyV4(answer) && forall a :: a in kept ==> a.V4?)
            && (protocol == "tcp6" ==> kept == OnlyV6(answer) && forall a :: a in kept ==> a.V6?)
            && (protocol != "tcp4" && protocol != "tcp6" ==> kept == answer)
  {
    if answer != [] {
      ProtocolKeeps(protocol, answer[1..]);
      assert answer == [answer[0]] + answer[1..];
    }
  }

  datatype DialError = UnknownProtocol | LookupFailed

  /** What dialling gets from the cache: unknown protocols are refused before it is asked. */
  function Dialed(c: Cache, protocol: string, call: Call): (Cache, Result<seq<SocketAddr>, DialError>) {
    if protocol !in {"tcp", "tcp4", "tcp6"} then (c, Err(UnknownProtocol)) else
    var (after, reply) := Serve(c, call);
    (after, match reply.addresses
            case Some(list) => Ok(list)
            case None => Err(LookupFailed))
  }

  /** Dialling case by case: an unknown protocol; a stored list whose time is not up; a failed lookup, which
      leaves the list and is good for three seconds; a successful one, whose addresses of the protocol's
      family are stored and returned in the answer's order and are good for sixty. */
  lemma DialedMeans(c: Cache, protocol: string, checkedAt: nat, finishedAt: nat, answer: Option<seq<SocketAddr>>)
    ensures var (after, r) := Dialed(c, protocol, Call(ModeOf(protocol), checkedAt, finishedAt, answer));
            if protocol !in {"tcp", "tcp4", "tcp6"} then after == c && r == Err(UnknownProtocol)
            else if c.addresses != [] && c.time.Some? && c.ttl.Some?
                    && checkedAt < c.time.value + c.ttl.value && c.ttl.value > 0 then
              after == c && r == Ok(c.addresses)
            else match answer
                 case None =>
                   after == Cache(c.addresses, Some(finishedAt), Some(3_000_000_000)) && r == Err(LookupFailed)
                 case Some(list) =>
                   var kept := match protocol
                               case "tcp4" => OnlyV4(list)
                               case "tcp6" => OnlyV6(list)
                               case _ => list;
                   after == Cache(kept, Some(finishedAt), Some(60_000_000_000)) && r == Ok(kept)
  {
    hide Keep;
    if answer.Some? {
      ProtocolKeeps(protocol, answer.value);
    }
  }

  /** An upstream: its protocol is fixed when it is built, and every lookup uses it. */
  class ProxyToUpstream {
    const addr: string
    const protocol: string
    const cache: UpstreamAddress

    constructor (addr: string, protocol: string)
      ensures this.addr == addr && this.protocol == protocol && fresh(cache) && Valid()
    {
      this.addr, this.protocol := addr, protocol;
      cache := new UpstreamAddress();
    }

    ghost predicate Valid()
      reads this, cache
    {
      forall a :: a in cache.addresses ==> Admits(ModeOf(protocol), a)
    }

    /** The address list `connect_upstream` dials. */
    method DialList(checkedAt: nat, finishedAt: nat, answer: Option<seq<SocketAddr>>)
      returns (r: Result<seq<SocketAddr>, DialError>)
      requires Valid()
      modifies cache
      ensures Valid()
      ensures r == Err(UnknownProtocol) <==> protocol !in {"tcp", "tcp4", "tcp6"}
      ensures r.Ok? && protocol == "tcp4" ==> forall a :: a in r.value ==> a.V4?
      ensures r.Ok? && protocol == "tcp6" ==> forall a :: a in r.value ==> a.V6?
      ensures (cache.View(), r) == Dialed(old(cache.View()), protocol,
                                          Call(ModeOf(protocol), checkedAt, finishedAt, answer))
    {
      if protocol != "tcp4" && protocol != "tcp6" && protocol != "tcp" {
        return Err(UnknownProtocol);
      }
      var reply := cache.Resolve(Call(ModeOf(protocol), checkedAt, finishedAt, answer));
      match reply.addresses
      case Some(list) => return Ok(list);
      case None => return Err(LookupFailed);
    }
  }
}
