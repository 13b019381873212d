/** One proxied connection end to end: dialling the upstream, the optional CONNECT handshake on its
    socket, then the relay (`ProxyToUpstream::proxy`). */
module Tunnel {
  import opened Common
  import opened Sockets
  import opened HeaderValues
  import opened ConnectRequest
  import opened ConnectResponse
  import opened HttpConnect
  import opened Relay
  import opened CopyCounted
  import opened DnsCache

  /** `toUpstream` and `toClient` are the two wires as written so far, `clientLeft` and `upstreamLeft` what
      nobody has read yet; `relay` is the relay's state once the handshake, if any, is over. */
  datatype TunnelState = TunnelState(
    handshake: ConnectEnd,
    toUpstream: Text,
    toClient: Text,
    clientLeft: Text,
    upstreamLeft: Text,
    relay: Option<RelayState>)

  /** How many upstream bytes the handshake took out of the stream. */
  ghost function HandshakeBytes(request: Text, upstream: Text, w: seq<Answer>, r: seq<Answer>): (n: nat)
    ensures n <= |upstream|
  {
    if NeverReads(request, w) then 0 else ReadTotal(upstream, 0, r)
  }

  /** The two wires once the relay is in state `s`, with `before` already sent to the upstream. */
  ghost function Relayed(before: Text, s: RelayState): TunnelState {
    TunnelState(Established, before + s.tx.delivered, s.rx.delivered, s.tx.unread, s.rx.unread, Some(s))
  }

  /** A tunnel after `schedule`. `w` and `r` answer the handshake's writes and reads, `tx` and `rx` the
      two directions of the relay. Without a request the handshake is skipped. */
  ghost function TunnelAfter(client: Text, upstream: Text, request: Option<Text>,
                             w: seq<Answer>, r: seq<Answer>,
                             tx: seq<Answer>, rx: seq<Answer>, schedule: seq<Act>): TunnelState
  {
    match request
    case None => Relayed([], RelayRun(RelayStart(client, upstream, tx, rx), schedule))
    case Some(req) =>
      var end := HandshakeEnd(req, upstream, w, r);
      var sent := req[..WriteLoop(|req|, 0, w).n];
      var rest := upstream[HandshakeBytes(req, upstream, w, r)..];
      if !end.Established? then TunnelState(end, sent, [], client, rest, None)
      else Relayed(sent, RelayRun(RelayStart(client, rest, tx, rx), schedule))
  }

  /** How a proxied connection stands. */
  datatype ProxyEnd = DialFailed(error: DialError) | ConnectFailed | Handshaken(end: ConnectEnd)

  /** Nothing to dial is an error of the connector's too. */
  predicate Connects(list: seq<SocketAddr>, reachable: seq<SocketAddr> -> bool) {
    list != [] && reachable(list)
  }

  /** The whole connection. `checkedAt`, `finishedAt` and `answer` drive the DNS cache; `reachable` says
      which address lists the connector reaches in time, and `outbound` is the stream it then gives. `tx`
      and `rx` are all the answers the relay ever gets; the two sockets end as they do under every fair
      interleaving of its two copies. */
  method ProxyConnection(proxy: ProxyToUpstream, checkedAt: nat, finishedAt: nat, answer: Option<seq<SocketAddr>>,
                         reachable: seq<SocketAddr> -> bool, inbound: TcpStream, outbound: TcpStream,
                         target: Option<Text>, headers: map<Text, Text>, order: seq<Text>, env: Env,
                         tx: seq<Answer>, rx: seq<Answer>)
    returns (end: ProxyEnd, totals: Option<(nat, nat)>)
    requires inbound != outbound && Enumerates(order, headers.Keys) && proxy.Valid()
    modifies inbound, outbound, proxy.cache
    ensures proxy.Valid()
    ensures var call := Call(ModeOf(proxy.protocol), checkedAt, finishedAt, answer);
            var (cache, list) := Dialed(old(proxy.cache.View()), proxy.protocol, call);
            && proxy.cache.View() == cache
            && (end.DialFailed? <==> list.Err?) && (end.DialFailed? ==> end.error == list.error)
            && (end.ConnectFailed? <==> list.Ok? && (list.value == [] || !reachable(list.value)))
    ensures !end.Handshaken? ==> totals.None? && unchanged(inbound) && unchanged(outbound)
    ensures end.Handshaken? && target.Some? && !AllResolve(headers, env) ==>
              && end.end.Rejected? && end.end.error.UnresolvedHeader?
              && totals.None? && unchanged(inbound) && unchanged(outbound)
    ensures end.Handshaken? && (target.None? || AllResolve(headers, env)) ==>
              forall schedule | Fair(schedule, tx, rx) ::
              var request := if target.None? then None
                             else Some(RequestText(target.value, ResolvedFields(order, headers, env)));
              var t := TunnelAfter(old(inbound.unread), old(outbound.unread), request, old(outbound.writeAnswers),
                                   old(outbound.readAnswers), tx, rx, schedule + [Poll]);
              && end.end == t.handshake
              && outbound.sent == old(outbound.sent) + t.toUpstream
              && inbound.sent == old(inbound.sent) + t.toClient
              && inbound.unread == t.clientLeft && outbound.unread == t.upstreamLeft
              && (totals.Some? <==> t.relay.Some? && t.relay.value.joined.Some?)
              && (totals.Some? ==> t.relay.value.joined == Some(Ok(totals.value)))
  {
    hide Serve, HandshakeEnd, RelayRun, Fair, WriteLoop, ReadTotal, RequestText, AllResolve;
    totals := None;
    var list := proxy.DialList(checkedAt, finishedAt, answer);
    if list.Err? {
      return DialFailed(list.error), None;
    }
    if !Connects(list.value, reachable) {
      return ConnectFailed, None;
    }
    if target.Some? {
      var handshake, written, total := Connect(outbound, target.value, headers, order, env);
      if !handshake.Established? {
        assert inbound.sent + [] == inbound.sent;
        return Handshaken(handshake), None;
      }
    }
    end := Handshaken(Established);
    totals := RelayBoth(inbound, outbound, tx, rx);
  }

  method RelayBoth(inbound: TcpStream, outbound: TcpStream, tx: seq<Answer>, rx: seq<Answer>)
    returns (totals: Option<(nat, nat)>)
    requires inbound != outbound
    modifies inbound`unread, inbound`sent, outbound`unread, outbound`sent
    ensures forall schedule | Fair(schedule, tx, rx) ::
              var s := RelayRun(RelayStart(old(inbound.unread), old(outbound.unread), tx, rx), schedule + [Poll]);
              && inbound.unread == s.tx.unread && outbound.unread == s.rx.unread
              && outbound.sent == old(outbound.sent) + s.tx.delivered
              && inbound.sent == old(inbound.sent) + s.rx.delivered
              && (totals.Some? <==> s.joined.Some?)
              && (totals.Some? ==> s.joined == Some(Ok(totals.value)))
  {
    hide RelayRun, Fair;
    var toUpstream, toClient;
    toUpstream, toClient, totals := RunBoth(inbound.unread, outbound.unread, tx, rx);
    inbound.unread, outbound.unread := toUpstream.unread, toClient.unread;
    outbound.sent := outbound.sent + toUpstream.delivered;
    inbound.sent := inbound.sent + toClient.delivered;
  }

  // ---------------------------------------------------------------------------
  // Byte transparency
  // ---------------------------------------------------------------------------

  /** Both peers closed cleanly and everything they sent was relayed. */
  ghost predicate ClosedCleanly(t: TunnelState) {
    && t.relay.Some? && t.relay.value.joined.Some?
    && t.relay.value.tx.pc == Finished(EndOfStream)
    && t.relay.value.rx.pc == Finished(EndOfStream)
  }

  lemma PrefixOfConcat(a: Text, b: Text, c: Text)
    requires b <= c
    ensures a + b <= a + c
  {
    assert a + c == a + b + c[|b|..];
  }

  /** At every moment of a relay each wire carries a prefix of the other side's stream. */
  lemma RelayPrefix(client: Text, upstream: Text, tx: seq<Answer>, rx: seq<Answer>, schedule: seq<Act>)
    ensures var s := RelayRun(RelayStart(client, upstream, tx, rx), schedule);
            s.tx.delivered <= client && s.rx.delivered <= upstream
  {
    var s := RelayRun(RelayStart(client, upstream, tx, rx), schedule);
    RelayResult(client, upstream, tx, rx, schedule);
    ConsumedIsPrefix(client, s.tx);
    ConsumedIsPrefix(upstream, s.rx);
  }

  /** At every moment of every tunnel, whatever the sockets and the scheduler do, each wire carries a
      prefix of what it should, in order: the upstream's, the part of the request that was written and
      then the client's bytes. */
  lemma TunnelPrefix(client: Text, upstream: Text, request: Text, w: seq<Answer>, r: seq<Answer>,
                     tx: seq<Answer>, rx: seq<Answer>, schedule: seq<Act>)
    ensures var t := TunnelAfter(client, upstream, Some(request), w, r, tx, rx, schedule);
            var written := request[..WriteLoop(|request|, 0, w).n];
            && written <= t.toUpstream <= written + client
            && t.toClient <= upstream[HandshakeBytes(request, upstream, w, r)..]
            && (t.relay.None? ==> t.toUpstream == written && t.toClient == [])
  {
    hide RelayRun, ReadLoop, HandshakeBytes, HandshakeEnd;
    var rest := upstream[HandshakeBytes(request, upstream, w, r)..];
    RelayPrefix(client, rest, tx, rx, schedule);
    var s := RelayRun(RelayStart(client, rest, tx, rx), schedule);
    PrefixOfConcat(request[..WriteLoop(|request|, 0, w).n], s.tx.delivered, client);
  }

  /** A tunnel that closed cleanly: the client got the upstream's stream minus the bytes the handshake
      took, and the upstream got the request and the client's whole stream, unless a zero-length write
      cut the request short. */
  lemma TunnelTransparent(client: Text, upstream: Text, request: Text, w: seq<Answer>, r: seq<Answer>,
                          tx: seq<Answer>, rx: seq<Answer>, schedule: seq<Act>)
    requires ClosedCleanly(TunnelAfter(client, upstream, Some(request), w, r, tx, rx, schedule))
    ensures var t := TunnelAfter(client, upstream, Some(request), w, r, tx, rx, schedule);
            && t.toUpstream == request[..WriteLoop(|request|, 0, w).n] + client
            && (t.toUpstream == request + client <==> !WriteLoop(|request|, 0, w).Stalled?)
            && t.toClient == upstream[HandshakeBytes(request, upstream, w, r)..]
            && t.clientLeft == [] && t.upstreamLeft == []
            && t.relay.value.joined == Some(Ok((|client|, |t.toClient|)))
  {
    hide ReadLoop, HandshakeBytes, RelayRun;
    var rest := upstream[HandshakeBytes(request, upstream, w, r)..];
    var s := TunnelAfter(client, upstream, Some(request), w, r, tx, rx, schedule).relay.value;
    WriteLoopCompletes(|request|, 0, w);
    RelayResult(client, rest, tx, rx, schedule);
    ConsumedIsPrefix(client, s.tx);
    ConsumedIsPrefix(rest, s.rx);
    EstablishedMeans(request, upstream, w, r);
    assert request[..|request|] == request;
  }

  /** Direct forwarding (no CONNECT) that closed cleanly is the identity both ways. */
  lemma DirectTransparent(client: Text, upstream: Text, w: seq<Answer>, r: seq<Answer>,
                          tx: seq<Answer>, rx: seq<Answer>, schedule: seq<Act>)
    requires ClosedCleanly(TunnelAfter(client, upstream, None, w, r, tx, rx, schedule))
    ensures var t := TunnelAfter(client, upstream, None, w, r, tx, rx, schedule);
            && t.toUpstream == client && t.toClient == upstream && t.clientLeft == [] && t.upstreamLeft == []
            && t.relay.value.joined == Some(Ok((|client|, |upstream|)))
  {
    var s := RelayRun(RelayStart(client, upstream, tx, rx), schedule);
    RelayResult(client, upstream, tx, rx, schedule);
    ConsumedIsPrefix(client, s.tx);
    ConsumedIsPrefix(upstream, s.rx);
  }

  predicate Opens(status: Result<nat, StatusError>) {
    status.Ok? && 200 <= status.value <= 299
  }

  // ---------------------------------------------------------------------------
  // Everything arrives
  // ---------------------------------------------------------------------------

  /** Direct forwarding over sockets that keep serving delivers both streams and closes cleanly. */
  lemma DirectDelivers(client: Text, upstream: Text, w: seq<Answer>, r: seq<Answer>,
                       tx: seq<Answer>, rx: seq<Answer>, schedule: seq<Act>)
    requires Fair(schedule, tx, rx) && Serves(tx, |client|) && Serves(rx, |upstream|)
    ensures var t := TunnelAfter(client, upstream, None, w, r, tx, rx, schedule + [Poll]);
            ClosedCleanly(t) && t.toUpstream == client && t.toClient == upstream
  {
    RelayCompletes(client, upstream, tx, rx, schedule);
    assert [] + client == client;
  }

  /** A tunnel over such sockets, to an upstream that answers with an ordinary 2xx head: it opens, the upstream
      gets the request and the client's whole stream, the client gets what the handshake left, and it closes
      cleanly. */
  lemma TunnelDelivers(client: Text, upstream: Text, request: Text, e: nat, code: Text,
                       w: seq<Answer>, r: seq<Answer>, tx: seq<Answer>, rx: seq<Answer>, schedule: seq<Act>)
    requires Undisturbed(request, upstream, w, r) && HeadEnds(upstream, e) && 12 < e <= 16384
    requires |code| == 3 && Digits(code) && 200 <= Value3(code) <= 299
    requires upstream[..12] == Ascii("HTTP/1.1 ") + code && Blank(upstream[12])
    requires Fair(schedule, tx, rx) && Serves(tx, |client|) && Serves(rx, |upstream|)
    ensures var t := TunnelAfter(client, upstream, Some(request), w, r, tx, rx, schedule + [Poll]);
            ClosedCleanly(t) && t.toUpstream == request + client
            && t.toClient == upstream[HandshakeBytes(request, upstream, w, r)..]
  {
    hide RelayRun, ReadLoop, ReadTotal, WriteLoop, HandshakeEnd, ParseStatus, HeadEnds, Fair, Value3;
    OrdinaryResponse(request, upstream, e, code, w, r);
    UndisturbedEnds(request, upstream, w, r);
    var rest := upstream[HandshakeBytes(request, upstream, w, r)..];
    RelayCompletes(client, rest, tx, rx, schedule);
    assert request[..|request|] == request;
  }

  // ---------------------------------------------------------------------------
  // A request cut short
  // ---------------------------------------------------------------------------

  /** "H 200", CRLF, CRLF: the shortest kind of head that opens a tunnel. */
  const OPENING: Text := [72, 32, 50, 48, 48, 13, 10, 13, 10]

  lemma OpeningEnds()
    ensures HeadEnds(OPENING, |OPENING|)
  {
    var s := OPENING[..|OPENING| - 1];
    forall i | 0 <= i <= |s| - 4 ensures !TerminatorAt(s, i) {
      TerminatorBytes(s, i);
    }
  }

  lemma OpeningStatus()
    ensures ParseStatus(OPENING) == Ok(200)
  {
    var rest, code: Text := OPENING[1..], OPENING[2..];
    assert TokenLength(OPENING) == 1 by {
      assert TokenLength(rest) == 0;
    }
    assert TrimStart(rest) == code;
    var blanks := code[3..];
    assert TokenLength(code) == 3 by {
      assert TokenLength(blanks) == 0;
      assert TokenLength(code[2..]) == 1;
      assert TokenLength(code[1..]) == 2;
    }
    assert Tokens(OPENING) == [OPENING[..1]] + Tokens(rest);
    assert Tokens(rest) == [code[..3]] + Tokens(blanks);
    assert Tokens(OPENING)[1] == [50, 48, 48];
    assert Accumulate(20, [48]) == Some(200);
    assert Accumulate(2, [48, 48]) == Some(200) by {
      assert [48 as byte, 48][1..] == [48];
    }
    assert [50 as byte, 48, 48][1..] == [48, 48];
  }

  /** A copy of nothing: the reader closes at once and the writer is shut down. */
  const CLOSE: seq<Answer> := [Ready(0), Ready(0)]
  const BOTH_CLOSE: seq<Act> := [StepTx, StepTx, StepRx, StepRx, Poll]

  lemma EmptyCopy()
    ensures MicroN(Start([], CLOSE), 2) == Half([], [], 0, 0, 1, [], Finished(EndOfStream))
  {
    assert MicroN(Start([], CLOSE), 0) == Start([], CLOSE);
    assert MicroN(Start([], CLOSE), 1) == Half([], [], 0, 0, 0, [Ready(0)], Closing(EndOfStream));
  }

  lemma RelaySnoc(r: RelayState, schedule: seq<Act>, act: Act)
    ensures RelayRun(r, schedule + [act]) == RelayStep(RelayRun(r, schedule), act)
  {
    hide RelayStep;
    assert (schedule + [act])[..|schedule|] == schedule;
  }

  /** The same step twice. */
  lemma Twice(r: RelayState, schedule: seq<Act>, act: Act)
    ensures RelayRun(r, schedule + [act, act]) == RelayStep(RelayStep(RelayRun(r, schedule), act), act)
  {
    hide RelayRun, RelayStep;
    RelaySnoc(r, schedule, act);
    RelaySnoc(r, schedule + [act], act);
    assert schedule + [act] + [act] == schedule + [act, act];
  }

  lemma BothClose()
    ensures var s := RelayRun(RelayStart([], [], CLOSE, CLOSE), BOTH_CLOSE);
            && s.tx == s.rx == Half([], [], 0, 0, 1, [], Finished(EndOfStream)) && s.joined == Some(Ok((0, 0)))
  {
    hide Micro, MicroN;
    var r := RelayStart([], [], CLOSE, CLOSE);
    EmptyCopy();
    NoMoreThanTwo(r);
    Twice(r, [], StepTx);
    Twice(r, [] + [StepTx, StepTx], StepRx);
    var done := [] + [StepTx, StepTx] + [StepRx, StepRx];
    RelaySnoc(r, done, Poll);
    assert done + [Poll] == BOTH_CLOSE;
    assert RelayRun(r, []) == r;
  }

  lemma NoMoreThanTwo(r: RelayState)
    ensures MicroN(r.tx, 2) == Micro(Micro(r.tx)) && MicroN(r.rx, 2) == Micro(Micro(r.rx))
  {
    assert MicroN(r.tx, 1) == Micro(MicroN(r.tx, 0)) && MicroN(r.rx, 1) == Micro(MicroN(r.rx, 0));
  }

  /** The answers with which a write of `size` bytes stops after `k`. */
  function StopAfter(k: nat): seq<Answer> {
    if k == 0 then [Ready(0)] else [Ready(k), Ready(0)]
  }

  /** A cut request goes unnoticed: any request can be cut anywhere by a zero-length write, the upstream can
      open the tunnel all the same, and the tunnel closes cleanly. */
  lemma StalledTunnelCloses(request: Text, k: nat)
    requires k < |request|
    ensures var t := TunnelAfter([], OPENING, Some(request), StopAfter(k), [Ready(|OPENING|)],
                                 CLOSE, CLOSE, BOTH_CLOSE);
            ClosedCleanly(t) && t.toUpstream == request[..k]
  {
    var w := StopAfter(k);
    assert WriteLoop(|request|, 0, w) == Stalled(k) by {
      assert WriteLoop(|request|, k, [Ready(0)]) == Stalled(k);
      assert w[1..] == if k == 0 then [] else [Ready(0)];
    }
    OpeningEnds();
    OpeningStatus();
    ReadAtOnce(OPENING, |OPENING|);
    assert OPENING[..|OPENING|] == OPENING && OPENING[|OPENING|..] == [];
    OpensOn(request, OPENING, w, [Ready(|OPENING|)], |OPENING|);
    BothClose();
  }

  /** An ended write loop and a read loop that stops at `t` with a 2xx status. */
  lemma OpensOn(request: Text, upstream: Text, w: seq<Answer>, r: seq<Answer>, t: nat)
    requires !NeverReads(request, w) && ReadLoop(upstream, 0, r) == Head(t) && t <= |upstream|
    requires Opens(StatusAfter(upstream, t))
    ensures HandshakeEnd(request, upstream, w, r).Established? && HandshakeBytes(request, upstream, w, r) == t
  {
    EstablishedMeans(request, upstream, w, r);
  }

  // ---------------------------------------------------------------------------
  // Bytes behind the response head
  // ---------------------------------------------------------------------------

  /** An opened tunnel's handshake took the head, and whatever came with its last read. */
  lemma HeadIsTaken(request: Text, upstream: Text, w: seq<Answer>, r: seq<Answer>, e: nat)
    requires HandshakeEnd(request, upstream, w, r).Established? && HeadEnds(upstream, e)
    ensures var t := HandshakeBytes(request, upstream, w, r);
            e <= t <= Min(LIMIT, |upstream|) && Opens(StatusAfter(upstream, t))
  {
    hide Tokens, ParseU16;
    EstablishedMeans(request, upstream, w, r);
    assert !HasTerminator(upstream[..0]);
    ReadLoopClass(upstream, 0, r);
    PrefixHasTerminator(upstream, e, HandshakeBytes(request, upstream, w, r));
  }

  /** A cleanly closed tunnel delivers everything behind the response head exactly when the last
      handshake read stopped at the end of the head; otherwise what was read past it is lost. */
  lemma NothingLostIff(client: Text, upstream: Text, request: Text, w: seq<Answer>, r: seq<Answer>,
                       tx: seq<Answer>, rx: seq<Answer>, schedule: seq<Act>, e: nat)
    requires ClosedCleanly(TunnelAfter(client, upstream, Some(request), w, r, tx, rx, schedule))
    requires HeadEnds(upstream, e)
    ensures e <= HandshakeBytes(request, upstream, w, r)
    ensures var t := TunnelAfter(client, upstream, Some(request), w, r, tx, rx, schedule);
            var n := HandshakeBytes(request, upstream, w, r);
            && upstream[e..] == upstream[e..n] + t.toClient
            && (t.toClient == upstream[e..] <==> n == e)
  {
    hide HandshakeBytes, HandshakeEnd, RelayRun;
    TunnelTransparent(client, upstream, request, w, r, tx, rx, schedule);
    HeadIsTaken(request, upstream, w, r, e);
  }

  /** Whatever the request and however the stream is cut, an opened tunnel never loses a byte. */
  ghost predicate NeverLoses(upstream: Text, e: nat) {
    forall request, w, r :: HandshakeEnd(request, upstream, w, r).Established? ==>
      HandshakeBytes(request, upstream, w, r) == e
  }

  lemma StopsAt(upstream: Text, e: nat, t: nat)
    requires HeadEnds(upstream, e) && e <= t <= Min(LIMIT, |upstream|)
    ensures ReadLoop(upstream, 0, [Ready(t)]) == Head(t)
  {
    PrefixHasTerminator(upstream, e, t);
  }

  /** No fragmentation can lose tunnel bytes exactly when no longer read would open the tunnel. */
  lemma LossFreeIff(upstream: Text, e: nat)
    requires HeadEnds(upstream, e) && e <= LIMIT
    ensures NeverLoses(upstream, e) <==>
            forall t :: e < t <= Min(LIMIT, |upstream|) ==> !Opens(StatusAfter(upstream, t))
  {
    hide HandshakeEnd, HandshakeBytes, HeadEnds, Opens, StatusAfter;
    if NeverLoses(upstream, e) {
      forall t | e < t <= Min(LIMIT, |upstream|) ensures !Opens(StatusAfter(upstream, t)) {
        if Opens(StatusAfter(upstream, t)) {
          StopsAt(upstream, e, t);
          assert WriteLoop(0, 0, []) == Written(0);
          OpensOn([], upstream, [], [Ready(t)], t);
          assert false;
        }
      }
    } else {
      var request, w, r :| HandshakeEnd(request, upstream, w, r).Established?
                           && HandshakeBytes(request, upstream, w, r) != e;
      HeadIsTaken(request, upstream, w, r, e);
      var t := HandshakeBytes(request, upstream, w, r);
      assert Opens(StatusAfter(upstream, t));
    }
  }

  /** For a head that carries a 2xx status of its own: exactly when the upstream sends nothing behind its
      head, or the head fills the response buffer. */
  lemma OpenHeadLossFreeIff(upstream: Text, e: nat)
    requires HeadEnds(upstream, e) && e <= LIMIT
    requires |Tokens(upstream[..e])| >= 2 && Opens(StatusAfter(upstream, e))
    ensures NeverLoses(upstream, e) <==> e == Min(LIMIT, |upstream|)
  {
    hide NeverLoses, HasTerminator, Tokens, ParseU16;
    LossFreeIff(upstream, e);
    var cap := Min(LIMIT, |upstream|);
    if e < cap {
      HeadIsCut(upstream, e, cap);
      assert Opens(StatusAfter(upstream, cap));
    }
  }
}
