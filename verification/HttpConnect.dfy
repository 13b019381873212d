/** `http_connect`: send the CONNECT request, read the response head, accept a 2xx status. */
module HttpConnect {
  import opened Common
  import opened Sockets
  import opened HeaderValues
  import opened ConnectRequest
  import opened ConnectResponse

  datatype ConnectError =
    | UnresolvedHeader(reason: ResolveError)
    | Io
    | ClosedBeforeResponse
    | HeaderTooLarge
    | Malformed(cause: StatusError)
    | AccessDenied
    | BadGateway
    | ServiceUnavailable
    | UnexpectedStatus(code: nat)

  /** Suspended: the answers ran out while the task was waiting on the socket. */
  datatype ConnectEnd = Established | Rejected(error: ConnectError) | Suspended

  // ---------------------------------------------------------------------------
  // Write loop
  // ---------------------------------------------------------------------------

  /** `n` bytes are on the wire. Stalled: the transport accepted a zero-length write. */
  datatype WriteOutcome = Written(n: nat) | Stalled(n: nat) | WriteError(n: nat) | StillWriting(n: nat)

  function WriteLoop(size: nat, written: nat, answers: seq<Answer>): (w: WriteOutcome)
    requires written <= size
    ensures written <= w.n <= size
    decreases |answers|
  {
    if written == size then Written(written)
    else if answers == [] then StillWriting(written)
    else match answers[0]
         case WouldBlock => WriteLoop(size, written, answers[1..])
         case Fail => WriteError(written)
         case Ready(n) =>
           var k := WriteSize(n, size - written);
           if k == 0 then Stalled(written) else WriteLoop(size, written + k, answers[1..])
  }

  /** The loop ends with everything written, unless the transport errs or accepts a zero-length write. */
  lemma {:induction false} WriteLoopCompletes(size: nat, written: nat, answers: seq<Answer>)
    requires written <= size
    ensures var w := WriteLoop(size, written, answers);
            && (w.Written? <==> w.n == size)
            && (w.Stalled? ==> Ready(0) in answers)
            && (w.WriteError? ==> Fail in answers)
            && (w.StillWriting? ==> ReadyCount(answers) < size - written || Ready(0) in answers)
    decreases |answers|
  {
    if written < size && answers != [] {
      var rest := answers[1..];
      assert answers[0] in answers && forall a :: a in rest ==> a in answers;
      match answers[0]
      case WouldBlock => WriteLoopCompletes(size, written, rest);
      case Fail =>
      case Ready(n) =>
        var k := WriteSize(n, size - written);
        if k > 0 {
          WriteLoopCompletes(size, written + k, rest);
        }
    }
  }

  /** As long as bytes are left, a failure is an error and a zero-length write a stall, and nothing after
      them matters. */
  lemma {:induction false} WritingEnds(size: nat, written: nat, answers: seq<Answer>, rest: seq<Answer>)
    requires written <= size && WriteLoop(size, written, answers).StillWriting?
    ensures var n := WriteLoop(size, written, answers).n;
            && WriteLoop(size, written, answers + [Fail] + rest) == WriteError(n)
            && WriteLoop(size, written, answers + [Ready(0)] + rest) == Stalled(n)
    decreases |answers|
  {
    if answers != [] {
      assert (answers + [Fail] + rest)[1..] == answers[1..] + [Fail] + rest;
      assert (answers + [Ready(0)] + rest)[1..] == answers[1..] + [Ready(0)] + rest;
      match answers[0]
      case WouldBlock => WritingEnds(size, written, answers[1..], rest);
      case Ready(n) => WritingEnds(size, written + WriteSize(n, size - written), answers[1..], rest);
    }
  }

  method WriteRequest(stream: TcpStream, bytes: Text) returns (w: WriteOutcome)
    modifies stream`sent, stream`writeAnswers
    ensures w == WriteLoop(|bytes|, 0, old(stream.writeAnswers))
    ensures stream.sent == old(stream.sent) + bytes[..w.n]
  {
    var written := 0;
    while written < |bytes|
      invariant 0 <= written <= |bytes|
      invariant stream.sent == old(stream.sent) + bytes[..written]
      invariant WriteLoop(|bytes|, written, stream.writeAnswers) == WriteLoop(|bytes|, 0, old(stream.writeAnswers))
      decreases |stream.writeAnswers|
    {
      var r := stream.TryWrite(bytes[written..]);
      match r
      case Waiting => return StillWriting(written);
      case Blocked => continue;
      case Failed => return WriteError(written);
      case Moved(n) =>
        if n == 0 {
          return Stalled(written);
        }
        assert bytes[..written] + bytes[written..][..n] == bytes[..written + n];
        written := written + n;
    }
    assert bytes[..written] == bytes;
    return Written(written);
  }

  // ---------------------------------------------------------------------------
  // Read loop
  // ---------------------------------------------------------------------------

  method ReadResponseHead(stream: TcpStream) returns (r: ReadOutcome, inbufs: array<byte>, total: nat)
    modifies stream`unread, stream`readAnswers
    ensures fresh(inbufs) && inbufs.Length == LIMIT
    ensures r == ReadLoop(old(stream.unread), 0, old(stream.readAnswers))
    ensures total == ReadTotal(old(stream.unread), 0, old(stream.readAnswers))
    ensures inbufs[..total] == old(stream.unread)[..total]
    ensures stream.unread == old(stream.unread)[total..]
    ensures r.Closed? ==> stream.unread == []
  {
    hide HasTerminator, ReadSize;
    inbufs := new byte[LIMIT];
    total := 0;
    ghost var all := stream.unread;
    while true
      invariant total < LIMIT && total <= |all|
      invariant inbufs[..total] == all[..total] && stream.unread == all[total..]
      invariant ReadLoop(all, total, stream.readAnswers) == ReadLoop(all, 0, old(stream.readAnswers))
      invariant ReadTotal(all, total, stream.readAnswers) == ReadTotal(all, 0, old(stream.readAnswers))
      decreases |stream.readAnswers|
    {
      var io := stream.TryRead(inbufs, total);
      match io
      case Waiting => return StillReading, inbufs, total;
      case Blocked =>
        continue;
      case Failed =>
        return IoError, inbufs, total;
      case Moved(n) =>
        if n == 0 {
          return Closed, inbufs, total;
        }
        assert all[..total] + all[total..][..n] == all[..total + n];
        total := total + n;
        if HasTerminator(inbufs[..total]) {
          return Head(total), inbufs, total;
        }
        if total >= inbufs.Length {
          return TooLarge, inbufs, total;
        }
    }
  }

  // ---------------------------------------------------------------------------
  // Status dispatch and the whole handshake
  // ---------------------------------------------------------------------------

  function Dispatch(status: nat): ConnectEnd {
    if 200 <= status <= 299 then Established
    else if status == 403 then Rejected(AccessDenied)
    else if status == 502 then Rejected(BadGateway)
    else if status == 503 then Rejected(ServiceUnavailable)
    else Rejected(UnexpectedStatus(status))
  }

  /** How a handshake ends, from the request, the upstream's whole byte stream and the socket's answers. */
  ghost function HandshakeEnd(request: Text, upstream: Text, w: seq<Answer>, r: seq<Answer>): ConnectEnd {
    match WriteLoop(|request|, 0, w)
    case WriteError(_) => Rejected(Io)
    case StillWriting(_) => Suspended
    case _ =>
      match ReadLoop(upstream, 0, r)
      case StillReading => Suspended
      case IoError => Rejected(Io)
      case Closed => Rejected(ClosedBeforeResponse)
      case TooLarge => Rejected(HeaderTooLarge)
      case Head(total) =>
        match ParseStatus(upstream[..Min(total, |upstream|)])
        case Err(e) => Rejected(Malformed(e))
        case Ok(status) => Dispatch(status)
  }

  /** A tunnel opens exactly on a complete head with a 2xx status (section 9.3.6 of RFC 9110). */
  lemma EstablishedMeans(request: Text, upstream: Text, w: seq<Answer>, r: seq<Answer>)
    ensures HandshakeEnd(request, upstream, w, r).Established? <==>
            && (WriteLoop(|request|, 0, w).Written? || WriteLoop(|request|, 0, w).Stalled?)
            && ReadLoop(upstream, 0, r).Head?
            && ReadLoop(upstream, 0, r).total <= |upstream|
            && StatusAfter(upstream, ReadLoop(upstream, 0, r).total).Ok?
            && 200 <= StatusAfter(upstream, ReadLoop(upstream, 0, r).total).value <= 299
  {
    assert !HasTerminator(upstream[..0]);
    ReadLoopClass(upstream, 0, r);
  }

  /** A response head that ends within the buffer has two tokens, or the whole buffer has fewer. */
  ghost predicate HeadSettles(upstream: Text) {
    forall e: nat :: HeadEnds(upstream, e) && e <= LIMIT ==>
      |Tokens(upstream[..e])| >= 2 || |Tokens(upstream[..Min(LIMIT, |upstream|)])| < 2
  }

  /** Two complete reads of a head give the same status, if the head settles it. */
  lemma SameStatus(upstream: Text, a: seq<Answer>, b: seq<Answer>)
    requires HeadSettles(upstream)
    requires ReadLoop(upstream, 0, a).Head? && ReadLoop(upstream, 0, b).Head?
    ensures ReadLoop(upstream, 0, a).total <= |upstream| && ReadLoop(upstream, 0, b).total <= |upstream|
    ensures StatusAfter(upstream, ReadLoop(upstream, 0, a).total)
            == StatusAfter(upstream, ReadLoop(upstream, 0, b).total)
  {
    hide ReadLoop, ParseStatus, Tokens, HeadEnds;
    assert !HasTerminator(upstream[..0]);
    ReadLoopClass(upstream, 0, a);
    var t := ReadLoop(upstream, 0, a).total;
    PrefixTerminates(upstream, t, |upstream|);
    assert upstream[..|upstream|] == upstream;
    var e := FirstHeadEnd(upstream);
    PrefixHasTerminator(upstream, e, t);
    StatusIndependentIff(upstream, e);
  }

  /** The write loop is left by an error or not at all: the response is never read. */
  ghost predicate NeverReads(request: Text, w: seq<Answer>) {
    WriteLoop(|request|, 0, w).WriteError? || WriteLoop(|request|, 0, w).StillWriting?
  }

  /** Any two complete ways of cutting the upstream's stream into reads give the same verdict. */
  ghost predicate VerdictSettled(request: Text, upstream: Text, w: seq<Answer>) {
    forall a, b :: Ended(ReadLoop(upstream, 0, a)) && Ended(ReadLoop(upstream, 0, b)) ==>
      HandshakeEnd(request, upstream, w, a) == HandshakeEnd(request, upstream, w, b)
  }

  lemma SameVerdict(request: Text, upstream: Text, w: seq<Answer>, a: seq<Answer>, b: seq<Answer>)
    requires HeadSettles(upstream) || NeverReads(request, w)
    requires Ended(ReadLoop(upstream, 0, a)) && Ended(ReadLoop(upstream, 0, b))
    ensures HandshakeEnd(request, upstream, w, a) == HandshakeEnd(request, upstream, w, b)
  {
    hide ReadLoop, ParseStatus, Tokens, WriteLoop, Dispatch, HeadSettles;
    FragmentationIndependent(upstream, a, b);
    if ReadLoop(upstream, 0, a).Head? && HeadSettles(upstream) {
      SameStatus(upstream, a, b);
    }
  }

  /** Read alone, such a head has no status code; read with what follows it, it has something there. */
  lemma VerdictsDiffer(request: Text, upstream: Text, w: seq<Answer>, e: nat)
    requires HeadEnds(upstream, e) && e <= LIMIT && !NeverReads(request, w)
    requires |Tokens(upstream[..e])| < 2 <= |Tokens(upstream[..Min(LIMIT, |upstream|)])|
    ensures !VerdictSettled(request, upstream, w)
  {
    hide ReadLoop, Tokens, WriteLoop, ParseU16, HasTerminator;
    var cap := Min(LIMIT, |upstream|);
    ReadHeadOnly(upstream, e);
    ReadAtOnce(upstream, e);
    assert Ended(ReadLoop(upstream, 0, [Ready(e)])) && Ended(ReadLoop(upstream, 0, [Ready(cap)]));
    assert HandshakeEnd(request, upstream, w, [Ready(e)]) == Rejected(Malformed(NoStatusCode));
    assert HandshakeEnd(request, upstream, w, [Ready(cap)]) != Rejected(Malformed(NoStatusCode));
  }

  /** The verdict of the handshake does not depend on how TCP cut the upstream's stream into reads, exactly
      when the response is never read or its head settles the status. */
  lemma HandshakeIndependent(request: Text, upstream: Text, w: seq<Answer>)
    ensures VerdictSettled(request, upstream, w) <==> NeverReads(request, w) || HeadSettles(upstream)
  {
    hide ReadLoop, Tokens, WriteLoop, HandshakeEnd, HasTerminator;
    if NeverReads(request, w) || HeadSettles(upstream) {
      forall a, b | Ended(ReadLoop(upstream, 0, a)) && Ended(ReadLoop(upstream, 0, b))
        ensures HandshakeEnd(request, upstream, w, a) == HandshakeEnd(request, upstream, w, b)
      {
        SameVerdict(request, upstream, w, a, b);
      }
    } else {
      var e: nat :| HeadEnds(upstream, e) && e <= LIMIT && |Tokens(upstream[..e])| < 2
                    && |Tokens(upstream[..Min(LIMIT, |upstream|)])| >= 2;
      VerdictsDiffer(request, upstream, w, e);
    }
  }

  /** While the transport has not answered the handshake waits, and a failure of the transport ends it, in
      either loop and whatever comes later. */
  lemma TransportDecides(request: Text, upstream: Text, a: seq<Answer>, rest: seq<Answer>,
                         w: seq<Answer>, r: seq<Answer>)
    ensures WriteLoop(|request|, 0, a).StillWriting? ==>
              && HandshakeEnd(request, upstream, a, r) == Suspended
              && HandshakeEnd(request, upstream, a + [Fail] + rest, r) == Rejected(Io)
    ensures !NeverReads(request, w) && ReadLoop(upstream, 0, a).StillReading? ==>
              && HandshakeEnd(request, upstream, w, a) == Suspended
              && HandshakeEnd(request, upstream, w, a + [Fail] + rest) == Rejected(Io)
  {
    hide WriteLoop, ReadLoop, ParseStatus;
    if WriteLoop(|request|, 0, a).StillWriting? {
      WritingEnds(|request|, 0, a, rest);
    }
    if ReadLoop(upstream, 0, a).StillReading? {
      FailureEndsReading(upstream, 0, a, rest);
    }
  }

  // --- what the upstream's stream alone comes to ------------------------------------

  /** The transport takes the request and delivers the response without failing. */
  predicate Undisturbed(request: Text, upstream: Text, w: seq<Answer>, r: seq<Answer>) {
    && Fail !in w && Ready(0) !in w && ReadyCount(w) >= |request|
    && Fail !in r && ReadyCount(r) > |upstream|
  }

  lemma UndisturbedEnds(request: Text, upstream: Text, w: seq<Answer>, r: seq<Answer>)
    requires Undisturbed(request, upstream, w, r)
    ensures WriteLoop(|request|, 0, w) == Written(|request|) && !NeverReads(request, w)
    ensures Ended(ReadLoop(upstream, 0, r))
  {
    WriteLoopCompletes(|request|, 0, w);
    ReadLoopEnds(upstream, 0, r);
  }

  /** Without a response head there is no tunnel: the error says whether the upstream closed too early or
      sent 16384 bytes of something else. */
  lemma NoHeadNoTunnel(request: Text, upstream: Text, w: seq<Answer>, r: seq<Answer>)
    requires Undisturbed(request, upstream, w, r)
    ensures HandshakeEnd(request, upstream, w, r) == Rejected(ClosedBeforeResponse) <==>
            |upstream| < 16384 && !exists e: nat :: HeadEnds(upstream, e)
    ensures HandshakeEnd(request, upstream, w, r) == Rejected(HeaderTooLarge) <==>
            |upstream| >= 16384 && !exists e: nat :: e <= 16384 && HeadEnds(upstream, e)
  {
    hide ReadLoop, WriteLoop, ParseStatus, HeadEnds;
    UndisturbedEnds(request, upstream, w, r);
    ReadByStream(upstream, r);
  }

  /** An ordinary response, "HTTP/1.1", a three-digit code and anything up to the empty line: the code alone
      decides. */
  lemma OrdinaryResponse(request: Text, upstream: Text, e: nat, code: Text, w: seq<Answer>, r: seq<Answer>)
    requires Undisturbed(request, upstream, w, r) && HeadEnds(upstream, e) && e <= 16384
    requires |code| == 3 && Digits(code) && |code| + 9 < e && Blank(upstream[12])
    requires upstream[..12] == Ascii("HTTP/1.1 ") + code
    ensures var end, status := HandshakeEnd(request, upstream, w, r), Value3(code);
            && (end == Established <==> 200 <= status <= 299)
            && (status == 403 ==> end == Rejected(AccessDenied))
            && (status == 502 ==> end == Rejected(BadGateway))
            && (status == 503 ==> end == Rejected(ServiceUnavailable))
            && (!(200 <= status <= 299) && status !in {403, 502, 503} ==> end == Rejected(UnexpectedStatus(status)))
  {
    hide ReadLoop, WriteLoop, ParseStatus, Tokens, HeadEnds, Value3, ParseU16;
    UndisturbedEnds(request, upstream, w, r);
    ReadByStream(upstream, r);
    HeadIsLine(upstream, e, code);
    StatusIndependent(upstream, e, r);
  }

  lemma HeadIsLine(upstream: Text, e: nat, code: Text)
    requires HeadEnds(upstream, e) && 12 < e && |code| == 3 && Digits(code) && Blank(upstream[12])
    requires upstream[..12] == Ascii("HTTP/1.1 ") + code
    ensures StatusAfter(upstream, e) == Ok(Value3(code)) && |Tokens(upstream[..e])| >= 2 && Value3(code) >= 0
  {
    hide ParseStatus, Tokens, HasTerminator;
    var tail := upstream[12..e];
    assert upstream[..e] == Ascii("HTTP/1.1 ") + code + tail;
    StatusLine(code, tail);
    ThreeDigits(code);
  }

  /** `written` request bytes and `total` response bytes moved before the handshake ended. */
  method Connect(stream: TcpStream, target: Text, headers: map<Text, Text>, order: seq<Text>, env: Env)
    returns (end: ConnectEnd, written: nat, total: nat)
    requires Enumerates(order, headers.Keys)
    modifies stream
    ensures !AllResolve(headers, env) ==>
              && end.Rejected? && end.error.UnresolvedHeader? && Unresolvable(end.error.reason, env)
              && written == 0 && total == 0 && unchanged(stream)
    ensures AllResolve(headers, env) ==>
              var request := RequestText(target, ResolvedFields(order, headers, env));
              && written == WriteLoop(|request|, 0, old(stream.writeAnswers)).n
              && stream.sent == old(stream.sent) + request[..written]
              && end == HandshakeEnd(request, old(stream.unread), old(stream.writeAnswers), old(stream.readAnswers))
              && total == (if NeverReads(request, old(stream.writeAnswers)) then 0
                           else ReadTotal(old(stream.unread), 0, old(stream.readAnswers)))
    ensures total <= |old(stream.unread)| && stream.unread == old(stream.unread)[total..]
  {
    written, total := 0, 0;
    var built := BuildRequest(target, headers, order, env);
    if built.Err? {
      return Rejected(UnresolvedHeader(built.error)), 0, 0;
    }
    var w := WriteRequest(stream, built.value);
    written := w.n;
    if w.WriteError? {
      return Rejected(Io), written, 0;
    }
    if w.StillWriting? {
      return Suspended, written, 0;
    }
    var r, inbufs;
    r, inbufs, total := ReadResponseHead(stream);
    match r
    case StillReading => return Suspended, written, total;
    case IoError => return Rejected(Io), written, total;
    case Closed => return Rejected(ClosedBeforeResponse), written, total;
    case TooLarge => return Rejected(HeaderTooLarge), written, total;
    case Head(_) =>
      var status := ParseStatus(inbufs[..total]);
      if status.Err? {
        return Rejected(Malformed(status.error)), written, total;
      }
      return Dispatch(status.value), written, total;
  }
}
