/** The bidirectional relay: two counted copy loops, interleaved arbitrarily.

    One direction is a small-step machine over its own script of socket answers; a schedule decides
    which direction moves next and when the join is polled. */
module Relay {
  import opened Common
  import opened Sockets

  /** Size of the copy buffer. */
  const CHUNK: nat := 16384

  /** How a direction ended. */
  datatype Cause = EndOfStream | ReadFailed | WriteFailed

  /** Where `copy_counted` stands. */
  datatype Pc =
    | Reading
    | Writing(chunk: Text, done: nat)
    | Adding(n: nat)
    | Counting(n: nat)
    | Closing(cause: Cause)
    | Finished(cause: Cause)

  /** One direction. `unread` is what its reader has yet to deliver, `delivered` what its writer has
      put on the wire, `counter` the shared statistics counter. */
  datatype Half = Half(
    unread: Text,
    delivered: Text,
    total: nat,
    counter: nat,
    shutdowns: nat,
    answers: seq<Answer>,
    pc: Pc)

  function Start(stream: Text, answers: seq<Answer>): Half {
    Half(stream, [], 0, 0, 0, answers, Reading)
  }

  /** One step of `copy_counted`. Without an answer the direction keeps waiting. */
  function Micro(h: Half): Half {
    match h.pc
    case Reading =>
      if h.answers == [] then h else
      var answer, h := h.answers[0], h.(answers := h.answers[1..]);
      (match answer
       case WouldBlock => h
       case Fail => h.(pc := Closing(ReadFailed))
       case Ready(n) =>
         var k := ReadSize(n, |h.unread|, CHUNK);
         if k == 0 then h.(pc := Closing(EndOfStream))
         else h.(unread := h.unread[k..], pc := Writing(h.unread[..k], 0)))
    case Writing(chunk, done) =>
      if h.answers == [] then h else
      var answer, h := h.answers[0], h.(answers := h.answers[1..]);
      (match answer
       case WouldBlock => h
       case Fail => h.(pc := Closing(WriteFailed))
       case Ready(n) =>
         var k := if done <= |chunk| then WriteSize(n, |chunk| - done) else 0;
         if k == 0 then h.(pc := Closing(WriteFailed))
         else h.(delivered := h.delivered + chunk[done..done + k],
                 pc := if done + k == |chunk| then Adding(|chunk|) else Writing(chunk, done + k)))
    case Adding(n) => h.(total := h.total + n, pc := Counting(n))
    case Counting(n) => h.(counter := h.counter + n, pc := Reading)
    case Closing(cause) =>
      if h.answers == [] then h else
      var answer, h := h.answers[0], h.(answers := h.answers[1..]);
      if answer.WouldBlock? then h else h.(shutdowns := h.shutdowns + 1, pc := Finished(cause))
    case Finished(_) => h
  }

  function MicroN(h: Half, n: nat): Half {
    if n == 0 then h else Micro(MicroN(h, n - 1))
  }

  // ---------------------------------------------------------------------------
  // One direction
  // ---------------------------------------------------------------------------

  /** The bytes handed over by the reader so far. */
  ghost function Consumed(stream: Text, h: Half): Text {
    if |h.unread| <= |stream| then stream[..|stream| - |h.unread|] else []
  }

  /** What holds between any two steps of a direction that copies `stream`. */
  ghost predicate HalfInv(stream: Text, h: Half) {
    && |h.unread| <= |stream|
    && h.unread == stream[|stream| - |h.unread|..]
    && h.delivered <= Consumed(stream, h)
    && h.counter <= h.total <= |h.delivered|
    && h.shutdowns == (if h.pc.Finished? then 1 else 0)
    && var consumed := |stream| - |h.unread|;
       match h.pc
       case Reading => h.counter == h.total == |h.delivered| == consumed
       case Writing(chunk, done) =>
         && done < |chunk| <= CHUNK
         && h.counter == h.total == |h.delivered| - done == consumed - |chunk|
         && chunk == stream[h.total..consumed]
       case Adding(n) => h.counter == h.total == consumed - n && |h.delivered| == consumed
       case Counting(n) => h.counter == h.total - n && h.total == |h.delivered| == consumed
       case Closing(cause) => EndInv(stream, h, cause)
       case Finished(cause) => EndInv(stream, h, cause)
  }

  /** What is known once a direction has ended, by cause. */
  ghost predicate EndInv(stream: Text, h: Half, cause: Cause) {
    var consumed := |stream| - |h.unread|;
    && h.counter == h.total
    && match cause
       case EndOfStream => h.unread == [] && h.total == |h.delivered| == |stream|
       case ReadFailed => h.total == |h.delivered| == consumed
       case WriteFailed => h.total <= |h.delivered| < consumed <= h.total + CHUNK
  }

  lemma StartInv(stream: Text, answers: seq<Answer>)
    ensures HalfInv(stream, Start(stream, answers))
  {
  }

  lemma SliceOfSlice(s: Text, a: nat, b: nat, c: nat, d: nat)
    requires a <= b <= |s| && c <= d <= b - a
    ensures s[a..b][c..d] == s[a + c..a + d]
  {
    assert forall i :: 0 <= i < d - c ==> s[a..b][c..d][i] == s[a + c..a + d][i];
  }

  lemma PrefixGrows(s: Text, n: nat, k: nat)
    requires n + k <= |s|
    ensures s[..n] + s[n..n + k] == s[..n + k]
  {
  }

  lemma ReadKeepsInv(stream: Text, h: Half, n: nat)
    requires HalfInv(stream, h) && h.pc.Reading? && h.answers != [] && h.answers[0] == Ready(n)
    ensures HalfInv(stream, Micro(h))
  {
    var at := |stream| - |h.unread|;
    var k := ReadSize(n, |h.unread|, CHUNK);
    SliceOfSlice(stream, at, |stream|, k, |h.unread|);
    SliceOfSlice(stream, at, |stream|, 0, k);
    assert stream[at..|stream|] == stream[at..] && h.unread[k..] == h.unread[k..|h.unread|];
    assert h.delivered == stream[..at];
    assert stream[..at] == stream[..at + k][..at];
  }

  /** What one ready write adds to the wire. */
  lemma WriteExtends(stream: Text, h: Half, n: nat)
    requires HalfInv(stream, h) && h.pc.Writing?
    ensures var consumed, k := |stream| - |h.unread|, WriteSize(n, |h.pc.chunk| - h.pc.done);
            && |h.delivered| + k <= consumed
            && h.delivered + h.pc.chunk[h.pc.done..h.pc.done + k] == stream[..consumed][..|h.delivered| + k]
  {
    hide EndInv, Min;
    var consumed, done, sent := |stream| - |h.unread|, h.pc.done, |h.delivered|;
    var k := WriteSize(n, |h.pc.chunk| - done);
    SliceOfSlice(stream, h.total, consumed, done, done + k);
    SliceOfSlice(stream, 0, consumed, 0, sent);
    SliceOfSlice(stream, 0, consumed, 0, sent + k);
    PrefixGrows(stream, sent, k);
  }

  lemma WriteKeepsInv(stream: Text, h: Half, n: nat)
    requires HalfInv(stream, h) && h.pc.Writing? && h.answers != [] && h.answers[0] == Ready(n)
    ensures HalfInv(stream, Micro(h))
  {
    WriteExtends(stream, h, n);
  }

  lemma MicroKeepsInv(stream: Text, h: Half)
    requires HalfInv(stream, h)
    ensures HalfInv(stream, Micro(h))
  {
    if h.answers != [] && h.answers[0].Ready? && h.pc.Reading? {
      ReadKeepsInv(stream, h, h.answers[0].n);
    } else if h.answers != [] && h.answers[0].Ready? && h.pc.Writing? {
      WriteKeepsInv(stream, h, h.answers[0].n);
    }
  }

  lemma ConsumedIsPrefix(stream: Text, h: Half)
    requires HalfInv(stream, h)
    ensures h.delivered <= stream
    ensures h.pc == Finished(EndOfStream) ==> h.delivered == stream
  {
    var c := Consumed(stream, h);
    assert h.delivered == c[..|h.delivered|] == stream[..|h.delivered|];
  }

  /** In every state a direction reaches, whatever its sockets answer: delivered bytes are a prefix of
      the bytes read, which are a prefix of the stream, and counter <= total <= delivered. */
  lemma {:induction false} DirectionInvariant(stream: Text, answers: seq<Answer>, n: nat)
    ensures HalfInv(stream, MicroN(Start(stream, answers), n))
  {
    if n == 0 {
      StartInv(stream, answers);
    } else {
      DirectionInvariant(stream, answers, n - 1);
      MicroKeepsInv(stream, MicroN(Start(stream, answers), n - 1));
    }
  }

  lemma {:induction false} MicroNAdd(h: Half, m: nat, n: nat)
    ensures MicroN(MicroN(h, m), n) == MicroN(h, m + n)
  {
    hide Micro;
    if n > 0 {
      MicroNAdd(h, m, n - 1);
    }
  }

  /** `b` is a later state than `a`: both counters, the delivered bytes and the shutdown count only
      grow; once the copy loop is left its cause and the wire are fixed; after the shutdown, which
      happens at most once, nothing changes at all. */
  ghost predicate Later(a: Half, b: Half) {
    && a.total <= b.total && a.counter <= b.counter && a.delivered <= b.delivered
    && a.shutdowns <= b.shutdowns <= 1
    && (a.shutdowns == 1 ==> b == a)
    && (a.pc.Closing? ==> (b.pc.Closing? || b.pc.Finished?) && b.pc.cause == a.pc.cause
                          && b.delivered == a.delivered && b.total == a.total)
  }

  lemma {:induction false} DirectionMonotone(stream: Text, h: Half, n: nat)
    requires HalfInv(stream, h)
    ensures HalfInv(stream, MicroN(h, n)) && Later(h, MicroN(h, n))
  {
    if n > 0 {
      DirectionMonotone(stream, h, n - 1);
      var a := MicroN(h, n - 1);
      MicroKeepsInv(stream, a);
      assert Later(a, Micro(a));
    }
  }

  // --- progress -------------------------------------------------------------

  /** A direction that can no longer move: finished, or waiting for its socket. */
  ghost predicate Quiet(h: Half) {
    h.pc.Finished? || (h.answers == [] && (h.pc.Reading? || h.pc.Writing? || h.pc.Closing?))
  }

  ghost function StepsLeft(h: Half): nat {
    4 * |h.answers| +
    match h.pc
    case Reading => 2
    case Writing(_, _) => 2
    case Adding(_) => 4
    case Counting(_) => 3
    case Closing(_) => 0
    case Finished(_) => 0
  }

  lemma MicroProgress(h: Half)
    ensures Quiet(h) ==> Micro(h) == h
    ensures !Quiet(h) ==> StepsLeft(Micro(h)) < StepsLeft(h)
  {
  }

  lemma {:induction false} StepsAreSpent(h: Half, n: nat)
    requires !Quiet(MicroN(h, n))
    ensures StepsLeft(MicroN(h, n)) + n <= StepsLeft(h)
  {
    if n > 0 {
      MicroProgress(MicroN(h, n - 1));
      StepsAreSpent(h, n - 1);
    }
  }

  /** A direction comes to rest within a number of steps linear in the answers it gets. */
  lemma DirectionRests(h: Half, n: nat)
    requires n >= StepsLeft(h)
    ensures Quiet(MicroN(h, n))
  {
    if !Quiet(MicroN(h, n)) {
      StepsAreSpent(h, n);
    }
  }

  // --- completeness -----------------------------------------------------------

  /** The answers a direction has had so far. */
  ghost function Used(answers: seq<Answer>, h: Half): seq<Answer> {
    if |h.answers| <= |answers| then answers[..|answers| - |h.answers|] else []
  }

  /** While a direction copies, no failure has come. It closes at the first failure, at a zero-length write,
      or at the end of its stream, and it has finished once the shutdown got an answer. */
  ghost predicate TraceInv(answers: seq<Answer>, h: Half) {
    && |h.answers| <= |answers| && h.answers == answers[|answers| - |h.answers|..]
    && var used := Used(answers, h);
       match h.pc
       case Closing(cause) => exists n :: 0 <= n <= |used| && ClosedAfter(used, n, cause) && AllBlock(used[n..])
       case Finished(cause) =>
         && used != [] && used[|used| - 1] != WouldBlock
         && exists n :: 0 <= n < |used| && ClosedAfter(used, n, cause) && AllBlock(used[n..|used| - 1])
       case _ => Fail !in used
  }

  /** The `n`-th answer is the one that ended the copying. */
  ghost predicate ClosedAfter(used: seq<Answer>, n: nat, cause: Cause)
    requires n <= |used|
  {
    && n > 0 && Fail !in used[..n - 1]
    && match cause
       case EndOfStream => used[n - 1].Ready?
       case ReadFailed => used[n - 1] == Fail
       case WriteFailed => used[n - 1] == Fail || used[n - 1] == Ready(0)
  }

  lemma UsedGrows(answers: seq<Answer>, h: Half, t: Half)
    requires |h.answers| <= |answers| && h.answers == answers[|answers| - |h.answers|..]
    requires h.answers != [] && t.answers == h.answers[1..]
    ensures |t.answers| <= |answers| && t.answers == answers[|answers| - |t.answers|..]
    ensures Used(answers, t) == Used(answers, h) + [h.answers[0]]
  {
  }

  lemma AnswerWhileClosing(used: seq<Answer>, n: nat, cause: Cause, answer: Answer)
    requires n <= |used| && ClosedAfter(used, n, cause) && AllBlock(used[n..])
    ensures var more := used + [answer];
            && ClosedAfter(more, n, cause) && AllBlock(more[n..|more| - 1])
            && (answer == WouldBlock ==> AllBlock(more[n..]))
  {
    var more := used + [answer];
    assert more[..n - 1] == used[..n - 1] && more[n - 1] == used[n - 1] && more[n..|more| - 1] == used[n..];
    assert more[n..] == used[n..] + [answer];
  }

  lemma ClosingKeepsTrace(answers: seq<Answer>, h: Half)
    requires TraceInv(answers, h) && h.pc.Closing?
    ensures TraceInv(answers, Micro(h))
  {
    hide ClosedAfter, AllBlock;
    if h.answers != [] {
      var t, used := Micro(h), Used(answers, h);
      UsedGrows(answers, h, t);
      var n :| 0 <= n <= |used| && ClosedAfter(used, n, h.pc.cause) && AllBlock(used[n..]);
      AnswerWhileClosing(used, n, h.pc.cause, h.answers[0]);
      assert Used(answers, t) == used + [h.answers[0]];
    }
  }

  /** The answer that ends the copying. */
  lemma LastAnswer(used: seq<Answer>, answer: Answer, cause: Cause)
    requires Fail !in used
    requires match cause
             case EndOfStream => answer.Ready?
             case ReadFailed => answer == Fail
             case WriteFailed => answer == Fail || answer == Ready(0)
    ensures var more := used + [answer]; ClosedAfter(more, |more|, cause) && AllBlock(more[|more|..])
  {
    var more := used + [answer];
    assert more[..|more| - 1] == used;
  }

  lemma CopyingKeepsTrace(answers: seq<Answer>, h: Half)
    requires TraceInv(answers, h) && (h.pc.Reading? || h.pc.Writing?)
    requires h.pc.Writing? ==> h.pc.done < |h.pc.chunk|
    ensures TraceInv(answers, Micro(h))
  {
    hide ClosedAfter, AllBlock;
    if h.answers != [] {
      var t, used := Micro(h), Used(answers, h);
      UsedGrows(answers, h, t);
      if t.pc.Closing? {
        LastAnswer(used, h.answers[0], t.pc.cause);
      }
    }
  }

  lemma MicroKeepsTrace(answers: seq<Answer>, h: Half)
    requires TraceInv(answers, h) && (h.pc.Writing? ==> h.pc.done < |h.pc.chunk|)
    ensures TraceInv(answers, Micro(h))
  {
    match h.pc
    case Reading => CopyingKeepsTrace(answers, h);
    case Writing(_, _) => CopyingKeepsTrace(answers, h);
    case Closing(_) => ClosingKeepsTrace(answers, h);
    case _ =>
  }

  lemma {:induction false} TraceAlways(stream: Text, answers: seq<Answer>, n: nat)
    ensures TraceInv(answers, MicroN(Start(stream, answers), n))
  {
    hide Micro, TraceInv;
    if n == 0 {
      TraceStarts(stream, answers);
    } else {
      TraceAlways(stream, answers, n - 1);
      DirectionInvariant(stream, answers, n - 1);
      MicroKeepsTrace(answers, MicroN(Start(stream, answers), n - 1));
    }
  }

  lemma TraceStarts(stream: Text, answers: seq<Answer>)
    ensures TraceInv(answers, Start(stream, answers))
  {
  }

  /** A read error, and a write error or zero-length write, end a copy, and nothing else does before the end
      of the stream: WouldBlock never does. */
  lemma CauseMeans(stream: Text, answers: seq<Answer>, n: nat)
    ensures var h := MicroN(Start(stream, answers), n);
            && (!h.pc.Closing? && !h.pc.Finished? ==> Fail !in Used(answers, h))
            && (h.pc.Closing? || h.pc.Finished? ==>
                  && (h.pc.cause.EndOfStream? ==> h.delivered == stream)
                  && (h.pc.cause.ReadFailed? ==> Fail in answers)
                  && (h.pc.cause.WriteFailed? ==> Fail in answers || Ready(0) in answers))
  {
    TraceAlways(stream, answers, n);
    DirectionInvariant(stream, answers, n);
    var h := MicroN(Start(stream, answers), n);
    if h.pc.Closing? || h.pc.Finished? {
      var used := Used(answers, h);
      var m :| 0 <= m <= |used| && ClosedAfter(used, m, h.pc.cause);
      assert used[m - 1] in answers;
      assert h.delivered == Consumed(stream, h)[..|h.delivered|] == stream[..|h.delivered|];
    }
  }

  /** In every run, the first failure or zero-length write while a chunk is being written ends the copy, with
      nothing more on the wire, and so does the first failure of a read. */
  lemma ErrorsEndCopy(stream: Text, answers: seq<Answer>, n: nat)
    requires var h := MicroN(Start(stream, answers), n);
             && h.answers != []
             && ((h.pc.Writing? && (h.answers[0] == Fail || h.answers[0] == Ready(0)))
                 || (h.pc.Reading? && h.answers[0] == Fail))
    ensures var h, t := MicroN(Start(stream, answers), n), MicroN(Start(stream, answers), n + 1);
            && t.pc == Closing(if h.pc.Reading? then ReadFailed else WriteFailed)
            && t.delivered == h.delivered && t.total == h.total && t.unread == h.unread
  {
    hide MicroN;
    DirectionInvariant(stream, answers, n);
    MicroNStep(Start(stream, answers), n);
  }

  lemma MicroNStep(h: Half, n: nat)
    ensures MicroN(h, n + 1) == Micro(MicroN(h, n))
  {
  }

  /** Both sockets serve a copy of `size` bytes to its end. */
  predicate Serves(answers: seq<Answer>, size: nat) {
    Fail !in answers && Ready(0) !in answers && ReadyCount(answers) >= 2 * size + 2
  }

  /** How many ready answers the rest of an undisturbed copy takes at most. */
  ghost function Need(h: Half): int {
    match h.pc
    case Reading => 2 * |h.unread| + 2
    case Writing(chunk, done) => 2 * |h.unread| + |chunk| - done + 2
    case Adding(_) => 2 * |h.unread| + 2
    case Counting(_) => 2 * |h.unread| + 2
    case Closing(_) => 1
    case Finished(_) => 0
  }

  ghost predicate Supplied(h: Half) {
    && Fail !in h.answers && Ready(0) !in h.answers && ReadyCount(h.answers) >= Need(h)
    && (h.pc.Closing? || h.pc.Finished? ==> h.pc.cause.EndOfStream?)
    && (h.pc.Writing? ==> h.pc.done < |h.pc.chunk|)
  }

  lemma MicroKeepsSupplied(h: Half)
    requires Supplied(h)
    ensures Supplied(Micro(h))
  {
    if h.answers != [] {
      assert h.answers[0] in h.answers && forall a :: a in h.answers[1..] ==> a in h.answers;
    }
  }

  lemma {:induction false} SuppliedAlways(h: Half, n: nat)
    requires Supplied(h)
    ensures Supplied(MicroN(h, n))
  {
    hide Micro, Supplied;
    if n > 0 {
      SuppliedAlways(h, n - 1);
      MicroKeepsSupplied(MicroN(h, n - 1));
    }
  }

  /** Every byte arrives: a direction whose sockets keep serving it delivers its whole stream, counts it and
      shuts its writer down. */
  lemma CopyCompletes(stream: Text, answers: seq<Answer>, n: nat)
    requires Serves(answers, |stream|) && n >= 4 * |answers| + 2
    ensures var h := MicroN(Start(stream, answers), n);
            && h.pc == Finished(EndOfStream) && h.delivered == stream && h.unread == []
            && h.total == h.counter == |stream| && h.shutdowns == 1
  {
    hide Micro, MicroN;
    var h := MicroN(Start(stream, answers), n);
    DirectionRests(Start(stream, answers), n);
    SuppliedAlways(Start(stream, answers), n);
    DirectionInvariant(stream, answers, n);
    assert h.answers == [] ==> ReadyCount(h.answers) == 0;
    ConsumedIsPrefix(stream, h);
  }

  /** A read takes up to 16384 bytes, and all of them if they are there. */
  lemma ReadsFillBuffer(stream: Text, answers: seq<Answer>, n: nat)
    requires answers != [] && answers[0] == Ready(n) && n >= 16384 && stream != []
    ensures Micro(Start(stream, answers)).pc == Writing(stream[..Min(16384, |stream|)], 0)
  {
  }

  /** Any answer but WouldBlock completes the shutdown, a failure too. */
  lemma {:induction false} ShutdownCompletes(h: Half, n: nat)
    requires h.pc.Closing? && n < |h.answers| && AllBlock(h.answers[..n]) && h.answers[n] != WouldBlock
    ensures MicroN(h, n + 1) == h.(answers := h.answers[n + 1..], shutdowns := h.shutdowns + 1,
                                   pc := Finished(h.pc.cause))
  {
    WaitsToClose(h, n);
    assert h.answers[n..][1..] == h.answers[n + 1..];
  }

  lemma {:induction false} WaitsToClose(h: Half, n: nat)
    requires h.pc.Closing? && n <= |h.answers| && AllBlock(h.answers[..n])
    ensures MicroN(h, n) == h.(answers := h.answers[n..])
  {
    if n == 0 {
      assert h.answers[0..] == h.answers;
    } else {
      assert AllBlock(h.answers[..n - 1]) && h.answers[..n][n - 1] == WouldBlock;
      WaitsToClose(h, n - 1);
      assert h.answers[n - 1..][1..] == h.answers[n..];
    }
  }

  // ---------------------------------------------------------------------------
  // Both directions and the join
  // ---------------------------------------------------------------------------

  /** StepTx: inbound to outbound moves. StepRx: outbound to inbound moves. Poll: the join looks. */
  datatype Act = StepTx | StepRx | Poll

  /** What a copy future yields; `None` while it is running. */
  function Output(h: Half): Option<Result<nat, Cause>> {
    match h.pc
    case Finished(_) => Some(Ok(h.total))
    case _ => None
  }

  /** `joined` is what `try_join` resolved to. Once it resolved, both futures are gone. */
  datatype RelayState = RelayState(tx: Half, rx: Half, joined: Option<Result<(nat, nat), Cause>>)

  /** `try_join`: the first error wins at once, success needs both. */
  function TryJoin(tx: Option<Result<nat, Cause>>, rx: Option<Result<nat, Cause>>): Option<Result<(nat, nat), Cause>> {
    match (tx, rx)
    case (Some(Err(e)), _) => Some(Err(e))
    case (_, Some(Err(e))) => Some(Err(e))
    case (Some(Ok(a)), Some(Ok(b))) => Some(Ok((a, b)))
    case _ => None
  }

  /** The join resolves to an error as soon as one side has one, to both values when both are there, and waits
      otherwise. */
  lemma JoinMeans(tx: Option<Result<nat, Cause>>, rx: Option<Result<nat, Cause>>, a: nat, b: nat)
    ensures TryJoin(tx, rx) == Some(Ok((a, b))) <==> tx == Some(Ok(a)) && rx == Some(Ok(b))
    ensures TryJoin(tx, rx).None? <==>
            (tx.None? && (rx.None? || rx.value.Ok?)) || (rx.None? && tx.Some? && tx.value.Ok?)
    ensures tx.Some? && tx.value.Err? ==> TryJoin(tx, rx) == Some(Err(tx.value.error))
    ensures rx.Some? && rx.value.Err? && (tx.None? || tx.value.Ok?) ==> TryJoin(tx, rx) == Some(Err(rx.value.error))
  {
  }

  function RelayStep(r: RelayState, act: Act): RelayState {
    if r.joined.Some? then r else
    match act
    case StepTx => r.(tx := Micro(r.tx))
    case StepRx => r.(rx := Micro(r.rx))
    case Poll => r.(joined := TryJoin(Output(r.tx), Output(r.rx)))
  }

  function RelayRun(r: RelayState, schedule: seq<Act>): RelayState {
    if schedule == [] then r else RelayStep(RelayRun(r, schedule[..|schedule| - 1]), schedule[|schedule| - 1])
  }

  function RelayStart(client: Text, upstream: Text, tx: seq<Answer>, rx: seq<Answer>): RelayState {
    RelayState(Start(client, tx), Start(upstream, rx), None)
  }

  function Count(schedule: seq<Act>, act: Act): nat {
    if schedule == [] then 0
    else Count(schedule[..|schedule| - 1], act) + (if schedule[|schedule| - 1] == act then 1 else 0)
  }

  /** In `s` each direction is exactly where it would be had it run alone from `r` for `m` and `n`
      steps, and the join has resolved only to the two totals of two finished directions. */
  ghost predicate RunAlone(r: RelayState, m: nat, n: nat, s: RelayState) {
    && s.tx == MicroN(r.tx, m)
    && s.rx == MicroN(r.rx, n)
    && (s.joined.Some? ==> s.tx.pc.Finished? && s.rx.pc.Finished? && s.joined == Some(Ok((s.tx.total, s.rx.total))))
  }

  lemma StepRunsAlone(r: RelayState, m: nat, n: nat, s: RelayState, act: Act)
    requires RunAlone(r, m, n, s)
    ensures RunAlone(r, if act == StepTx then m + 1 else m, if act == StepRx then n + 1 else n, RelayStep(s, act))
  {
    match act
    case StepTx => assert MicroN(r.tx, m + 1) == Micro(s.tx);
    case StepRx => assert MicroN(r.rx, n + 1) == Micro(s.rx);
    case Poll =>
  }

  /** Neither direction is ever cut or disturbed by the other, whatever the schedule. */
  lemma {:induction false} DirectionsIndependent(r: RelayState, schedule: seq<Act>)
    requires r.joined.None?
    ensures RunAlone(r, Count(schedule, StepTx), Count(schedule, StepRx), RelayRun(r, schedule))
  {
    if schedule != [] {
      var before, act := schedule[..|schedule| - 1], schedule[|schedule| - 1];
      DirectionsIndependent(r, before);
      var m, n, s := Count(before, StepTx), Count(before, StepRx), RelayRun(r, before);
      StepRunsAlone(r, m, n, s, act);
      assert Count(schedule, StepTx) == if act == StepTx then m + 1 else m;
      assert Count(schedule, StepRx) == if act == StepRx then n + 1 else n;
      assert RelayRun(r, schedule) == RelayStep(s, act);
    }
  }

  /** What the caller of `relay` gets, for every schedule and every behaviour of the two sockets. */
  lemma RelayResult(client: Text, upstream: Text, tx: seq<Answer>, rx: seq<Answer>, schedule: seq<Act>)
    ensures var s := RelayRun(RelayStart(client, upstream, tx, rx), schedule);
            && HalfInv(client, s.tx) && HalfInv(upstream, s.rx)
            && (s.joined.Some? ==>
                  && s.joined == Some(Ok((s.tx.counter, s.rx.counter)))
                  && s.tx.shutdowns == 1 && s.rx.shutdowns == 1
                  && EndInv(client, s.tx, s.tx.pc.cause) && EndInv(upstream, s.rx, s.rx.pc.cause))
  {
    DirectionsIndependent(RelayStart(client, upstream, tx, rx), schedule);
    DirectionInvariant(client, tx, Count(schedule, StepTx));
    DirectionInvariant(upstream, rx, Count(schedule, StepRx));
  }

  /** Each direction gets all the turns it can use. */
  ghost predicate Fair(schedule: seq<Act>, tx: seq<Answer>, rx: seq<Answer>) {
    Count(schedule, StepTx) >= 4 * |tx| + 2 && Count(schedule, StepRx) >= 4 * |rx| + 2
  }

  function Repeat(act: Act, n: nat): seq<Act> {
    if n == 0 then [] else Repeat(act, n - 1) + [act]
  }

  lemma {:induction false} CountRepeat(before: seq<Act>, act: Act, n: nat, other: Act)
    ensures Count(before + Repeat(act, n), other) == Count(before, other) + (if other == act then n else 0)
  {
    var s := before + Repeat(act, n);
    if n == 0 {
      assert s == before;
    } else {
      assert s[..|s| - 1] == before + Repeat(act, n - 1) && s[|s| - 1] == act;
      CountRepeat(before, act, n - 1, other);
    }
  }

  lemma SomeFair(tx: seq<Answer>, rx: seq<Answer>) returns (schedule: seq<Act>)
    ensures Fair(schedule, tx, rx)
  {
    hide Count, Repeat;
    var first := [] + Repeat(StepTx, 4 * |tx| + 2);
    schedule := first + Repeat(StepRx, 4 * |rx| + 2);
    CountRepeat([], StepTx, 4 * |tx| + 2, StepTx);
    CountRepeat(first, StepRx, 4 * |rx| + 2, StepTx);
    CountRepeat(first, StepRx, 4 * |rx| + 2, StepRx);
  }

  lemma {:induction false} QuietStays(h: Half, n: nat)
    requires Quiet(h)
    ensures MicroN(h, n) == h
  {
    if n > 0 {
      QuietStays(h, n - 1);
      MicroProgress(h);
    }
  }

  /** A direction comes to rest in one state only. */
  lemma RestsInOne(h: Half, a: nat, b: nat)
    requires Quiet(MicroN(h, a)) && Quiet(MicroN(h, b))
    ensures MicroN(h, a) == MicroN(h, b)
  {
    hide Micro, MicroN, Quiet;
    if a <= b {
      MicroNAdd(h, a, b - a);
      QuietStays(MicroN(h, a), b - a);
    } else {
      MicroNAdd(h, b, a - b);
      QuietStays(MicroN(h, b), a - b);
    }
  }

  /** Every fair schedule ends alike: both directions where they rest alone, and the join looking at that. */
  lemma FairEnd(client: Text, upstream: Text, tx: seq<Answer>, rx: seq<Answer>, schedule: seq<Act>, m: nat, n: nat)
    requires Fair(schedule, tx, rx)
    requires Quiet(MicroN(Start(client, tx), m)) && Quiet(MicroN(Start(upstream, rx), n))
    ensures var a, b := MicroN(Start(client, tx), m), MicroN(Start(upstream, rx), n);
            RelayRun(RelayStart(client, upstream, tx, rx), schedule + [Poll])
            == RelayState(a, b, TryJoin(Output(a), Output(b)))
  {
    hide Micro, MicroN, Quiet;
    var r := RelayStart(client, upstream, tx, rx);
    DirectionsIndependent(r, schedule);
    DirectionRests(r.tx, Count(schedule, StepTx));
    DirectionRests(r.rx, Count(schedule, StepRx));
    RestsInOne(r.tx, m, Count(schedule, StepTx));
    RestsInOne(r.rx, n, Count(schedule, StepRx));
    assert (schedule + [Poll])[..|schedule|] == schedule;
  }

  /** The relay returns under every fair schedule, unless a socket stays silent for ever. */
  lemma RelayReturns(client: Text, upstream: Text, tx: seq<Answer>, rx: seq<Answer>, schedule: seq<Act>)
    requires Fair(schedule, tx, rx)
    ensures var s := RelayRun(RelayStart(client, upstream, tx, rx), schedule + [Poll]);
            s.joined.Some? || (s.tx.answers == [] && !s.tx.pc.Finished?) || (s.rx.answers == [] && !s.rx.pc.Finished?)
  {
    var m, n := 4 * |tx| + 2, 4 * |rx| + 2;
    DirectionRests(Start(client, tx), m);
    DirectionRests(Start(upstream, rx), n);
    FairEnd(client, upstream, tx, rx, schedule, m, n);
  }

  /** Under every fair schedule a relay whose sockets keep serving it returns with everything delivered. */
  lemma RelayCompletes(client: Text, upstream: Text, tx: seq<Answer>, rx: seq<Answer>, schedule: seq<Act>)
    requires Fair(schedule, tx, rx) && Serves(tx, |client|) && Serves(rx, |upstream|)
    ensures var s := RelayRun(RelayStart(client, upstream, tx, rx), schedule + [Poll]);
            && s.joined == Some(Ok((|client|, |upstream|)))
            && s.tx.pc == Finished(EndOfStream) && s.tx.delivered == client
            && s.rx.pc == Finished(EndOfStream) && s.rx.delivered == upstream
  {
    hide Micro, MicroN;
    var m, n := 4 * |tx| + 2, 4 * |rx| + 2;
    CopyCompletes(client, tx, m);
    CopyCompletes(upstream, rx, n);
    FairEnd(client, upstream, tx, rx, schedule, m, n);
  }
}
