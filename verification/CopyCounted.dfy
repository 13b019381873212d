/** `copy_counted` in its own imperative form, proved to run the small-step machine of module Relay. */
module CopyCounted {
  import opened Common
  import opened Sockets
  import opened Relay

  /** After one turn: go on, done, or waiting for a socket. */
  datatype Turned = More | Ended | Held

  /** The reader of one socket, the writer of the other, and the shared statistics counter. */
  class CopyTask {
    var unread: Text
    var delivered: Text
    var answers: seq<Answer>
    var counter: nat
    var shutdowns: nat

    constructor (stream: Text, answers: seq<Answer>)
      ensures View(0, Reading) == Start(stream, answers)
    {
      this.unread, this.answers := stream, answers;
      delivered, counter, shutdowns := [], 0, 0;
    }

    /** The machine state these fields and the task's local variables stand for. */
    ghost function View(total: nat, pc: Pc): Half
      reads this
    {
      Half(unread, delivered, total, counter, shutdowns, answers, pc)
    }

    /** `reader.read(&mut buf).await`; `Moved(0)` is end of stream. */
    method Read(buf: array<byte>, ghost total: nat) returns (r: IoResult, ghost steps: nat)
      requires buf.Length == CHUNK
      modifies this`unread, this`answers, buf
      ensures !r.Blocked? && (r.Moved? ==> r.n <= CHUNK)
      ensures MicroN(old(View(total, Reading)), steps) ==
              View(total, match r
                          case Moved(n) => if n == 0 then Closing(EndOfStream) else Writing(buf[..n], 0)
                          case Failed => Closing(ReadFailed)
                          case _ => Reading)
      ensures r.Waiting? ==> answers == []
      ensures r.Moved? ==> |answers| < |old(answers)|
    {
      hide MicroN;
      steps := 0;
      ghost var start := View(total, Reading);
      NoSteps(start);
      while answers != []
        invariant unread == old(unread) && |answers| <= |old(answers)|
        invariant MicroN(start, steps) == View(total, Reading)
        decreases |answers|
      {
        OneStep(start, steps);
        var answer := answers[0];
        answers := answers[1..];
        steps := steps + 1;
        match answer
        case WouldBlock =>
        case Fail => return Failed, steps;
        case Ready(n) =>
          var k := ReadSize(n, |unread|, buf.Length);
          forall i | 0 <= i < k {
            buf[i] := unread[i];
          }
          assert buf[..k] == unread[..k];
          unread := unread[k..];
          return Moved(k), steps;
      }
      return Waiting, steps;
    }

    /** `writer.write_all(&buf[..n]).await`. */
    method WriteAll(buf: array<byte>, n: nat, ghost total: nat) returns (r: IoResult, ghost done: nat, ghost steps: nat)
      requires 0 < n <= buf.Length
      modifies this`delivered, this`answers
      ensures !r.Blocked? && done <= n
      ensures MicroN(old(View(total, Writing(buf[..n], 0))), steps) ==
              View(total, match r
                          case Moved(_) => Adding(n)
                          case Failed => Closing(WriteFailed)
                          case _ => Writing(buf[..n], done))
      ensures r.Waiting? ==> answers == []
      ensures |answers| <= |old(answers)|
    {
      hide MicroN;
      var at := 0;
      steps := 0;
      ghost var chunk := buf[..n];
      ghost var start := View(total, Writing(chunk, 0));
      NoSteps(start);
      while answers != []
        invariant 0 <= at < n && chunk == buf[..n] && |answers| <= |old(answers)|
        invariant MicroN(start, steps) == View(total, Writing(chunk, at))
        decreases |answers|
      {
        OneStep(start, steps);
        var answer := answers[0];
        answers := answers[1..];
        steps := steps + 1;
        match answer
        case WouldBlock =>
        case Fail => return Failed, at, steps;
        case Ready(m) =>
          var k := WriteSize(m, n - at);
          if k == 0 {
            return Failed, at, steps;
          }
          PartOfPrefix(buf, n, at, at + k);
          delivered := delivered + buf[at..at + k];
          at := at + k;
          if at == n {
            return Moved(n), at, steps;
          }
      }
      return Waiting, at, steps;
    }

    /** `writer.shutdown().await`, its result ignored. */
    method Shutdown(ghost total: nat, ghost cause: Cause) returns (done: bool, ghost steps: nat)
      modifies this`shutdowns, this`answers
      ensures MicroN(old(View(total, Closing(cause))), steps) ==
              View(total, if done then Finished(cause) else Closing(cause))
      ensures !done ==> answers == []
    {
      hide MicroN;
      steps := 0;
      ghost var start := View(total, Closing(cause));
      NoSteps(start);
      while answers != []
        invariant shutdowns == old(shutdowns)
        invariant MicroN(start, steps) == View(total, Closing(cause))
        decreases |answers|
      {
        OneStep(start, steps);
        var answer := answers[0];
        answers := answers[1..];
        steps := steps + 1;
        if !answer.WouldBlock? {
          shutdowns := shutdowns + 1;
          return true, steps;
        }
      }
      return false, steps;
    }

    /** `total += n` and `counter.fetch_add(n)`. */
    method Account(total: nat, n: nat) returns (newTotal: nat, ghost steps: nat)
      modifies this`counter
      ensures MicroN(old(View(total, Adding(n))), steps) == View(newTotal, Reading)
    {
      newTotal := total + n;
      steps := 2;
      assert MicroN(View(total, Adding(n)), 0) == View(total, Adding(n));
      assert MicroN(View(total, Adding(n)), 1) == View(newTotal, Counting(n));
      counter := counter + n;
    }

    /** The end of a turn that leaves the loop. */
    method Close(ghost total: nat, ghost cause: Cause, ghost start: Half, ghost before: nat)
      returns (next: Turned, ghost pc: Pc, ghost steps: nat)
      requires MicroN(start, before) == View(total, Closing(cause))
      modifies this`shutdowns, this`answers
      ensures MicroN(start, steps) == View(total, pc) && Quiet(View(total, pc))
      ensures next == (if pc.Finished? then Ended else Held)
    {
      hide Micro, MicroN;
      var done, k := Shutdown(total, cause);
      MicroNAdd(start, before, k);
      steps := before + k;
      if done {
        return Ended, Finished(cause), steps;
      }
      return Held, Closing(cause), steps;
    }

    /** One turn of the copy loop. */
    method Turn(buf: array<byte>, total: nat, ghost start: Half, ghost before: nat)
      returns (next: Turned, newTotal: nat, ghost pc: Pc, ghost steps: nat)
      requires buf.Length == CHUNK && MicroN(start, before) == View(total, Reading)
      modifies this, buf
      ensures MicroN(start, steps) == View(newTotal, pc)
      ensures next.More? ==> pc == Reading && |answers| < |old(answers)|
      ensures !next.More? ==> Quiet(View(newTotal, pc))
      ensures next.Ended? <==> pc.Finished?
    {
      hide Micro, MicroN;
      ghost var k: nat;
      var io, s := Read(buf, total);
      MicroNAdd(start, before, s);
      steps := before + s;
      if io.Waiting? {
        return Held, total, Reading, steps;
      }
      if io.Failed? || io.n == 0 {
        next, pc, steps := Close(total, if io.Failed? then ReadFailed else EndOfStream, start, steps);
        return next, total, pc, steps;
      }
      var w, done, t := WriteAll(buf, io.n, total);
      MicroNAdd(start, steps, t);
      steps := steps + t;
      if w.Waiting? {
        return Held, total, Writing(buf[..io.n], done), steps;
      }
      if w.Failed? {
        next, pc, steps := Close(total, WriteFailed, start, steps);
        return next, total, pc, steps;
      }
      newTotal, k := Account(total, io.n);
      MicroNAdd(start, steps, k);
      next, pc, steps := More, Reading, steps + k;
    }

    /** Copies until the reader ends or an error. Returns the total, or None while a socket keeps it
        waiting; either way the task is where the machine is after `steps` steps. */
    method Run() returns (r: Option<nat>, ghost steps: nat, ghost pc: Pc, ghost partial: nat)
      requires delivered == [] && counter == 0 && shutdowns == 0
      modifies this
      ensures MicroN(Start(old(unread), old(answers)), steps) == View(partial, pc)
      ensures Quiet(View(partial, pc))
      ensures r.Some? <==> pc.Finished?
      ensures r.Some? ==> r.value == partial && Settled(old(unread), View(r.value, pc))
    {
      ghost var start := Start(unread, answers);
      ghost var stream := unread;
      var buf := new byte[CHUNK];
      var total: nat := 0;
      var next := More;
      pc, steps := Reading, 0;
      while next.More?
        invariant MicroN(start, steps) == View(total, pc)
        invariant next.More? ==> pc == Reading
        invariant !next.More? ==> Quiet(View(total, pc))
        invariant next.Ended? <==> pc.Finished?
        decreases next.More?, |answers|
      {
        next, total, pc, steps := Turn(buf, total, start, steps);
      }
      partial := total;
      if next.Ended? {
        FinishedIsSettled(stream, start.answers, steps);
        return Some(total), steps, pc, partial;
      }
      return None, steps, pc, partial;
    }
  }

  lemma PartOfPrefix(buf: array<byte>, n: nat, i: nat, j: nat)
    requires i <= j <= n <= buf.Length
    ensures buf[..n][i..j] == buf[i..j]
  {
  }

  lemma NoSteps(h: Half)
    ensures MicroN(h, 0) == h
  {
  }

  lemma OneStep(h: Half, n: nat)
    ensures MicroN(h, n + 1) == Micro(MicroN(h, n))
  {
  }

  /** What a finished copy of `stream` leaves behind. */
  ghost predicate Settled(stream: Text, h: Half) {
    && h.pc.Finished?
    && h.total == h.counter && h.shutdowns == 1
    && h.delivered <= stream
    && (h.pc.cause.EndOfStream? ==> h.delivered == stream && h.total == |stream|)
    && (h.pc.cause.ReadFailed? ==> h.total == |h.delivered|)
    && (h.pc.cause.WriteFailed? ==> h.total <= |h.delivered| < h.total + CHUNK)
  }

  /** Every run of the machine that finishes is settled. */
  lemma FinishedIsSettled(stream: Text, answers: seq<Answer>, n: nat)
    requires MicroN(Start(stream, answers), n).pc.Finished?
    ensures Settled(stream, MicroN(Start(stream, answers), n))
  {
    DirectionInvariant(stream, answers, n);
    ConsumedIsPrefix(stream, MicroN(Start(stream, answers), n));
  }

  // ---------------------------------------------------------------------------
  // Both directions
  // ---------------------------------------------------------------------------

  /** The relay in state `s` has done what these two tasks have done, and its join yields `totals`. */
  ghost predicate DoneBy(s: RelayState, toUpstream: CopyTask, toClient: CopyTask, totals: Option<(nat, nat)>)
    reads toUpstream, toClient
  {
    && s.tx == toUpstream.View(s.tx.total, s.tx.pc)
    && s.rx == toClient.View(s.rx.total, s.rx.pc)
    && s.joined == (if totals.Some? then Some(Ok(totals.value)) else None)
  }

  /** `relay`: one copy task for each direction, and the join of their results. Run one after the other
      they end where every fair interleaving of the two ends. */
  method RunBoth(client: Text, upstream: Text, tx: seq<Answer>, rx: seq<Answer>)
    returns (toUpstream: CopyTask, toClient: CopyTask, totals: Option<(nat, nat)>)
    ensures fresh(toUpstream) && fresh(toClient)
    ensures forall schedule | Fair(schedule, tx, rx) ::
              DoneBy(RelayRun(RelayStart(client, upstream, tx, rx), schedule + [Poll]), toUpstream, toClient, totals)
  {
    hide MicroN, Quiet, Fair, RelayRun, Settled;
    toUpstream := new CopyTask(client, tx);
    toClient := new CopyTask(upstream, rx);
    var sent, m, p, sentSoFar := toUpstream.Run();
    var received, n, q, receivedSoFar := toClient.Run();
    totals := if sent.Some? && received.Some? then Some((sent.value, received.value)) else None;
    forall schedule | Fair(schedule, tx, rx)
      ensures DoneBy(RelayRun(RelayStart(client, upstream, tx, rx), schedule + [Poll]), toUpstream, toClient, totals)
    {
      FairEnd(client, upstream, tx, rx, schedule, m, n);
    }
  }
}
