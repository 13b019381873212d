/** Non-blocking sockets: byte streams plus an arbitrary script of operating-system answers.
    A script that has run out stands for a task that is still waiting, so every statement
    about a script is a statement about one finite prefix of a run. */
module Sockets {
  import opened Common

  /** Ready(n): the kernel moves up to n bytes. Fail: the call (or the readiness wait before it) errors. */
  datatype Answer = Ready(n: nat) | WouldBlock | Fail

  /** A ready read moves at least one byte whenever there is one and there is room for it. Any number that
      fits can come. */
  function ReadSize(n: nat, available: nat, room: nat): (k: nat)
    ensures k <= available && k <= room
    ensures k == 0 <==> available == 0 || room == 0
    ensures 0 < n <= available && n <= room ==> k == n
    ensures n >= available || n >= room ==> k == available || k == room
  {
    Min(Max(n, 1), Min(available, room))
  }

  /** A ready write may accept any number of the bytes, and nothing at all. */
  function WriteSize(n: nat, offered: nat): (k: nat)
    ensures k <= offered
    ensures if n <= offered then k == n else k == offered
  {
    Min(n, offered)
  }

  predicate NoFailure(answers: seq<Answer>) {
    Fail !in answers
  }

  function ReadyCount(answers: seq<Answer>): nat {
    if answers == [] then 0 else (if answers[0].Ready? then 1 else 0) + ReadyCount(answers[1..])
  }

  datatype IoResult = Moved(n: nat) | Blocked | Failed | Waiting

  /** How a peek ends: it sees what has arrived by the first ready answer, if that comes before a failure. */
  function PeekLoop(available: nat, limit: nat, answers: seq<Answer>): (r: IoResult)
    ensures !r.Blocked?
    ensures r.Moved? ==> r.n <= Min(available, limit) && (r.n == 0 <==> available == 0 || limit == 0)
  {
    if answers == [] then Waiting else
    match answers[0]
    case WouldBlock => PeekLoop(available, limit, answers[1..])
    case Fail => Failed
    case Ready(n) => Moved(ReadSize(n, available, limit))
  }

  predicate AllBlock(answers: seq<Answer>) {
    forall i :: 0 <= i < |answers| ==> answers[i] == WouldBlock
  }

  /** The first answer that is not "would block" decides, and nothing after it matters. */
  lemma {:induction false} PeekMeans(available: nat, limit: nat, blocked: seq<Answer>, answer: Answer,
                                     rest: seq<Answer>)
    requires AllBlock(blocked) && answer != WouldBlock
    ensures PeekLoop(available, limit, blocked) == Waiting
    ensures var r := PeekLoop(available, limit, blocked + [answer] + rest);
            && (r == Failed <==> answer == Fail)
            && (r.Moved? <==> answer.Ready?)
            && (r.Moved? ==> r.n == ReadSize(answer.n, available, limit))
  {
    var s := blocked + [answer] + rest;
    if blocked != [] {
      assert s[1..] == blocked[1..] + [answer] + rest && s[0] == blocked[0];
      PeekMeans(available, limit, blocked[1..], answer, rest);
    }
  }

  /** One TCP stream. `unread` is everything the peer still sends before it closes;
      `sent` is everything put on the wire. */
  class TcpStream {
    var unread: Text
    var sent: Text
    var readAnswers: seq<Answer>
    var writeAnswers: seq<Answer>

    constructor (unread: Text, readAnswers: seq<Answer>, writeAnswers: seq<Answer>)
      ensures this.unread == unread && sent == []
      ensures this.readAnswers == readAnswers && this.writeAnswers == writeAnswers
    {
      this.unread, this.sent := unread, [];
      this.readAnswers, this.writeAnswers := readAnswers, writeAnswers;
    }

    /** Offers `bytes` to the kernel; `Moved(0)` is a zero-length write. */
    method TryWrite(bytes: Text) returns (r: IoResult)
      modifies this`sent, this`writeAnswers
      ensures r.Waiting? <==> old(writeAnswers) == []
      ensures old(writeAnswers) == [] ==> writeAnswers == []
      ensures old(writeAnswers) != [] ==> writeAnswers == old(writeAnswers)[1..]
      ensures r.Blocked? <==> old(writeAnswers) != [] && old(writeAnswers)[0].WouldBlock?
      ensures r.Failed? <==> old(writeAnswers) != [] && old(writeAnswers)[0].Fail?
      ensures r.Moved? ==> r.n == WriteSize(old(writeAnswers)[0].n, |bytes|) && sent == old(sent) + bytes[..r.n]
      ensures !r.Moved? ==> sent == old(sent)
    {
      if writeAnswers == [] {
        return Waiting;
      }
      var answer := writeAnswers[0];
      writeAnswers := writeAnswers[1..];
      match answer
      case WouldBlock => return Blocked;
      case Fail => return Failed;
      case Ready(n) =>
        var k := WriteSize(n, |bytes|);
        sent := sent + bytes[..k];
        return Moved(k);
    }

    /** Reads into `buf[from..]`; `Moved(0)` means end of stream, or no room. */
    method TryRead(buf: array<byte>, from: nat) returns (r: IoResult)
      requires from <= buf.Length
      modifies this`unread, this`readAnswers, buf
      ensures r.Waiting? <==> old(readAnswers) == []
      ensures old(readAnswers) == [] ==> readAnswers == []
      ensures old(readAnswers) != [] ==> readAnswers == old(readAnswers)[1..]
      ensures r.Blocked? <==> old(readAnswers) != [] && old(readAnswers)[0].WouldBlock?
      ensures r.Failed? <==> old(readAnswers) != [] && old(readAnswers)[0].Fail?
      ensures r.Moved? ==> r.n == ReadSize(old(readAnswers)[0].n, |old(unread)|, buf.Length - from)
                           && buf[..from + r.n] == old(buf[..from]) + old(unread)[..r.n]
                           && unread == old(unread)[r.n..]
      ensures !r.Moved? ==> unread == old(unread) && buf[..] == old(buf[..])
    {
      if readAnswers == [] {
        return Waiting;
      }
      var answer := readAnswers[0];
      readAnswers := readAnswers[1..];
      match answer
      case WouldBlock => return Blocked;
      case Fail => return Failed;
      case Ready(n) =>
        var k := ReadSize(n, |unread|, buf.Length - from);
        forall i | 0 <= i < k {
          buf[from + i] := unread[i];
        }
        unread := unread[k..];
        return Moved(k);
    }

    /** Looks, once something has arrived, at up to `limit` bytes without consuming any. */
    method Peek(limit: nat) returns (r: IoResult, hello: Text)
      modifies this`readAnswers
      ensures r == PeekLoop(|unread|, limit, old(readAnswers))
      ensures hello == if r.Moved? then unread[..r.n] else []
    {
      while readAnswers != []
        invariant PeekLoop(|unread|, limit, readAnswers) == PeekLoop(|unread|, limit, old(readAnswers))
        decreases |readAnswers|
      {
        var answer := readAnswers[0];
        readAnswers := readAnswers[1..];
        match answer
        case WouldBlock =>
        case Fail => return Failed, [];
        case Ready(n) =>
          var k := ReadSize(n, |unread|, limit);
          return Moved(k), unread[..k];
      }
      return Waiting, [];
    }
  }
}
