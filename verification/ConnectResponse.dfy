/** The CONNECT response: accumulating the head from arbitrary TCP reads and parsing its status. */
module ConnectResponse {
  import opened Common
  import opened Sockets
  import opened ConnectRequest

  /** Size of the response buffer. */
  const LIMIT: nat := 16384

  // ---------------------------------------------------------------------------
  // Status line
  // ---------------------------------------------------------------------------

  /** ASCII white space, as `split_whitespace` sees it. */
  predicate IsSpace(b: byte) {
    9 <= b <= 13 || b == 32
  }

  predicate IsDigit(b: byte) {
    48 <= b <= 57
  }

  function TrimStart(s: Text): (r: Text)
    ensures |r| <= |s| && (r != [] ==> !IsSpace(r[0]))
  {
    if s == [] || !IsSpace(s[0]) then s else TrimStart(s[1..])
  }

  function TokenLength(s: Text): (n: nat)
    ensures n <= |s| && (forall i :: 0 <= i < n ==> !IsSpace(s[i])) && (n < |s| ==> IsSpace(s[n]))
    ensures s != [] && !IsSpace(s[0]) ==> n > 0
  {
    if s == [] || IsSpace(s[0]) then 0 else 1 + TokenLength(s[1..])
  }

  /** The non-blank runs of `s`, in order. */
  function Tokens(s: Text): seq<Text>
    decreases |s|
  {
    var t := TrimStart(s);
    if t == [] then [] else [t[..TokenLength(t)]] + Tokens(t[TokenLength(t)..])
  }

  /** Decimal digits into a 16-bit accumulator: None on a bad digit or on overflow. */
  function Accumulate(acc: nat, s: Text): (r: Option<nat>)
    decreases |s|
  {
    if s == [] then Some(acc)
    else if !IsDigit(s[0]) || acc * 10 + (s[0] as int - 48) > 65535 then None
    else Accumulate(acc * 10 + (s[0] as int - 48), s[1..])
  }

  /** `str::parse::<u16>`: an optional `+`, then at least one digit. */
  function ParseU16(s: Text): Option<nat> {
    var digits := if |s| > 1 && s[0] == 43 then s[1..] else s;
    if digits == [] then None else Accumulate(0, digits)
  }

  datatype StatusError = NoStatusCode | BadStatus(token: Text)

  function ParseStatus(buf: Text): Result<nat, StatusError> {
    var tokens := Tokens(buf);
    if |tokens| < 2 then Err(NoStatusCode) else
    match ParseU16(tokens[1])
    case None => Err(BadStatus(tokens[1]))
    case Some(v) => Ok(v)
  }

  /** Unbounded decimal value, the reference for the bounded accumulator. */
  ghost function DecimalValue(acc: nat, s: Text): (v: nat)
    requires forall b :: b in s ==> IsDigit(b)
    ensures v >= acc
    decreases |s|
  {
    if s == [] then acc else
      assert s[0] in s && IsDigit(s[0]);
      var d := s[0] as int - 48;
      assert acc * 10 + d >= acc;
      DecimalValue(acc * 10 + d, s[1..])
  }

  lemma {:induction false} AccumulateIsDecimal(acc: nat, s: Text)
    requires acc <= 65535
    ensures Accumulate(acc, s) ==
            if (forall b :: b in s ==> IsDigit(b)) && DecimalValue(acc, s) <= 65535
            then Some(DecimalValue(acc, s)) else None
    decreases |s|
  {
    if s != [] && IsDigit(s[0]) {
      var next: nat := acc * 10 + (s[0] as int - 48);
      assert s == [s[0]] + s[1..];
      if next <= 65535 {
        AccumulateIsDecimal(next, s[1..]);
      }
    } else if s != [] {
      assert s[0] in s;
    }
  }

  /** The status is accepted exactly when it is an optional `+` and digits of value at most 65535,
      leading zeros included. */
  lemma ParseU16Meaning(s: Text, v: nat)
    ensures ParseU16(s) == Some(v) <==>
            var digits := if |s| > 1 && s[0] == 43 then s[1..] else s;
            digits != [] && (forall b :: b in digits ==> IsDigit(b)) && DecimalValue(0, digits) == v <= 65535
  {
    AccumulateIsDecimal(0, if |s| > 1 && s[0] == 43 then s[1..] else s);
  }

  // --- tokens and concatenation ---------------------------------------------

  lemma {:induction false} TrimStartConcat(a: Text, b: Text)
    ensures TrimStart(a) != [] ==> TrimStart(a + b) == TrimStart(a) + b
    ensures TrimStart(a) == [] ==> TrimStart(a + b) == TrimStart(b)
  {
    if a == [] {
      assert a + b == b;
    } else if IsSpace(a[0]) {
      assert (a + b)[1..] == a[1..] + b;
      TrimStartConcat(a[1..], b);
    }
  }

  lemma {:induction false} TokenLengthConcat(a: Text, b: Text)
    ensures TokenLength(a) < |a| ==> TokenLength(a + b) == TokenLength(a)
    ensures TokenLength(a) == |a| ==> TokenLength(a + b) == |a| + TokenLength(b)
  {
    if a == [] {
      assert a + b == b;
    } else if !IsSpace(a[0]) {
      assert (a + b)[1..] == a[1..] + b;
      TokenLengthConcat(a[1..], b);
    }
  }

  lemma {:induction false} TrimStartLast(s: Text)
    requires s != [] && TrimStart(s) != []
    ensures TrimStart(s)[|TrimStart(s)| - 1] == s[|s| - 1]
  {
    if IsSpace(s[0]) {
      TrimStartLast(s[1..]);
    }
  }

  /** The first token and what follows it, when more text is appended behind a later blank. */
  lemma FirstToken(t: Text, b: Text, n: nat)
    requires t != [] && !IsSpace(t[0]) && n == TokenLength(t) < |t|
    ensures Tokens(t) == [t[..n]] + Tokens(t[n..])
    ensures Tokens(t + b) == [t[..n]] + Tokens(t[n..] + b)
  {
    TokenLengthConcat(t, b);
    assert TrimStart(t) == t && TrimStart(t + b) == t + b;
    assert (t + b)[..n] == t[..n] && (t + b)[n..] == t[n..] + b;
  }

  lemma {:induction false} TokensTrim(s: Text)
    ensures Tokens(s) == Tokens(TrimStart(s))
  {
    TrimTwice(s);
  }

  lemma {:induction false} TrimTwice(s: Text)
    ensures TrimStart(TrimStart(s)) == TrimStart(s)
  {
    if s != [] && IsSpace(s[0]) {
      TrimTwice(s[1..]);
    }
  }

  /** Text that ends in white space is cut off cleanly from whatever follows. */
  lemma {:induction false} TokensConcat(a: Text, b: Text)
    requires a != [] ==> IsSpace(a[|a| - 1])
    ensures Tokens(a + b) == Tokens(a) + Tokens(b)
    decreases |a|
  {
    hide Tokens, TrimStart, TokenLength;
    var t := TrimStart(a);
    if t == [] {
      TokensNil(a, b);
    } else {
      TrimStartConcat(a, b);
      TrimStartLast(a);
      TokensTrim(a);
      TokensTrim(a + b);
      var n := TokenLength(t);
      FirstToken(t, b, n);
      TokensConcat(t[n..], b);
    }
  }

  lemma TokensNil(a: Text, b: Text)
    requires TrimStart(a) == []
    ensures Tokens(a) == [] && Tokens(a + b) == Tokens(b)
  {
    TrimStartConcat(a, b);
  }

  /** More text never means fewer tokens. */
  lemma {:induction false} TokensGrow(a: Text, b: Text)
    ensures |Tokens(a)| <= |Tokens(a + b)|
    decreases |a|
  {
    var t := TrimStart(a);
    TrimStartConcat(a, b);
    if t != [] {
      var n := TokenLength(t);
      TokenLengthConcat(t, b);
      if n < |t| {
        assert (t + b)[n..] == t[n..] + b;
        TokensGrow(t[n..], b);
      } else {
        assert t[n..] == [];
        assert Tokens(t[n..]) == [];
      }
    }
  }

  // --- ordinary status lines ------------------------------------------------------

  /** Tab, line feed, vertical tab, form feed, carriage return, space. */
  predicate Blank(b: byte) {
    b as int in {9, 10, 11, 12, 13, 32}
  }

  predicate AllBlank(s: Text) {
    forall i :: 0 <= i < |s| ==> Blank(s[i])
  }

  /** A non-empty piece of text without blanks. */
  predicate Word(s: Text) {
    s != [] && forall i :: 0 <= i < |s| ==> !Blank(s[i])
  }

  predicate Digits(s: Text) {
    forall i :: 0 <= i < |s| ==> '0' as int <= s[i] as int <= '9' as int
  }

  lemma {:induction false} TrimBlanks(blanks: Text, s: Text)
    requires AllBlank(blanks)
    ensures TrimStart(blanks + s) == TrimStart(s)
  {
    if blanks == [] {
      assert blanks + s == s;
    } else {
      assert (blanks + s)[1..] == blanks[1..] + s;
      TrimBlanks(blanks[1..], s);
    }
  }

  lemma {:induction false} WordLength(word: Text, rest: Text)
    requires forall i :: 0 <= i < |word| ==> !Blank(word[i])
    requires rest != [] ==> Blank(rest[0])
    ensures TokenLength(word + rest) == |word|
  {
    if word == [] {
      assert word + rest == rest;
    } else {
      assert (word + rest)[1..] == word[1..] + rest;
      WordLength(word[1..], rest);
    }
  }

  /** Blanks, a word and what follows it after a blank: the word is the first token. */
  lemma FirstWord(blanks: Text, word: Text, rest: Text)
    requires AllBlank(blanks) && Word(word) && (rest != [] ==> Blank(rest[0]))
    ensures Tokens(blanks + word + rest) == [word] + Tokens(rest)
  {
    hide TokenLength;
    var t := word + rest;
    assert blanks + word + rest == blanks + t;
    TrimBlanks(blanks, t);
    WordLength(word, rest);
    assert t[0] == word[0] && !Blank(word[0]) && TrimStart(t) == t;
    assert t[..|word|] == word && t[|word|..] == rest;
    assert Tokens(t) == [word] + Tokens(rest);
    TokensTrim(blanks + t);
    TokensTrim(t);
  }

  /** The second word of the text decides, whatever surrounds the two; with one word there is no status. */
  lemma SecondWordDecides(lead: Text, first: Text, blanks: Text, second: Text, tail: Text)
    requires AllBlank(lead) && Word(first) && AllBlank(blanks) && blanks != [] && Word(second)
    requires tail != [] ==> Blank(tail[0])
    ensures ParseStatus(lead + first + blanks + second + tail) ==
            match ParseU16(second)
            case Some(v) => Ok(v)
            case None => Err(BadStatus(second))
    ensures ParseStatus(lead + first + blanks) == Err(NoStatusCode)
  {
    hide Tokens, ParseU16;
    var rest := blanks + second + tail;
    assert lead + first + blanks + second + tail == lead + first + rest;
    FirstWord(lead, first, rest);
    FirstWord(blanks, second, tail);
    FirstWord(lead, first, blanks);
    OnlyBlanks(blanks);
  }

  lemma OnlyBlanks(blanks: Text)
    requires AllBlank(blanks)
    ensures Tokens(blanks) == []
  {
    TrimBlanks(blanks, []);
    assert blanks + [] == blanks;
  }

  /** The number three decimal digits stand for. */
  function Value3(code: Text): int
    requires |code| == 3
  {
    100 * (code[0] as int - '0' as int) + 10 * (code[1] as int - '0' as int) + (code[2] as int - '0' as int)
  }

  lemma ThreeDigits(code: Text)
    requires |code| == 3 && Digits(code)
    ensures ParseU16(code) == Some(Value3(code)) && 0 <= Value3(code) <= 999
  {
    var a, b := code[1..], code[2..];
    assert a[1..] == b && b[1..] == [];
    assert a[0] == code[1] && b[0] == code[2];
    var v1, v2 := code[0] as int - 48, code[1] as int - 48;
    var v3 := code[2] as int - 48;
    assert Accumulate(0, code) == Accumulate(v1, a);
    assert Accumulate(v1, a) == Accumulate(v1 * 10 + v2, b);
    assert Accumulate(v1 * 10 + v2, b) == Accumulate((v1 * 10 + v2) * 10 + v3, []);
    assert ParseU16(code) == Accumulate(0, code);
  }

  /** An ordinary status line, with or without a reason, gives its code, whatever follows. */
  lemma StatusLine(code: Text, tail: Text)
    requires |code| == 3 && Digits(code) && (tail != [] ==> Blank(tail[0]))
    ensures ParseStatus(Ascii("HTTP/1.1 ") + code + tail) == Ok(Value3(code))
    ensures |Tokens(Ascii("HTTP/1.1 ") + code + tail)| >= 2
  {
    hide Tokens, ParseU16;
    var first, blanks := Ascii("HTTP/1.1"), Ascii(" ");
    assert Ascii("HTTP/1.1 ") == [] + first + blanks;
    SecondWordDecides([], first, blanks, code, tail);
    ThreeDigits(code);
  }

  // ---------------------------------------------------------------------------
  // The read loop
  // ---------------------------------------------------------------------------

  /** Does CR LF CR LF occur in `s`? */
  predicate HasTerminator(s: Text) {
    exists i :: 0 <= i <= |s| - 4 && TerminatorAt(s, i)
  }

  datatype ReadOutcome = Head(total: nat) | TooLarge | Closed | IoError | StillReading

  /** The loop over one script of answers, with `total` bytes of the stream already in the buffer. */
  function ReadLoop(stream: Text, total: nat, answers: seq<Answer>): (r: ReadOutcome)
    requires total < LIMIT && total <= |stream|
    decreases |answers|
  {
    if answers == [] then StillReading else
    match answers[0]
    case WouldBlock => ReadLoop(stream, total, answers[1..])
    case Fail => IoError
    case Ready(n) =>
      var k := ReadSize(n, |stream| - total, LIMIT - total);
      if k == 0 then Closed
      else if HasTerminator(stream[..total + k]) then Head(total + k)
      else if total + k >= LIMIT then TooLarge
      else ReadLoop(stream, total + k, answers[1..])
  }

  /** How many bytes the loop has taken out of the stream when it ends. */
  function ReadTotal(stream: Text, total: nat, answers: seq<Answer>): (t: nat)
    requires total < LIMIT && total <= |stream|
    ensures total <= t <= Min(LIMIT, |stream|)
    ensures var r := ReadLoop(stream, total, answers);
            && (r.Head? ==> r.total == t)
            && (r.TooLarge? ==> t == LIMIT)
            && (r.Closed? ==> t == |stream|)
    decreases |answers|
  {
    if answers == [] || answers[0].Fail? then total
    else if answers[0].WouldBlock? then ReadTotal(stream, total, answers[1..])
    else
      var k := ReadSize(answers[0].n, |stream| - total, LIMIT - total);
      if k == 0 || HasTerminator(stream[..total + k]) || total + k >= LIMIT then total + k
      else ReadTotal(stream, total + k, answers[1..])
  }

  /** `e` is where the response head ends: just after the first CR LF CR LF. */
  ghost predicate HeadEnds(stream: Text, e: nat) {
    && 4 <= e <= |stream|
    && stream[e - 4..e] == TERMINATOR
    && !HasTerminator(stream[..e - 1])
  }

  lemma TerminatorInPrefix(s: Text, t: nat, i: nat)
    requires i + 4 <= t <= |s|
    ensures TerminatorAt(s[..t], i) <==> TerminatorAt(s, i)
  {
    assert s[..t][i..i + 4] == s[i..i + 4];
  }

  lemma {:induction false} FirstHeadEnd(s: Text) returns (e: nat)
    requires HasTerminator(s)
    ensures HeadEnds(s, e)
    decreases |s|
  {
    if HasTerminator(s[..|s| - 1]) {
      e := FirstHeadEnd(s[..|s| - 1]);
      assert s[..|s| - 1][..e - 1] == s[..e - 1];
      assert s[..|s| - 1][e - 4..e] == s[e - 4..e];
    } else {
      e := |s|;
      var i :| 0 <= i <= |s| - 4 && TerminatorAt(s, i);
      if i < |s| - 4 {
        TerminatorInPrefix(s, |s| - 1, i);
      }
    }
  }

  lemma PrefixTerminates(stream: Text, t: nat, u: nat)
    requires t <= u <= |stream| && HasTerminator(stream[..t])
    ensures HasTerminator(stream[..u])
  {
    var i :| 0 <= i <= t - 4 && TerminatorAt(stream[..t], i);
    TerminatorInPrefix(stream, t, i);
    TerminatorInPrefix(stream, u, i);
  }

  /** A prefix contains a terminator exactly when it reaches the end of the head. */
  lemma PrefixHasTerminator(stream: Text, e: nat, t: nat)
    requires HeadEnds(stream, e) && t <= |stream|
    ensures HasTerminator(stream[..t]) <==> t >= e
  {
    if t >= e {
      TerminatorInPrefix(stream, t, e - 4);
    } else if HasTerminator(stream[..t]) {
      PrefixTerminates(stream, t, e - 1);
    }
  }

  // --- what the stream alone decides ------------------------------------------

  /** The head is complete within the buffer. */
  ghost predicate HeadFits(stream: Text) {
    HasTerminator(stream[..Min(LIMIT, |stream|)])
  }

  /** A full buffer arrives with no end of head in it. */
  ghost predicate HeadOverflows(stream: Text) {
    !HeadFits(stream) && |stream| >= LIMIT
  }

  /** The peer closes first. */
  ghost predicate ClosesEarly(stream: Text) {
    !HeadFits(stream) && |stream| < LIMIT
  }

  /** However the stream is cut into reads, and whatever interruptions come between them, the loop
      can only end in the class that the stream itself determines. */
  lemma {:induction false} ReadLoopClass(stream: Text, total: nat, answers: seq<Answer>)
    requires total < LIMIT && total <= |stream| && !HasTerminator(stream[..total])
    ensures var r := ReadLoop(stream, total, answers);
            && (r.Head? ==> HeadFits(stream) && r.total <= Min(LIMIT, |stream|) && HasTerminator(stream[..r.total]))
            && (r.TooLarge? ==> HeadOverflows(stream))
            && (r.Closed? ==> ClosesEarly(stream))
            && (r.IoError? ==> !NoFailure(answers))
    decreases |answers|
  {
    var cap := Min(LIMIT, |stream|);
    if answers != [] && !answers[0].Fail? {
      var rest := answers[1..];
      if answers[0].WouldBlock? {
        ReadLoopClass(stream, total, rest);
      } else {
        var k := ReadSize(answers[0].n, |stream| - total, LIMIT - total);
        if HasTerminator(stream[..total + k]) {
          PrefixTerminates(stream, total + k, cap);
        } else if 0 < k && total + k < LIMIT {
          ReadLoopClass(stream, total + k, rest);
        }
      }
    }
  }

  /** Enough ready reads always bring the loop to an end. */
  lemma {:induction false} ReadLoopEnds(stream: Text, total: nat, answers: seq<Answer>)
    requires total < LIMIT && total <= |stream|
    requires NoFailure(answers) && ReadyCount(answers) > |stream| - total
    ensures !ReadLoop(stream, total, answers).StillReading? && !ReadLoop(stream, total, answers).IoError?
    decreases |answers|
  {
    var rest := answers[1..];
    assert answers[0] in answers && forall a :: a in rest ==> a in answers;
    if answers[0].WouldBlock? {
      ReadLoopEnds(stream, total, rest);
    } else {
      var k := ReadSize(answers[0].n, |stream| - total, LIMIT - total);
      if 0 < k && total + k < LIMIT {
        ReadLoopEnds(stream, total + k, rest);
      }
    }
  }

  /** A failure before the loop has ended is an error, and nothing after it matters. */
  lemma {:induction false} FailureEndsReading(stream: Text, total: nat, answers: seq<Answer>, rest: seq<Answer>)
    requires total < LIMIT && total <= |stream| && ReadLoop(stream, total, answers).StillReading?
    ensures ReadLoop(stream, total, answers + [Fail] + rest) == IoError
    ensures ReadTotal(stream, total, answers + [Fail] + rest) == ReadTotal(stream, total, answers)
    decreases |answers|
  {
    var s := answers + [Fail] + rest;
    if answers != [] {
      assert s[0] == answers[0] && s[1..] == answers[1..] + [Fail] + rest;
      if answers[0].WouldBlock? {
        FailureEndsReading(stream, total, answers[1..], rest);
      } else {
        FailureEndsReading(stream, total + ReadSize(answers[0].n, |stream| - total, LIMIT - total), answers[1..], rest);
      }
    }
  }

  /** What an undisturbed reading comes to: the head if it ends within the first 16384 bytes, otherwise an
      overflow if there are that many, and an early close if not. */
  lemma ReadByStream(stream: Text, answers: seq<Answer>)
    requires NoFailure(answers) && ReadyCount(answers) > |stream|
    ensures var r := ReadLoop(stream, 0, answers);
            && (r.Head? <==> exists e: nat :: e <= 16384 && HeadEnds(stream, e))
            && (r.TooLarge? <==> |stream| >= 16384 && !exists e: nat :: e <= 16384 && HeadEnds(stream, e))
            && (r.Closed? <==> |stream| < 16384 && !exists e: nat :: HeadEnds(stream, e))
  {
    hide ReadLoop, ReadTotal;
    assert !HasTerminator(stream[..0]);
    ReadLoopEnds(stream, 0, answers);
    ReadLoopClass(stream, 0, answers);
    FitsIff(stream);
  }

  lemma FitsIff(stream: Text)
    ensures HeadFits(stream) <==> exists e: nat :: e <= LIMIT && HeadEnds(stream, e)
    ensures |stream| < LIMIT ==> (HeadFits(stream) <==> exists e: nat :: HeadEnds(stream, e))
  {
    var cap := Min(LIMIT, |stream|);
    if HeadFits(stream) {
      PrefixTerminates(stream, cap, |stream|);
      assert stream[..|stream|] == stream;
      var e := FirstHeadEnd(stream);
      PrefixHasTerminator(stream, e, cap);
    } else {
      forall e: nat | HeadEnds(stream, e) ensures e > cap {
        PrefixHasTerminator(stream, e, cap);
      }
    }
  }

  // --- independence of fragmentation -------------------------------------------

  ghost predicate Ended(r: ReadOutcome) {
    r.Head? || r.TooLarge? || r.Closed?
  }

  /** Two ways of cutting the same stream end in the same class. */
  lemma FragmentationIndependent(stream: Text, a: seq<Answer>, b: seq<Answer>)
    requires Ended(ReadLoop(stream, 0, a)) && Ended(ReadLoop(stream, 0, b))
    ensures ReadLoop(stream, 0, a).Head? <==> ReadLoop(stream, 0, b).Head?
    ensures ReadLoop(stream, 0, a).TooLarge? <==> ReadLoop(stream, 0, b).TooLarge?
    ensures ReadLoop(stream, 0, a).Closed? <==> ReadLoop(stream, 0, b).Closed?
  {
    ReadLoopClass(stream, 0, a);
    ReadLoopClass(stream, 0, b);
  }

  /** The status read after `total` bytes. */
  ghost function StatusAfter(stream: Text, total: nat): Result<nat, StatusError>
    requires total <= |stream|
  {
    ParseStatus(stream[..total])
  }

  lemma HeadIsCut(stream: Text, e: nat, t: nat)
    requires HeadEnds(stream, e) && e <= t <= |stream|
    ensures Tokens(stream[..t]) == Tokens(stream[..e]) + Tokens(stream[e..t])
  {
    assert stream[..e][e - 1] == stream[e - 4..e][3];
    assert stream[..t] == stream[..e] + stream[e..t];
    TokensConcat(stream[..e], stream[e..t]);
  }

  /** A head with a status code is read the same whatever was coalesced behind it. */
  lemma StatusIndependent(stream: Text, e: nat, a: seq<Answer>)
    requires HeadEnds(stream, e) && |Tokens(stream[..e])| >= 2 && ReadLoop(stream, 0, a).Head?
    ensures e <= ReadLoop(stream, 0, a).total <= |stream|
    ensures StatusAfter(stream, ReadLoop(stream, 0, a).total) == StatusAfter(stream, e)
  {
    assert !HasTerminator(stream[..0]);
    ReadLoopClass(stream, 0, a);
    var t := ReadLoop(stream, 0, a).total;
    PrefixHasTerminator(stream, e, t);
    HeadIsCut(stream, e, t);
  }

  /** A head without a status code, in a stream whose buffer holds none either, never yields one. */
  lemma NoStatusAnywhere(stream: Text, e: nat, a: seq<Answer>)
    requires HeadEnds(stream, e) && |Tokens(stream[..Min(LIMIT, |stream|)])| < 2 && ReadLoop(stream, 0, a).Head?
    ensures e <= ReadLoop(stream, 0, a).total <= |stream|
    ensures StatusAfter(stream, ReadLoop(stream, 0, a).total) == StatusAfter(stream, e) == Err(NoStatusCode)
  {
    hide ReadLoop;
    var cap := Min(LIMIT, |stream|);
    assert !HasTerminator(stream[..0]);
    ReadLoopClass(stream, 0, a);
    var t := ReadLoop(stream, 0, a).total;
    PrefixHasTerminator(stream, e, t);
    assert stream[..cap] == stream[..t] + stream[t..cap];
    TokensGrow(stream[..t], stream[t..cap]);
    assert stream[..t] == stream[..e] + stream[e..t];
    TokensGrow(stream[..e], stream[e..t]);
  }

  /** Reading the stream in one piece. */
  lemma ReadAtOnce(stream: Text, e: nat)
    requires HeadEnds(stream, e) && e <= LIMIT
    ensures var cap := Min(LIMIT, |stream|); ReadLoop(stream, 0, [Ready(cap)]) == Head(cap)
  {
    PrefixHasTerminator(stream, e, Min(LIMIT, |stream|));
  }

  /** Reading just the head. */
  lemma ReadHeadOnly(stream: Text, e: nat)
    requires HeadEnds(stream, e) && e <= LIMIT
    ensures ReadLoop(stream, 0, [Ready(e)]) == Head(e)
  {
    PrefixHasTerminator(stream, e, e);
  }

  /** Every way of reading the head gives the status of the head alone. */
  ghost predicate StatusSettled(stream: Text, e: nat)
    requires e <= |stream|
  {
    forall a :: ReadLoop(stream, 0, a).Head? ==>
      var t := ReadLoop(stream, 0, a).total; t <= |stream| && StatusAfter(stream, t) == StatusAfter(stream, e)
  }

  /** The status does not depend on how many bytes of the tunnel were read along with the head
      exactly when the head holds two tokens or the whole buffer holds fewer than two. */
  lemma StatusIndependentIff(stream: Text, e: nat)
    requires HeadEnds(stream, e) && e <= LIMIT
    ensures StatusSettled(stream, e) <==> |Tokens(stream[..e])| >= 2 || |Tokens(stream[..Min(LIMIT, |stream|)])| < 2
  {
    hide ReadLoop, Tokens;
    var cap := Min(LIMIT, |stream|);
    if |Tokens(stream[..e])| >= 2 {
      forall a | ReadLoop(stream, 0, a).Head? {
        StatusIndependent(stream, e, a);
      }
    } else if |Tokens(stream[..cap])| < 2 {
      forall a | ReadLoop(stream, 0, a).Head? {
        NoStatusAnywhere(stream, e, a);
      }
    } else {
      ReadAtOnce(stream, e);
      assert StatusAfter(stream, cap) != StatusAfter(stream, e);
    }
  }
}
