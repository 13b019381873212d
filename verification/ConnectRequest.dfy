/** The CONNECT request: how it is built, and why a peer reads back exactly what was meant. */
module ConnectRequest {
  import opened Common
  import opened HeaderValues

  const CR: byte := 13
  const LF: byte := 10
  const SP: byte := 32
  const COLON: byte := 58
  const CRLF: Text := [CR, LF]
  const TERMINATOR: Text := [CR, LF, CR, LF]
  const METHOD: Text := [67, 79, 78, 78, 69, 67, 84]              // "CONNECT"
  const VERSION: Text := [72, 84, 84, 80, 47, 49, 46, 49]         // "HTTP/1.1"

  type Field = (Text, Text)

  // ---------------------------------------------------------------------------
  // Serialisation
  // ---------------------------------------------------------------------------

  function StartLine(target: Text): Text {
    METHOD + [SP] + target + [SP] + VERSION
  }

  function FieldLine(f: Field): Text {
    f.0 + [COLON, SP] + f.1
  }

  /** Field lines, each closed by CRLF. */
  function FieldLines(fields: seq<Field>): Text {
    if fields == [] then [] else FieldLine(fields[0]) + CRLF + FieldLines(fields[1..])
  }

  function RequestText(target: Text, fields: seq<Field>): Text {
    StartLine(target) + CRLF + (FieldLines(fields) + CRLF)
  }

  lemma {:induction false} FieldLinesSnoc(fields: seq<Field>, f: Field)
    ensures FieldLines(fields + [f]) == FieldLines(fields) + FieldLine(f) + CRLF
  {
    if fields == [] {
      assert FieldLines([f][1..]) == [];
    } else {
      assert (fields + [f])[1..] == fields[1..] + [f];
      FieldLinesSnoc(fields[1..], f);
    }
  }

  /** The request byte by byte: without headers ... */
  lemma BareRequestOnWire(target: Text)
    ensures RequestText(target, []) == Ascii("CONNECT ") + target + Ascii(" HTTP/1.1\r\n") + Ascii("\r\n")
  {
    hide Ascii;
    WireLiterals();
    Regroup(METHOD, [SP], target, VERSION, CRLF);
    assert FieldLines([]) == [];
  }

  lemma Regroup(a: Text, b: Text, c: Text, d: Text, e: Text)
    ensures a + b + c + b + d + e + ([] + e) == (a + b) + c + ((b + d) + e) + e
  {
    assert a + b + c + b + d + e == a + b + c + ((b + d) + e);
  }

  /** ... and with one header more. */
  lemma HeaderOnWire(target: Text, fields: seq<Field>, name: Text, value: Text)
    ensures var before := RequestText(target, fields);
            && |before| >= 2
            && RequestText(target, fields + [(name, value)])
               == before[..|before| - 2] + name + Ascii(": ") + value + Ascii("\r\n") + Ascii("\r\n")
  {
    hide StartLine, FieldLines;
    var before := RequestText(target, fields);
    var line := StartLine(target) + CRLF + FieldLines(fields);
    FieldLinesSnoc(fields, (name, value));
    assert before == line + CRLF && before[..|before| - 2] == line;
    WireLiterals();
  }

  lemma WireLiterals()
    ensures CRLF == Ascii("\r\n") && TERMINATOR == Ascii("\r\n\r\n") && [COLON, SP] == Ascii(": ")
    ensures METHOD + [SP] == Ascii("CONNECT ") && [SP] + VERSION == Ascii(" HTTP/1.1")
    ensures Ascii(" HTTP/1.1\r\n") == Ascii(" HTTP/1.1") + Ascii("\r\n")
  {
  }

  predicate AllResolve(headers: map<Text, Text>, env: Env) {
    forall name :: name in headers ==> ResolveHeaderValue(headers[name], env).Ok?
  }

  /** The variable an error names is not set, or is set to something that is not Unicode. */
  predicate Unresolvable(error: ResolveError, env: Env) {
    match error
    case MissingVariable(name) => name !in env.vars
    case NotUnicode(name) => name in env.vars && env.vars[name].None?
  }

  /** The header fields in iteration order, with their values resolved. */
  function ResolvedFields(order: seq<Text>, headers: map<Text, Text>, env: Env): (fields: seq<Field>)
    requires forall name :: name in order ==> name in headers
    requires AllResolve(headers, env)
  {
    seq(|order|, i requires 0 <= i < |order| => (order[i], ResolveHeaderValue(headers[order[i]], env).value))
  }

  /** Builds the request by appending to a buffer; `order` is the map's iteration order. */
  method BuildRequest(target: Text, headers: map<Text, Text>, order: seq<Text>, env: Env)
    returns (r: Result<Text, ResolveError>)
    requires Enumerates(order, headers.Keys)
    ensures r.Ok? <==> AllResolve(headers, env)
    ensures r.Ok? ==> r.value == RequestText(target, ResolvedFields(order, headers, env))
    ensures r.Err? ==> Unresolvable(r.error, env)
                       && exists k :: k in headers && ResolveHeaderValue(headers[k], env) == Err(r.error)
  {
    var buf := BeginRequest(target);
    ghost var done: seq<Field> := [];
    for i := 0 to |order|
      invariant ResolvedSoFar(done, i, order, headers, env)
      invariant buf == StartLine(target) + CRLF + FieldLines(done)
    {
      var name := order[i];
      assert name in headers.Keys;
      var value := ResolveHeaderValue(headers[name], env);
      if value.Err? {
        return Err(value.error);
      }
      buf := AppendField(buf, (name, value.value), StartLine(target) + CRLF, done);
      ResolvedNext(done, order, i, headers, env);
      done := done + [(name, value.value)];
    }
    AllResolved(done, order, headers, env);
    buf := buf + CRLF;
    return Ok(buf);
  }

  method BeginRequest(target: Text) returns (r: Text)
    ensures r == StartLine(target) + CRLF + FieldLines([])
  {
    r := METHOD + [SP];
    r := r + target;
    r := r + [SP] + VERSION;
    r := r + CRLF;
  }

  method AppendField(buf: Text, f: Field, ghost head: Text, ghost done: seq<Field>) returns (r: Text)
    requires buf == head + FieldLines(done)
    ensures r == head + FieldLines(done + [f])
  {
    FieldLinesSnoc(done, f);
    r := buf + f.0;
    r := r + [COLON, SP];
    r := r + f.1;
    r := r + CRLF;
    assert r == head + (FieldLines(done) + FieldLine(f) + CRLF);
  }

  ghost predicate ResolvedSoFar(done: seq<Field>, i: nat, order: seq<Text>, headers: map<Text, Text>, env: Env) {
    && |done| == i <= |order|
    && (forall k :: 0 <= k < i ==> order[k] in headers && done[k].0 == order[k])
    && (forall k :: 0 <= k < i ==> ResolveHeaderValue(headers[order[k]], env) == Ok(done[k].1))
  }

  lemma ResolvedNext(done: seq<Field>, order: seq<Text>, i: nat, headers: map<Text, Text>, env: Env)
    requires ResolvedSoFar(done, i, order, headers, env) && i < |order| && order[i] in headers
    requires ResolveHeaderValue(headers[order[i]], env).Ok?
    ensures ResolvedSoFar(done + [(order[i], ResolveHeaderValue(headers[order[i]], env).value)], i + 1,
                          order, headers, env)
  {
  }

  lemma AllResolved(done: seq<Field>, order: seq<Text>, headers: map<Text, Text>, env: Env)
    requires Enumerates(order, headers.Keys) && ResolvedSoFar(done, |order|, order, headers, env)
    ensures AllResolve(headers, env) && done == ResolvedFields(order, headers, env)
  {
    forall name | name in headers ensures ResolveHeaderValue(headers[name], env).Ok? {
      assert name in order;
    }
  }

  // ---------------------------------------------------------------------------
  // Reading it back: a strict line parser in the shape of sections 3 and 5 of RFC 9112. It ends lines at
  // CRLF alone and trims nothing; section 2.2 lets a recipient also end a line at a lone LF, and section 5
  // lets it drop white space around values.
  // ---------------------------------------------------------------------------

  /** Position of the first `b` in `s`, if there is one. */
  function Find(s: Text, b: byte): (r: Option<nat>)
    ensures r.Some? ==> r.value < |s| && s[r.value] == b && b !in s[..r.value]
    ensures r.None? ==> b !in s
  {
    if s == [] then None
    else if s[0] == b then Some(0)
    else match Find(s[1..], b)
         case None => None
         case Some(i) =>
           assert s[..i + 1] == [s[0]] + s[1..][..i];
           Some(i + 1)
  }

  /** CR LF nowhere; a CR or an LF alone does not end a line of the strict parser. */
  predicate NoCrlf(s: Text) {
    forall i :: 0 <= i < |s| - 1 ==> !(s[i] == CR && s[i + 1] == LF)
  }

  /** Position of the first CRLF in `s`, if there is one. */
  function FindCrlf(s: Text): (r: Option<nat>)
    ensures r.Some? ==> r.value + 1 < |s| && s[r.value] == CR && s[r.value + 1] == LF && NoCrlf(s[..r.value])
  {
    if |s| < 2 then None
    else if s[0] == CR && s[1] == LF then Some(0)
    else match FindCrlf(s[1..])
         case None => None
         case Some(i) =>
           assert s[..i + 1] == [s[0]] + s[1..][..i];
           Some(i + 1)
  }

  /** method SP request-target SP version; the target runs to the next space. */
  function ParseStartLine(line: Text): Option<Text> {
    var n := |METHOD|;
    if |line| <= n || line[..n] != METHOD || line[n] != SP then None else
    var rest := line[n + 1..];
    match Find(rest, SP)
    case None => None
    case Some(i) => if rest[i + 1..] == VERSION then Some(rest[..i]) else None
  }

  /** field-name ":" SP field-value; the name runs to the first colon. */
  function ParseField(line: Text): Option<Field> {
    match Find(line, COLON)
    case None => None
    case Some(i) =>
      if i + 1 < |line| && line[i + 1] == SP then Some((line[..i], line[i + 2..])) else None
  }

  function ParseFields(s: Text): Option<seq<Field>> {
    match FindCrlf(s)
    case None => None
    case Some(n) =>
      if n == 0 then (if |s| == 2 then Some([]) else None) else
      match (ParseField(s[..n]), ParseFields(s[n + 2..]))
      case (Some(f), Some(fs)) => Some([f] + fs)
      case _ => None
  }

  function ParseRequest(s: Text): Option<(Text, seq<Field>)> {
    match FindCrlf(s)
    case None => None
    case Some(n) =>
      match (ParseStartLine(s[..n]), ParseFields(s[n + 2..]))
      case (Some(target), Some(fs)) => Some((target, fs))
      case _ => None
  }

  // ---------------------------------------------------------------------------
  // Round trip
  // ---------------------------------------------------------------------------

  predicate CleanTarget(target: Text) {
    SP !in target && NoCrlf(target)
  }

  predicate CleanField(f: Field) {
    COLON !in f.0 && NoCrlf(f.0) && NoCrlf(f.1)
  }

  predicate CleanRequest(target: Text, fields: seq<Field>) {
    CleanTarget(target) && forall f :: f in fields ==> CleanField(f)
  }

  lemma {:induction false} FindAt(prefix: Text, b: byte, rest: Text)
    requires b !in prefix
    ensures Find(prefix + [b] + rest, b) == Some(|prefix|)
  {
    if prefix != [] {
      assert (prefix + [b] + rest)[1..] == prefix[1..] + [b] + rest;
      FindAt(prefix[1..], b, rest);
    }
  }

  lemma {:induction false} FindCrlfAt(line: Text, rest: Text)
    requires NoCrlf(line)
    ensures FindCrlf(line + CRLF + rest) == Some(|line|)
  {
    var s := line + CRLF + rest;
    if line != [] {
      var tail := line[1..];
      assert s[0] == line[0] && s[1] == (if tail == [] then CR else line[1]);
      assert s[1..] == tail + CRLF + rest;
      forall i | 0 <= i < |tail| - 1 ensures !(tail[i] == CR && tail[i + 1] == LF) {
        assert !(line[i + 1] == CR && line[i + 2] == LF);
      }
      FindCrlfAt(tail, rest);
    }
  }

  /** A byte that is neither CR nor LF keeps both sides apart. */
  lemma NoCrlfAcross(a: Text, b: byte, c: Text)
    requires b != CR && b != LF
    ensures NoCrlf(a + [b] + c) <==> NoCrlf(a) && NoCrlf(c)
  {
    var s := a + [b] + c;
    var n := |a|;
    if NoCrlf(s) {
      forall i | 0 <= i < |c| - 1 ensures !(c[i] == CR && c[i + 1] == LF) {
        assert c[i] == s[n + 1 + i] && c[i + 1] == s[n + 1 + i + 1];
      }
      forall i | 0 <= i < |a| - 1 ensures !(a[i] == CR && a[i + 1] == LF) {
        assert a[i] == s[i] && a[i + 1] == s[i + 1];
      }
    }
    if NoCrlf(a) && NoCrlf(c) {
      forall i | 0 <= i < |s| - 1 ensures !(s[i] == CR && s[i + 1] == LF) {
        if i > n {
          assert s[i] == c[i - n - 1] && s[i + 1] == c[i - n - 1 + 1];
        }
      }
    }
  }

  lemma StartLineClean(target: Text)
    requires CleanTarget(target)
    ensures NoCrlf(StartLine(target))
  {
    var rest := target + [SP] + VERSION;
    NoCrlfAcross(target, SP, VERSION);
    assert StartLine(target) == METHOD + [SP] + rest;
    NoCrlfAcross(METHOD, SP, rest);
  }

  lemma StartLineRoundTrip(target: Text)
    requires SP !in target
    ensures ParseStartLine(StartLine(target)) == Some(target)
  {
    var line := StartLine(target);
    var n := |METHOD|;
    var rest := line[n + 1..];
    assert line[..n] == METHOD;
    assert rest == target + [SP] + VERSION;
    FindAt(target, SP, VERSION);
    assert rest[..|target|] == target && rest[|target| + 1..] == VERSION;
  }

  lemma FieldRoundTrip(f: Field)
    requires CleanField(f)
    ensures NoCrlf(FieldLine(f)) && FieldLine(f) != [] && ParseField(FieldLine(f)) == Some(f)
  {
    var line := FieldLine(f);
    assert line == f.0 + [COLON] + ([SP] + f.1);
    FindAt(f.0, COLON, [SP] + f.1);
    assert line[..|f.0|] == f.0 && line[|f.0| + 2..] == f.1;
    assert [SP] + f.1 == [] + [SP] + f.1;
    NoCrlfAcross([], SP, f.1);
    NoCrlfAcross(f.0, COLON, [SP] + f.1);
  }

  lemma ParseFirstField(f: Field, rest: Text)
    requires CleanField(f) && ParseFields(rest).Some?
    ensures ParseFields(FieldLine(f) + CRLF + rest) == Some([f] + ParseFields(rest).value)
  {
    var line := FieldLine(f);
    var s := line + CRLF + rest;
    FieldRoundTrip(f);
    FindCrlfAt(line, rest);
    assert s[..|line|] == line;
    assert s[|line| + 2..] == rest;
  }

  lemma {:induction false} FieldsRoundTrip(fields: seq<Field>)
    requires forall f :: f in fields ==> CleanField(f)
    ensures ParseFields(FieldLines(fields) + CRLF) == Some(fields)
  {
    var s := FieldLines(fields) + CRLF;
    if fields == [] {
      assert s[..2] == CRLF;
    } else {
      FieldsRoundTrip(fields[1..]);
      var rest := FieldLines(fields[1..]) + CRLF;
      assert s == FieldLine(fields[0]) + CRLF + rest;
      ParseFirstField(fields[0], rest);
      assert fields == [fields[0]] + fields[1..];
    }
  }

  lemma CleanReadsBack(target: Text, fields: seq<Field>)
    requires CleanRequest(target, fields)
    ensures ParseRequest(RequestText(target, fields)) == Some((target, fields))
  {
    var s := RequestText(target, fields);
    var line := StartLine(target);
    var rest := FieldLines(fields) + CRLF;
    StartLineClean(target);
    StartLineRoundTrip(target);
    FindCrlfAt(line, rest);
    assert s[..|line|] == line && s[|line| + 2..] == rest;
    FieldsRoundTrip(fields);
  }

  // --- the parser never returns anything else ----------------------------------

  lemma NoCrlfPart(s: Text, i: nat, j: nat)
    requires NoCrlf(s) && i <= j <= |s|
    ensures NoCrlf(s[i..j])
  {
    forall k | 0 <= k < j - i - 1 ensures !(s[i..j][k] == CR && s[i..j][k + 1] == LF) {
      assert s[i..j][k] == s[i + k] && s[i..j][k + 1] == s[i + k + 1];
    }
  }

  lemma ParsedTargetIsClean(line: Text)
    requires NoCrlf(line) && ParseStartLine(line).Some?
    ensures CleanTarget(ParseStartLine(line).value)
  {
    var n := |METHOD| + 1;
    var t := ParseStartLine(line).value;
    assert t == line[n..][..|t|] == line[n..n + |t|];
    NoCrlfPart(line, n, n + |t|);
  }

  lemma ParsedFieldIsClean(line: Text)
    requires NoCrlf(line) && ParseField(line).Some?
    ensures CleanField(ParseField(line).value)
  {
    var i := Find(line, COLON).value;
    assert line[..i] == line[0..i] && line[i + 2..] == line[i + 2..|line|];
    NoCrlfPart(line, 0, i);
    NoCrlfPart(line, i + 2, |line|);
  }

  lemma {:induction false} ParsedFieldsAreClean(s: Text)
    requires ParseFields(s).Some?
    ensures forall f :: f in ParseFields(s).value ==> CleanField(f)
    decreases |s|
  {
    hide CleanField, NoCrlf, ParseField;
    var n := FindCrlf(s).value;
    if n > 0 {
      ParsedFieldIsClean(s[..n]);
      ParsedFieldsAreClean(s[n + 2..]);
    }
  }

  lemma ParsedIsClean(s: Text)
    requires ParseRequest(s).Some?
    ensures CleanRequest(ParseRequest(s).value.0, ParseRequest(s).value.1)
  {
    hide CleanField, CleanTarget, NoCrlf, ParseStartLine, ParseFields;
    var n := FindCrlf(s).value;
    ParsedTargetIsClean(s[..n]);
    ParsedFieldsAreClean(s[n + 2..]);
  }

  /** A peer that parses the request strictly gets back the target and the fields, in order, exactly when
      the target has no space and no CRLF, no name has a colon, and no name or value has a CRLF. */
  lemma RequestRoundTrip(target: Text, fields: seq<Field>)
    ensures ParseRequest(RequestText(target, fields)) == Some((target, fields)) <==> CleanRequest(target, fields)
  {
    if CleanRequest(target, fields) {
      CleanReadsBack(target, fields);
    } else if ParseRequest(RequestText(target, fields)).Some? {
      ParsedIsClean(RequestText(target, fields));
    }
  }

  /** `fields` holds each configured header once, with its resolved value, and nothing else. */
  ghost predicate ExactlyTheHeaders(fields: seq<Field>, headers: map<Text, Text>, env: Env) {
    && (forall i, j :: 0 <= i < j < |fields| ==> fields[i].0 != fields[j].0)
    && (forall f: Field :: f in fields <==> f.0 in headers && ResolveHeaderValue(headers[f.0], env) == Ok(f.1))
  }

  lemma FieldsAreTheHeaders(headers: map<Text, Text>, order: seq<Text>, env: Env)
    requires Enumerates(order, headers.Keys) && AllResolve(headers, env)
    ensures ExactlyTheHeaders(ResolvedFields(order, headers, env), headers, env)
  {
    var fields := ResolvedFields(order, headers, env);
    forall f: Field ensures f in fields <==> f.0 in headers && ResolveHeaderValue(headers[f.0], env) == Ok(f.1) {
      if f.0 in headers && ResolveHeaderValue(headers[f.0], env) == Ok(f.1) {
        var i :| 0 <= i < |order| && order[i] == f.0;
        assert fields[i] == f;
      }
    }
  }

  /** Target, header names and resolved header values are clean. */
  predicate CleanHeaders(target: Text, headers: map<Text, Text>, env: Env)
    requires AllResolve(headers, env)
  {
    && CleanTarget(target)
    && forall name :: name in headers ==> CleanField((name, ResolveHeaderValue(headers[name], env).value))
  }

  lemma FieldsCleanIff(target: Text, headers: map<Text, Text>, order: seq<Text>, env: Env)
    requires Enumerates(order, headers.Keys) && AllResolve(headers, env)
    ensures CleanRequest(target, ResolvedFields(order, headers, env)) <==> CleanHeaders(target, headers, env)
  {
    hide CleanField, CleanTarget, ResolveHeaderValue;
    var fields := ResolvedFields(order, headers, env);
    if CleanRequest(target, fields) {
      forall name | name in headers ensures CleanField((name, ResolveHeaderValue(headers[name], env).value)) {
        var i :| 0 <= i < |order| && order[i] == name;
        assert fields[i] in fields;
      }
    }
  }

  /** For every iteration order of the header map the peer reads the target and exactly the configured
      headers, unless the target, a name or a resolved value is unclean: an environment variable that
      holds a CRLF is enough. */
  lemma HeadersRoundTrip(target: Text, headers: map<Text, Text>, order: seq<Text>, env: Env)
    requires Enumerates(order, headers.Keys) && AllResolve(headers, env)
    ensures var fields := ResolvedFields(order, headers, env);
            && ExactlyTheHeaders(fields, headers, env)
            && (ParseRequest(RequestText(target, fields)) == Some((target, fields))
                <==> CleanHeaders(target, headers, env))
  {
    hide CleanHeaders, CleanRequest, ParseRequest, ExactlyTheHeaders;
    RequestRoundTrip(target, ResolvedFields(order, headers, env));
    FieldsCleanIff(target, headers, order, env);
    FieldsAreTheHeaders(headers, order, env);
  }

  // ---------------------------------------------------------------------------
  // Framing: the end of the request is the only empty line in it
  // ---------------------------------------------------------------------------

  predicate TerminatorAt(s: Text, i: int) {
    0 <= i && i + 4 <= |s| && s[i..i + 4] == TERMINATOR
  }

  predicate StartsWithCrlf(s: Text) {
    |s| >= 2 && s[0] == CR && s[1] == LF
  }

  predicate EndsWithCrlf(s: Text) {
    |s| >= 2 && s[|s| - 2] == CR && s[|s| - 1] == LF
  }

  /** Nothing in the text can be taken for an empty line. */
  predicate NoTerminator(s: Text) {
    forall i :: 0 <= i <= |s| - 4 ==> !TerminatorAt(s, i)
  }

  predicate FramedField(f: Field) {
    && NoTerminator(f.0) && NoTerminator(f.1)
    && !StartsWithCrlf(f.0) && !EndsWithCrlf(f.1)
  }

  lemma TerminatorBytes(s: Text, i: int)
    ensures TerminatorAt(s, i) <==>
            0 <= i && i + 4 <= |s| && s[i] == CR && s[i + 1] == LF && s[i + 2] == CR && s[i + 3] == LF
  {
    if 0 <= i && i + 4 <= |s| {
      var t := s[i..i + 4];
      assert t[0] == s[i] && t[1] == s[i + 1] && t[2] == s[i + 2] && t[3] == s[i + 3];
    }
  }

  /** Where a terminator can be in a line followed by CRLF and the rest. */
  lemma LineTerminators(line: Text, rest: Text, i: int)
    ensures TerminatorAt(line + CRLF + rest, i) <==>
            || TerminatorAt(line, i)
            || (i == |line| - 2 && EndsWithCrlf(line))
            || (i == |line| && StartsWithCrlf(rest))
            || (i >= |line| + 2 && TerminatorAt(rest, i - |line| - 2))
  {
    var s := line + CRLF + rest;
    TerminatorBytes(s, i);
    TerminatorBytes(line, i);
    TerminatorBytes(rest, i - |line| - 2);
  }

  /** A byte that is neither CR nor LF keeps both sides apart. */
  lemma TerminatorAcross(a: Text, b: byte, c: Text, i: int)
    requires b != CR && b != LF
    ensures TerminatorAt(a + [b] + c, i) <==> TerminatorAt(a, i) || TerminatorAt(c, i - |a| - 1)
  {
    TerminatorBytes(a + [b] + c, i);
    TerminatorBytes(a, i);
    TerminatorBytes(c, i - |a| - 1);
  }

  lemma NoTerminatorAcross(a: Text, b: byte, c: Text)
    requires b != CR && b != LF
    ensures NoTerminator(a + [b] + c) <==> NoTerminator(a) && NoTerminator(c)
  {
    var s := a + [b] + c;
    forall i ensures TerminatorAt(s, i) <==> TerminatorAt(a, i) || TerminatorAt(c, i - |a| - 1) {
      TerminatorAcross(a, b, c, i);
    }
    if i :| 0 <= i <= |c| - 4 && TerminatorAt(c, i) {
      assert TerminatorAt(c, (i + |a| + 1) - |a| - 1);
      assert TerminatorAt(s, i + |a| + 1);
    }
  }

  /** A field's line as a whole. */
  lemma FieldLineFramed(f: Field)
    ensures NoTerminator(FieldLine(f)) <==> NoTerminator(f.0) && NoTerminator(f.1)
    ensures StartsWithCrlf(FieldLine(f)) <==> StartsWithCrlf(f.0)
    ensures EndsWithCrlf(FieldLine(f)) <==> EndsWithCrlf(f.1)
  {
    var line := FieldLine(f);
    assert line == f.0 + [COLON] + ([SP] + f.1);
    NoTerminatorAcross(f.0, COLON, [SP] + f.1);
    assert [SP] + f.1 == [] + [SP] + f.1;
    NoTerminatorAcross([], SP, f.1);
  }

  lemma StartLineFramed(target: Text)
    ensures NoTerminator(StartLine(target)) <==> NoTerminator(target)
    ensures !EndsWithCrlf(StartLine(target))
  {
    var line := StartLine(target);
    assert line == METHOD + [SP] + (target + [SP] + VERSION);
    NoCrlfNoTerminator(METHOD);
    NoCrlfNoTerminator(VERSION);
    NoTerminatorAcross(target, SP, VERSION);
    NoTerminatorAcross(METHOD, SP, target + [SP] + VERSION);
  }

  /** The only terminator of `s` is at its end, or where `s` is too short for one. */
  ghost predicate OnlyAtEnd(s: Text) {
    forall i :: TerminatorAt(s, i) ==> i == |s| - 4
  }

  lemma LineKeepsEnd(line: Text, rest: Text)
    requires NoTerminator(line) && !EndsWithCrlf(line)
    requires OnlyAtEnd(rest) && (rest != CRLF ==> !StartsWithCrlf(rest))
    ensures OnlyAtEnd(line + CRLF + rest)
  {
    var s := line + CRLF + rest;
    forall i | TerminatorAt(s, i) ensures i == |s| - 4 {
      LineTerminators(line, rest, i);
    }
  }

  lemma LineNeedsEnd(line: Text, rest: Text)
    requires OnlyAtEnd(line + CRLF + rest) && |rest| >= 2
    ensures NoTerminator(line) && !EndsWithCrlf(line)
    ensures OnlyAtEnd(rest) && (|rest| > 2 ==> !StartsWithCrlf(rest))
  {
    var s := line + CRLF + rest;
    forall i | 0 <= i <= |line| - 4 ensures !TerminatorAt(line, i) {
      LineTerminators(line, rest, i);
    }
    LineTerminators(line, rest, |line| - 2);
    LineTerminators(line, rest, |line|);
    forall i | TerminatorAt(rest, i) ensures i == |rest| - 4 {
      LineTerminators(line, rest, i + |line| + 2);
      assert TerminatorAt(s, i + |line| + 2);
    }
  }

  /** One line more keeps the only terminator at the end exactly when the line is framed and what
      follows does not begin with an empty line, unless it is the closing one. */
  lemma OneMoreLine(line: Text, rest: Text)
    requires rest == CRLF || |rest| >= 4
    ensures OnlyAtEnd(line + CRLF + rest) <==>
            && NoTerminator(line) && !EndsWithCrlf(line)
            && OnlyAtEnd(rest) && (rest != CRLF ==> !StartsWithCrlf(rest))
  {
    hide OnlyAtEnd, NoTerminator;
    if OnlyAtEnd(line + CRLF + rest) {
      LineNeedsEnd(line, rest);
    } else if && NoTerminator(line) && !EndsWithCrlf(line) && OnlyAtEnd(rest)
              && (rest != CRLF ==> !StartsWithCrlf(rest)) {
      LineKeepsEnd(line, rest);
    }
  }

  ghost predicate FramedFields(fields: seq<Field>) {
    forall f :: f in fields ==> FramedField(f)
  }

  lemma {:induction false} FieldsFramedIff(fields: seq<Field>)
    ensures var rest := FieldLines(fields) + CRLF;
            FramedFields(fields) <==> OnlyAtEnd(rest) && (rest != CRLF ==> !StartsWithCrlf(rest))
  {
    hide TerminatorAt, NoTerminator, OnlyAtEnd;
    if fields == [] {
      ShortText(CRLF);
      assert FieldLines(fields) + CRLF == CRLF;
    } else {
      var line, rest := FieldLine(fields[0]), FieldLines(fields[1..]) + CRLF;
      var s := line + CRLF + rest;
      assert FieldLines(fields) + CRLF == s;
      assert s != CRLF by {
        assert |s| > |CRLF|;
      }
      assert FramedFields(fields) <==> FramedField(fields[0]) && FramedFields(fields[1..]);
      assert StartsWithCrlf(s) <==> StartsWithCrlf(line);
      FieldLineFramed(fields[0]);
      RestLength(fields[1..]);
      OneMoreLine(line, rest);
      FieldsFramedIff(fields[1..]);
      assert fields == [fields[0]] + fields[1..];
    }
  }

  lemma ShortText(s: Text)
    requires |s| < 4
    ensures OnlyAtEnd(s)
  {
  }

  lemma RestLength(fields: seq<Field>)
    ensures var rest := FieldLines(fields) + CRLF; rest == CRLF || |rest| >= 4
  {
  }

  /** Exactly this much keeps a request in one piece: no empty line inside the target, a name or a
      value, no name that begins with CRLF, no value that ends with one. */
  ghost predicate FramedRequest(target: Text, fields: seq<Field>) {
    NoTerminator(target) && FramedFields(fields)
  }

  /** CR LF CR LF occurs in the request exactly once, at its end, exactly when the request is framed. */
  lemma TerminatorOnlyAtEnd(target: Text, fields: seq<Field>)
    ensures var s := RequestText(target, fields);
            && TerminatorAt(s, |s| - 4)
            && ((forall i :: TerminatorAt(s, i) ==> i == |s| - 4) <==> FramedRequest(target, fields))
  {
    hide TerminatorAt, NoTerminator, FramedFields;
    var line, rest := StartLine(target), FieldLines(fields) + CRLF;
    var s := RequestText(target, fields);
    assert s == line + CRLF + rest;
    RequestEnds(line, fields);
    StartLineFramed(target);
    RestLength(fields);
    OneMoreLine(line, rest);
    FieldsFramedIff(fields);
    assert OnlyAtEnd(s) <==> forall i :: TerminatorAt(s, i) ==> i == |s| - 4;
  }

  /** A request that reads back is framed. */
  lemma CleanIsFramed(target: Text, fields: seq<Field>)
    requires CleanRequest(target, fields)
    ensures FramedRequest(target, fields)
  {
    hide FieldLine;
    NoCrlfNoTerminator(target);
    forall f | f in fields ensures FramedField(f) {
      NoCrlfNoTerminator(f.0);
      NoCrlfNoTerminator(f.1);
    }
  }

  lemma NoCrlfNoTerminator(s: Text)
    requires NoCrlf(s)
    ensures NoTerminator(s) && !StartsWithCrlf(s) && !EndsWithCrlf(s)
  {
    forall i | 0 <= i <= |s| - 4 ensures !TerminatorAt(s, i) {
      TerminatorBytes(s, i);
      assert !(s[i] == CR && s[i + 1] == LF);
    }
  }

  lemma RequestEnds(line: Text, fields: seq<Field>)
    ensures var s := line + CRLF + (FieldLines(fields) + CRLF); TerminatorAt(s, |s| - 4)
  {
    var s := line + CRLF + (FieldLines(fields) + CRLF);
    if fields == [] {
      assert s == line + TERMINATOR;
    } else {
      var last := fields[|fields| - 1];
      assert fields == fields[..|fields| - 1] + [last];
      FieldLinesSnoc(fields[..|fields| - 1], last);
      assert s == line + CRLF + FieldLines(fields[..|fields| - 1]) + FieldLine(last) + TERMINATOR;
    }
  }
}
