/** Environment-variable substitution in header values (`resolve_header_value`). */
module HeaderValues {
  import opened Common

  /** `vars` are the process's variables; None is a value that is not Unicode. `alphanumeric` classifies
      the characters outside ASCII, each given by its UTF-8 bytes. */
  datatype Env = Env(vars: map<Text, Option<Text>>, alphanumeric: Text -> bool)

  const DOLLAR: byte := 36
  const UNDERSCORE: byte := 95

  datatype ResolveError = MissingVariable(name: Text) | NotUnicode(name: Text)

  /** Bytes of the UTF-8 character that starts with `b`. */
  function CharLength(b: byte): (n: nat)
    ensures 1 <= n <= 4
  {
    if b < 0xC0 then 1 else if b < 0xE0 then 2 else if b < 0xF0 then 3 else 4
  }

  /** Is this character a letter, a digit or an underscore? */
  predicate IsWordChar(c: Text, env: Env)
    requires c != []
  {
    var b := c[0];
    if b < 128 then 48 <= b <= 57 || 65 <= b <= 90 || 97 <= b <= 122 || b == UNDERSCORE
    else env.alphanumeric(c)
  }

  predicate StartsWithWordChar(s: Text, env: Env) {
    s != [] && CharLength(s[0]) <= |s| && IsWordChar(s[..CharLength(s[0])], env)
  }

  /** Position of the first `$`, or the length of `s`. */
  function FindDollar(s: Text): (i: nat)
    ensures i <= |s| && DOLLAR !in s[..i] && (i < |s| ==> s[i] == DOLLAR)
    ensures i < |s| <==> DOLLAR in s
  {
    if s == [] || s[0] == DOLLAR then 0 else
      var j := FindDollar(s[1..]);
      assert s[..1 + j] == [s[0]] + s[1..][..j];
      1 + j
  }

  /** Length of the longest prefix made of word characters. */
  function NameLength(s: Text, env: Env): (n: nat)
    ensures n <= |s| && !StartsWithWordChar(s[n..], env)
    decreases |s|
  {
    if !StartsWithWordChar(s, env) then 0 else
      var k := CharLength(s[0]);
      var n := NameLength(s[k..], env);
      assert s[k..][n..] == s[k + n..];
      k + n
  }

  function ResolveHeaderValue(value: Text, env: Env): Result<Text, ResolveError> {
    var start := FindDollar(value);
    if start == |value| then Ok(value) else
      var after := value[start + 1..];
      var n := NameLength(after, env);
      var name := after[..n];
      if n == 0 then Ok(value)
      else if name !in env.vars then Err(MissingVariable(name))
      else if env.vars[name].None? then Err(NotUnicode(name))
      else Ok(value[..start] + env.vars[name].value + after[n..])
  }

  lemma {:induction false} FindDollarAt(prefix: Text, rest: Text)
    requires DOLLAR !in prefix
    ensures FindDollar(prefix + [DOLLAR] + rest) == |prefix|
  {
    if prefix != [] {
      assert (prefix + [DOLLAR] + rest)[1..] == prefix[1..] + [DOLLAR] + rest;
      FindDollarAt(prefix[1..], rest);
    }
  }

  /** `name` is a run of whole word characters. */
  ghost predicate IsName(name: Text, env: Env)
    decreases |name|
  {
    name == [] || (StartsWithWordChar(name, env) && IsName(name[CharLength(name[0])..], env))
  }

  lemma {:induction false} NameLengthAt(name: Text, suffix: Text, env: Env)
    requires IsName(name, env) && !StartsWithWordChar(suffix, env)
    ensures NameLength(name + suffix, env) == |name|
    decreases |name|
  {
    if name == [] {
      assert name + suffix == suffix;
    } else {
      var k := CharLength(name[0]);
      assert (name + suffix)[..k] == name[..k] && (name + suffix)[k..] == name[k..] + suffix;
      NameLengthAt(name[k..], suffix, env);
    }
  }

  lemma {:induction false} NameLengthIsName(s: Text, env: Env)
    ensures IsName(s[..NameLength(s, env)], env)
    decreases |s|
  {
    var n := NameLength(s, env);
    if n > 0 {
      var k := CharLength(s[0]);
      NameLengthIsName(s[k..], env);
      assert s[..n][..k] == s[..k] && s[..n][k..] == s[k..][..n - k];
    }
  }

  /** `value` reads as prefix, `$`, a maximal variable name, and the rest, at its first `$`. */
  ghost predicate FirstPlaceholder(value: Text, env: Env, prefix: Text, name: Text, suffix: Text) {
    && value == prefix + [DOLLAR] + name + suffix
    && DOLLAR !in prefix
    && IsName(name, env)
    && !StartsWithWordChar(suffix, env)
  }

  /** A `$` determines exactly one reading, and it decides the outcome: an empty name (so also
      `${...}`) leaves the value as it is, a defined variable replaces the placeholder and nothing
      else, and an undefined or undecodable one is an error. Later `$`s are never touched. */
  lemma ResolveExpandsOnlyFirst(value: Text, env: Env, prefix: Text, name: Text, suffix: Text)
    requires FirstPlaceholder(value, env, prefix, name, suffix)
    ensures ResolveHeaderValue(value, env) ==
            if name == [] then Ok(value)
            else if name !in env.vars then Err(MissingVariable(name))
            else match env.vars[name]
                 case Some(v) => Ok(prefix + v + suffix)
                 case None => Err(NotUnicode(name))
  {
    hide FindDollar, NameLength, IsName, StartsWithWordChar;
    FindDollarAt(prefix, name + suffix);
    assert value == prefix + [DOLLAR] + (name + suffix);
    NameLengthAt(name, suffix, env);
    var after := value[|prefix| + 1..];
    assert after == name + suffix;
    assert after[..|name|] == name && after[|name|..] == suffix && value[..|prefix|] == prefix;
  }

  /** Every value with a `$` has a reading at its first one ... */
  lemma PlaceholderExists(value: Text, env: Env) returns (prefix: Text, name: Text, suffix: Text)
    requires DOLLAR in value
    ensures FirstPlaceholder(value, env, prefix, name, suffix)
  {
    var start := FindDollar(value);
    var after := value[start + 1..];
    var n := NameLength(after, env);
    prefix, name, suffix := value[..start], after[..n], after[n..];
    NameLengthIsName(after, env);
    Rejoin(value, start, n);
  }

  lemma Rejoin(s: Text, i: nat, n: nat)
    requires i < |s| && i + 1 + n <= |s|
    ensures s == s[..i] + [s[i]] + s[i + 1..][..n] + s[i + 1..][n..]
  {
    assert s[i + 1..] == s[i + 1..][..n] + s[i + 1..][n..];
    assert s == s[..i] + [s[i]] + s[i + 1..];
  }

  /** ... and a value without one is returned as it is. */
  lemma NoPlaceholder(value: Text, env: Env)
    requires DOLLAR !in value
    ensures ResolveHeaderValue(value, env) == Ok(value)
  {
  }

  // --- in terms of characters ----------------------------------------------------

  /** One UTF-8 character: its first byte tells how many there are. */
  predicate IsChar(c: Text) {
    || (|c| == 1 && c[0] < 0x80)
    || (|c| == 2 && 0xC0 <= c[0] < 0xE0)
    || (|c| == 3 && 0xE0 <= c[0] < 0xF0)
    || (|c| == 4 && 0xF0 <= c[0])
  }

  /** Alphanumeric, or an underscore. */
  predicate InName(c: Text, env: Env) {
    IsChar(c)
    && if |c| == 1 then
         var b := c[0] as int;
         || '0' as int <= b <= '9' as int || 'a' as int <= b <= 'z' as int || 'A' as int <= b <= 'Z' as int
         || b == '_' as int
       else env.alphanumeric(c)
  }

  function Join(chars: seq<Text>): Text {
    if chars == [] then [] else chars[0] + Join(chars[1..])
  }

  lemma CharStarts(c: Text, rest: Text, env: Env)
    requires IsChar(c)
    ensures CharLength((c + rest)[0]) == |c| && (c + rest)[..|c|] == c && (c + rest)[|c|..] == rest
    ensures StartsWithWordChar(c + rest, env) <==> InName(c, env)
  {
    assert (c + rest)[0] == c[0];
  }

  lemma {:induction false} JoinIsName(chars: seq<Text>, env: Env)
    requires forall c :: c in chars ==> InName(c, env)
    ensures IsName(Join(chars), env)
  {
    if chars != [] {
      assert chars[0] in chars;
      CharStarts(chars[0], Join(chars[1..]), env);
      JoinIsName(chars[1..], env);
    }
  }

  /** A value written out in characters: the first `$`, the longest run of name characters behind it, and
      the rest. The environment is asked for exactly this run. */
  lemma ResolveByCharacter(env: Env, prefix: Text, name: seq<Text>, rest: seq<Text>)
    requires Ascii("$")[0] !in prefix
    requires forall c :: c in name ==> InName(c, env)
    requires rest != [] ==> IsChar(rest[0]) && !InName(rest[0], env)
    ensures var value, variable := prefix + Ascii("$") + Join(name) + Join(rest), Join(name);
            ResolveHeaderValue(value, env) ==
            if name == [] then Ok(value)
            else if variable !in env.vars then Err(MissingVariable(variable))
            else match env.vars[variable]
                 case Some(v) => Ok(prefix + v + Join(rest))
                 case None => Err(NotUnicode(variable))
  {
    hide IsName, StartsWithWordChar, ResolveHeaderValue;
    assert Ascii("$") == [DOLLAR];
    JoinIsName(name, env);
    if rest != [] {
      CharStarts(rest[0], Join(rest[1..]), env);
    } else {
      NothingStarts(env);
    }
    if name != [] {
      assert name[0] in name && Join(name) != [];
    }
    var value := prefix + Ascii("$") + Join(name) + Join(rest);
    ResolveExpandsOnlyFirst(value, env, prefix, Join(name), Join(rest));
  }

  lemma NothingStarts(env: Env)
    ensures !StartsWithWordChar([], env)
  {
  }
}
