/**
 * `expand_env_vars` of schema_scribe/utils/utils.py: one left-to-right pass
 * of `re.sub(r"\$\{([A-Za-z0-9_]+)\}", replacer, content)`, where the
 * replacer looks the name up in the environment and raises ConfigError when
 * it is unset. The environment is a parameter: a name maps to its value,
 * and an unset variable is a name outside the map.
 */
module EnvVars {
  import opened Wrappers

  datatype ConfigError = UnsetVariable(name: string)

  type Environment = map<string, string>

  /** `[A-Za-z0-9_]` */
  predicate IsNameChar(c: char)
  {
    ('A' <= c <= 'Z') || ('a' <= c <= 'z') || ('0' <= c <= '9') || c == '_'
  }

  /** Length of the run of name characters that starts `s`. */
  function NameRun(s: string): (n: nat)
    ensures n <= |s|
    ensures forall k :: 0 <= k < n ==> IsNameChar(s[k])
    ensures n < |s| ==> !IsNameChar(s[n])
  {
    if s != [] && IsNameChar(s[0]) then 1 + NameRun(s[1..]) else 0
  }

  /** The name of the placeholder `${NAME}` that starts `s`, if one does. */
  function PlaceholderAt(s: string): (r: Option<string>)
    ensures r.Some? ==> |r.value| > 0 && |r.value| + 3 <= |s|
    ensures r.Some? ==> s[..|r.value| + 3] == "${" + r.value + "}"
    ensures r.Some? ==> forall k :: 0 <= k < |r.value| ==> IsNameChar(r.value[k])
  {
    if |s| >= 2 && s[0] == '$' && s[1] == '{' then
      var n := NameRun(s[2..]);
      if n > 0 && 2 + n < |s| && s[2 + n] == '}' then
        assert s[..n + 3] == "${" + s[2..2 + n] + "}";
        Some(s[2..2 + n])
      else None
    else None
  }

  /**
   * The substitution pass. The first unset variable, from the left, is the
   * error; text that is not a placeholder is copied.
   */
  function ExpandEnvVars(content: string, env: Environment): (r: Result<string, ConfigError>)
    ensures r.Failure? ==> r.error.name !in env
    decreases |content|
  {
    if content == [] then Success("")
    else match PlaceholderAt(content)
      case Some(name) =>
        if name !in env then Failure(UnsetVariable(name))
        else (match ExpandEnvVars(content[|name| + 3..], env)
          case Success(rest) => Success(env[name] + rest)
          case Failure(e) => Failure(e))
      case None =>
        match ExpandEnvVars(content[1..], env)
        case Success(rest) => Success([content[0]] + rest)
        case Failure(e) => Failure(e)
  }

  // ---------------------------------------------------------------------
  // A reference reading of the same pass: the content split into pieces,
  // each either one literal character or one placeholder.

  datatype Piece = Literal(c: char) | Placeholder(name: string)

  function Tokenize(content: string): seq<Piece>
    decreases |content|
  {
    if content == [] then []
    else match PlaceholderAt(content)
      case Some(name) => [Placeholder(name)] + Tokenize(content[|name| + 3..])
      case None => [Literal(content[0])] + Tokenize(content[1..])
  }

  /** The text a piece was read from. */
  function Source(p: Piece): string
  {
    match p
    case Literal(c) => [c]
    case Placeholder(name) => "${" + name + "}"
  }

  function Untokenize(ps: seq<Piece>): string
  {
    if ps == [] then "" else Source(ps[0]) + Untokenize(ps[1..])
  }

  /** Each piece replaced by its value: a literal by itself, a placeholder by the variable's value. */
  function Substitute(ps: seq<Piece>, env: Environment): Result<string, ConfigError>
  {
    if ps == [] then Success("")
    else
      var head := match ps[0]
        case Literal(c) => Success([c])
        case Placeholder(name) => if name in env then Success(env[name]) else Failure(UnsetVariable(name));
      if head.Failure? then Failure(head.error)
      else match Substitute(ps[1..], env)
        case Success(rest) => Success(head.value + rest)
        case Failure(e) => Failure(e)
  }

  /** Splitting into pieces loses nothing: the pieces spell the content again. */
  lemma {:induction false} TokenizeRoundTrip(content: string)
    ensures Untokenize(Tokenize(content)) == content
    decreases |content|
  {
    if content != [] {
      match PlaceholderAt(content)
      case Some(name) =>
        TokenizeRoundTrip(content[|name| + 3..]);
        assert content == content[..|name| + 3] + content[|name| + 3..];
      case None =>
        TokenizeRoundTrip(content[1..]);
        assert content == [content[0]] + content[1..];
    }
  }

  /**
   * The pass is the piece-by-piece substitution: every character outside a
   * placeholder is kept in place, every placeholder becomes its value, and
   * an inserted value is never read again.
   */
  lemma {:induction false} ExpandIsSubstitution(content: string, env: Environment)
    ensures ExpandEnvVars(content, env) == Substitute(Tokenize(content), env)
    decreases |content|
  {
    if content != [] {
      match PlaceholderAt(content)
      case Some(name) =>
        ExpandIsSubstitution(content[|name| + 3..], env);
        assert Tokenize(content)[1..] == Tokenize(content[|name| + 3..]);
      case None =>
        ExpandIsSubstitution(content[1..], env);
        assert Tokenize(content)[1..] == Tokenize(content[1..]);
    }
  }

  predicate Mentions(content: string, name: string)
  {
    Placeholder(name) in Tokenize(content)
  }

  /** The pass fails exactly when some placeholder names an unset variable. */
  lemma {:induction false} ExpandFailsIffUnset(content: string, env: Environment)
    ensures ExpandEnvVars(content, env).Failure? <==> exists name :: Mentions(content, name) && name !in env
    decreases |content|
  {
    if content != [] {
      match PlaceholderAt(content)
      case Some(name) =>
        ExpandFailsIffUnset(content[|name| + 3..], env);
        assert Tokenize(content) == [Placeholder(name)] + Tokenize(content[|name| + 3..]);
        forall n | Mentions(content[|name| + 3..], n) ensures Mentions(content, n) { }
        if name in env && ExpandEnvVars(content, env).Success? {
          forall n | Mentions(content, n) ensures n in env {
            if n != name {
              assert Placeholder(n) in Tokenize(content[|name| + 3..]);
            }
          }
        }
      case None =>
        ExpandFailsIffUnset(content[1..], env);
        assert Tokenize(content) == [Literal(content[0])] + Tokenize(content[1..]);
        forall n | Mentions(content[1..], n) ensures Mentions(content, n) { }
        forall n | Mentions(content, n) ensures Mentions(content[1..], n) {
          assert Placeholder(n) in Tokenize(content[1..]);
        }
    }
  }

  /**
   * With every variable set to its own placeholder text, the pass returns its
   * input: values are inserted once and never expanded again.
   */
  lemma {:induction false} SelfReferenceNotReexpanded(content: string, env: Environment)
    requires forall name :: name in env ==> env[name] == "${" + name + "}"
    requires forall name :: Mentions(content, name) ==> name in env
    ensures ExpandEnvVars(content, env) == Success(content)
    decreases |content|
  {
    if content != [] {
      match PlaceholderAt(content)
      case Some(name) =>
        assert Tokenize(content) == [Placeholder(name)] + Tokenize(content[|name| + 3..]);
        assert Mentions(content, name);
        forall n | Mentions(content[|name| + 3..], n) ensures n in env {
          assert Mentions(content, n);
        }
        SelfReferenceNotReexpanded(content[|name| + 3..], env);
        assert content == content[..|name| + 3] + content[|name| + 3..];
      case None =>
        assert Tokenize(content) == [Literal(content[0])] + Tokenize(content[1..]);
        forall n | Mentions(content[1..], n) ensures n in env {
          assert Mentions(content, n);
        }
        SelfReferenceNotReexpanded(content[1..], env);
        assert content == [content[0]] + content[1..];
    }
  }

  /** Text without `$` is copied unchanged in front of the expansion of what follows it. */
  lemma {:induction false} LiteralPrefixCopied(prefix: string, rest: string, env: Environment)
    requires forall k :: 0 <= k < |prefix| ==> prefix[k] != '$'
    ensures var r := ExpandEnvVars(rest, env);
      ExpandEnvVars(prefix + rest, env) == if r.Success? then Success(prefix + r.value) else r
    decreases |prefix|
  {
    var r := ExpandEnvVars(rest, env);
    if prefix != [] {
      var s := prefix + rest;
      assert s[0] == prefix[0] && s[0] != '$';
      assert PlaceholderAt(s) == None;
      assert s[1..] == prefix[1..] + rest;
      LiteralPrefixCopied(prefix[1..], rest, env);
      if r.Success? {
        assert [prefix[0]] + (prefix[1..] + r.value) == prefix + r.value;
      }
    } else {
      assert prefix + rest == rest;
      if r.Success? {
        assert prefix + r.value == r.value;
      }
    }
  }

  /** A leading `${NAME}` is replaced by the value of NAME, and the rest is expanded after it. */
  lemma PlaceholderReplaced(name: string, rest: string, env: Environment)
    requires |name| > 0 && forall k :: 0 <= k < |name| ==> IsNameChar(name[k])
    requires name in env
    ensures var r := ExpandEnvVars(rest, env);
      ExpandEnvVars("${" + name + "}" + rest, env) == if r.Success? then Success(env[name] + r.value) else r
  {
    var s := "${" + name + "}" + rest;
    assert s[2..] == name + ("}" + rest);
    NameRunOfName(name, "}" + rest);
    assert s[2..2 + |name|] == name;
    assert s[|name| + 3..] == rest;
    assert PlaceholderAt(s) == Some(name);
  }

  lemma {:induction false} NameRunOfName(name: string, tail: string)
    requires forall k :: 0 <= k < |name| ==> IsNameChar(name[k])
    requires tail != [] && !IsNameChar(tail[0])
    ensures NameRun(name + tail) == |name|
  {
    if name != [] {
      assert (name + tail)[1..] == name[1..] + tail;
      NameRunOfName(name[1..], tail);
    } else {
      assert name + tail == tail;
    }
  }

  /** Text without `$` expands to itself. */
  lemma {:induction false} DollarFreeCopied(s: string, env: Environment)
    requires forall k :: 0 <= k < |s| ==> s[k] != '$'
    ensures ExpandEnvVars(s, env) == Success(s)
    decreases |s|
  {
    if s != [] {
      assert PlaceholderAt(s) == None;
      DollarFreeCopied(s[1..], env);
      assert s == [s[0]] + s[1..];
    }
  }

  /** One placeholder between two stretches of `$`-free text: only the placeholder changes. */
  lemma OnePlaceholder(prefix: string, name: string, suffix: string, env: Environment)
    requires forall k :: 0 <= k < |prefix| ==> prefix[k] != '$'
    requires forall k :: 0 <= k < |suffix| ==> suffix[k] != '$'
    requires |name| > 0 && forall k :: 0 <= k < |name| ==> IsNameChar(name[k])
    requires name in env
    ensures ExpandEnvVars(prefix + ("${" + name + "}" + suffix), env) == Success(prefix + (env[name] + suffix))
  {
    DollarFreeCopied(suffix, env);
    PlaceholderReplaced(name, suffix, env);
    LiteralPrefixCopied(prefix, "${" + name + "}" + suffix, env);
  }

  /** A variable set to the empty string is a valid substitution, not an error. */
  lemma EmptyValueIsValid(name: string, content: string, env: Environment)
    requires |name| > 0 && forall k :: 0 <= k < |name| ==> IsNameChar(name[k])
    requires content == "${" + name + "}" && env == map[name := ""]
    ensures ExpandEnvVars(content, env) == Success("")
  {
    PlaceholderReplaced(name, "", env);
    var r := ExpandEnvVars("", env);
    assert r == Success("");
    assert env[name] + r.value == "";
    assert "${" + name + "}" + "" == content;
  }

  /** `${}` is not a placeholder: the name may not be empty, so it is copied unchanged. */
  lemma EmptyNameCopied(env: Environment)
    ensures ExpandEnvVars("${}", env) == Success("${}")
  {
    var e := "${}";
    assert PlaceholderAt(e) == None by { assert NameRun(e[2..]) == 0; }
    DollarFreeCopied(e[1..], env);
    assert e == [e[0]] + e[1..];
  }

  /** `${A-B}` is not a placeholder: `-` is not a name character, so it is copied unchanged. */
  lemma HyphenatedNameCopied(env: Environment)
    ensures ExpandEnvVars("${A-B}", env) == Success("${A-B}")
  {
    var d := "${A-B}";
    assert PlaceholderAt(d) == None by {
      assert d[2] == 'A' && d[3] == '-';
      assert NameRun(d[3..]) == 0;
      assert d[2..][1..] == d[3..];
      assert NameRun(d[2..]) == 1;
    }
    DollarFreeCopied(d[1..], env);
    assert d == [d[0]] + d[1..];
  }
}
