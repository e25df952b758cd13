/** Environment defaults: env("VAR", "default") in a flow file becomes ${VAR:default}, which
    is resolved against the environment at start-up. */
module EnvDefaults {
  import opened Prelude
  import opened StoreModel
  import opened DslText

  // ---------------------------------------------------------------------------
  // The parser's half
  // ---------------------------------------------------------------------------

  function TrimQuotesLeft(s: string): string {
    if s != "" && IsQuote(s[0]) then TrimQuotesLeft(s[1..]) else s
  }

  function TrimQuotesRight(s: string): string {
    if s != "" && IsQuote(s[|s| - 1]) then TrimQuotesRight(s[..|s| - 1]) else s
  }

  function TrimQuotes(s: string): string {
    TrimQuotesRight(TrimQuotesLeft(s))
  }

  predicate IsComma(c: char) {
    c == ','
  }

  /** resolveEnvCall: an env(...) call as a placeholder; other text only trimmed. */
  function ResolveEnvCall(s: string): string {
    ResolveTrimmed(Trim(s))
  }

  function ResolveTrimmed(t: string): string {
    if !("env(" <= t) || t[|t| - 1] != ')' then t
    else
      var inner := Trim(t[4..|t| - 1]);
      var comma := Find(inner, 0, IsComma);
      var name := TrimQuotes(Trim(inner[..comma]));
      if comma < |inner| then "${" + name + ":" + TrimQuotes(Trim(inner[comma + 1..])) + "}"
      else "${" + name + "}"
  }

  // ---------------------------------------------------------------------------
  // The runtime's half
  // ---------------------------------------------------------------------------

  predicate NameStart(c: char) {
    'A' <= c <= 'Z' || c == '_'
  }

  predicate NotInVariable(c: char) {
    !NameStart(c) && !('0' <= c <= '9')
  }

  datatype Placeholder = Placeholder(name: string, fallback: Option<string>)

  /** The pattern ^\$\{([A-Z_][A-Z0-9_]*)(:[^}]*)?\}$ against a whole text. */
  function Match(s: string): Option<Placeholder> {
    if |s| < 4 || s[..2] != "${" || s[|s| - 1] != '}' then None
    else
      var inner := s[2..|s| - 1];
      var n := Find(inner, 0, NotInVariable);
      if !NameStart(inner[0]) then None
      else if n == |inner| then Some(Placeholder(inner, None))
      else if inner[n] == ':' && '}' !in inner[n + 1..] then Some(Placeholder(inner[..n], Some(inner[n + 1..])))
      else None
  }

  datatype Missing = Missing(name: string)

  /** resolveEnvVar: a set variable wins over the default; without either it is missing. */
  function ResolveEnvVar(value: Value, env: map<string, string>): Result<Value, Missing> {
    if !value.Text? then Success(value)
    else
      match Match(value.text)
      case None => Success(value)
      case Some(p) =>
        if p.name in env then Success(Text(env[p.name]))
        else if p.fallback.Some? then Success(Text(p.fallback.value))
        else Result.Failure(Missing(p.name))
  }

  /** ResolvePropertyMap: all properties, or one that is missing, for any iteration order. */
  method ResolvePropertyMap(props: Contents, env: map<string, string>) returns (r: Result<Contents, Missing>)
    ensures r.Success? <==> forall k :: k in props ==> ResolveEnvVar(props[k], env).Success?
    ensures r.Success? ==> r.value == map k | k in props :: ResolveEnvVar(props[k], env).value
    ensures r.Failure? ==> exists k :: k in props && ResolveEnvVar(props[k], env) == Result.Failure(r.error)
  {
    var resolved: Contents := map[];
    var todo := props.Keys;
    while todo != {}
      invariant todo <= props.Keys
      invariant forall k :: k in props && k !in todo ==> ResolveEnvVar(props[k], env).Success?
      invariant resolved == map k | k in props && k !in todo :: ResolveEnvVar(props[k], env).value
      decreases todo
    {
      var key :| key in todo;
      match ResolveEnvVar(props[key], env) {
        case Failure(e) => return Result.Failure(e);
        case Success(v) => resolved := resolved[key := v];
      }
      todo := todo - {key};
    }
    return Success(resolved);
  }

  // ---------------------------------------------------------------------------
  // Both halves together
  // ---------------------------------------------------------------------------

  predicate VariableName(name: string) {
    name != "" && NameStart(name[0]) && forall k :: 0 <= k < |name| ==> !NotInVariable(name[k])
  }

  lemma {:induction false} TrimsBeforeQuote(d: string)
    ensures TrimQuotesLeft(d + "\"") == if TrimQuotesLeft(d) == "" then "" else TrimQuotesLeft(d) + "\""
    decreases |d|
  {
    var t := d + "\"";
    if d == "" {
      assert t[1..] == "";
    } else if IsQuote(d[0]) {
      TrimsBeforeQuote(d[1..]);
      assert t[1..] == d[1..] + "\"";
    }
  }

  /** The quotes around a text go together with those it has itself at its ends. */
  lemma Unquote(d: string)
    ensures TrimQuotes("\"" + d + "\"") == TrimQuotes(d)
  {
    var t, left := "\"" + d + "\"", TrimQuotesLeft(d);
    assert t[1..] == d + "\"";
    TrimsBeforeQuote(d);
    if left != "" {
      assert (left + "\"")[..|left + "\""| - 1] == left;
    }
  }

  lemma NameIsUnquoted(name: string)
    requires VariableName(name)
    ensures TrimQuotes(name) == name
  {
    assert !NotInVariable(name[|name| - 1]);
  }

  lemma TrimQuoted(s: string)
    ensures Trim("\"" + s + "\"") == "\"" + s + "\""
  {
    TrimIdle("\"" + s + "\"");
  }

  /** How a call with a default is written. */
  function EnvCall(name: string, d: string): string {
    "env(" + ("\"" + name + "\"") + ", " + ("\"" + d + "\"") + ")"
  }

  /** The comma behind a quoted variable name is the first one. */
  lemma FirstComma(name: string, second: string)
    requires VariableName(name)
    ensures var first := "\"" + name + "\"";
            var inner := first + ", " + second;
            Find(inner, 0, IsComma) == |first| && inner[..|first|] == first && inner[|first| + 1..] == " " + second
  {
    var first := "\"" + name + "\"";
    var inner := first + ", " + second;
    assert forall k :: 0 <= k < |first| ==> inner[k] == first[k];
    assert forall k :: 0 < k < |first| - 1 ==> first[k] == name[k - 1];
    FindIs(inner, 0, IsComma, |first|);
  }

  lemma CallWithDefault(name: string, d: string)
    requires VariableName(name)
    ensures ResolveEnvCall(EnvCall(name, d)) == "${" + name + ":" + TrimQuotes(d) + "}"
  {
    var s := EnvCall(name, d);
    var first, second := "\"" + name + "\"", "\"" + d + "\"";
    TrimIdle(s);
    assert s[..4] == "env(";
    var inner := first + ", " + second;
    assert s[4..|s| - 1] == inner;
    TrimIdle(inner);
    FirstComma(name, second);
    TrimQuoted(name);
    NameIsUnquoted(name);
    Unquote(name);
    TrimAfterSpace(second);
    TrimQuoted(d);
    Unquote(d);
  }

  lemma TrimAfterSpace(s: string)
    ensures Trim(" " + s) == Trim(s)
  {
    assert (" " + s)[1..] == s;
  }

  lemma MatchWithDefault(name: string, d: string)
    requires VariableName(name)
    ensures Match("${" + name + ":" + d + "}") == if '}' in d then None else Some(Placeholder(name, Some(d)))
  {
    var s := "${" + name + ":" + d + "}";
    var inner := name + ":" + d;
    assert s[..2] == "${" && s[2..|s| - 1] == inner;
    assert forall k :: 0 <= k < |name| ==> inner[k] == name[k];
    FindIs(inner, 0, NotInVariable, |name|);
    assert inner[..|name|] == name && inner[|name| + 1..] == d;
  }

  /** What an environment call with a default comes to. */
  function Resolved(name: string, fallback: string, env: map<string, string>): string {
    if '}' in fallback then "${" + name + ":" + fallback + "}"
    else if name in env then env[name] else fallback
  }

  /** env("VAR", "default") resolves to the variable, or else the default without the quotes at
      its ends, exactly when the default has no closing brace; otherwise the placeholder is
      left in the property as it is, even when the variable is set. */
  lemma DefaultResolves(name: string, d: string, env: map<string, string>)
    requires VariableName(name)
    ensures ResolveEnvVar(Text(ResolveEnvCall(EnvCall(name, d))), env) ==
            Success(Text(Resolved(name, TrimQuotes(d), env)))
  {
    CallWithDefault(name, d);
    MatchWithDefault(name, TrimQuotes(d));
  }

  lemma CallWithoutDefault(name: string)
    requires VariableName(name)
    ensures ResolveEnvCall("env(" + ("\"" + name + "\"") + ")") == "${" + name + "}"
  {
    var first := "\"" + name + "\"";
    var s := "env(" + first + ")";
    TrimIdle(s);
    assert s[..4] == "env(" && s[4..|s| - 1] == first;
    TrimQuoted(name);
    assert forall k :: 0 < k < |first| - 1 ==> first[k] == name[k - 1];
    FindIs(first, 0, IsComma, |first|);
    assert first[..|first|] == first;
    NameIsUnquoted(name);
    Unquote(name);
  }

  lemma MatchWithoutDefault(name: string)
    requires VariableName(name)
    ensures Match("${" + name + "}") == Some(Placeholder(name, None))
  {
    var p := "${" + name + "}";
    assert p[..2] == "${" && p[2..|p| - 1] == name;
    FindIs(name, 0, NotInVariable, |name|);
  }

  /** env("VAR") resolves to the variable and is missing when it is not set. */
  lemma RequiredResolves(name: string, env: map<string, string>)
    requires VariableName(name)
    ensures ResolveEnvVar(Text(ResolveEnvCall("env(" + ("\"" + name + "\"") + ")")), env) ==
            (if name in env then Success(Text(env[name])) else Result.Failure(Missing(name)))
  {
    CallWithoutDefault(name);
    MatchWithoutDefault(name);
  }
}
