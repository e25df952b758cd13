/** What every property text becomes, said of its parts: in the flow file, where an env call
    becomes a placeholder, and at start-up, where a placeholder becomes a value. */
module EnvTexts {
  import opened Prelude
  import opened StoreModel
  import opened DslText
  import opened DslPlaces
  import opened EnvDefaults

  // ---------------------------------------------------------------------------
  // Texts and what is around them
  // ---------------------------------------------------------------------------

  /** The text between the spaces. */
  ghost predicate Padded(s: string, x: string) {
    exists before: string, after: string ::
      AllSpace(before) && AllSpace(after) && s == before + x + after && Tight(x)
  }

  predicate AllQuotes(q: string) {
    forall k :: 0 <= k < |q| ==> q[k] == '"' || q[k] == '\''
  }

  predicate Unquoted(p: string) {
    p != "" ==> p[0] != '"' && p[0] != '\'' && p[|p| - 1] != '"' && p[|p| - 1] != '\''
  }

  /** The text between the quotes. */
  ghost predicate Quoted(s: string, x: string) {
    exists before: string, after: string ::
      AllQuotes(before) && AllQuotes(after) && s == before + x + after && Unquoted(x)
  }

  /** The text between the quotes between the spaces. */
  ghost predicate Argument(s: string, x: string) {
    exists t: string :: Padded(s, t) && Quoted(t, x)
  }

  /** An env call, by its looks. */
  predicate IsCall(x: string) {
    |x| >= 5 && x[..4] == "env(" && x[|x| - 1] == ')'
  }

  /** A placeholder for a variable, and one with a default. */
  function Required(name: string): string {
    "${" + name + "}"
  }

  function Optional(name: string, d: string): string {
    "${" + name + ":" + d + "}"
  }

  /** The inside of a call, at its first comma: the variable, and the default behind it. */
  ghost predicate Arguments(inner: string, first: string, rest: string, name: string, d: string) {
    inner == first + "," + rest && ',' !in first && Argument(first, name) && Argument(rest, d)
  }

  /** The placeholder a call becomes, with what stands behind its first comma as the default. */
  ghost predicate Placeheld(inner: string, w: string) {
    if ',' in inner then
      exists first: string, rest: string, name: string, d: string ::
        Arguments(inner, first, rest, name, d) && w == Optional(name, d)
    else exists name: string :: Argument(inner, name) && w == Required(name)
  }

  /** A text without spaces around it is kept, unless it is an env call. */
  ghost predicate TightBecomes(x: string, w: string) {
    if IsCall(x) then Placeheld(x[4..|x| - 1], w) else w == x
  }

  /** So is every property text, but for the spaces around it. */
  ghost predicate Becomes(s: string, w: string) {
    exists x: string :: Padded(s, x) && TightBecomes(x, w)
  }

  // ---------------------------------------------------------------------------
  // There is only one such text
  // ---------------------------------------------------------------------------

  lemma PaddedIsTrim(s: string, x: string)
    ensures Padded(s, x) <==> x == Trim(s)
  {
    if Padded(s, x) {
      var before: string, after: string :|
        AllSpace(before) && AllSpace(after) && s == before + x + after && Tight(x);
      TrimPadded(before, x, after);
    }
    var before, after := TrimParts(s);
    assert s == before + Trim(s) + after;
  }

  lemma {:induction false} QuotesLeft(before: string, x: string)
    requires AllQuotes(before) && (x != "" ==> !IsQuote(x[0]))
    ensures TrimQuotesLeft(before + x) == x
    decreases |before|
  {
    if before == "" {
      assert before + x == x;
    } else {
      QuotesLeft(before[1..], x);
      assert (before + x)[1..] == before[1..] + x;
    }
  }

  lemma {:induction false} QuotesRight(x: string, after: string)
    requires AllQuotes(after) && (x != "" ==> !IsQuote(x[|x| - 1]))
    ensures TrimQuotesRight(x + after) == x
    decreases |after|
  {
    if after == "" {
      assert x + after == x;
    } else {
      QuotesRight(x, after[..|after| - 1]);
      assert (x + after)[..|x + after| - 1] == x + after[..|after| - 1];
    }
  }

  lemma QuotesAround(before: string, x: string, after: string)
    requires AllQuotes(before) && AllQuotes(after) && Unquoted(x)
    ensures TrimQuotes(before + x + after) == x
  {
    if x == "" {
      assert before + x + after == (before + after) + "";
      QuotesLeft(before + after, "");
    } else {
      ConcatEnds(x, after);
      assert before + x + after == before + (x + after);
      QuotesLeft(before, x + after);
      QuotesRight(x, after);
    }
  }

  lemma {:induction false} LeftQuotes(s: string) returns (q: string)
    ensures AllQuotes(q) && s == q + TrimQuotesLeft(s)
    ensures TrimQuotesLeft(s) != "" ==> !IsQuote(TrimQuotesLeft(s)[0])
  {
    q := "";
    if s != "" && IsQuote(s[0]) {
      var rest := LeftQuotes(s[1..]);
      q := [s[0]] + rest;
      assert s == [s[0]] + s[1..] == [s[0]] + (rest + TrimQuotesLeft(s[1..]));
    }
  }

  lemma {:induction false} RightQuotes(s: string) returns (q: string)
    ensures AllQuotes(q) && s == TrimQuotesRight(s) + q
    ensures TrimQuotesRight(s) != "" ==> !IsQuote(TrimQuotesRight(s)[|TrimQuotesRight(s)| - 1])
  {
    q := "";
    var n := |s|;
    if n > 0 && IsQuote(s[n - 1]) {
      var rest := RightQuotes(s[..n - 1]);
      q := rest + [s[n - 1]];
      assert s == s[..n - 1] + [s[n - 1]] == (TrimQuotesRight(s[..n - 1]) + rest) + [s[n - 1]];
    }
  }

  lemma QuotedIsUnquoted(s: string, x: string)
    ensures Quoted(s, x) <==> x == TrimQuotes(s)
  {
    if Quoted(s, x) {
      var before: string, after: string :|
        AllQuotes(before) && AllQuotes(after) && s == before + x + after && Unquoted(x);
      QuotesAround(before, x, after);
    }
    var before := LeftQuotes(s);
    var left := TrimQuotesLeft(s);
    var after := RightQuotes(left);
    var inner := TrimQuotes(s);
    assert left == inner + after && s == before + inner + after;
    assert inner != "" ==> inner[0] == left[0];
    assert Unquoted(inner);
  }

  lemma ArgumentIs(s: string, x: string)
    ensures Argument(s, x) <==> x == TrimQuotes(Trim(s))
  {
    if Argument(s, x) {
      var t: string :| Padded(s, t) && Quoted(t, x);
      PaddedIsTrim(s, t);
      QuotedIsUnquoted(t, x);
    }
    PaddedIsTrim(s, Trim(s));
    QuotedIsUnquoted(Trim(s), TrimQuotes(Trim(s)));
  }

  // ---------------------------------------------------------------------------
  // Env calls
  // ---------------------------------------------------------------------------

  /** Spaces in front of a text, or behind it, make no difference to what is trimmed. */
  lemma TrimAround(before: string, x: string, after: string)
    requires AllSpace(before) && AllSpace(after)
    ensures Trim(before + x + after) == Trim(x)
  {
    var b, a := TrimParts(x);
    var t := Trim(x);
    assert before + x + after == (before + b) + t + (a + after);
    TrimPadded(before + b, t, a + after);
  }

  lemma FirstCommaAt(first: string, rest: string)
    requires ',' !in first
    ensures Find(first + "," + rest, 0, IsComma) == |first|
  {
    var whole := first + "," + rest;
    assert forall k :: 0 <= k < |first| ==> whole[k] == first[k];
    FindIs(whole, 0, IsComma, |first|);
  }

  lemma NoCommaAt(inner: string)
    requires ',' !in inner
    ensures Find(inner, 0, IsComma) == |inner|
  {
    FindIs(inner, 0, IsComma, |inner|);
  }

  /** What the parser makes of the inside of a call, before any trimming. */
  function CallText(inner: string): string {
    var comma := Find(inner, 0, IsComma);
    var name := TrimQuotes(Trim(inner[..comma]));
    if comma < |inner| then Optional(name, TrimQuotes(Trim(inner[comma + 1..]))) else Required(name)
  }

  lemma ArgumentsAre(inner: string, first: string, rest: string, name: string, d: string)
    requires Arguments(inner, first, rest, name, d)
    ensures CallText(inner) == Optional(name, d)
  {
    FirstCommaAt(first, rest);
    ArgumentIs(first, name);
    ArgumentIs(rest, d);
    assert inner[..|first|] == first && inner[|first| + 1..] == rest;
  }

  lemma ArgumentsExist(inner: string)
    requires ',' in inner
    ensures Placeheld(inner, CallText(inner))
  {
    var comma := Find(inner, 0, IsComma);
    var first, rest := inner[..comma], inner[comma + 1..];
    assert inner == first + "," + rest;
    ArgumentIs(first, TrimQuotes(Trim(first)));
    ArgumentIs(rest, TrimQuotes(Trim(rest)));
    assert Arguments(inner, first, rest, TrimQuotes(Trim(first)), TrimQuotes(Trim(rest)));
  }

  lemma PlaceheldIsCallText(inner: string, w: string)
    ensures Placeheld(inner, w) <==> w == CallText(inner)
  {
    if ',' in inner {
      forall first: string, rest: string, name: string, d: string | Arguments(inner, first, rest, name, d)
        ensures CallText(inner) == Optional(name, d)
      {
        ArgumentsAre(inner, first, rest, name, d);
      }
      ArgumentsExist(inner);
    } else {
      NoCommaAt(inner);
      assert inner[..|inner|] == inner;
      forall name: string ensures Argument(inner, name) <==> name == TrimQuotes(Trim(inner)) {
        ArgumentIs(inner, name);
      }
    }
  }

  /** Trimming the inside of a call first changes none of its parts. */
  lemma TrimmedAtComma(before: string, left: string, right: string, after: string)
    requires AllSpace(before) && AllSpace(after) && ',' !in left
    ensures CallText(before + (left + "," + right) + after) == CallText(left + "," + right)
  {
    var inner := before + (left + "," + right) + after;
    assert inner == (before + left) + "," + (right + after);
    SpacesHaveNoComma(before);
    FirstCommaAt(before + left, right + after);
    FirstCommaAt(left, right);
    assert inner[..|before + left|] == before + left + "" && inner[|before + left| + 1..] == "" + right + after;
    assert (left + "," + right)[..|left|] == left && (left + "," + right)[|left| + 1..] == right;
    TrimAround(before, left, "");
    TrimAround("", right, after);
  }

  lemma SpacesHaveNoComma(pad: string)
    requires AllSpace(pad)
    ensures ',' !in pad
  {
  }

  lemma TrimmedInside(inner: string)
    ensures CallText(Trim(inner)) == CallText(inner)
  {
    var before, after := TrimParts(inner);
    var t := Trim(inner);
    var comma := Find(t, 0, IsComma);
    if comma < |t| {
      assert t == t[..comma] + "," + t[comma + 1..];
      TrimmedAtComma(before, t[..comma], t[comma + 1..], after);
    } else {
      SpacesHaveNoComma(before);
      SpacesHaveNoComma(after);
      assert ',' !in t;
      NoCommaAt(inner);
      assert inner[..|inner|] == inner && t[..|t|] == t;
      TrimTwice(inner);
    }
  }

  lemma CallLooks(x: string)
    ensures IsCall(x) <==> "env(" <= x && x[|x| - 1] == ')'
  {
  }

  lemma CallIsResolved(x: string)
    requires IsCall(x)
    ensures ResolveTrimmed(x) == CallText(Trim(x[4..|x| - 1]))
  {
    CallLooks(x);
  }

  lemma TightIsResolved(x: string, w: string)
    ensures TightBecomes(x, w) <==> w == ResolveTrimmed(x)
  {
    if IsCall(x) {
      CallIsResolved(x);
      TrimmedInside(x[4..|x| - 1]);
      PlaceheldIsCallText(x[4..|x| - 1], w);
    } else {
      CallLooks(x);
    }
  }

  /** What every property text becomes. */
  lemma TextBecomes(s: string, w: string)
    ensures Becomes(s, w) <==> w == ResolveEnvCall(s)
  {
    TightIsResolved(Trim(s), w);
    if Becomes(s, w) {
      var x: string :| Padded(s, x) && TightBecomes(x, w);
      PaddedIsTrim(s, x);
    } else {
      PaddedIsTrim(s, Trim(s));
    }
  }

  /** A text that has no space at its ends and is no env call is kept. */
  lemma PlainTextIsKept(s: string, w: string)
    requires Tight(s) && !IsCall(s)
    ensures Becomes(s, w) <==> w == s
  {
    TrimIdle(s);
    TextBecomes(s, w);
    CallLooks(s);
  }

  /** Of the properties, the texts become what they become; lists, maps and all other values are
      kept. */
  ghost predicate PropertyBecomes(v: Value, w: Value) {
    match v
    case Text(s) => w.Text? && Becomes(s, w.text)
    case _ => w == v
  }

  ghost predicate PropertiesBecome(props: Contents, resolved: Contents) {
    resolved.Keys == props.Keys && forall k :: k in props ==> PropertyBecomes(props[k], resolved[k])
  }

  // ---------------------------------------------------------------------------
  // Placeholders
  // ---------------------------------------------------------------------------

  /** How a placeholder is written. */
  predicate Spells(s: string, name: string, fallback: Option<string>) {
    && VariableName(name)
    && match fallback
       case None => s == "${" + name + "}"
       case Some(d) => '}' !in d && s == "${" + name + ":" + d + "}"
  }

  lemma SpelledMatches(s: string, name: string, fallback: Option<string>)
    requires Spells(s, name, fallback)
    ensures Match(s) == Some(Placeholder(name, fallback))
  {
    match fallback
    case None => MatchWithoutDefault(name);
    case Some(d) => MatchWithDefault(name, d);
  }

  lemma MatchIsSpelled(s: string)
    requires Match(s).Some?
    ensures Spells(s, Match(s).value.name, Match(s).value.fallback)
  {
    var inner := s[2..|s| - 1];
    var n := Find(inner, 0, NotInVariable);
    assert s == "${" + inner + "}";
    assert inner[..n] == Match(s).value.name by {
      assert n == |inner| ==> inner[..n] == inner;
    }
    if n < |inner| {
      assert inner == inner[..n] + ":" + inner[n + 1..];
      assert s == "${" + inner[..n] + ":" + inner[n + 1..] + "}";
    }
  }

  /** What a property value comes to at start-up: a placeholder becomes its variable if that is
      set, else its default, else it is missing; any other text, and a value that is no text,
      stays as it is. */
  ghost predicate ComesTo(value: Value, env: map<string, string>, r: Result<Value, Missing>) {
    || ((!value.Text? || !exists name: string, d: Option<string> :: Spells(value.text, name, d)) && r == Success(value))
    || (value.Text? && exists name: string, d: Option<string> ::
          && Spells(value.text, name, d)
          && r == if name in env then Success(Text(env[name]))
                  else if d.Some? then Success(Text(d.value))
                  else Result.Failure(Missing(name)))
  }

  lemma ValueComesTo(value: Value, env: map<string, string>, r: Result<Value, Missing>)
    ensures ComesTo(value, env, r) <==> r == ResolveEnvVar(value, env)
  {
    if value.Text? {
      forall name: string, d: Option<string> | Spells(value.text, name, d)
        ensures Match(value.text) == Some(Placeholder(name, d))
      {
        SpelledMatches(value.text, name, d);
      }
      if Match(value.text).Some? {
        MatchIsSpelled(value.text);
      }
    }
  }
}
