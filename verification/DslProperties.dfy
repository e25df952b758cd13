/** A property with an environment default, from the text of the properties block to its
    resolved value. */
module DslProperties {
  import opened Prelude
  import opened StoreModel
  import opened DslText
  import opened DslPlaces
  import opened DslScalars
  import opened DslTrees
  import opened DslRoundTrip
  import opened DslFlow
  import opened EnvDefaults
  import opened EnvTexts

  /** Env calls are resolved to what the texts become, and nothing else changes. */
  lemma ResolvedBecome(props: Contents)
    ensures PropertiesBecome(props, ResolveCalls(props))
  {
    forall k | k in props ensures PropertyBecomes(props[k], ResolveCalls(props)[k]) {
      if props[k].Text? {
        TextBecomes(props[k].text, ResolveCalls(props)[k].text);
      }
    }
  }

  lemma {:induction false} WordIsRaw(text: string)
    requires forall k :: 0 <= k < |text| ==> text[k] != '\\' && text[k] != '"'
    ensures RawText(text, '"')
    decreases |text|
  {
    if text != "" {
      WordIsRaw(text[1..]);
    }
  }

  lemma CallSpelledOut(name: string, d: string)
    ensures EnvCall(name, d) == "env(" + ((['"'] + (name + ['"'])) + (", " + ((['"'] + (d + ['"'])) + ")")))
  {
    var first, second := "\"" + name + "\"", "\"" + d + "\"";
    assert first == ['"'] + (name + ['"']) && second == ['"'] + (d + ['"']);
  }

  /** Five texts one behind the other. */
  lemma FiveParts(t: string, p: string, first: string, q: string, second: string, r: string, a: nat, b: nat, e: nat)
    requires t == p + (first + (q + (second + r))) && a == |p| + |first| && b == a + |q| && e == b + |second|
    ensures At(t, 0, p) && At(t, |p|, first) && At(t, a, q) && At(t, b, second) && At(t, e, r) && e + |r| == |t|
  {
    WholeText(t);
    AtSplit(t, 0, p, first + (q + (second + r)));
    AtSplit(t, |p|, first, q + (second + r));
    AtSplit(t, a, q, second + r);
    AtSplit(t, b, second, r);
  }

  lemma CallParts(t: string, name: string, d: string, a: nat, b: nat)
    requires t == EnvCall(name, d) && a == 4 + |name| + 2 && b == a + 2
    ensures At(t, 0, "env(") && At(t, 4, ['"'] + (name + ['"'])) && At(t, a, ", ")
    ensures At(t, b, ['"'] + (d + ['"'])) && b + |d| + 3 == |t| && t[b + |d| + 2] == ')'
  {
    var e := b + |d| + 2;
    CallSpelledOut(name, d);
    FiveParts(t, "env(", ['"'] + (name + ['"']), ", ", ['"'] + (d + ['"']), ")", a, b, e);
    AtIndex(t, e, ")", 0);
  }

  lemma CallOpens(t: string)
    requires At(t, 0, "env(")
    ensures Outside(t, 0, 4) && DepthsAt(t, 0, 4) == Depths(0, 1, 0) && forall m :: 0 <= m < 4 ==> !BareStops(t, 0, m)
  {
    AtIndex(t, 0, "env(", 0);
    AtIndex(t, 0, "env(", 1);
    AtIndex(t, 0, "env(", 2);
    AtIndex(t, 0, "env(", 3);
    forall k | 0 <= k < 3 ensures IsBareChar(t[k]) {
    }
    WordRuns(t, 0, 3);
    assert DepthsAt(t, 0, 3) == Depths(0, 0, 0);
    assert ScanAt(t, 0, 4) == ScanStep(ScanAt(t, 0, 3), '(');
  }

  lemma CommaInside(t: string, a: nat)
    requires At(t, a, ", ") && Outside(t, 0, a) && DepthsAt(t, 0, a) == Depths(0, 1, 0)
    ensures Outside(t, 0, a + 2) && DepthsAt(t, 0, a + 2) == Depths(0, 1, 0)
    ensures !BareStops(t, 0, a) && !BareStops(t, 0, a + 1)
  {
    AtIndex(t, a, ", ", 0);
    AtIndex(t, a, ", ", 1);
    assert ScanAt(t, 0, a + 1) == Free && DepthsAt(t, 0, a + 1) == Depths(0, 1, 0);
  }

  /** A string inside the parentheses of the call. */
  lemma ArgumentRuns(t: string, q: nat, text: string, e: nat)
    requires q <= |t| && Outside(t, 0, q) && DepthsAt(t, 0, q) == Depths(0, 1, 0) && RawText(text, '"')
    requires At(t, q, ['"'] + (text + ['"'])) && e == q + |text| + 2
    ensures e <= |t| && Outside(t, 0, e) && DepthsAt(t, 0, e) == Depths(0, 1, 0)
    ensures forall m :: q <= m < e ==> !BareStops(t, 0, m)
  {
    StringRuns(t, 0, q, text, e);
  }

  lemma CallRuns(t: string, name: string, d: string, a: nat, b: nat, e: nat)
    requires RawText(name, '"') && RawText(d, '"') && a == 4 + |name| + 2 && b == a + 2 && e == b + |d| + 2
    requires At(t, 0, "env(") && At(t, 4, ['"'] + (name + ['"'])) && At(t, a, ", ")
    requires At(t, b, ['"'] + (d + ['"']))
    ensures e <= |t| && Outside(t, 0, e) && DepthsAt(t, 0, e) == Depths(0, 1, 0)
    ensures forall m :: 0 <= m < e ==> !BareStops(t, 0, m)
  {
    FirstArgumentRuns(t, name, a);
    CommaInside(t, a);
    ArgumentRuns(t, b, d, e);
  }

  lemma FirstArgumentRuns(t: string, name: string, a: nat)
    requires RawText(name, '"') && a == 4 + |name| + 2
    requires At(t, 0, "env(") && At(t, 4, ['"'] + (name + ['"']))
    ensures a <= |t| && Outside(t, 0, a) && DepthsAt(t, 0, a) == Depths(0, 1, 0)
    ensures forall m :: 0 <= m < a ==> !BareStops(t, 0, m)
  {
    CallOpens(t);
    ArgumentRuns(t, 4, name, a);
  }

  lemma CallEnds(t: string, e: nat)
    requires e + 1 == |t| && t[e] == ')' && Outside(t, 0, e) && DepthsAt(t, 0, e) == Depths(0, 1, 0)
    ensures Outside(t, 0, e + 1) && DepthsAt(t, 0, e + 1) == Depths(0, 0, 0) && !BareStops(t, 0, e)
  {
    assert ScanAt(t, 0, e + 1) == ScanStep(ScanAt(t, 0, e), ')');
  }

  /** An env call is one unquoted value: its comma is inside parentheses, its strings are closed.
      So it is read whole wherever it stands before a delimiter. */
  lemma EnvCallReads(name: string, d: string)
    requires VariableName(name) && RawText(d, '"')
    ensures BareText(EnvCall(name, d)) && ReadsAs(EnvCall(name, d), true, Text(EnvCall(name, d)))
  {
    var t, a := EnvCall(name, d), 4 + |name| + 2;
    var e := a + 2 + |d| + 2;
    WordIsRaw(name);
    CallParts(t, name, d, a, a + 2);
    CallRuns(t, name, d, a, a + 2, e);
    CallEnds(t, e);
    BareReadsAs(t);
  }

  /** The whole way: a property written with an env call and a default is parsed, turned into
      a placeholder and resolved to the variable, or else the default without the quotes at its
      ends, exactly when the default has no closing brace. */
  lemma PropertyDefaultResolves(key: string, name: string, d: string, env: map<string, string>)
    requires FieldKey(key) && VariableName(name) && RawText(d, '"')
    ensures var block := key + (": " + EnvCall(name, d));
            && ParseMap(block).Ok?
            && ResolveCalls(ParseMap(block).value).Keys == {key}
            && ResolveEnvVar(ResolveCalls(ParseMap(block).value)[key], env) ==
               Success(Text(Resolved(name, TrimQuotes(d), env)))
  {
    CallIsParsed(key, name, d);
    DefaultResolves(name, d, env);
  }

  lemma CallIsParsed(key: string, name: string, d: string)
    requires FieldKey(key) && VariableName(name) && RawText(d, '"')
    ensures ParseMap(key + (": " + EnvCall(name, d))) == Ok(map[key := Text(EnvCall(name, d))])
  {
    var call := EnvCall(name, d);
    var f := Field("", key, "", " ", Bare(call));
    EnvCallReads(name, d);
    assert Find("", 0, NotInline) == 0;
    OneFieldIs(f, "");
    ParsePrintRoundTrip([f], "");
    CallSpelled(f, call);
  }

  lemma CallSpelled(f: Field, call: string)
    requires f == Field("", f.key, "", " ", Bare(call))
    ensures f.lead + (Head(f) + Print(f.tree)) + "" == f.key + (": " + call)
  {
    assert Head(f) == f.key + ("" + (":" + " ")) == f.key + ": ";
    assert "" + (Head(f) + call) + "" == f.key + (": " + call);
  }
}
