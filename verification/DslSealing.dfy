/** When a printed tree closes at its own brackets: it does when every key and every unquoted
    value in it closes what it opens, and hides nothing behind a comment. */
module DslSealing {
  import opened DslText
  import opened DslPlaces
  import opened DslGaps
  import opened DslBlocks
  import opened DslScalars
  import opened DslTrees

  // ---------------------------------------------------------------------------
  // One text behind the other
  // ---------------------------------------------------------------------------

  /** A line break with nothing but separators in front of it. */
  predicate Breaks(p: string) {
    var n := Find(p, 0, IsNewline); n < |p| && forall m :: 0 <= m < n ==> !NotSeparator(p[m])
  }

  /** No comment begins where the two texts meet, and a comment that is still open at the end
      of the first one ends behind separators of the second one. */
  predicate Meets(x: string, breaks: bool, y: string) {
    (x != "" && x[|x| - 1] == '/' && y != "" ==> y[0] != '/') && (breaks ==> Breaks(y))
  }

  /** The lexer before position m of the second text, come from the first one, against the
      lexer of the second text alone. */
  predicate Alike(y: string, m: nat, l: Lex, l': Lex) {
    && l.depth == l'.depth
    && (l.mode == l'.mode ||
        (l'.mode == Plain && ((l.mode == Slash && m == 0) || (l.mode == Comment && m <= Find(y, 0, IsNewline)))))
  }

  lemma AlikeSteps(b: Brackets, x: string, breaks: bool, y: string, m: nat, l: Lex, l': Lex)
    requires Meets(x, breaks, y) && m < |y| && Alike(y, m, l, l')
    requires l.mode == Slash && l'.mode != Slash ==> y[0] != '/'
    requires l.mode == Comment && l'.mode != Comment ==> breaks
    ensures Alike(y, m + 1, LexStep(b, l, y[m]), LexStep(b, l', y[m]))
    ensures LexStep(b, l, y[m]).mode == Slash ==> LexStep(b, l', y[m]).mode == Slash
    ensures LexStep(b, l, y[m]).mode == Comment && LexStep(b, l', y[m]).mode != Comment ==> breaks
  {
    if l.mode == Comment && l'.mode == Plain {
      var n := Find(y, 0, IsNewline);
      assert m < n ==> !NotSeparator(y[m]) && !IsNewline(y[m]);
    }
  }

  lemma EndsInSlash(b: Brackets, x: string)
    requires LexAt(b, x, 0, |x|).mode == Slash
    ensures x != "" && x[|x| - 1] == '/'
  {
  }

  lemma {:induction false} RunsOn(b: Brackets, x: string, breaks: bool, y: string, s: string, m: nat)
    requires Sealed(b, x, breaks) && Meets(x, breaks, y) && s == x + y && m <= |y|
    ensures var l, l' := LexAt(b, s, 0, |x| + m), LexAt(b, y, 0, m);
            && Alike(y, m, l, l')
            && (l.mode == Slash && l'.mode != Slash ==> m == 0 && (y != "" ==> y[0] != '/'))
            && (l.mode == Comment && l'.mode != Comment ==> breaks)
    decreases m
  {
    if m == 0 {
      AtFront(x, y);
      LexInside(b, s, 0, x, 0, |x|);
      if LexAt(b, x, 0, |x|).mode == Slash {
        EndsInSlash(b, x);
      }
    } else {
      var k: nat := m - 1;
      RunsOn(b, x, breaks, y, s, k);
      AlikeSteps(b, x, breaks, y, k, LexAt(b, s, 0, |x| + k), LexAt(b, y, 0, k));
      assert s[|x| + k] == y[k];
    }
  }

  lemma AtFront(x: string, y: string)
    ensures At(x + y, 0, x) && At(x + y, |x|, y)
  {
  }

  lemma SealedConcat(b: Brackets, x: string, breaks: bool, y: string, last: bool)
    requires Sealed(b, x, breaks) && Sealed(b, y, last) && Meets(x, breaks, y)
    ensures Sealed(b, x + y, last)
  {
    var s, n := x + y, |x|;
    forall k: nat | k <= |s| ensures LexAt(b, s, 0, k).depth > 0 {
      if k <= n {
        AtFront(x, y);
        LexInside(b, s, 0, x, 0, k);
      } else {
        var m: nat := k - n;
        RunsOn(b, x, breaks, y, s, m);
        assert LexAt(b, y, 0, m).depth > 0;
      }
    }
    RunsOn(b, x, breaks, y, s, |y|);
  }

  // ---------------------------------------------------------------------------
  // Texts that are sealed
  // ---------------------------------------------------------------------------

  lemma SealedAnyway(b: Brackets, p: string, breaks: bool)
    requires Sealed(b, p, false)
    ensures Sealed(b, p, breaks)
  {
  }

  predicate IsPlain(c: char) {
    !IsAnyQuote(c) && c != '{' && c != '}' && c != '(' && c != ')'
  }

  predicate Uncommented(text: string) {
    forall k :: 0 <= k < |text| ==> !CommentAt(text, k)
  }

  lemma {:induction false} PlainRuns(b: Brackets, p: string, n: nat)
    requires n <= |p| && (forall k :: 0 <= k < |p| ==> IsPlain(p[k])) && Uncommented(p)
    ensures var l := LexAt(b, p, 0, n); l == Lex(1, Plain) || (l == Lex(1, Slash) && n > 0 && p[n - 1] == '/')
    decreases n
  {
    if n > 0 {
      var m: nat := n - 1;
      PlainRuns(b, p, m);
      if LexAt(b, p, 0, m).mode == Slash {
        var k: nat := m - 1;
        assert !CommentAt(p, k);
      }
    }
  }

  /** Neither quotes nor brackets nor comments. */
  lemma PlainSealed(b: Brackets, p: string)
    requires (forall k :: 0 <= k < |p| ==> IsPlain(p[k])) && Uncommented(p)
    ensures Sealed(b, p, false)
  {
    forall m: nat | m <= |p| ensures LexAt(b, p, 0, m).depth > 0 {
      PlainRuns(b, p, m);
    }
    PlainRuns(b, p, |p|);
  }

  lemma SeparatorsSealed(b: Brackets, p: string)
    requires SeparatorText(p)
    ensures Sealed(b, p, false)
  {
    PlainSealed(b, p);
  }

  lemma {:induction false} StringRuns(b: Brackets, s: string, q: nat, text: string, quote: char)
    requires At(s, q, text) && RawText(text, quote) && quote != '\\' && LexAt(b, s, 0, q) == Lex(1, Str(quote))
    ensures LexAt(b, s, 0, q + |text|) == Lex(1, Str(quote))
    ensures forall m :: q <= m <= q + |text| ==> LexAt(b, s, 0, m).depth == 1
    decreases |text|
  {
    if text != "" {
      var n := Element(text);
      assert s[q] == text[0] && LexAt(b, s, 0, q + 1) == LexStep(b, Lex(1, Str(quote)), s[q]);
      if n == 2 {
        assert LexAt(b, s, 0, q + 2) == LexStep(b, LexAt(b, s, 0, q + 1), s[q + 1]);
      }
      AtTail(s, q, text, n);
      StringRuns(b, s, q + n, text[n..], quote);
    }
  }

  lemma StringLaysOut(s: string, text: string, quote: char, n: nat)
    requires s == [quote] + (text + [quote]) && n == |text|
    ensures |s| == n + 2 && s[0] == quote && s[n + 1] == quote && At(s, 1, text)
  {
    WholeText(s);
    AtSplit(s, 0, [quote], text + [quote]);
    AtSplit(s, 1, text, [quote]);
  }

  lemma StringOpens(b: Brackets, s: string, quote: char)
    requires IsQuote(quote) && s != "" && s[0] == quote
    ensures LexAt(b, s, 0, 1) == Lex(1, Str(quote))
  {
    assert LexAt(b, s, 0, 0) == Lex(1, Plain);
  }

  lemma StringEnds(b: Brackets, s: string, quote: char, n: nat)
    requires IsQuote(quote) && n < |s| && s[n] == quote && LexAt(b, s, 0, n) == Lex(1, Str(quote))
    ensures LexAt(b, s, 0, n + 1) == Lex(1, Plain)
  {
  }

  lemma StringSealed(b: Brackets, text: string, quote: char)
    requires IsQuote(quote) && RawText(text, quote)
    ensures Sealed(b, [quote] + (text + [quote]), false)
  {
    var s, n: nat := [quote] + (text + [quote]), |text|;
    StringLaysOut(s, text, quote, n);
    StringOpens(b, s, quote);
    StringRuns(b, s, 1, text, quote);
    StringEnds(b, s, quote, n + 1);
    forall m: nat | m <= n + 2 ensures LexAt(b, s, 0, m).depth > 0 {
      assert m == 0 || m == n + 2 || 1 <= m <= 1 + n;
    }
  }

  lemma {:induction false} DeeperRuns(b: Brackets, p: string, s: string, m: nat, d: int)
    requires s == "{" + (p + "}") && m <= |p| && d == (if b.Parens? then 0 else 1)
    ensures LexAt(b, s, 0, 1 + m) == Lex(LexAt(b, p, 0, m).depth + d, LexAt(b, p, 0, m).mode)
    decreases m
  {
    if m == 0 {
      assert LexAt(b, s, 0, 1) == LexStep(b, LexAt(b, s, 0, 0), s[0]);
    } else {
      var k: nat := m - 1;
      DeeperRuns(b, p, s, k, d);
      assert s[1 + k] == p[k];
      assert LexAt(b, s, 0, 1 + m) == LexStep(b, LexAt(b, s, 0, 1 + k), s[1 + k]);
    }
  }

  lemma BracesSealed(b: Brackets, p: string)
    requires Sealed(b, p, false)
    ensures Sealed(b, "{" + (p + "}"), false)
  {
    var s, d, n: nat := "{" + (p + "}"), if b.Parens? then 0 else 1, |p|;
    DeeperRuns(b, p, s, n, d);
    assert s[1 + n] == '}' && LexAt(b, s, 0, n + 2) == LexStep(b, LexAt(b, s, 0, n + 1), s[1 + n]);
    forall m: nat | m <= |s| ensures LexAt(b, s, 0, m).depth > 0 {
      if 1 <= m <= n + 1 {
        var k: nat := m - 1;
        DeeperRuns(b, p, s, k, d);
        assert LexAt(b, p, 0, k).depth > 0;
      }
    }
  }

  // ---------------------------------------------------------------------------
  // Trees
  // ---------------------------------------------------------------------------

  /** Keys and unquoted values close what they open; a comment in an unquoted value ends with
      the line, before anything else comes. */
  predicate Quiet(b: Brackets, t: Tree, breaks: bool)
    decreases Size(t)
  {
    match t
    case Quoted(_, _) => true
    case Bare(text) => Sealed(b, text, breaks)
    case Arr(items, close) => ItemsQuiet(b, items, close)
    case Obj(fields, close) => FieldsQuiet(b, fields, close)
  }

  predicate ItemsQuiet(b: Brackets, items: seq<Entry>, close: string)
    decreases ItemsSize(items)
  {
    || items == []
    || (Quiet(b, items[0].tree, Breaks(NextLead(items, close))) && ItemsQuiet(b, items[1..], close))
  }

  predicate FieldsQuiet(b: Brackets, fields: seq<Field>, close: string)
    decreases FieldsSize(fields)
  {
    if fields == [] then Sealed(b, close, false)
    else
      && Sealed(b, fields[0].lead, false) && Sealed(b, Head(fields[0]), false)
      && Quiet(b, fields[0].tree, Breaks(NextFieldLead(fields, close)))
      && FieldsQuiet(b, fields[1..], close)
  }

  /** What a printed value ends with: a slash only if it is unquoted. */
  lemma {:induction false} PrintEnds(t: Tree)
    requires Shaped(t)
    ensures Print(t) != "" && Tight(Print(t))
    ensures Print(t)[|Print(t)| - 1] == '/' ==> t.Bare?
  {
    match t
    case Quoted(quote, text) => ConcatEnds([quote], text + [quote]);
    case Arr(items, close) =>
      ConcatEnds(close, "]");
      ConcatEnds(PrintItems(items), close + "]");
    case Obj(_, _) =>
    case Bare(_) =>
  }

  /** What stands behind a value does not begin with a slash if it is unquoted. */
  lemma DelimiterBegins(t: Tree, p: string, more: bool)
    requires DelimiterText(t, p, more) && t.Bare?
    ensures p != "" ==> p[0] != '/'
  {
    if p != "" {
      assert Find(p, 0, NotInline) == 0 || !NotInline(p[0]);
    }
  }

  /** A line break in the first part is one in the whole. */
  lemma BreaksInFront(p: string, rest: string)
    requires Breaks(p)
    ensures Breaks(p + rest)
  {
    var s, n := p + rest, Find(p, 0, IsNewline);
    forall m | 0 <= m < n ensures !IsNewline(s[m]) && !NotSeparator(s[m]) {
      assert s[m] == p[m];
    }
    assert s[n] == p[n];
    FindIs(s, 0, IsNewline, n);
  }

  /** A value and what stands behind it. */
  lemma ValueMeets(t: Tree, lead: string, more: bool, tail: string)
    requires Shaped(t) && DelimiterText(t, lead, more) && (lead == "" && !more && tail != "" ==> tail[0] != '/')
    ensures Meets(Print(t), Breaks(lead), lead + tail)
  {
    PrintEnds(t);
    ConcatEnds(lead, tail);
    if t.Bare? {
      DelimiterBegins(t, lead, more);
    }
    if Breaks(lead) {
      BreaksInFront(lead, tail);
    }
  }

  lemma ItemsBehind(items: seq<Entry>, close: string) returns (tail: string)
    requires items != []
    ensures PrintItems(items[1..]) + (close + "]") == NextLead(items, close) + tail
    ensures |items| == 1 ==> tail == "]"
  {
    if |items| == 1 {
      tail := "]";
      assert PrintItems(items[1..]) + (close + "]") == close + "]";
    } else {
      var rest := Print(items[1].tree) + PrintItems(items[1..][1..]);
      tail := rest + (close + "]");
      Regroup(items[1].lead, rest, close + "]");
    }
  }

  lemma FieldsBehind(fields: seq<Field>, close: string) returns (tail: string)
    requires fields != []
    ensures PrintFields(fields[1..]) + close == NextFieldLead(fields, close) + tail
    ensures |fields| == 1 ==> tail == ""
  {
    if |fields| == 1 {
      tail := "";
      assert PrintFields(fields[1..]) + close == close == close + tail;
    } else {
      var rest := PrintCore(fields[1..]);
      tail := rest + close;
      Regroup(fields[1].lead, rest, close);
    }
  }

  lemma Regroup(a: string, b: string, c: string)
    ensures (a + b) + c == a + (b + c)
  {
  }

  lemma {:induction false} TreeSealed(b: Brackets, t: Tree, breaks: bool)
    requires Shaped(t) && Quiet(b, t, breaks)
    ensures Sealed(b, Print(t), breaks)
    decreases Size(t), 0
  {
    match t
    case Quoted(quote, text) =>
      StringSealed(b, text, quote);
      SealedAnyway(b, Print(t), breaks);
    case Bare(_) =>
    case Arr(items, close) =>
      var rest := PrintItems(items) + (close + "]");
      ItemsSealed(b, items, close);
      PlainSealed(b, "[");
      SealedConcat(b, "[", false, rest, false);
      SealedAnyway(b, Print(t), breaks);
    case Obj(fields, close) =>
      FieldsSealed(b, fields, close);
      BracesSealed(b, Body(fields, close));
      assert Print(t) == "{" + (Body(fields, close) + "}");
      SealedAnyway(b, Print(t), breaks);
  }

  lemma {:induction false} ItemsSealed(b: Brackets, items: seq<Entry>, close: string)
    requires ItemsShaped(items, close) && ItemsQuiet(b, items, close)
    ensures Sealed(b, PrintItems(items) + (close + "]"), false)
    decreases ItemsSize(items), 1
  {
    if items == [] {
      PlainSealed(b, close + "]");
      assert PrintItems(items) + (close + "]") == close + "]";
    } else {
      var rest, lead := PrintItems(items[1..]) + (close + "]"), NextLead(items, close);
      ItemsSealed(b, items[1..], close);
      TreeSealed(b, items[0].tree, Breaks(lead));
      var tail := ItemsBehind(items, close);
      ValueMeets(items[0].tree, lead, |items| > 1, tail);
      SealedConcat(b, Print(items[0].tree), Breaks(lead), rest, false);
      LeadSealed(b, items[0].lead, Print(items[0].tree), PrintItems(items[1..]), close + "]");
    }
  }

  lemma LeadSealed(b: Brackets, lead: string, value: string, rest: string, end: string)
    requires SeparatorText(lead) && Sealed(b, value + (rest + end), false)
    ensures Sealed(b, (lead + (value + rest)) + end, false)
  {
    SeparatorsSealed(b, lead);
    assert lead != "" ==> !NotSeparator(lead[|lead| - 1]);
    SealedConcat(b, lead, false, value + (rest + end), false);
    assert (lead + (value + rest)) + end == lead + (value + (rest + end));
  }

  lemma {:induction false} FieldsSealed(b: Brackets, fields: seq<Field>, close: string)
    requires FieldsShaped(fields, close) && FieldsQuiet(b, fields, close)
    ensures Sealed(b, Body(fields, close), false)
    decreases FieldsSize(fields), 1
  {
    if fields == [] {
      assert Body(fields, close) == close;
    } else {
      var f, rest, lead := fields[0], PrintFields(fields[1..]), NextFieldLead(fields, close);
      FieldsSealed(b, fields[1..], close);
      TreeSealed(b, f.tree, Breaks(lead));
      var tail := FieldsBehind(fields, close);
      ValueMeets(f.tree, lead, |fields| > 1, tail);
      SealedConcat(b, Print(f.tree), Breaks(lead), rest + close, false);
      HeadSealed(b, f, Print(f.tree), rest, close);
      assert PrintCore(fields) == Head(f) + (Print(f.tree) + rest);
    }
  }

  lemma HeadSealed(b: Brackets, f: Field, value: string, rest: string, close: string)
    requires Sealed(b, f.lead, false) && Sealed(b, Head(f), false) && Sealed(b, value + (rest + close), false)
    requires Skippable(Separating, f.lead, true) && ColonText(f.before, f.after)
    ensures Sealed(b, (f.lead + (Head(f) + (value + rest))) + close, false)
  {
    HeadEnds(f);
    SkipEnds(f.lead);
    SealedConcat(b, Head(f), false, value + (rest + close), false);
    SealedConcat(b, f.lead, false, Head(f) + (value + (rest + close)), false);
    assert (f.lead + (Head(f) + (value + rest))) + close == f.lead + (Head(f) + (value + (rest + close)));
  }

  lemma HeadEnds(f: Field)
    requires ColonText(f.before, f.after)
    ensures Head(f) != "" && Head(f)[|Head(f)| - 1] != '/'
  {
    ConcatEnds(":", f.after);
    ConcatEnds(f.before, ":" + f.after);
    ConcatEnds(f.key, f.before + (":" + f.after));
    assert f.after != "" ==> !NotBlank(f.after[|f.after| - 1]);
  }

  lemma {:induction false} SkipEnds(p: string)
    requires Skippable(Separating, p, true)
    ensures p != "" ==> p[|p| - 1] != '/'
    decreases |p|
  {
    if p != "" {
      if InGap(Separating, p[0]) && Skippable(Separating, p[1..], true) {
        SkipEnds(p[1..]);
      } else {
        var n := Find(p, 0, IsNewline);
        SkipEnds(p[n..]);
      }
    }
  }

  /** In a tree that is quiet for the reader of nested maps every map closes at its brace. */
  lemma {:induction false} QuietIsClosed(t: Tree, breaks: bool)
    requires Shaped(t) && Quiet(Nested, t, breaks)
    ensures Closed(t)
    decreases Size(t), 0
  {
    match t
    case Arr(items, close) => QuietItemsClosed(items, close);
    case Obj(fields, close) =>
      QuietFieldsClosed(fields, close);
      FieldsSealed(Nested, fields, close);
      SealedIff(Nested, Body(fields, close));
    case _ =>
  }

  lemma {:induction false} QuietItemsClosed(items: seq<Entry>, close: string)
    requires ItemsShaped(items, close) && ItemsQuiet(Nested, items, close)
    ensures ItemsClosed(items)
    decreases ItemsSize(items), 1
  {
    if items != [] {
      QuietIsClosed(items[0].tree, Breaks(NextLead(items, close)));
      QuietItemsClosed(items[1..], close);
    }
  }

  lemma {:induction false} QuietFieldsClosed(fields: seq<Field>, close: string)
    requires FieldsShaped(fields, close) && FieldsQuiet(Nested, fields, close)
    ensures FieldsClosed(fields)
    decreases FieldsSize(fields), 1
  {
    if fields != [] {
      QuietIsClosed(fields[0].tree, Breaks(NextFieldLead(fields, close)));
      QuietFieldsClosed(fields[1..], close);
    }
  }

  /** Fields whose keys and unquoted values close what they open may stand between braces and
      between parentheses, and form maps inside maps. */
  lemma QuietFieldsEnclosed(b: Brackets, fields: seq<Field>, close: string)
    requires FieldsShaped(fields, close) && FieldsQuiet(b, fields, close)
    ensures EnclosedText(b, Body(fields, close)) && (b.Nested? ==> FieldsClosed(fields))
  {
    FieldsSealed(b, fields, close);
    SealedIff(b, Body(fields, close));
    if b.Nested? {
      QuietFieldsClosed(fields, close);
    }
  }
}
