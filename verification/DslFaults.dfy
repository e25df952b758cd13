/** Where the parser goes wrong. It slices out of range exactly behind an unterminated string
    that ends in an open escape, and at a brace that is the last character; it goes round
    without end exactly at a stray closing bracket before `return`, and at a closing brace
    where an array expects an item. */
module DslFaults {
  import opened DslText
  import opened DslPlaces
  import opened DslScalars
  import opened DslTrees
  import opened DslRoundTrip
  import opened DslFlow
  import opened DslDocument

  // ---------------------------------------------------------------------------
  // Unquoted values
  // ---------------------------------------------------------------------------

  /** An unquoted value runs over the end of the text exactly when it has no end and the
      text ends inside a string behind an open escape. */
  lemma BareRunsOver(s: string, i: nat)
    requires i <= |s|
    ensures BareEnd(s, i, Depths(0, 0, 0), Code) == |s| + 1 <==>
            ScanAt(s, i, |s|).Escaping? && forall k :: i <= k < |s| ==> !BareStops(s, i, k)
    ensures ReadBare(s, i).Panic? <==>
            ScanAt(s, i, |s|).Escaping? && forall k :: i <= k < |s| ==> !BareStops(s, i, k)
  {
    BareFollows(s, i, i, Depths(0, 0, 0), Code);
  }

  // ---------------------------------------------------------------------------
  // Return expressions
  // ---------------------------------------------------------------------------

  function NestingAt(s: string, i: nat, k: nat): int
    requires i <= k <= |s|
  {
    if k == i then 0
    else
      NestingAt(s, i, k - 1) +
      (if !Outside(s, i, k - 1) then 0 else if IsOpening(s[k - 1]) then 1 else if IsClosing(s[k - 1]) then -1 else 0)
  }

  /** The next line that is not blank begins with a top-level keyword. */
  predicate KeywordFollows(s: string, k: nat)
    requires k < |s|
  {
    var j := Find(s, k + 1, NotWhite);
    j < |s| && IsTopLevel(PeekKeyword(s, j))
  }

  /** Here a return expression that began at i would end. */
  predicate ReturnStops(s: string, i: nat, k: nat)
    requires i <= k
  {
    && k < |s| && Outside(s, i, k) && NestingAt(s, i, k) == 0
    && (IsClosing(s[k]) || (s[k] == '\n' && KeywordFollows(s, k)))
  }

  predicate ReturnEndsAt(s: string, i: nat, j: nat, k: nat)
    requires i <= j <= |s|
  {
    && (forall m :: j <= m < k && m < |s| ==> !ReturnStops(s, i, m))
    && if k < |s| then j <= k && ReturnStops(s, i, k)
       else k == if ScanAt(s, i, |s|).Escaping? then |s| + 1 else |s|
  }

  lemma ReturnSteps(s: string, i: nat, j: nat, j': nat, k: nat)
    requires i <= j < j' <= |s| && ReturnEndsAt(s, i, j', k)
    requires forall m :: j <= m < j' ==> !ReturnStops(s, i, m)
    ensures ReturnEndsAt(s, i, j, k)
  {
  }

  /** Over blank text nothing changes. */
  lemma {:induction false} BlankStays(s: string, i: nat, j: nat, n: nat)
    requires i <= j <= n <= |s| && Outside(s, i, j) && forall m :: j <= m < n ==> IsWhite(s[m])
    ensures Outside(s, i, n) && NestingAt(s, i, n) == NestingAt(s, i, j)
    decreases n
  {
    if j < n {
      BlankStays(s, i, j, n - 1);
      assert IsWhite(s[n - 1]);
    }
  }

  /** A line break that is not an end, and the blanks behind it, are no end. */
  lemma BlankGoesOn(s: string, i: nat, j: nat, n: nat)
    requires i <= j < |s| && Outside(s, i, j) && s[j] == '\n' && !KeywordFollows(s, j)
    requires n == Find(s, j + 1, NotWhite)
    ensures Outside(s, i, n) && NestingAt(s, i, n) == NestingAt(s, i, j)
    ensures forall m :: j <= m < n ==> !ReturnStops(s, i, m)
  {
    BlankStays(s, i, j, n);
    forall m | j <= m < n ensures !ReturnStops(s, i, m) {
      FindIs(s, m + 1, NotWhite, n);
    }
  }

  lemma ReturnStopsHere(s: string, i: nat, j: nat, depth: nat, mode: Mode)
    requires i <= j <= |s| && depth == NestingAt(s, i, j) && Matches(ScanAt(s, i, j), mode)
    requires j < |s| ==> ReturnStops(s, i, j)
    ensures ReturnEndsAt(s, i, j, ReturnEnd(s, j, depth, mode))
  {
    if j < |s| {
      ReturnEndsHere(s, j);
    }
    assert ReturnEnd(s, j, depth, mode) == j;
  }

  lemma ReturnEndsHere(s: string, j: nat)
    requires j < |s| && (IsClosing(s[j]) || (s[j] == '\n' && KeywordFollows(s, j)))
    ensures ReturnEnd(s, j, 0, Code) == j
  {
  }

  lemma {:induction false} ReturnFollows(s: string, i: nat, j: nat, depth: nat, mode: Mode)
    requires i <= j <= |s| && depth == NestingAt(s, i, j) && Matches(ScanAt(s, i, j), mode)
    ensures ReturnEndsAt(s, i, j, ReturnEnd(s, j, depth, mode))
    decreases |s| - j, 2
  {
    if j == |s| || ReturnStops(s, i, j) {
      ReturnStopsHere(s, i, j, depth, mode);
    } else if mode.InString? && s[j] == '\\' {
      ReturnFollowsEscape(s, i, j, depth, mode);
    } else if mode.Code? && depth == 0 && s[j] == '\n' {
      ReturnFollowsBlank(s, i, j);
    } else {
      ReturnFollowsChar(s, i, j, depth, mode);
    }
  }

  lemma {:induction false} ReturnFollowsChar(s: string, i: nat, j: nat, depth: nat, mode: Mode)
    requires i <= j < |s| && depth == NestingAt(s, i, j) && Matches(ScanAt(s, i, j), mode)
    requires !ReturnStops(s, i, j) && !(mode.InString? && s[j] == '\\')
    requires mode.Code? && depth == 0 && s[j] == '\n' ==> KeywordFollows(s, j)
    ensures ReturnEndsAt(s, i, j, ReturnEnd(s, j, depth, mode))
    decreases |s| - j, 1
  {
    ReturnFollowsOne(s, i, j, depth, mode);
    ReturnSteps(s, i, j, j + 1, ReturnEnd(s, j, depth, mode));
  }

  lemma {:induction false} ReturnFollowsEscape(s: string, i: nat, j: nat, depth: nat, mode: Mode)
    requires i <= j < |s| && depth == NestingAt(s, i, j) && Matches(ScanAt(s, i, j), mode)
    requires mode.InString? && s[j] == '\\'
    ensures ReturnEndsAt(s, i, j, ReturnEnd(s, j, depth, mode))
    decreases |s| - j, 0
  {
    assert ScanAt(s, i, j + 1) == ScanStep(ScanAt(s, i, j), s[j]);
    if j + 2 <= |s| {
      ReturnFollows(s, i, j + 2, depth, mode);
      ReturnSteps(s, i, j, j + 2, ReturnEnd(s, j, depth, mode));
    }
  }

  lemma {:induction false} ReturnFollowsBlank(s: string, i: nat, j: nat)
    requires i <= j < |s| && 0 == NestingAt(s, i, j) && Outside(s, i, j) && s[j] == '\n' && !KeywordFollows(s, j)
    ensures ReturnEndsAt(s, i, j, ReturnEnd(s, j, 0, Code))
    decreases |s| - j, 0
  {
    var n := Find(s, j + 1, NotWhite);
    BlankGoesOn(s, i, j, n);
    ReturnFollows(s, i, n, 0, Code);
    ReturnSteps(s, i, j, n, ReturnEnd(s, j, 0, Code));
  }

  lemma {:induction false} ReturnFollowsOne(s: string, i: nat, j: nat, depth: nat, mode: Mode)
    requires i <= j < |s| && depth == NestingAt(s, i, j) && Matches(ScanAt(s, i, j), mode)
    requires !ReturnStops(s, i, j) && !(mode.InString? && s[j] == '\\')
    requires mode.Code? && depth == 0 && s[j] == '\n' ==> KeywordFollows(s, j)
    ensures ReturnEndsAt(s, i, j + 1, ReturnEnd(s, j, depth, mode))
    decreases |s| - j, 0
  {
    var c := s[j];
    assert ScanAt(s, i, j + 1) == ScanStep(ScanAt(s, i, j), c);
    if mode.InString? {
      ReturnFollows(s, i, j + 1, depth, if c == mode.quote then Code else mode);
    } else if IsAnyQuote(c) {
      ReturnFollows(s, i, j + 1, depth, InString(c));
    } else if IsOpening(c) {
      ReturnFollows(s, i, j + 1, depth + 1, Code);
    } else if IsClosing(c) {
      ReturnFollows(s, i, j + 1, depth - 1, Code);
    } else {
      ReturnFollows(s, i, j + 1, depth, Code);
    }
  }

  /** A return expression runs over the end of the file exactly when it has no end and the
      file ends inside a string behind an open escape. */
  lemma ReturnRunsOver(s: string, i: nat, flow: FlowDecl)
    requires i <= |s|
    ensures ParseReturn(s, i, flow).Panic? <==>
            var b := AfterWord(s, i);
            ScanAt(s, b, |s|).Escaping? && forall k :: b <= k < |s| ==> !ReturnStops(s, b, k)
  {
    ReturnFollows(s, AfterWord(s, i), AfterWord(s, i), 0, Code);
  }

  // ---------------------------------------------------------------------------
  // Nested maps
  // ---------------------------------------------------------------------------

  /** A nested map panics exactly when its brace is the last character or its body does. */
  lemma NestedPanicsIff(s: string, i: nat)
    requires i < |s|
    ensures var k := NestedEnd(s, i + 1, 1, Code);
            ReadNested(s, i).Panic? <==> i + 1 == |s| || (i + 1 <= k - 1 <= |s| && ParseMap(s[i + 1..k - 1]).Panic?)
  {
  }

  // ---------------------------------------------------------------------------
  // The first field of a block
  // ---------------------------------------------------------------------------

  lemma BlockIsTight(s: string, key: string, rest: string)
    requires FieldKey(key) && rest != "" && !IsSpace(rest[|rest| - 1]) && s == key + (": " + rest)
    ensures s != "" && Trim(s) == s
  {
    ConcatEnds(": ", rest);
    ConcatEnds(key, ": " + rest);
    TrimIdle(s);
  }

  /** The key a block begins with. */
  lemma KeyIsFirst(s: string, key: string, rest: string, v: nat)
    requires FieldKey(key) && rest != "" && BeginsValue(rest[0]) && !IsSpace(rest[|rest| - 1])
    requires s == key + (": " + rest) && v == |key| + 2
    ensures s != "" && Trim(s) == s && Find(s, 0, NotSeparator) == 0 && !CommentAt(s, 0)
    ensures ReadKey(s, 0) == Key(key, v)
  {
    var f := Field("", key, "", " ", Bare(""));
    BlockIsTight(s, key, rest);
    assert Head(f) == key + ("" + (":" + " ")) == key + ": ";
    assert s == Head(f) + rest;
    FirstKeyReads(s, f, rest, v);
  }

  lemma FirstKeyReads(s: string, f: Field, rest: string, v: nat)
    requires FieldKey(f.key) && ColonText(f.before, f.after) && s == Head(f) + rest && v == |Head(f)|
    requires rest != "" && BeginsValue(rest[0])
    ensures Find(s, 0, NotSeparator) == 0 && !CommentAt(s, 0) && ReadKey(s, 0) == Key(f.key, v)
  {
    WholeText(s);
    AtSplit(s, 0, Head(f), rest);
    AtIndex(s, v, rest, 0);
    KeyReads(s, 0, f, v);
  }

  lemma KeyLaysOut(s: string, v: nat, key: string, word: string, tail: string)
    requires s == key + (": " + (word + tail)) && v == |key| + 2
    ensures At(s, v, word) && At(s, v + |word|, tail) && v + |word| + |tail| == |s|
  {
    WholeText(s);
    AtSplit(s, 0, key, ": " + (word + tail));
    AtSplit(s, |key|, ": ", word + tail);
    AtSplit(s, v, word, tail);
  }

  // ---------------------------------------------------------------------------
  // Loops without progress
  // ---------------------------------------------------------------------------

  /** At a stray bracket the loop goes round without moving, so the parser never returns. */
  lemma StrayBracketHangs(s: string, i: nat, flow: FlowDecl)
    requires i < |s| && !IsWhite(s[i]) && !CommentAt(s, i) && StrayBracket(s, i)
    ensures ParseItems(s, i, flow) == Hang
  {
    FindIs(s, i, NotWhite, i);
    FindIs(s, i, NotInWord, i);
    LoopAdvances(s, i, flow);
  }

  /** A turn of the loop is the last one of an endless parse exactly there, or when the item
      it reads is endless itself. */
  lemma TurnHangsIff(s: string, i: nat, flow: FlowDecl)
    requires i < |s| && !IsWhite(s[i]) && !CommentAt(s, i)
    ensures ParseItems(s, i, flow) == Hang <==>
            || StrayBracket(s, i)
            || ParseItem(s, i, flow) == Hang
            || (ParseItem(s, i, flow).Ok? &&
                var (flow', p) := ParseItem(s, i, flow).value;
                SkipSpace(s, p) > i && ParseItems(s, SkipSpace(s, p), flow') == Hang)
  {
    if StrayBracket(s, i) {
      StrayBracketHangs(s, i, flow);
    } else if ParseItem(s, i, flow).Ok? {
      LoopAdvances(s, i, flow);
    }
  }

  /** A flow file that begins, after white space and comments, with a stray bracket. */
  lemma StrayBracketFlowHangs(s: string)
    requires SkipSpace(s, 0) < |s| && StrayBracket(s, SkipSpace(s, 0))
    ensures ParseFlow(s) == Hang
  {
    StrayBracketHangs(s, SkipSpace(s, 0), EMPTY_FLOW);
  }

  lemma SmallestStrayBracket(s: string)
    requires s == "}return"
    ensures ParseFlow(s) == Hang
  {
    SkipStays(s, 0);
    FindIs(s, 0, IsWordChar, 1);
    FindIs(s, 1, NotInWord, 7);
    assert s[1..7] == "return";
    StrayBracketFlowHangs(s);
  }

  lemma FirstFieldHangs(s: string, key: string, v: nat)
    requires s != "" && Trim(s) == s && Find(s, 0, NotSeparator) == 0 && !CommentAt(s, 0)
    requires ReadKey(s, 0) == Key(key, v) && ReadValue(s, v) == Hang
    ensures ParseMap(s) == Hang
  {
  }

  lemma ArrayOfBraceHangs(s: string, v: nat)
    requires v + 1 < |s| && s[v] == '[' && s[v + 1] == '}'
    ensures ReadValue(s, v) == Hang
  {
    ArrayHangsAtBrace(s, v + 1, v + 1, []);
  }

  /** Every block whose first value is an array that begins with a closing brace. */
  lemma ArrayOfBraceNeverEnds(s: string, key: string, text: string)
    requires FieldKey(key) && (text == "" || !IsSpace(text[|text| - 1])) && s == key + (": " + ("[}" + text))
    ensures ParseMap(s) == Hang
  {
    var rest, v := "[}" + text, |key| + 2;
    KeyLaysOut(s, v, key, "[}", text);
    AtIndex(s, v, "[}", 0);
    AtIndex(s, v, "[}", 1);
    ArrayOfBraceHangs(s, v);
    ConcatEnds("[}", text);
    KeyIsFirst(s, key, rest, v);
    FirstFieldHangs(s, key, v);
  }

  lemma SmallestEndlessArray(s: string)
    requires s == "a: [}"
    ensures ParseMap(s) == Hang
  {
    assert s == "a" + (": " + ("[}" + ""));
    ArrayOfBraceNeverEnds(s, "a", "");
  }

  // ---------------------------------------------------------------------------
  // Whole inputs that panic
  // ---------------------------------------------------------------------------

  lemma FirstFieldPanics(s: string, key: string, v: nat)
    requires s != "" && Trim(s) == s && Find(s, 0, NotSeparator) == 0 && !CommentAt(s, 0)
    requires ReadKey(s, 0) == Key(key, v) && ReadValue(s, v).Panic?
    ensures ParseMap(s) == Panic
  {
  }

  /** Any first field whose value panics makes the block panic. */
  lemma FieldPanics(key: string, rest: string, s: string, v: nat)
    requires FieldKey(key) && rest != "" && BeginsValue(rest[0]) && !IsSpace(rest[|rest| - 1])
    requires s == key + (": " + rest) && v == |key| + 2 && ReadValue(s, v).Panic?
    ensures ParseMap(s) == Panic
  {
    KeyIsFirst(s, key, rest, v);
    FirstFieldPanics(s, key, v);
  }

  /** Every block that ends in an opening brace as a value. */
  lemma OpenBracePanics(s: string, key: string)
    requires FieldKey(key) && s == key + (": " + "{")
    ensures ParseMap(s) == Panic
  {
    var v := |key| + 2;
    NestedPanicsIff(s, v);
    FieldPanics(key, "{", s, v);
  }

  /** A quote, raw text and a last backslash leave the escape open. */
  lemma ScanOpenEscape(s: string, b: nat, q: nat, text: string, quote: char)
    requires IsAnyQuote(quote) && RawText(text, quote) && b <= q && q + |text| + 2 == |s|
    requires Outside(s, b, q) && At(s, q, [quote] + (text + "\\"))
    ensures ScanAt(s, b, |s|).Escaping? && forall m :: q < m <= |s| ==> !Outside(s, b, m)
  {
    AtIndex(s, q, [quote] + (text + "\\"), 0);
    AtSplit(s, q, [quote], text + "\\");
    AtSplit(s, q + 1, text, "\\");
    AtIndex(s, q + 1 + |text|, "\\", 0);
    assert ScanAt(s, b, q + 1) == InQuotes(quote);
    ScanText(s, b, q + 1, text, quote);
    assert ScanAt(s, b, |s|) == ScanStep(InQuotes(quote), '\\');
  }

  lemma BareOpenEscape(s: string, b: nat, q: nat, word: string, text: string)
    requires PlainWord(word) && RawText(text, '"') && At(s, b, word) && q == b + |word|
    requires At(s, q, ['"'] + (text + "\\")) && q + |text| + 2 == |s|
    ensures ReadValue(s, b).Panic?
  {
    BareBegins(s, b, word);
    WordRuns(s, b, |word|);
    ScanOpenEscape(s, b, q, text, '"');
    QuoteGoesOn(s, b, q, text);
    BareRunsOver(s, b);
  }

  lemma BareBegins(s: string, b: nat, word: string)
    requires PlainWord(word) && At(s, b, word)
    ensures b < |s| && IsBareChar(s[b]) && forall k :: b <= k < b + |word| ==> IsBareChar(s[k])
  {
    forall k | b <= k < b + |word| ensures IsBareChar(s[k]) {
      AtIndex(s, b, word, k - b);
    }
  }

  lemma QuoteGoesOn(s: string, b: nat, q: nat, text: string)
    requires b <= q && At(s, q, ['"'] + (text + "\\"))
    ensures !BareStops(s, b, q)
  {
    AtIndex(s, q, ['"'] + (text + "\\"), 0);
  }

  /** Every block whose value, not itself a string, ends inside one behind an open escape. */
  lemma OpenEscapePanics(key: string, word: string, text: string)
    requires FieldKey(key) && PlainWord(word) && RawText(text, '"')
    ensures ParseMap(key + (": " + (word + (['"'] + (text + "\\"))))) == Panic
  {
    var tail := ['"'] + (text + "\\");
    var rest := word + tail;
    var s, v := key + (": " + rest), |key| + 2;
    KeyLaysOut(s, v, key, word, tail);
    BareOpenEscape(s, v, v + |word|, word, text);
    OpenEscapeEnds(word, text, tail);
    FieldPanics(key, rest, s, v);
  }

  lemma OpenEscapeEnds(word: string, text: string, tail: string)
    requires PlainWord(word) && tail == ['"'] + (text + "\\")
    ensures word + tail != "" && BeginsValue((word + tail)[0]) && (word + tail)[|word + tail| - 1] == '\\'
  {
    assert IsBareChar(word[0]);
    ConcatEnds(text, "\\");
    ConcatEnds(['"'], text + "\\");
    ConcatEnds(word, tail);
  }

  lemma FirstItemPanics(s: string)
    requires s != "" && SkipSpace(s, 0) == 0 && PeekKeyword(s, 0) == "return" && ParseReturn(s, 0, EMPTY_FLOW).Panic?
    ensures ParseFlow(s) == Panic
  {
  }

  lemma OpenReturn(s: string, b: nat, text: string)
    requires RawText(text, '"') && s != "" && AfterWord(s, 0) == b && b + |text| + 2 == |s|
    requires At(s, b, ['"'] + (text + "\\"))
    ensures ParseReturn(s, 0, EMPTY_FLOW).Panic?
  {
    ScanOpenEscape(s, b, b, text, '"');
    AtIndex(s, b, ['"'] + (text + "\\"), 0);
    ReturnRunsOver(s, 0, EMPTY_FLOW);
  }

  lemma WordBegins(s: string, word: string, tail: string)
    requires s == word + (" " + tail) && IsWord(word) && tail != "" && !IsWhite(tail[0])
    ensures s != "" && SkipSpace(s, 0) == 0 && PeekKeyword(s, 0) == word && AfterWord(s, 0) == |word| + 1
    ensures At(s, |word| + 1, tail) && |s| == |word| + 1 + |tail|
  {
    WholeText(s);
    WordReads(s, 0, word, " ", tail);
    SkipStays(s, 0);
  }

  lemma OpenReturnEnds(s: string, word: string, text: string)
    requires RawText(text, '"') && word == "return" && s == word + (" " + (['"'] + (text + "\\")))
    ensures ParseFlow(s) == Panic
  {
    WordBegins(s, word, ['"'] + (text + "\\"));
    OpenReturn(s, |word| + 1, text);
    FirstItemPanics(s);
  }

  /** Every flow file that is a return of a string with an open escape at its end. */
  lemma OpenReturnPanics(s: string, text: string)
    requires RawText(text, '"') && s == "return " + (['"'] + (text + "\\"))
    ensures ParseFlow(s) == Panic
  {
    assert s == "return" + (" " + (['"'] + (text + "\\")));
    OpenReturnEnds(s, "return", text);
  }

  /** The smallest such inputs. */
  lemma SmallestBarePanics()
    ensures ReadBare("'\\", 0) == Panic
  {
    var s := "'\\";
    assert ScanAt(s, 0, 1) == ScanStep(ScanAt(s, 0, 0), s[0]);
    assert ScanAt(s, 0, 2) == ScanStep(ScanAt(s, 0, 1), s[1]);
    BareRunsOver(s, 0);
  }

  lemma SmallestBracePanics(s: string)
    requires s == "a: {"
    ensures ParseMap(s) == Panic
  {
    assert s == "a" + (": " + "{");
    OpenBracePanics(s, "a");
  }

  lemma SmallestEscapePanics(s: string)
    requires s == "a: b\"\\"
    ensures ParseMap(s) == Panic
  {
    var key, word, text := "a", "b", "";
    SmallestEscape(s, key, word, text);
    OpenEscapePanics(key, word, text);
  }

  lemma SmallestEscape(s: string, key: string, word: string, text: string)
    requires s == "a: b\"\\" && key == "a" && word == "b" && text == ""
    ensures s == key + (": " + (word + (['"'] + (text + "\\"))))
  {
  }

  lemma SmallestReturnPanics(s: string)
    requires s == "return \"\\"
    ensures ParseFlow(s) == Panic
  {
    assert s == "return " + (['"'] + ("" + "\\"));
    OpenReturnPanics(s, "");
  }
}
