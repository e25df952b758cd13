/** What the parser refuses and what it lets pass: a map whose fields are well formed up to one
    that is not, and a file whose items are well formed up to one that is not. */
module DslRefusals {
  import opened StoreModel
  import opened DslText
  import opened DslGaps
  import opened DslPlaces
  import opened DslBlocks
  import opened DslScalars
  import opened DslTrees
  import opened DslRoundTrip
  import opened DslFlow
  import opened DslDocument

  // ---------------------------------------------------------------------------
  // Maps
  // ---------------------------------------------------------------------------

  /** A text that starts with printed fields and separators, up to here. */
  predicate FieldsUpTo(s: string, fields: seq<Field>, close: string, j: nat) {
    && Fields(fields, close) && Skippable(Separating, close, true)
    && (fields != [] ==> DelimiterText(fields[|fields| - 1].tree, close, true))
    && At(s, 0, PrintFields(fields) + close) && j == |PrintFields(fields)| + |close|
  }

  lemma PrintedFieldsRead(fields: seq<Field>, close: string)
    requires Fields(fields, close)
    ensures ReadsAsFields(PrintFields(fields), LastBare(fields), fields)
  {
    if fields == [] {
      NoFieldsRead(LastBare(fields));
    } else {
      FieldListReads(fields, close);
      LeadReads(fields[0].lead, PrintCore(fields), LastBare(fields), fields);
    }
  }

  lemma CloseIsSkipped(s: string, q: nat, close: string, j: nat, acc: Contents)
    requires Skippable(Separating, close, true) && At(s, q, close) && j == q + |close|
    ensures q <= |s| && j <= |s| && ParseFields(s, q, acc) == ParseFields(s, j, acc)
  {
    SkipStands(Separating, s, q, close, true);
    SkipsFields(s, q, j, acc);
  }

  /** Up to here the fields are read, whatever comes. */
  lemma FieldsUpToRead(s: string, fields: seq<Field>, close: string, j: nat)
    requires FieldsUpTo(s, fields, close, j)
    ensures j <= |s| && ParseFields(s, 0, map[]) == ParseFields(s, j, Meant(fields))
  {
    var q := |PrintFields(fields)|;
    AtSplit(s, 0, PrintFields(fields), close);
    if LastBare(fields) {
      DelimiterStands(s, q, close);
    }
    PrintedFieldsRead(fields, close);
    FieldsRead(s, 0, PrintFields(fields), LastBare(fields), fields, map[], q);
    CloseIsSkipped(s, q, close, j, Meant(fields));
  }

  /** So the map is what is read from here on. */
  lemma MapGoesOn(s: string, fields: seq<Field>, close: string, j: nat)
    requires Tight(s) && FieldsUpTo(s, fields, close, j)
    ensures j <= |s| && ParseMap(s) == ParseFields(s, j, Meant(fields))
  {
    TrimIdle(s);
    FieldsUpToRead(s, fields, close, j);
  }

  lemma KeyStarts(s: string, j: nat, key: string, e: nat)
    requires FieldKey(key) && At(s, j, key) && e == j + |key| && (e < |s| ==> EndsKey(s[e]))
    ensures j < |s| && Find(s, j, NotSeparator) == j && !CommentAt(s, j)
  {
    AtIndex(s, j, key, 0);
    if |key| > 1 {
      AtIndex(s, j, key, 1);
    }
    FindIs(s, j, NotSeparator, j);
  }

  lemma KeyIsWhole(s: string, j: nat, key: string, e: nat)
    requires FieldKey(key) && At(s, j, key) && e == j + |key| && (e < |s| ==> EndsKey(s[e]))
    ensures e <= |s| && Find(s, j, EndsKey) == e && Trim(s[j..e]) == key
  {
    forall m | j <= m < e ensures !EndsKey(s[m]) {
      AtIndex(s, j, key, m - j);
    }
    FindIs(s, j, EndsKey, e);
    AtText(s, j, key);
    TrimIdle(key);
  }

  lemma KeyHasNoColon(s: string, j: nat, key: string, e: nat)
    requires FieldKey(key) && At(s, j, key) && e == j + |key| && (e < |s| ==> EndsKey(s[e]))
    requires forall k :: e <= k < |s| ==> s[k] != ':'
    ensures j <= |s| && ReadKey(s, j) == NoColon(key)
  {
    KeyIsWhole(s, j, key, e);
    FindIs(s, e, IsColon, |s|);
  }

  lemma NoColonStops(s: string, j: nat, key: string, acc: Contents)
    requires j < |s| && Find(s, j, NotSeparator) == j && !CommentAt(s, j) && ReadKey(s, j) == NoColon(key)
    ensures ParseFields(s, j, acc) == Err(ExpectedColon(key))
  {
  }

  /** A key without any colon behind it is refused by name. */
  lemma ColonIsDemanded(s: string, fields: seq<Field>, close: string, j: nat, key: string, e: nat)
    requires Tight(s) && FieldsUpTo(s, fields, close, j) && FieldKey(key) && At(s, j, key) && e == j + |key|
    requires (e < |s| ==> EndsKey(s[e])) && forall k :: e <= k < |s| ==> s[k] != ':'
    ensures ParseMap(s) == Err(ExpectedColon(key))
  {
    MapGoesOn(s, fields, close, j);
    KeyStarts(s, j, key, e);
    KeyHasNoColon(s, j, key, e);
    NoColonStops(s, j, key, Meant(fields));
  }

  /** A colon without a key ends the map without an error; what stands behind it is lost. */
  lemma EmptyKeyEndsMap(s: string, fields: seq<Field>, close: string, j: nat)
    requires Tight(s) && FieldsUpTo(s, fields, close, j) && j < |s| && s[j] == ':'
    ensures ParseMap(s) == Ok(Meant(fields))
  {
    MapGoesOn(s, fields, close, j);
    FindIs(s, j, NotSeparator, j);
    FindIs(s, j, EndsKey, j);
    assert s[j..j] == "" && Trim("") == "";
  }

  lemma KeyAtEnd(s: string, j: nat, key: string, before: string, e: nat, colon: nat)
    requires FieldKey(key) && ColonText(before, "") && At(s, j, key) && At(s, e, before) && At(s, colon, ":")
    requires e == j + |key| && colon == e + |before| && colon + 1 == |s|
    ensures ReadKey(s, j) == Key(key, |s|) && EndsKey(s[e])
  {
    AtIndex(s, colon, ":", 0);
    forall m | e <= m < colon ensures !IsColon(s[m]) {
      AtIndex(s, e, before, m - e);
    }
    if before != "" {
      AtIndex(s, e, before, 0);
    }
    KeyIsWhole(s, j, key, e);
    FindIs(s, e, IsColon, colon);
  }

  /** A key whose value is missing at the end of the text has the empty text. */
  lemma MissingValueIsEmpty(s: string, fields: seq<Field>, close: string, j: nat, key: string, before: string)
    requires Tight(s) && FieldsUpTo(s, fields, close, j) && FieldKey(key) && ColonText(before, "")
    requires At(s, j, key + (before + ":")) && j + |key| + |before| + 1 == |s|
    ensures ParseMap(s) == Ok(Meant(fields)[key := Text("")])
  {
    var e, colon := j + |key|, j + |key| + |before|;
    AtSplit(s, j, key, before + ":");
    AtSplit(s, e, before, ":");
    KeyAtEnd(s, j, key, before, e, colon);
    KeyStarts(s, j, key, e);
    EndOfMap(s, j, key, Meant(fields));
    MapGoesOn(s, fields, close, j);
  }

  lemma EndOfMap(s: string, j: nat, key: string, acc: Contents)
    requires j < |s| && Find(s, j, NotSeparator) == j && !CommentAt(s, j) && ReadKey(s, j) == Key(key, |s|)
    ensures ParseFields(s, j, acc) == Ok(acc[key := Text("")])
  {
    assert ReadValue(s, |s|) == Ok((Text(""), |s|));
  }

  /** An error in a value is the error of the map, under the key of its field. */
  lemma ValueErrorIsNamed(s: string, fields: seq<Field>, close: string, j: nat, f: Field, v: nat, error: ParseError)
    requires Tight(s) && FieldsUpTo(s, fields, close, j) && FieldKey(f.key) && ColonText(f.before, f.after)
    requires At(s, j, Head(f)) && v == j + |Head(f)| < |s| && NotBlank(s[v]) && ReadValue(s, v) == Err(error)
    ensures ParseMap(s) == Err(InKey(f.key, error))
  {
    MapGoesOn(s, fields, close, j);
    KeyReads(s, j, f, v);
  }

  /** A value that reaches the end of the text is the last one. */
  lemma LastValueEndsMap(s: string, fields: seq<Field>, close: string, j: nat, f: Field, v: nat, value: Value, p: nat)
    requires Tight(s) && FieldsUpTo(s, fields, close, j) && FieldKey(f.key) && ColonText(f.before, f.after)
    requires At(s, j, Head(f)) && v == j + |Head(f)| < |s| && NotBlank(s[v])
    requires ReadValue(s, v) == Ok((value, p)) && p >= |s|
    ensures ParseMap(s) == Ok(Meant(fields)[f.key := value])
  {
    MapGoesOn(s, fields, close, j);
    KeyReads(s, j, f, v);
  }

  /** An array that is opened by the last character is refused; one behind which only separators
      follow passes as an empty one. */
  lemma OpenArray(s: string, fields: seq<Field>, close: string, j: nat, f: Field, v: nat, rest: string)
    requires Tight(s) && FieldsUpTo(s, fields, close, j) && FieldKey(f.key) && ColonText(f.before, f.after)
    requires At(s, j, Head(f)) && v == j + |Head(f)| && At(s, v, "[" + rest) && v + 1 + |rest| == |s|
    requires SeparatorText(rest)
    ensures ParseMap(s) == if rest == "" then Err(InKey(f.key, UnclosedArray))
                           else Ok(Meant(fields)[f.key := List([])])
  {
    OpenArrayReads(s, v, rest);
    if rest == "" {
      ValueErrorIsNamed(s, fields, close, j, f, v, UnclosedArray);
    } else {
      LastValueEndsMap(s, fields, close, j, f, v, List([]), |s| + 1);
    }
  }

  lemma OpenArrayReads(s: string, v: nat, rest: string)
    requires At(s, v, "[" + rest) && v + 1 + |rest| == |s| && SeparatorText(rest)
    ensures v < |s| && s[v] == '['
    ensures ReadValue(s, v) == if rest == "" then Err(UnclosedArray) else Ok((List([]), |s| + 1))
  {
    AtIndex(s, v, "[" + rest, 0);
    AtSplit(s, v, "[", rest);
    SeparatorsStand(s, v + 1, rest);
    FindIs(s, v + 1, NotSeparator, |s|);
  }

  lemma {:induction false} QuoteNeverCloses(s: string, i: nat, text: string, quote: char)
    requires quote != '\\' && RawText(text, quote) && At(s, i, text) && i + |text| == |s|
    ensures QuoteClose(s, i, quote) >= |s|
    decreases |text|
  {
    if text != "" {
      AtIndex(s, i, text, 0);
      AtTail(s, i, text, Element(text));
      assert text[Element(text)..] == if text[0] == '\\' then text[2..] else text[1..];
      QuoteNeverCloses(s, i + Element(text), text[Element(text)..], quote);
    }
  }

  lemma OpenStringFails(s: string, v: nat, text: string, quote: char)
    requires IsQuote(quote) && RawText(text, quote) && At(s, v, [quote] + text) && v + 1 + |text| == |s|
    ensures s[v] == quote && ReadValue(s, v) == Err(Unclosed(quote, v))
  {
    AtIndex(s, v, [quote] + text, 0);
    AtSplit(s, v, [quote], text);
    QuoteNeverCloses(s, v + 1, text, quote);
  }

  /** A string that is not closed before the end of the block is refused. */
  lemma StringMustClose(s: string, fields: seq<Field>, close: string, j: nat, f: Field, v: nat, text: string,
                        quote: char)
    requires Tight(s) && FieldsUpTo(s, fields, close, j) && FieldKey(f.key) && ColonText(f.before, f.after)
    requires At(s, j, Head(f)) && v == j + |Head(f)| && IsQuote(quote) && RawText(text, quote)
    requires At(s, v, [quote] + text) && v + 1 + |text| == |s|
    ensures ParseMap(s) == Err(InKey(f.key, Unclosed(quote, v)))
  {
    OpenStringFails(s, v, text, quote);
    ValueErrorIsNamed(s, fields, close, j, f, v, Unclosed(quote, v));
  }

  lemma BodyErrorIsValues(s: string, i: nat, a: nat, k: nat, body: string, error: ParseError)
    requires i < |s| && s[i] == '{' && a == i + 1 && a <= k < |s| && NestedEnd(s, a, 1, Code) == k + 1
    requires s[a..k] == body && ParseMap(body) == Err(error)
    ensures ReadValue(s, i) == Err(error)
  {
  }

  lemma NestedFails(s: string, v: nat, body: string, error: ParseError)
    requires At(s, v, Enclosed(Nested, body)) && EnclosedText(Nested, body) && ParseMap(body) == Err(error)
    ensures v < |s| && s[v] == '{' && ReadValue(s, v) == Err(error)
  {
    var a, k := v + 1, v + 1 + |body|;
    NestedEnds(s, v, a, k, body);
    BodyErrorIsValues(s, v, a, k, body, error);
  }

  /** A nested map that is refused is refused in its field. */
  lemma NestedErrorIsNamed(s: string, fields: seq<Field>, close: string, j: nat, f: Field, v: nat, body: string,
                           error: ParseError)
    requires Tight(s) && FieldsUpTo(s, fields, close, j) && FieldKey(f.key) && ColonText(f.before, f.after)
    requires At(s, j, Head(f)) && v == j + |Head(f)| && At(s, v, Enclosed(Nested, body))
    requires EnclosedText(Nested, body) && ParseMap(body) == Err(error)
    ensures ParseMap(s) == Err(InKey(f.key, error))
  {
    NestedFails(s, v, body, error);
    ValueErrorIsNamed(s, fields, close, j, f, v, error);
  }

  // ---------------------------------------------------------------------------
  // Files
  // ---------------------------------------------------------------------------

  /** Where an item stands, and where it ends. */
  function StartOf(items: seq<Placed>, k: nat): nat
    requires k <= |items|
  {
    if k == 0 then 0 else StartOf(items, k - 1) + |items[k - 1].lead| + |PrintItem(items[k - 1].item)|
  }

  /** The text has an item here, up to there; behind a step or a return expression stands a
      top-level keyword or the end. */
  predicate ItemThere(s: string, q: nat, m: nat, x: Placed) {
    && q + |x.lead| <= m <= |s| && s[q..q + |x.lead|] == x.lead && s[q + |x.lead|..m] == PrintItem(x.item)
    && Skippable(White, x.lead, true) && WellFormed(x.item)
    && (x.item.StepItem? || x.item.ReturnItem? ==> Followed(x.item, s, m))
  }

  /** The text begins with these well-formed items, up to there. */
  predicate ItemsUpTo(s: string, items: seq<Placed>, e: nat) {
    && e == StartOf(items, |items|)
    && forall k :: 0 <= k < |items| ==> ItemThere(s, StartOf(items, k), StartOf(items, k + 1), items[k])
  }

  /** A block item does not depend on what stands behind it. */
  lemma BlockItemStep(s: string, n: nat, item: Item, m: nat, flow: FlowDecl)
    requires item.Entrypoint? || item.Properties? || item.OnError?
    requires Readable(item) && At(s, n, PrintItem(item)) && m == n + |PrintItem(item)|
    ensures n < m <= |s| && ParseItems(s, n, flow) == ParseItems(s, NextStart(s, m), Describe(flow, item))
  {
    var b := n + |Keyword(item)| + |item.gap|;
    ItemStands(s, n, item, b);
    ItemLength(item, n, b);
    EntryKeyword(item);
    BlockItemReads(s, n, Keyword(item), item, b, m, flow);
    Dispatches(s, n, item, flow);
    ItemsStep(s, n, m, NextStart(s, m), flow, Describe(flow, item));
  }

  lemma ItemTurn(s: string, n: nat, item: Item, m: nat, flow: FlowDecl)
    requires Readable(item) && At(s, n, PrintItem(item)) && m == n + |PrintItem(item)|
    requires item.StepItem? || item.ReturnItem? ==> Followed(item, s, m)
    ensures n < m <= |s| && ParseItems(s, n, flow) == ParseItems(s, NextStart(s, m), Describe(flow, item))
  {
    ItemIsLong(item);
    if item.StepItem? || item.ReturnItem? {
      OneItemReads(s, n, item, m, NextStart(s, m), flow);
    } else {
      BlockItemStep(s, n, item, m, flow);
    }
  }

  lemma LeadEndsAtItem(s: string, q: nat, n: nat, lead: string, item: Item)
    requires Skippable(White, lead, true) && At(s, q, lead) && n == q + |lead|
    requires Readable(item) && At(s, n, PrintItem(item))
    ensures q <= |s| && NextStart(s, q) == n
  {
    ItemStands(s, n, item, n + |Keyword(item)| + |item.gap|);
    LeadSkips(s, q, lead, true, n);
  }

  lemma SliceIsAt(s: string, i: nat, j: nat, p: string)
    requires i <= j <= |s| && s[i..j] == p
    ensures At(s, i, p) && j == i + |p|
  {
  }

  lemma ItemThereIsReadable(s: string, q: nat, m: nat, x: Placed)
    requires ItemThere(s, q, m, x)
    ensures Readable(x.item)
  {
    WellFormedIsReadable(x.item);
  }

  lemma ReadableIsRead(s: string, q: nat, n: nat, m: nat, lead: string, item: Item, flow: FlowDecl)
    requires Readable(item) && q <= n <= m <= |s| && s[q..n] == lead && s[n..m] == PrintItem(item)
    requires Skippable(White, lead, true) && (item.StepItem? || item.ReturnItem? ==> Followed(item, s, m))
    ensures NextStart(s, q) == n
    ensures ParseItems(s, n, flow) == ParseItems(s, NextStart(s, m), Describe(flow, item))
  {
    SliceIsAt(s, q, n, lead);
    SliceIsAt(s, n, m, PrintItem(item));
    LeadEndsAtItem(s, q, n, lead, item);
    ItemTurn(s, n, item, m, flow);
  }

  lemma ItemThereIsRead(s: string, q: nat, n: nat, m: nat, x: Placed, flow: FlowDecl)
    requires ItemThere(s, q, m, x) && n == q + |x.lead|
    ensures q <= |s| && NextStart(s, q) == n && m <= |s|
    ensures ParseItems(s, n, flow) == ParseItems(s, NextStart(s, m), Describe(flow, x.item))
  {
    ItemThereIsReadable(s, q, m, x);
    ReadableIsRead(s, q, n, m, x.lead, x.item, flow);
  }

  /** The file is read on from here with this flow. */
  ghost predicate ReadUpTo(s: string, q: nat, flow: FlowDecl) {
    q <= |s| && ParseFlow(s) == ParseItems(s, NextStart(s, q), flow)
  }

  lemma OneMoreRead(s: string, q: nat, n: nat, m: nat, flow: FlowDecl, flow': FlowDecl)
    requires ReadUpTo(s, q, flow) && NextStart(s, q) == n && m <= |s|
    requires ParseItems(s, n, flow) == ParseItems(s, NextStart(s, m), flow')
    ensures ReadUpTo(s, m, flow')
  {
  }

  lemma {:induction false} DescribesOneMore(flow: FlowDecl, items: seq<Placed>, k: nat)
    requires k < |items|
    ensures DescribeAll(flow, items[..k + 1]) == Describe(DescribeAll(flow, items[..k]), items[k].item)
    decreases k
  {
    if k > 0 {
      var flow1 := Describe(flow, items[0].item);
      DescribesOneMore(flow1, items[1..], k - 1);
      assert items[..k + 1][1..] == items[1..][..k] && items[..k][1..] == items[1..][..k - 1];
    }
  }

  lemma OneMoreItem(s: string, items: seq<Placed>, e: nat, k: nat, q: nat, m: nat, flow: FlowDecl)
    requires ItemsUpTo(s, items, e) && k < |items| && q == StartOf(items, k) && m == StartOf(items, k + 1)
    requires ReadUpTo(s, q, flow)
    ensures ReadUpTo(s, m, Describe(flow, items[k].item))
  {
    var n := q + |items[k].lead|;
    ItemThereIsRead(s, q, n, m, items[k], flow);
    OneMoreRead(s, q, n, m, flow, Describe(flow, items[k].item));
  }

  /** Up to there the items are read, whatever comes. */
  lemma {:induction false} ItemsAreRead(s: string, items: seq<Placed>, e: nat, k: nat)
    requires ItemsUpTo(s, items, e) && k <= |items|
    ensures ReadUpTo(s, StartOf(items, k), DescribeAll(EMPTY_FLOW, items[..k]))
  {
    if k > 0 {
      var j := k - 1;
      ItemsAreRead(s, items, e, j);
      OneMoreItem(s, items, e, j, StartOf(items, j), StartOf(items, k), DescribeAll(EMPTY_FLOW, items[..j]));
      DescribesOneMore(EMPTY_FLOW, items, j);
    }
  }

  /** The error of the first item that has one is the error of the file. */
  lemma ItemErrorStopsFile(s: string, items: seq<Placed>, e: nat, n: nat, error: ParseError)
    requires ItemsUpTo(s, items, e) && e <= |s| && n == NextStart(s, e) < |s|
    requires ParseItem(s, n, DescribeAll(EMPTY_FLOW, items)) == Err(error)
    ensures ParseFlow(s) == Err(error)
  {
    ItemsAreRead(s, items, e, |items|);
    assert items[..|items|] == items;
  }

  /** A whole word stands here, and then white space up to there. */
  predicate WordThere(s: string, n: nat, word: string, gap: string, b: nat) {
    && IsWord(word) && At(s, n, word) && GapText(gap) && At(s, n + |word|, gap) && b == n + |word| + |gap|
    && (b < |s| ==> !IsWhite(s[b]) && (gap == "" ==> NotInWord(s[b])))
  }

  lemma WordThereReads(s: string, n: nat, word: string, gap: string, b: nat)
    requires WordThere(s, n, word, gap, b)
    ensures n < |s| && b <= |s| && PeekKeyword(s, n) == word && WordAt(s, n) == (n, n + |word|) && AfterWord(s, n) == b
    ensures s[n..n + |word|] == word
  {
    var e := n + |word|;
    AtIndex(s, n, word, 0);
    AtText(s, n, word);
    forall k | n <= k < e ensures !NotInWord(s[k]) {
      AtIndex(s, n, word, k - n);
    }
    forall k | e <= k < b ensures !NotWhite(s[k]) {
      AtIndex(s, e, gap, k - e);
    }
    FindIs(s, n, IsWordChar, n);
    FindIs(s, n, NotInWord, e);
    FindIs(s, n, NotWhite, n);
    FindIs(s, e, NotWhite, b);
  }

  /** An item that begins with any other word than the five is refused. */
  lemma UnknownItemIsRefused(s: string, n: nat, word: string, gap: string, b: nat, flow: FlowDecl)
    requires WordThere(s, n, word, gap, b)
    requires !("entrypoint" <= word) && word !in ["properties", "step", "on_error", "return"]
    ensures n < |s| && ParseItem(s, n, flow) == Err(Unexpected(n))
  {
    WordThereReads(s, n, word, gap, b);
  }

  /** An entrypoint without a dot in its word is refused. */
  lemma EntrypointNeedsKind(s: string, n: nat, word: string, gap: string, b: nat, flow: FlowDecl)
    requires WordThere(s, n, word, gap, b) && "entrypoint" <= word && '.' !in word
    ensures n < |s| && ParseItem(s, n, flow) == Err(BadEntrypoint(word))
  {
    WordThereReads(s, n, word, gap, b);
    FindIs(word, 0, IsDot, |word|);
  }

  /** A step without a name is refused. */
  lemma StepNeedsName(s: string, n: nat, gap: string, b: nat, flow: FlowDecl)
    requires WordThere(s, n, "step", gap, b) && (b < |s| ==> NotInName(s[b]))
    ensures n < |s| && ParseItem(s, n, flow) == Err(ExpectedStepName)
  {
    WordThereReads(s, n, "step", gap, b);
    FindIs(s, b, NotInName, b);
  }

  /** The items that have a block and nothing else. */
  predicate BlockWord(word: string) {
    word == "properties" || word == "on_error" || ("entrypoint" <= word && '.' in word)
  }

  lemma DotIsFound(word: string)
    requires '.' in word
    ensures Find(word, 0, IsDot) < |word|
  {
    var dot :| 0 <= dot < |word| && word[dot] == '.';
    assert IsDot(word[dot]);
  }

  lemma BlockErrorIsItems(s: string, n: nat, word: string, gap: string, b: nat, flow: FlowDecl, error: ParseError)
    requires WordThere(s, n, word, gap, b) && BlockWord(word) && BracedBlock(s, b) == Err(error)
    ensures n < |s| && ParseItem(s, n, flow) == Err(error)
  {
    WordThereReads(s, n, word, gap, b);
    if word != "properties" && word != "on_error" {
      DotIsFound(word);
    }
  }

  /** Its block has to be opened there. */
  lemma BlockMustOpen(s: string, n: nat, word: string, gap: string, b: nat, flow: FlowDecl)
    requires WordThere(s, n, word, gap, b) && BlockWord(word) && (b < |s| ==> s[b] != '{')
    ensures n < |s| && ParseItem(s, n, flow) == Err(ExpectedOpening('{', b))
  {
    BlockErrorIsItems(s, n, word, gap, b, flow, ExpectedOpening('{', b));
  }

  /** And to be closed: the lexical depth has to come back to zero. */
  lemma BlockMustClose(s: string, n: nat, word: string, gap: string, b: nat, flow: FlowDecl)
    requires WordThere(s, n, word, gap, b) && BlockWord(word) && b < |s| && s[b] == '{' && !Closes(Braces, s, b + 1)
    ensures n < |s| && ParseItem(s, n, flow) == Err(Unclosed('{', b + 1))
  {
    BlockEndsAtDepthZero(Braces, s, b);
    assert BlockOf(Braces, s, b) == BracedBlock(s, b);
    BlockErrorIsItems(s, n, word, gap, b, flow, Unclosed('{', b + 1));
  }

  lemma PropertiesFail(s: string, n: nat, word: string, b: nat, flow: FlowDecl, body: string, p: nat,
                       error: ParseError)
    requires n < |s| && PeekKeyword(s, n) == word == "properties" && AfterWord(s, n) == b
    requires BracedBlock(s, b) == Ok((body, p)) && ParseMap(body) == Err(error)
    ensures ParseItem(s, n, flow) == Err(error)
  {
    assert word[0] != 'e';
    assert ParseItem(s, n, flow) == ParseProperties(s, n, flow);
  }

  lemma EntrypointFails(s: string, n: nat, word: string, b: nat, flow: FlowDecl, body: string, p: nat,
                        error: ParseError)
    requires n < |s| && PeekKeyword(s, n) == word && WordAt(s, n) == (n, n + |word|) && AfterWord(s, n) == b
    requires s[n..n + |word|] == word && "entrypoint" <= word && '.' in word
    requires BracedBlock(s, b) == Ok((body, p)) && ParseMap(body) == Err(error)
    ensures ParseItem(s, n, flow) == Err(error)
  {
    DotIsFound(word);
    assert ParseItem(s, n, flow) == ParseEntrypoint(s, n, flow);
  }

  lemma BodyFails(s: string, n: nat, word: string, b: nat, flow: FlowDecl, body: string, p: nat, error: ParseError)
    requires n < |s| && PeekKeyword(s, n) == word && WordAt(s, n) == (n, n + |word|) && AfterWord(s, n) == b
    requires s[n..n + |word|] == word && BlockWord(word) && word != "on_error"
    requires BracedBlock(s, b) == Ok((body, p)) && ParseMap(body) == Err(error)
    ensures ParseItem(s, n, flow) == Err(error)
  {
    if word == "properties" {
      PropertiesFail(s, n, word, b, flow, body, p, error);
    } else {
      EntrypointFails(s, n, word, b, flow, body, p, error);
    }
  }

  /** Properties and the configuration of an entrypoint are refused with their fields. */
  lemma BlockMapFails(s: string, n: nat, word: string, gap: string, b: nat, flow: FlowDecl, body: string, p: nat,
                      error: ParseError)
    requires WordThere(s, n, word, gap, b) && BlockWord(word) && word != "on_error"
    requires BracedBlock(s, b) == Ok((body, p)) && ParseMap(body) == Err(error)
    ensures n < |s| && ParseItem(s, n, flow) == Err(error)
  {
    WordThereReads(s, n, word, gap, b);
    BodyFails(s, n, word, b, flow, body, p, error);
  }
}
