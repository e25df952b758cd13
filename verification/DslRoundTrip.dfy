/** Parsing printed trees back. */
module DslRoundTrip {
  import opened StoreModel
  import opened DslText
  import opened DslPlaces
  import opened DslGaps
  import opened DslBlocks
  import opened DslScalars
  import opened DslTrees
  import opened DslSealing

  // ---------------------------------------------------------------------------
  // What stands between fields and items
  // ---------------------------------------------------------------------------

  predicate Separators(s: string, i: nat, j: nat) {
    i <= j <= |s| && forall k :: i <= k < j ==> !NotSeparator(s[k])
  }

  lemma {:induction false} SkipsFields(s: string, i: nat, j: nat, acc: Contents)
    requires i <= |s| && j <= |s| && Skips(Separating, s, i, j)
    ensures ParseFields(s, i, acc) == ParseFields(s, j, acc)
    decreases |s| - i
  {
    if i != j {
      if i < |s| && InGap(Separating, s[i]) && Skips(Separating, s, i + 1, j) {
        SkipsFields(s, i + 1, j, acc);
        SeparatorFields(s, i, acc);
      } else {
        SkipsFields(s, Find(s, i, IsNewline), j, acc);
        CommentFields(s, i, acc);
      }
    }
  }

  /** Reading goes on at the next character that is no separator. */
  lemma SameFields(s: string, i: nat, j: nat, acc: Contents)
    requires i < |s| && j < |s| && Find(s, i, NotSeparator) == Find(s, j, NotSeparator)
    ensures ParseFields(s, i, acc) == ParseFields(s, j, acc)
  {
  }

  lemma NoMoreFields(s: string, i: nat, acc: Contents)
    requires i <= |s| && Find(s, i, NotSeparator) == |s|
    ensures ParseFields(s, i, acc) == Ok(acc)
  {
  }

  lemma SeparatorFields(s: string, i: nat, acc: Contents)
    requires i < |s| && !NotSeparator(s[i])
    ensures ParseFields(s, i, acc) == ParseFields(s, i + 1, acc)
  {
    assert Find(s, i, NotSeparator) == Find(s, i + 1, NotSeparator);
    if i + 1 == |s| {
      NoMoreFields(s, i, acc);
      NoMoreFields(s, i + 1, acc);
    } else {
      SameFields(s, i, i + 1, acc);
    }
  }

  lemma CommentFields(s: string, i: nat, acc: Contents)
    requires CommentAt(s, i)
    ensures ParseFields(s, i, acc) == ParseFields(s, Find(s, i, IsNewline), acc)
  {
    FindIs(s, i, NotSeparator, i);
  }

  /** Cutting off what stands before, and spaces at the end, leaves the rest skipped. */
  lemma {:induction false} SkipsCut(s: string, a: nat, b: nat, i: nat, j: nat)
    requires a <= i <= b <= |s| && i <= j <= |s| && Skips(Separating, s, i, j)
    requires forall m :: b <= m < j ==> IsSpace(s[m])
    ensures Skips(Separating, s[a..b], i - a, (if j <= b then j else b) - a)
    decreases |s| - i
  {
    var t, end := s[a..b], if j <= b then j else b;
    if i < end {
      if InGap(Separating, s[i]) && Skips(Separating, s, i + 1, j) {
        SkipsForward(Separating, s, i + 1, j);
        SkipsCut(s, a, b, i + 1, j);
        assert t[i - a] == s[i];
      } else {
        var n := Find(s, i, IsNewline);
        SkipsForward(Separating, s, n, j);
        CommentCut(s, a, b, i, n);
        if n <= b {
          SkipsCut(s, a, b, n, j);
        }
      }
    }
  }

  lemma CommentCut(s: string, a: nat, b: nat, i: nat, n: nat)
    requires a <= i < b <= |s| && CommentAt(s, i) && n == Find(s, i, IsNewline)
    requires b <= i + 1 ==> IsSpace(s[i + 1])
    ensures var t := s[a..b];
            && CommentAt(t, i - a) && i + 2 <= n
            && Find(t, i - a, IsNewline) == (if n <= b then n else b) - a
  {
    var t, k, e := s[a..b], i - a, (if n <= b then n else b) - a;
    assert s[i] == '/' && s[i + 1] == '/';
    assert t[k] == s[i] && t[k + 1] == s[i + 1];
    forall m | k <= m < e ensures !IsNewline(t[m]) {
      assert t[m] == s[a + m];
    }
    assert e < |t| ==> t[e] == s[a + e];
    FindIs(t, k, IsNewline, e);
  }

  // ---------------------------------------------------------------------------
  // What stands behind a value
  // ---------------------------------------------------------------------------

  lemma {:induction false} SpacesSkip(s: string, q: nat, e: nat)
    requires q <= e <= |s| && forall m :: q <= m < e ==> !NotInline(s[m])
    ensures Skips(Separating, s, q, e)
    decreases e - q
  {
    if q < e {
      SpacesSkip(s, q + 1, e);
    }
  }

  /** The fields go on behind the value, wherever reading it has stopped. */
  lemma FieldsBehindValue(s: string, bare: bool, q: nat, acc: Contents)
    requires q <= |s|
    ensures ParseFields(s, AfterValue(bare, s, q), acc) == ParseFields(s, q, acc)
  {
    var e := AfterValue(bare, s, q);
    SpacesSkip(s, q, e);
    SkipsFields(s, q, e, acc);
  }

  lemma SameItems(s: string, i: nat, j: nat, acc: seq<Value>)
    requires Separators(s, i, j) && j < |s|
    ensures ReadItems(s, i, acc) == ReadItems(s, j, acc)
  {
    var n := Find(s, j, NotSeparator);
    FindIs(s, i, NotSeparator, n);
  }

  /** So do the items. */
  lemma ItemsBehindValue(s: string, bare: bool, q: nat, n: nat, acc: seq<Value>)
    requires Separators(s, q, n) && n < |s| && NotSeparator(s[n])
    ensures ReadItems(s, AfterValue(bare, s, q), acc) == ReadItems(s, q, acc)
  {
    var e := AfterValue(bare, s, q);
    assert NotInline(s[n]);
    SameItems(s, e, n, acc);
    SameItems(s, q, n, acc);
  }

  lemma SeparatorsStand(s: string, i: nat, p: string)
    requires At(s, i, p) && SeparatorText(p)
    ensures Separators(s, i, i + |p|)
  {
    forall k | i <= k < i + |p| ensures !NotSeparator(s[k]) {
      AtIndex(s, i, p, k - i);
    }
  }

  predicate Delimits(c: char) {
    c == ',' || c == '\n' || c == ']'
  }

  /** Behind spaces the text has a delimiter. */
  predicate DelimiterFirst(p: string) {
    var e := Find(p, 0, NotInline); e < |p| && Delimits(p[e])
  }

  lemma DelimiterStands(s: string, q: nat, p: string)
    requires At(s, q, p) && DelimiterFirst(p)
    ensures Delimited(s, q)
  {
    var e := Find(p, 0, NotInline);
    forall m | q <= m < q + e ensures !NotInline(s[m]) {
      AtIndex(s, q, p, m - q);
    }
    AtIndex(s, q, p, e);
    FindIs(s, q, NotInline, q + e);
  }

  lemma SpacesStand(s: string, q: nat, p: string)
    requires At(s, q, p) && q + |p| == |s| && Find(p, 0, NotInline) == |p|
    ensures Delimited(s, q)
  {
    forall m | q <= m < |s| ensures !NotInline(s[m]) {
      AtIndex(s, q, p, m - q);
    }
    FindIs(s, q, NotInline, |s|);
  }

  /** What is found in the first part is found in the whole. */
  lemma DelimiterInFront(p: string, tail: string)
    requires DelimiterFirst(p)
    ensures DelimiterFirst(p + tail)
  {
    var s, e := p + tail, Find(p, 0, NotInline);
    assert forall m :: 0 <= m < |p| ==> s[m] == p[m];
    FindIs(s, 0, NotInline, e);
  }

  lemma BracketInFront(p: string, tail: string)
    requires Find(p, 0, NotInline) == |p| && tail != "" && tail[0] == ']'
    ensures DelimiterFirst(p + tail)
  {
    var s := p + tail;
    assert forall m :: 0 <= m < |p| ==> s[m] == p[m];
    assert s[|p|] == tail[0];
    FindIs(s, 0, NotInline, |p|);
  }

  // ---------------------------------------------------------------------------
  // Keys
  // ---------------------------------------------------------------------------

  /** Where a value can begin: no space, separator or closing bracket. */
  predicate BeginsValue(c: char) {
    !IsSpace(c) && c != ',' && c != ']' && c != '}'
  }

  lemma PrintBegins(t: Tree)
    requires Shaped(t)
    ensures Print(t) != "" && BeginsValue(Print(t)[0])
  {
    if t.Bare? {
      assert !BareStops(t.text, 0, 0);
    }
  }

  lemma HeadLaysOut(s: string, j: nat, f: Field, e: nat, colon: nat, v: nat)
    requires At(s, j, Head(f)) && e == j + |f.key| && colon == e + |f.before| && v == colon + 1 + |f.after|
    ensures At(s, j, f.key) && At(s, e, f.before) && s[colon] == ':' && At(s, colon + 1, f.after) && v == j + |Head(f)|
  {
    AtSplit(s, j, f.key, f.before + (":" + f.after));
    AtSplit(s, e, f.before, ":" + f.after);
    AtSplit(s, colon, ":", f.after);
    AtIndex(s, colon, ":", 0);
  }

  lemma KeyEnds(s: string, j: nat, f: Field, e: nat, colon: nat)
    requires FieldKey(f.key) && ColonText(f.before, f.after) && e == j + |f.key| && colon == e + |f.before| < |s|
    requires At(s, j, f.key) && At(s, e, f.before) && s[colon] == ':'
    ensures Find(s, j, EndsKey) == e && Find(s, e, IsColon) == colon
  {
    forall m | j <= m < e ensures !EndsKey(s[m]) {
      AtIndex(s, j, f.key, m - j);
    }
    forall m | e <= m < colon ensures !IsColon(s[m]) {
      AtIndex(s, e, f.before, m - e);
    }
    if f.before != "" {
      AtIndex(s, e, f.before, 0);
    }
    FindIs(s, j, EndsKey, e);
    FindIs(s, e, IsColon, colon);
  }

  lemma ValueBegins(s: string, colon: nat, after: string, v: nat)
    requires v == colon + 1 + |after| && At(s, colon + 1, after)
    requires (forall k :: 0 <= k < |after| ==> !NotBlank(after[k])) && v < |s| && NotBlank(s[v])
    ensures Find(s, colon + 1, NotBlank) == v
  {
    forall m | colon + 1 <= m < v ensures !NotBlank(s[m]) {
      AtIndex(s, colon + 1, after, m - (colon + 1));
    }
    FindIs(s, colon + 1, NotBlank, v);
  }

  lemma KeyBegins(s: string, j: nat, f: Field, e: nat)
    requires FieldKey(f.key) && At(s, j, f.key) && e == j + |f.key| < |s| && EndsKey(s[e])
    ensures Find(s, j, NotSeparator) == j && !CommentAt(s, j)
  {
    AtIndex(s, j, f.key, 0);
    if |f.key| > 1 {
      AtIndex(s, j, f.key, 1);
    }
    FindIs(s, j, NotSeparator, j);
  }

  lemma KeyTrims(s: string, j: nat, key: string, e: nat)
    requires FieldKey(key) && At(s, j, key) && e == j + |key|
    ensures e <= |s| && Trim(s[j..e]) == key
  {
    AtText(s, j, key);
    TrimIdle(key);
  }

  lemma KeyIs(s: string, j: nat, key: string, e: nat, colon: nat, v: nat)
    requires j <= e <= colon < |s| && Find(s, j, EndsKey) == e && Find(s, e, IsColon) == colon
    requires Find(s, colon + 1, NotBlank) == v && Trim(s[j..e]) == key && key != ""
    ensures ReadKey(s, j) == Key(key, v)
  {
  }

  /** A printed key is found whole, with its value right behind the blanks. */
  lemma KeyReads(s: string, j: nat, f: Field, v: nat)
    requires FieldKey(f.key) && ColonText(f.before, f.after) && At(s, j, Head(f)) && v == j + |Head(f)|
    requires v < |s| && NotBlank(s[v])
    ensures j < |s| && Find(s, j, NotSeparator) == j && !CommentAt(s, j) && ReadKey(s, j) == Key(f.key, v)
  {
    var e := j + |f.key|;
    var colon := e + |f.before|;
    HeadLaysOut(s, j, f, e, colon, v);
    KeyEnds(s, j, f, e, colon);
    ValueBegins(s, colon, f.after, v);
    KeyBegins(s, j, f, e);
    KeyTrims(s, j, f.key, e);
    KeyIs(s, j, f.key, e, colon, v);
  }

  /** One turn of the field loop. */
  lemma FieldStep(s: string, j: nat, key: string, v: nat, value: Value, p: nat, acc: Contents)
    requires j < |s| && Find(s, j, NotSeparator) == j && !CommentAt(s, j)
    requires ReadKey(s, j) == Key(key, v) && ReadValue(s, v) == Ok((value, p))
    ensures ParseFields(s, j, acc) == ParseFields(s, p, acc[key := value])
  {
  }

  /** One turn of the item loop. */
  lemma ItemStep(s: string, j: nat, value: Value, p: nat, acc: seq<Value>)
    requires j < |s| && NotSeparator(s[j]) && s[j] != ']' && ReadValue(s, j) == Ok((value, p)) && p != j
    ensures ReadItems(s, j, acc) == ReadItems(s, p, acc + [value])
  {
    FindIs(s, j, NotSeparator, j);
  }

  // ---------------------------------------------------------------------------
  // Reading text wherever it stands
  // ---------------------------------------------------------------------------

  /** Wherever this text stands, before a delimiter if it is unquoted, it is read as this
      value. */
  ghost predicate ReadsAs(p: string, bare: bool, value: Value) {
    forall s: string, i: nat {:trigger ReadValue(s, i), At(s, i, p)} ::
      At(s, i, p) && (bare ==> Delimited(s, i + |p|)) ==>
      ReadValue(s, i) == Ok((value, AfterValue(bare, s, i + |p|)))
  }

  /** This text, up to the closing bracket, is read as the rest of an array. */
  ghost predicate ReadsAsItems(p: string, values: seq<Value>) {
    forall s: string, i: nat, acc: seq<Value> {:trigger ReadItems(s, i, acc), At(s, i, p)} ::
      At(s, i, p) ==> ReadItems(s, i, acc) == Ok((List(acc + values), i + |p|))
  }

  /** From here to the end of the text there is nothing but separators and comments. */
  predicate EndsText(bare: bool, s: string, q: nat) {
    q <= |s| && Skips(Separating, s, q, |s|) && (bare ==> Delimited(s, q))
  }

  /** From here to there these fields are added. */
  predicate AddsFields(s: string, i: nat, end: nat, fields: seq<Field>, acc: Contents) {
    i <= |s| && end <= |s| && ParseFields(s, i, acc) == ParseFields(s, end, DenoteFields(fields, acc))
  }

  /** Wherever this text stands, before a delimiter if it ends in an unquoted value, it is read
      as adding these fields to any map. */
  ghost predicate ReadsAsFields(p: string, bare: bool, fields: seq<Field>) {
    forall s: string, i: nat, end: nat, acc: Contents {:trigger AddsFields(s, i, end, fields, acc)} ::
      At(s, i, p) && end == i + |p| && (bare ==> Delimited(s, end)) ==> AddsFields(s, i, end, fields, acc)
  }

  lemma ValueReads(s: string, v: nat, p: string, bare: bool, value: Value, q: nat)
    requires ReadsAs(p, bare, value) && At(s, v, p) && q == v + |p| && (bare ==> Delimited(s, q))
    ensures ReadValue(s, v) == Ok((value, AfterValue(bare, s, q)))
  {
  }

  lemma RestReads(s: string, q: nat, rest: string, values: seq<Value>, acc: seq<Value>, end: nat)
    requires ReadsAsItems(rest, values) && At(s, q, rest) && end == q + |rest|
    ensures ReadItems(s, q, acc) == Ok((List(acc + values), end))
  {
  }

  lemma FieldsRead(s: string, q: nat, p: string, bare: bool, fields: seq<Field>, acc: Contents, end: nat)
    requires ReadsAsFields(p, bare, fields) && At(s, q, p) && end == q + |p| && (bare ==> Delimited(s, end))
    ensures ParseFields(s, q, acc) == ParseFields(s, end, DenoteFields(fields, acc))
  {
    assert AddsFields(s, q, end, fields, acc);
  }

  /** Up to the end of the text. */
  lemma FieldsAreAll(s: string, q: nat, p: string, bare: bool, fields: seq<Field>, acc: Contents, end: nat)
    requires ReadsAsFields(p, bare, fields) && At(s, q, p) && end == q + |p| && EndsText(bare, s, end)
    ensures ParseFields(s, q, acc) == Ok(DenoteFields(fields, acc))
  {
    FieldsRead(s, q, p, bare, fields, acc, end);
    SkipsFields(s, end, |s|, DenoteFields(fields, acc));
  }

  // ---------------------------------------------------------------------------
  // Values
  // ---------------------------------------------------------------------------

  lemma QuotedStands(s: string, i: nat, text: string, quote: char, k: nat)
    requires At(s, i, [quote] + (text + [quote])) && k == i + 1 + |text|
    ensures k < |s| && s[i] == quote && At(s, i + 1, text + [quote]) && s[i + 1..k] == text
  {
    AtIndex(s, i, [quote] + (text + [quote]), 0);
    AtSplit(s, i, [quote], text + [quote]);
    AtSplit(s, i + 1, text, [quote]);
    AtText(s, i + 1, text);
  }

  lemma QuotedIs(s: string, i: nat, k: nat)
    requires i < k < |s| && IsQuote(s[i]) && QuoteClose(s, i + 1, s[i]) == k
    ensures ReadValue(s, i) == Ok((Text(s[i + 1..k]), k + 1))
  {
  }

  lemma QuotedReads(text: string, quote: char)
    requires IsQuote(quote) && RawText(text, quote)
    ensures ReadsAs([quote] + (text + [quote]), false, Text(text))
  {
    var whole := [quote] + (text + [quote]);
    forall s: string, i: nat | At(s, i, whole) ensures ReadValue(s, i) == Ok((Text(text), i + |whole|)) {
      var k := i + 1 + |text|;
      QuotedStands(s, i, text, quote, k);
      QuoteCloses(s, i + 1, text, quote);
      QuotedIs(s, i, k);
    }
  }

  lemma BareReadsAs(text: string)
    requires BareText(text)
    ensures ReadsAs(text, true, Text(text))
  {
    forall s: string, i: nat | At(s, i, text) && Delimited(s, i + |text|)
      ensures ReadValue(s, i) == Ok((Text(text), AfterValue(true, s, i + |text|)))
    {
      BareReads(s, i, text, i + |text|);
    }
  }

  lemma ArrayIs(s: string, i: nat, values: seq<Value>, q: nat)
    requires i < |s| && s[i] == '[' && ReadItems(s, i + 1, []) == Ok((List([] + values), q))
    ensures ReadValue(s, i) == Ok((List(values), q))
  {
    assert [] + values == values;
  }

  lemma ArrayReads(p: string, values: seq<Value>)
    requires ReadsAsItems(p, values)
    ensures ReadsAs("[" + p, false, List(values))
  {
    var whole := "[" + p;
    forall s: string, i: nat | At(s, i, whole) ensures ReadValue(s, i) == Ok((List(values), i + |whole|)) {
      AtIndex(s, i, whole, 0);
      AtSplit(s, i, "[", p);
      RestReads(s, i + 1, p, values, [], i + |whole|);
      ArrayIs(s, i, values, i + |whole|);
    }
  }

  lemma NestedIs(s: string, i: nat, a: nat, k: nat, body: string, m: Contents)
    requires i < |s| && s[i] == '{' && a == i + 1 && a <= k < |s| && NestedEnd(s, a, 1, Code) == k + 1
    requires s[a..k] == body && ParseMap(body) == Ok(m)
    ensures ReadValue(s, i) == Ok((Map(m), k + 1))
  {
  }

  lemma NestedEnds(s: string, i: nat, a: nat, k: nat, body: string)
    requires EnclosedText(Nested, body) && At(s, i, Enclosed(Nested, body)) && a == i + 1 && k == a + |body|
    ensures k < |s| && s[i] == '{' && s[a..k] == body && NestedEnd(s, a, 1, Code) == k + 1
  {
    EnclosedLaysOut(Nested, s, i, a, k, body);
    EnclosedCloses(Nested, s, i, a, k, body);
    NestedEndsAtDepthZero(s, a, k);
  }

  lemma NestedReads(body: string, m: Contents)
    requires EnclosedText(Nested, body) && ParseMap(body) == Ok(m)
    ensures ReadsAs(Enclosed(Nested, body), false, Map(m))
  {
    forall s: string, i: nat | At(s, i, Enclosed(Nested, body))
      ensures ReadValue(s, i) == Ok((Map(m), i + |Enclosed(Nested, body)|))
    {
      var a, k := i + 1, i + 1 + |body|;
      NestedEnds(s, i, a, k, body);
      NestedIs(s, i, a, k, body, m);
    }
  }

  // ---------------------------------------------------------------------------
  // Items
  // ---------------------------------------------------------------------------

  lemma NoItemsRead(close: string)
    requires SeparatorText(close)
    ensures ReadsAsItems(close + "]", [])
  {
    forall s: string, i: nat, acc: seq<Value> | At(s, i, close + "]")
      ensures ReadItems(s, i, acc) == Ok((List(acc + []), i + |close + "]"|))
    {
      AtSplit(s, i, close, "]");
      AtIndex(s, i + |close|, "]", 0);
      SeparatorsStand(s, i, close);
      FindIs(s, i, NotSeparator, i + |close|);
      assert acc + [] == acc;
    }
  }

  /** Separators and something behind them. */
  predicate ItemFollows(rest: string) {
    Find(rest, 0, NotSeparator) < |rest|
  }

  lemma ItemFollowsAt(s: string, q: nat, rest: string) returns (n: nat)
    requires At(s, q, rest) && ItemFollows(rest)
    ensures Separators(s, q, n) && n < |s| && NotSeparator(s[n])
  {
    var k := Find(rest, 0, NotSeparator);
    n := q + k;
    forall m | q <= m < n ensures !NotSeparator(s[m]) {
      AtIndex(s, q, rest, m - q);
    }
    AtIndex(s, q, rest, k);
  }

  lemma ItemStandsAt(s: string, i: nat, v: nat, q: nat, lead: string, p: string, rest: string)
    requires At(s, i, lead + (p + rest)) && v == i + |lead| && q == v + |p| && SeparatorText(lead)
    requires p != "" && BeginsValue(p[0])
    ensures Separators(s, i, v) && At(s, v, p) && At(s, q, rest) && v < |s| && s[v] == p[0]
  {
    AtSplit(s, i, lead, p + rest);
    AtSplit(s, v, p, rest);
    SeparatorsStand(s, i, lead);
    AtIndex(s, v, p, 0);
  }

  /** One turn of the loop over items, and the turns behind it. */
  lemma ItemThenRest(s: string, i: nat, v: nat, q: nat, bare: bool, value: Value, n: nat, acc: seq<Value>,
                     values: seq<Value>, end: nat)
    requires Separators(s, i, v) && v < |s| && BeginsValue(s[v]) && v < q
    requires q <= |s| && ReadValue(s, v) == Ok((value, AfterValue(bare, s, q)))
    requires Separators(s, q, n) && n < |s| && NotSeparator(s[n])
    requires ReadItems(s, q, acc + [value]) == Ok((List((acc + [value]) + values), end))
    ensures ReadItems(s, i, acc) == Ok((List(acc + ([value] + values)), end))
  {
    SameItems(s, i, v, acc);
    ItemStep(s, v, value, AfterValue(bare, s, q), acc);
    ItemsBehindValue(s, bare, q, n, acc + [value]);
    assert (acc + [value]) + values == acc + ([value] + values);
  }

  lemma ItemsRead(lead: string, p: string, bare: bool, value: Value, rest: string, values: seq<Value>)
    requires SeparatorText(lead) && ReadsAs(p, bare, value) && p != "" && BeginsValue(p[0])
    requires ReadsAsItems(rest, values) && ItemFollows(rest) && (bare ==> DelimiterFirst(rest))
    ensures ReadsAsItems(lead + (p + rest), [value] + values)
  {
    var whole := lead + (p + rest);
    forall s: string, i: nat, acc: seq<Value> | At(s, i, whole)
      ensures ReadItems(s, i, acc) == Ok((List(acc + ([value] + values)), i + |whole|))
    {
      ItemsReadAt(s, i, i + |lead|, i + |lead| + |p|, lead, p, bare, value, rest, values, acc);
    }
  }

  lemma ItemsReadAt(s: string, i: nat, v: nat, q: nat, lead: string, p: string, bare: bool, value: Value,
                    rest: string, values: seq<Value>, acc: seq<Value>)
    requires SeparatorText(lead) && ReadsAs(p, bare, value) && p != "" && BeginsValue(p[0])
    requires ReadsAsItems(rest, values) && ItemFollows(rest) && (bare ==> DelimiterFirst(rest))
    requires At(s, i, lead + (p + rest)) && v == i + |lead| && q == v + |p|
    ensures ReadItems(s, i, acc) == Ok((List(acc + ([value] + values)), q + |rest|))
  {
    ItemStandsAt(s, i, v, q, lead, p, rest);
    var n := ItemFollowsAt(s, q, rest);
    if bare {
      DelimiterStands(s, q, rest);
    }
    ValueReads(s, v, p, bare, value, q);
    RestReads(s, q, rest, values, acc + [value], q + |rest|);
    ItemThenRest(s, i, v, q, bare, value, n, acc, values, q + |rest|);
  }

  // ---------------------------------------------------------------------------
  // Fields
  // ---------------------------------------------------------------------------

  lemma NoFieldsRead(bare: bool)
    ensures ReadsAsFields("", bare, [])
  {
  }

  lemma LeadReads(lead: string, p: string, bare: bool, fields: seq<Field>)
    requires Skippable(Separating, lead, true) && ReadsAsFields(p, bare, fields)
    ensures ReadsAsFields(lead + p, bare, fields)
  {
    var whole := lead + p;
    assert |whole| == |lead| + |p|;
    forall s: string, i: nat, end: nat, acc: Contents
      | At(s, i, whole) && end == i + |whole| && (bare ==> Delimited(s, end))
      ensures AddsFields(s, i, end, fields, acc)
    {
      LeadReadsAt(s, i, i + |lead|, end, lead, p, bare, fields, acc);
    }
  }

  lemma LeadReadsAt(s: string, i: nat, j: nat, end: nat, lead: string, p: string, bare: bool, fields: seq<Field>,
                    acc: Contents)
    requires Skippable(Separating, lead, true) && ReadsAsFields(p, bare, fields) && At(s, i, lead + p)
    requires j == i + |lead| && end == j + |p| && (bare ==> Delimited(s, end))
    ensures ParseFields(s, i, acc) == ParseFields(s, end, DenoteFields(fields, acc))
  {
    AtSplit(s, i, lead, p);
    SkipStands(Separating, s, i, lead, true);
    SkipsFields(s, i, j, acc);
    FieldsRead(s, j, p, bare, fields, acc, end);
  }

  lemma FieldStandsAt(s: string, j: nat, v: nat, q: nat, f: Field, p: string, rest: string)
    requires At(s, j, Head(f) + (p + rest)) && v == j + |Head(f)| && q == v + |p| && p != ""
    ensures At(s, j, Head(f)) && At(s, v, p) && At(s, q, rest) && v < |s| && s[v] == p[0]
  {
    AtSplit(s, j, Head(f), p + rest);
    AtSplit(s, v, p, rest);
    AtIndex(s, v, p, 0);
  }

  /** One turn of the loop over fields, and the turns behind it. */
  lemma FieldThenRest(s: string, j: nat, key: string, v: nat, q: nat, bare: bool, value: Value, acc: Contents,
                      result: Outcome<Contents>)
    requires j < |s| && Find(s, j, NotSeparator) == j && !CommentAt(s, j) && ReadKey(s, j) == Key(key, v)
    requires q <= |s| && ReadValue(s, v) == Ok((value, AfterValue(bare, s, q)))
    requires ParseFields(s, q, acc[key := value]) == result
    ensures ParseFields(s, j, acc) == result
  {
    FieldsBehindValue(s, bare, q, acc[key := value]);
    FieldStep(s, j, key, v, value, AfterValue(bare, s, q), acc);
  }

  /** What stands behind a field: more fields behind a delimiter, or nothing. */
  predicate FieldFollows(bare: bool, rest: string, more: bool) {
    bare && more ==> DelimiterFirst(rest)
  }

  lemma CoreReads(f: Field, p: string, value: Value, rest: string, last: bool, fields: seq<Field>)
    requires FieldKey(f.key) && ColonText(f.before, f.after) && Denote(f.tree) == value
    requires ReadsAs(p, f.tree.Bare?, value) && p != "" && BeginsValue(p[0])
    requires ReadsAsFields(rest, last, fields) && FieldFollows(f.tree.Bare?, rest, fields != [])
    requires fields == [] ==> rest == "" && last == f.tree.Bare?
    ensures ReadsAsFields(Head(f) + (p + rest), last, [f] + fields)
  {
    var whole := Head(f) + (p + rest);
    assert ([f] + fields)[1..] == fields;
    forall s: string, j: nat, end: nat, acc: Contents
      | At(s, j, whole) && end == j + |whole| && (last ==> Delimited(s, end))
      ensures AddsFields(s, j, end, [f] + fields, acc)
    {
      CoreReadsAt(s, j, j + |Head(f)|, j + |Head(f)| + |p|, end, f, p, value, rest, last, fields, acc);
    }
  }

  lemma CoreReadsAt(s: string, j: nat, v: nat, q: nat, end: nat, f: Field, p: string, value: Value, rest: string,
                    last: bool, fields: seq<Field>, acc: Contents)
    requires FieldKey(f.key) && ColonText(f.before, f.after)
    requires ReadsAs(p, f.tree.Bare?, value) && p != "" && BeginsValue(p[0])
    requires ReadsAsFields(rest, last, fields) && FieldFollows(f.tree.Bare?, rest, fields != [])
    requires fields == [] ==> rest == "" && last == f.tree.Bare?
    requires At(s, j, Head(f) + (p + rest)) && v == j + |Head(f)| && q == v + |p|
    requires end == q + |rest| <= |s| && (last ==> Delimited(s, end))
    ensures ParseFields(s, j, acc) == ParseFields(s, end, DenoteFields(fields, acc[f.key := value]))
  {
    FieldStandsAt(s, j, v, q, f, p, rest);
    KeyReads(s, j, f, v);
    if f.tree.Bare? && fields != [] {
      DelimiterStands(s, q, rest);
    }
    ValueReads(s, v, p, f.tree.Bare?, value, q);
    FieldsRead(s, q, rest, last, fields, acc[f.key := value], end);
    FieldThenRest(s, j, f.key, v, q, f.tree.Bare?, value, acc,
                  ParseFields(s, end, DenoteFields(fields, acc[f.key := value])));
  }

  // ---------------------------------------------------------------------------
  // Trees
  // ---------------------------------------------------------------------------

  /** What stands behind an item. */
  lemma ItemsBehindFollow(items: seq<Entry>, close: string)
    requires items != [] && ItemsShaped(items, close)
    ensures var rest := PrintItems(items[1..]) + (close + "]");
            ItemFollows(rest) && (items[0].tree.Bare? ==> DelimiterFirst(rest))
  {
    var lead := NextLead(items, close);
    var tail := ItemsBehind(items, close);
    if |items| > 1 {
      PrintBegins(items[1].tree);
      ItemBegins(items[1..], close, tail);
    }
    FollowsIn(lead, tail);
    if items[0].tree.Bare? {
      if Find(lead, 0, NotInline) < |lead| {
        DelimiterInFront(lead, tail);
      } else {
        BracketInFront(lead, tail);
      }
    }
  }

  lemma FollowsIn(lead: string, tail: string)
    requires SeparatorText(lead) && tail != "" && NotSeparator(tail[0])
    ensures ItemFollows(lead + tail)
  {
    var s := lead + tail;
    assert forall m :: 0 <= m < |lead| ==> s[m] == lead[m];
    assert s[|lead|] == tail[0];
    FindIs(s, 0, NotSeparator, |lead|);
  }

  lemma ItemBegins(items: seq<Entry>, close: string, tail: string)
    requires items != [] && PrintItems(items) + (close + "]") == items[0].lead + tail
    requires Print(items[0].tree) != ""
    ensures tail != "" && tail[0] == Print(items[0].tree)[0]
  {
    var lead, value := items[0].lead, Print(items[0].tree);
    assert (lead + tail)[|lead|..] == tail;
    assert (lead + tail)[|lead|] == value[0];
  }

  /** A printed value is read as what it stands for, wherever it stands: before a delimiter if
      it is unquoted. */
  lemma {:induction false} TreeReads(t: Tree)
    requires Printable(t)
    ensures ReadsAs(Print(t), t.Bare?, Denote(t))
    decreases Size(t), 0
  {
    match t
    case Quoted(quote, text) =>
      QuotedReads(text, quote);
    case Bare(text) =>
      BareReadsAs(text);
    case Arr(items, close) =>
      ItemListReads(items, close);
      ArrayReads(PrintItems(items) + (close + "]"), DenoteItems(items));
    case Obj(fields, close) =>
      ParsePrintRoundTrip(fields, close);
      NestedReads(Body(fields, close), Meant(fields));
  }

  /** Printed items, up to the closing bracket, are read as the rest of an array. */
  lemma {:induction false} ItemListReads(items: seq<Entry>, close: string)
    requires ItemsShaped(items, close) && ItemsClosed(items)
    ensures ReadsAsItems(PrintItems(items) + (close + "]"), DenoteItems(items))
    decreases ItemsSize(items), 1
  {
    if items == [] {
      assert PrintItems(items) + (close + "]") == close + "]";
      NoItemsRead(close);
    } else {
      var e, value, rest := items[0], Print(items[0].tree), PrintItems(items[1..]);
      TreeReads(e.tree);
      ItemListReads(items[1..], close);
      PrintBegins(e.tree);
      ItemsBehindFollow(items, close);
      ItemsRead(e.lead, value, e.tree.Bare?, Denote(e.tree), rest + (close + "]"), DenoteItems(items[1..]));
      RegroupThree(e.lead, value, rest, close + "]");
    }
  }

  lemma RegroupThree(a: string, b: string, c: string, d: string)
    ensures a + (b + (c + d)) == (a + (b + c)) + d
  {
  }

  /** The last value is unquoted. */
  predicate LastBare(fields: seq<Field>) {
    fields != [] && fields[|fields| - 1].tree.Bare?
  }

  lemma FieldsBehindFollow(fields: seq<Field>, close: string)
    requires fields != [] && FieldsShaped(fields, close)
    ensures FieldFollows(fields[0].tree.Bare?, PrintFields(fields[1..]), fields[1..] != [])
    ensures fields[1..] == [] ==> PrintFields(fields[1..]) == ""
  {
    if fields[0].tree.Bare? && |fields| > 1 {
      DelimiterInFront(fields[1].lead, PrintCore(fields[1..]));
    }
  }

  /** Printed fields are read as adding them to any map, whatever stands behind them. */
  lemma {:induction false} FieldListReads(fields: seq<Field>, close: string)
    requires fields != [] && Fields(fields, close)
    ensures ReadsAsFields(PrintCore(fields), LastBare(fields), fields)
    decreases FieldsSize(fields), 1
  {
    var f, rest := fields[0], fields[1..];
    TreeReads(f.tree);
    PrintBegins(f.tree);
    if rest == [] {
      NoFieldsRead(f.tree.Bare?);
    } else {
      FieldListReads(rest, close);
      LeadReads(rest[0].lead, PrintCore(rest), LastBare(rest), rest);
    }
    FieldsBehindFollow(fields, close);
    LastOfRest(fields);
    CoreReads(f, Print(f.tree), Denote(f.tree), PrintFields(rest), LastBare(fields), rest);
    assert [f] + rest == fields;
  }

  lemma LastOfRest(fields: seq<Field>)
    requires fields != []
    ensures LastBare(fields) == if fields[1..] == [] then fields[0].tree.Bare? else LastBare(fields[1..])
  {
  }

  // ---------------------------------------------------------------------------
  // The round trip
  // ---------------------------------------------------------------------------

  lemma HeadBegins(f: Field)
    requires FieldKey(f.key)
    ensures Head(f) != "" && !IsSpace(Head(f)[0])
  {
    ConcatEnds(f.key, f.before + (":" + f.after));
  }

  lemma TightParts(head: string, value: string, rest: string)
    requires head != "" && !IsSpace(head[0]) && value != "" && Tight(value)
    requires rest != "" ==> !IsSpace(rest[|rest| - 1])
    ensures head + (value + rest) != "" && Tight(head + (value + rest))
  {
    ConcatEnds(value, rest);
    ConcatEnds(head, value + rest);
  }

  lemma LeadThenCore(lead: string, core: string)
    requires core != "" && Tight(core)
    ensures lead + core != "" && !IsSpace((lead + core)[|lead + core| - 1])
  {
    ConcatEnds(lead, core);
  }

  /** Fields end where their last value ends. */
  lemma {:induction false} CoreEnds(fields: seq<Field>, close: string)
    requires fields != [] && FieldsShaped(fields, close)
    ensures PrintCore(fields) != "" && Tight(PrintCore(fields))
    decreases |fields|
  {
    PrintEnds(fields[0].tree);
    HeadBegins(fields[0]);
    if |fields| > 1 {
      CoreEnds(fields[1..], close);
      LeadThenCore(fields[1].lead, PrintCore(fields[1..]));
    }
    TightParts(Head(fields[0]), Print(fields[0].tree), PrintFields(fields[1..]));
  }

  lemma {:induction false} SkipsBehindSpaces(s: string, i: nat, a: nat, j: nat)
    requires i <= a <= j <= |s| && Skips(Separating, s, i, j) && forall m :: i <= m < a ==> IsSpace(s[m])
    ensures Skips(Separating, s, a, j)
    decreases a - i
  {
    if i < a {
      assert IsSpace(s[i]);
      SkipsBehindSpaces(s, i + 1, a, j);
    }
  }

  /** The text without the spaces around it, as a part of the text. */
  predicate Cut(t: string, s: string, a: nat, b: nat) {
    && a <= b <= |t| && s == t[a..b]
    && (forall m :: 0 <= m < a ==> IsSpace(t[m])) && forall m :: b <= m < |t| ==> IsSpace(t[m])
  }

  lemma TrimCuts(t: string) returns (a: nat, b: nat)
    ensures Cut(t, Trim(t), a, b)
  {
    var before, after := TrimParts(t);
    a, b := |before|, |before| + |Trim(t)|;
    forall m | 0 <= m < a ensures IsSpace(t[m]) {
      assert t[m] == before[m];
    }
    forall m | b <= m < |t| ensures IsSpace(t[m]) {
      assert t[m] == after[m - b];
    }
    assert t[a..b] == Trim(t);
  }

  lemma BlankBody(t: string, s: string, a: nat, b: nat, acc: Contents)
    requires Cut(t, s, a, b) && Skippable(Separating, t, false)
    ensures ParseFields(s, 0, acc) == Ok(acc)
  {
    WholeText(t);
    SkipStands(Separating, t, 0, t, false);
    SkipsBehindSpaces(t, 0, a, |t|);
    SkipsCut(t, a, b, a, |t|);
    SkipsFields(s, 0, |s|, acc);
  }

  /** What stands in front of the fields and behind them is skipped, however it is cut. */
  lemma SurroundingsSkip(t: string, s: string, a: nat, b: nat, c: nat, q: nat)
    requires Cut(t, s, a, b) && a <= c <= q <= b && Skips(Separating, t, 0, c) && Skips(Separating, t, q, |t|)
    ensures Skips(Separating, s, 0, c - a) && Skips(Separating, s, q - a, |s|)
  {
    SkipsBehindSpaces(t, 0, a, c);
    SkipsCut(t, a, b, a, c);
    SkipsCut(t, a, b, q, |t|);
  }

  lemma DelimitedCut(t: string, s: string, a: nat, b: nat, q: nat)
    requires Cut(t, s, a, b) && a <= q <= b && Delimited(t, q)
    ensures Delimited(s, q - a)
  {
    var e, k := Find(t, q, NotInline), q - a;
    var n := (if e <= b then e else b) - a;
    forall m | k <= m < n ensures !NotInline(s[m]) {
      assert s[m] == t[a + m];
    }
    assert n < |s| ==> s[n] == t[a + n];
    FindIs(s, k, NotInline, n);
  }

  lemma {:induction false} LastDelimiter(fields: seq<Field>, close: string)
    requires fields != [] && FieldsShaped(fields, close)
    ensures DelimiterText(fields[|fields| - 1].tree, close, false)
    decreases |fields|
  {
    if |fields| > 1 {
      LastDelimiter(fields[1..], close);
      assert fields[1..][|fields| - 2] == fields[|fields| - 1];
    }
  }

  lemma BodyLaysOut(fields: seq<Field>, close: string, t: string, c: nat, q: nat)
    requires fields != [] && t == Body(fields, close) && c == |fields[0].lead| && q == c + |PrintCore(fields)|
    ensures At(t, 0, fields[0].lead) && At(t, c, PrintCore(fields)) && At(t, q, close) && q + |close| == |t|
  {
    WholeText(t);
    AtSplit(t, 0, PrintFields(fields), close);
    AtSplit(t, 0, fields[0].lead, PrintCore(fields));
  }

  lemma {:induction false} FieldsEndShaped(fields: seq<Field>, close: string)
    requires FieldsShaped(fields, close)
    ensures Skippable(Separating, close, false)
    decreases |fields|
  {
    if fields != [] {
      FieldsEndShaped(fields[1..], close);
    }
  }

  lemma CloseEnds(t: Tree, close: string, s: string, q: nat)
    requires At(s, q, close) && q + |close| == |s|
    requires Skippable(Separating, close, false) && DelimiterText(t, close, false)
    ensures EndsText(t.Bare?, s, q)
  {
    SkipStands(Separating, s, q, close, false);
    if t.Bare? {
      if Find(close, 0, NotInline) < |close| {
        DelimiterStands(s, q, close);
      } else {
        SpacesStand(s, q, close);
      }
    }
  }

  lemma BodyEnds(fields: seq<Field>, close: string, t: string, c: nat, q: nat)
    requires fields != [] && FieldsShaped(fields, close)
    requires At(t, 0, fields[0].lead) && c == |fields[0].lead| && At(t, q, close) && q + |close| == |t|
    ensures Skips(Separating, t, 0, c) && EndsText(LastBare(fields), t, q)
  {
    SkipStands(Separating, t, 0, fields[0].lead, true);
    FieldsEndShaped(fields, close);
    LastDelimiter(fields, close);
    CloseEnds(fields[|fields| - 1].tree, close, t, q);
  }

  /** Trimming cuts nothing off the fields. */
  lemma CoreIsKept(t: string, s: string, a: nat, b: nat, p: string, c: nat, q: nat)
    requires Cut(t, s, a, b) && At(t, c, p) && q == c + |p| && p != "" && Tight(p)
    ensures a <= c <= q <= b && At(s, c - a, p)
  {
    AtIndex(t, c, p, 0);
    AtIndex(t, c, p, |p| - 1);
    assert !IsSpace(t[c]) && !IsSpace(t[q - 1]);
    var n: nat := c - a;
    forall m | 0 <= m < |p| ensures s[n + m] == p[m] {
      AtIndex(t, c, p, m);
    }
  }

  lemma EndsAreCut(bare: bool, t: string, s: string, a: nat, b: nat, c: nat, e: nat)
    requires Cut(t, s, a, b) && a <= c <= e <= b && Skips(Separating, t, 0, c) && EndsText(bare, t, e)
    ensures Skips(Separating, s, 0, c - a) && EndsText(bare, s, e - a)
  {
    SurroundingsSkip(t, s, a, b, c, e);
    if bare {
      DelimitedCut(t, s, a, b, e);
    }
  }

  lemma CutAround(t: string, s: string, p: string, bare: bool, c: nat, e: nat) returns (j: nat, q: nat)
    requires s == Trim(t) && At(t, c, p) && e == c + |p| && p != "" && Tight(p)
    requires Skips(Separating, t, 0, c) && EndsText(bare, t, e)
    ensures At(s, j, p) && q == j + |p| && Skips(Separating, s, 0, j) && EndsText(bare, s, q)
  {
    var a, b := TrimCuts(t);
    CoreIsKept(t, s, a, b, p, c, e);
    EndsAreCut(bare, t, s, a, b, c, e);
    j, q := c - a, e - a;
  }

  /** The fields in the trimmed text. */
  lemma BodyIsCut(fields: seq<Field>, close: string, s: string) returns (j: nat, q: nat)
    requires fields != [] && FieldsShaped(fields, close) && s == Trim(Body(fields, close))
    ensures At(s, j, PrintCore(fields)) && q == j + |PrintCore(fields)|
    ensures Skips(Separating, s, 0, j) && EndsText(LastBare(fields), s, q)
  {
    var t, p, c := Body(fields, close), PrintCore(fields), |fields[0].lead|;
    var e := c + |p|;
    BodyLaysOut(fields, close, t, c, e);
    BodyEnds(fields, close, t, c, e);
    CoreEnds(fields, close);
    j, q := CutAround(t, s, p, LastBare(fields), c, e);
  }

  /** Round trip: parsing the printed inside of a map gives exactly the map it stands for. */
  lemma {:induction false} ParsePrintRoundTrip(fields: seq<Field>, close: string)
    requires Fields(fields, close)
    ensures ParseMap(Body(fields, close)) == Ok(Meant(fields))
    decreases FieldsSize(fields), 2
  {
    var t := Body(fields, close);
    var s := Trim(t);
    if fields == [] {
      assert t == close;
      var a, b := TrimCuts(t);
      BlankBody(t, s, a, b, map[]);
    } else {
      FieldListReads(fields, close);
      var j, q := BodyIsCut(fields, close, s);
      SkipsFields(s, 0, j, map[]);
      FieldsAreAll(s, j, PrintCore(fields), LastBare(fields), fields, map[], q);
    }
  }

  // ---------------------------------------------------------------------------
  // Every value can be printed
  // ---------------------------------------------------------------------------

  /** A uniform layout: what stands between the entries, and at the ends of a map or list. */
  datatype Layout = Layout(sep: string, pad: string)

  predicate LayoutText(l: Layout) {
    SeparatorText(l.sep) && SeparatorText(l.pad) && Find(l.sep, 0, NotInline) < |l.sep|
  }

  /** The text closes what it opens, for each of the three matchers. */
  predicate Seals(text: string) {
    Sealed(Braces, text, false) && Sealed(Parens, text, false) && Sealed(Nested, text, false)
  }

  /** Texts that fit between quotes of one kind or are whole expressions. */
  predicate Tellable(text: string) {
    RawText(text, '"') || RawText(text, '\'') || (BareText(text) && Seals(text))
  }

  predicate Writable(v: Value) {
    match v
    case Text(text) => Tellable(text)
    case List(items) => forall i :: 0 <= i < |items| ==> Writable(items[i])
    case Map(entries) => forall k :: k in entries ==> FieldKey(k) && Seals(k) && Writable(entries[k])
    case _ => false
  }

  ghost predicate AlwaysQuiet(t: Tree) {
    forall b: Brackets :: Quiet(b, t, false)
  }

  lemma QuietAnyway(b: Brackets, t: Tree, breaks: bool)
    requires Quiet(b, t, false)
    ensures Quiet(b, t, breaks)
  {
    if t.Bare? {
      SealedAnyway(b, t.text, breaks);
    }
  }

  lemma ScalarFor(text: string) returns (t: Tree)
    requires Tellable(text)
    ensures Shaped(t) && AlwaysQuiet(t) && Denote(t) == Text(text)
  {
    t := if RawText(text, '"') then Quoted('"', text)
         else if RawText(text, '\'') then Quoted('\'', text)
         else Bare(text);
    forall b: Brackets ensures Quiet(b, t, false) {
      assert b == Braces || b == Parens || b == Nested;
    }
  }

  /** Names of letters, digits and underscores are keys. */
  lemma WordKey(key: string)
    requires KeyText(key)
    ensures FieldKey(key) && Seals(key)
  {
    assert IsWordChar(key[0]) && IsWordChar(key[|key| - 1]);
    PlainSealed(Braces, key);
    PlainSealed(Parens, key);
    PlainSealed(Nested, key);
  }

  lemma KeyHeadSealed(b: Brackets, key: string)
    requires FieldKey(key) && Sealed(b, key, false)
    ensures Sealed(b, key + ("" + (":" + " ")), false)
  {
    assert "" + (":" + " ") == ": ";
    PlainSealed(b, ": ");
    SealedConcat(b, key, false, ": ", false);
  }

  /** Behind separators with a comma or a line break any value may follow. */
  lemma SeparatorDelimits(t: Tree, l: Layout)
    requires LayoutText(l)
    ensures DelimiterText(t, l.sep, true) && DelimiterText(t, l.pad, false)
  {
    var e, n := Find(l.sep, 0, NotInline), Find(l.pad, 0, NotInline);
    assert !NotSeparator(l.sep[e]) && NotInline(l.sep[e]);
    assert n < |l.pad| ==> !NotSeparator(l.pad[n]) && NotInline(l.pad[n]);
  }

  lemma {:induction false} SeparatorsAreSkipped(p: string, more: bool)
    requires SeparatorText(p)
    ensures Skippable(Separating, p, more)
    decreases |p|
  {
    if p != "" {
      SeparatorsAreSkipped(p[1..], more);
    }
  }

  lemma {:induction false} TreeFor(v: Value, l: Layout) returns (t: Tree)
    requires Writable(v) && LayoutText(l)
    ensures Shaped(t) && AlwaysQuiet(t) && Denote(t) == v
    decreases v, 2
  {
    match v
    case Text(text) =>
      t := ScalarFor(text);
    case List(items) =>
      var entries := EntriesFor(items, l, l.pad);
      t := Arr(entries, l.pad);
      ArrayIsQuiet(entries, l.pad);
    case Map(entries) =>
      var fields := FieldsFor(v, entries.Keys, map[], l, l.pad);
      t := Obj(fields, l.pad);
      MapIsQuiet(fields, l.pad);
      WholeMap(entries);
  }

  lemma WholeMap(m: Contents)
    ensures map[] + (map k | k in m.Keys :: m[k]) == m
  {
  }

  lemma ArrayIsQuiet(entries: seq<Entry>, close: string)
    requires ItemsShaped(entries, close) && forall b: Brackets :: ItemsQuiet(b, entries, close)
    ensures Shaped(Arr(entries, close)) && AlwaysQuiet(Arr(entries, close))
  {
  }

  lemma MapIsQuiet(fields: seq<Field>, close: string)
    requires FieldsShaped(fields, close) && forall b: Brackets :: FieldsQuiet(b, fields, close)
    ensures Shaped(Obj(fields, close)) && AlwaysQuiet(Obj(fields, close))
  {
  }

  lemma ItemsAlwaysQuiet(entries: seq<Entry>, close: string)
    requires entries != [] && AlwaysQuiet(entries[0].tree) && forall b: Brackets :: ItemsQuiet(b, entries[1..], close)
    ensures forall b: Brackets :: ItemsQuiet(b, entries, close)
  {
    forall b: Brackets ensures ItemsQuiet(b, entries, close) {
      QuietAnyway(b, entries[0].tree, Breaks(NextLead(entries, close)));
    }
  }

  lemma {:induction false} EntriesFor(items: seq<Value>, l: Layout, lead: string) returns (entries: seq<Entry>)
    requires (forall i :: 0 <= i < |items| ==> Writable(items[i])) && LayoutText(l) && SeparatorText(lead)
    ensures ItemsShaped(entries, l.pad) && DenoteItems(entries) == items
    ensures forall b: Brackets :: ItemsQuiet(b, entries, l.pad)
    ensures entries != [] ==> entries[0].lead == lead
    decreases items, 0
  {
    entries := [];
    if items != [] {
      var tree := TreeFor(items[0], l);
      var rest := EntriesFor(items[1..], l, l.sep);
      entries := [Entry(lead, tree)] + rest;
      assert entries[1..] == rest && [items[0]] + items[1..] == items;
      SeparatorDelimits(tree, l);
      ItemsAlwaysQuiet(entries, l.pad);
    }
  }

  lemma FieldsAlwaysQuiet(fields: seq<Field>, close: string)
    requires fields != [] && AlwaysQuiet(fields[0].tree) && FieldKey(fields[0].key) && Seals(fields[0].key)
    requires fields[0].before == "" && fields[0].after == " " && SeparatorText(fields[0].lead)
    requires forall b: Brackets :: FieldsQuiet(b, fields[1..], close)
    ensures forall b: Brackets :: FieldsQuiet(b, fields, close)
  {
    forall b: Brackets ensures FieldsQuiet(b, fields, close) {
      assert b == Braces || b == Parens || b == Nested;
      SeparatorsSealed(b, fields[0].lead);
      KeyHeadSealed(b, fields[0].key);
      QuietAnyway(b, fields[0].tree, Breaks(NextFieldLead(fields, close)));
    }
  }

  lemma NoFieldsQuiet(close: string)
    requires SeparatorText(close)
    ensures FieldsShaped([], close) && forall b: Brackets :: FieldsQuiet(b, [], close)
  {
    SeparatorsAreSkipped(close, false);
    forall b: Brackets ensures FieldsQuiet(b, [], close) {
      SeparatorsSealed(b, close);
    }
  }

  lemma FieldShapes(lead: string, k: string, tree: Tree, rest: seq<Field>, l: Layout) returns (fields: seq<Field>)
    requires LayoutText(l) && SeparatorText(lead) && FieldKey(k) && Seals(k) && Shaped(tree) && AlwaysQuiet(tree)
    requires FieldsShaped(rest, l.pad) && (rest != [] ==> rest[0].lead == l.sep)
    requires forall b: Brackets :: FieldsQuiet(b, rest, l.pad)
    ensures fields == [Field(lead, k, "", " ", tree)] + rest
    ensures FieldsShaped(fields, l.pad) && forall b: Brackets :: FieldsQuiet(b, fields, l.pad)
  {
    fields := [Field(lead, k, "", " ", tree)] + rest;
    assert fields[1..] == rest;
    SeparatorDelimits(tree, l);
    SeparatorsAreSkipped(lead, true);
    FieldsAlwaysQuiet(fields, l.pad);
  }

  /** Fields that add the entries with these keys to a map. */
  lemma {:induction false} FieldsFor(v: Value, keys: set<string>, acc: Contents, l: Layout, lead: string)
    returns (fields: seq<Field>)
    requires v.Map? && Writable(v) && keys <= v.entries.Keys && LayoutText(l) && SeparatorText(lead)
    ensures FieldsShaped(fields, l.pad) && forall b: Brackets :: FieldsQuiet(b, fields, l.pad)
    ensures DenoteFields(fields, acc) == acc + (map k | k in keys :: v.entries[k])
    ensures fields != [] ==> fields[0].lead == lead
    decreases v, 0, keys
  {
    fields := [];
    if keys == {} {
      assert acc + map[] == acc;
      NoFieldsQuiet(l.pad);
    } else {
      var k :| k in keys;
      var tree := TreeFor(v.entries[k], l);
      var rest := FieldsFor(v, keys - {k}, acc[k := v.entries[k]], l, l.sep);
      fields := FieldShapes(lead, k, tree, rest, l);
      assert fields[1..] == rest;
      AddsOne(v.entries, keys, k, acc);
    }
  }

  lemma AddsOne(entries: Contents, keys: set<string>, k: string, acc: Contents)
    requires k in keys && keys <= entries.Keys
    ensures acc[k := entries[k]] + (map x | x in keys - {k} :: entries[x]) == acc + (map x | x in keys :: entries[x])
  {
  }

  /** Every writable map is the meaning of some text, in every layout: the parser can produce
      it, and does from its print. The text may stand in a block, in parentheses or in a map. */
  lemma EveryMapIsRead(m: Contents, l: Layout) returns (fields: seq<Field>)
    requires Writable(Map(m)) && LayoutText(l)
    ensures Fields(fields, l.pad) && Meant(fields) == m && ParseMap(Body(fields, l.pad)) == Ok(m)
    ensures forall b: Brackets :: EnclosedText(b, Body(fields, l.pad))
  {
    fields := FieldsFor(Map(m), m.Keys, map[], l, l.pad);
    WholeMap(m);
    AlwaysEnclosed(fields, l.pad);
    ParsePrintRoundTrip(fields, l.pad);
  }

  lemma AlwaysEnclosed(fields: seq<Field>, close: string)
    requires FieldsShaped(fields, close) && forall b: Brackets :: FieldsQuiet(b, fields, close)
    ensures FieldsClosed(fields) && forall b: Brackets :: EnclosedText(b, Body(fields, close))
  {
    forall b: Brackets ensures EnclosedText(b, Body(fields, close)) {
      QuietFieldsEnclosed(b, fields, close);
    }
    QuietFieldsEnclosed(Nested, fields, close);
  }
}
