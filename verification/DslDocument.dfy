/** Whole flow files: items with everything that stands between them are read as the flow they
    describe. */
module DslDocument {
  import opened Prelude
  import opened StoreModel
  import opened DslText
  import opened DslOptions
  import opened DslPlaces
  import opened DslGaps
  import opened DslBlocks
  import opened DslTrees
  import opened DslFlow

  datatype Suffix =
    | FallbackBlock(lead: string, gap: string, text: string)
    | CompensateBlock(lead: string, gap: string, text: string)

  /** The gap is what stands behind the keyword; a step has more of them behind its name and
      behind its options. */
  datatype Item =
    | Entrypoint(kind: string, gap: string, text: string)
    | Properties(gap: string, text: string)
    | StepItem(gap: string, name: string, space: string, options: Option<string>, inner: string, body: string,
               suffixes: seq<Suffix>)
    | OnError(gap: string, text: string)
    | ReturnItem(gap: string, text: string)

  /** An item and what stands in front of it. */
  datatype Placed = Placed(lead: string, item: Item)

  // ---------------------------------------------------------------------------
  // Printing
  // ---------------------------------------------------------------------------

  function Block(text: string): string {
    Enclosed(Braces, text)
  }

  function PrintOptions(options: Option<string>): string {
    if options.Some? then Enclosed(Parens, options.value) else ""
  }

  function SuffixWord(x: Suffix): string {
    if x.FallbackBlock? then "fallback" else "compensate"
  }

  function PrintSuffix(x: Suffix): string {
    x.lead + (SuffixWord(x) + (x.gap + Block(x.text)))
  }

  function PrintSuffixes(xs: seq<Suffix>): string {
    if xs == [] then "" else PrintSuffix(xs[0]) + PrintSuffixes(xs[1..])
  }

  function Keyword(item: Item): string {
    match item
    case Entrypoint(kind, _, _) => "entrypoint." + kind
    case Properties(_, _) => "properties"
    case StepItem(_, _, _, _, _, _, _) => "step"
    case OnError(_, _) => "on_error"
    case ReturnItem(_, _) => "return"
  }

  function PrintRest(item: Item): string {
    match item
    case StepItem(_, name, space, options, inner, body, suffixes) =>
      name + (space + (PrintOptions(options) + (inner + (Block(body) + PrintSuffixes(suffixes)))))
    case ReturnItem(_, text) => text
    case _ => Block(item.text)
  }

  function PrintItem(item: Item): string {
    Keyword(item) + (item.gap + PrintRest(item))
  }

  function Document(items: seq<Placed>, tail: string): string {
    if items == [] then tail else items[0].lead + (PrintItem(items[0].item) + Document(items[1..], tail))
  }

  // ---------------------------------------------------------------------------
  // What can be printed
  // ---------------------------------------------------------------------------

  predicate BlockText(text: string) {
    EnclosedText(Braces, text)
  }

  predicate GapText(p: string) {
    forall k :: 0 <= k < |p| ==> InGap(White, p[k])
  }

  /** The words an item of a file begins with. */
  predicate BeginsItem(word: string) {
    "entrypoint" <= word || word == "properties" || word == "step" || word == "on_error" || word == "return"
  }

  /** From position j the text closes all it opens and no more, and no line of it that is
      outside brackets and strings begins with a top-level keyword. */
  predicate Balanced(t: string, j: nat, depth: nat, mode: Mode)
    decreases |t| - j
  {
    if j >= |t| then j == |t| && depth == 0 && mode == Code
    else
      var c := t[j];
      if mode.InString? then
        (if c == '\\' then Balanced(t, j + 2, depth, mode)
         else Balanced(t, j + 1, depth, if c == mode.quote then Code else mode))
      else if c == '"' || c == '\'' || c == '`' then Balanced(t, j + 1, depth, InString(c))
      else if c == '(' || c == '{' || c == '[' then Balanced(t, j + 1, depth + 1, Code)
      else if c == ')' || c == '}' || c == ']' then depth > 0 && Balanced(t, j + 1, depth - 1, Code)
      else if depth == 0 && c == '\n' then
        var k := Find(t, j + 1, NotWhite);
        && k < |t| && PeekKeyword(t, k) != "" && !BeginsItem(PeekKeyword(t, k))
        && Balanced(t, k, 0, Code)
      else Balanced(t, j + 1, depth, Code)
  }

  predicate ReturnText(text: string) {
    text != "" && Tight(text) && Balanced(text, 0, 0, Code)
  }

  predicate MapText(text: string) {
    BlockText(text) && ParseMap(Trim(text)).Ok?
  }

  predicate OptionsText(text: string) {
    EnclosedText(Parens, text) && OptionsIn(Trim(text)).Ok?
  }

  predicate SuffixText(x: Suffix) {
    Skippable(White, x.lead, true) && GapText(x.gap) && BlockText(x.text)
  }

  predicate WellFormed(item: Item) {
    && GapText(item.gap)
    && match item
       case Entrypoint(kind, _, text) => (forall k :: 0 <= k < |kind| ==> !NotInWord(kind[k])) && MapText(text)
       case Properties(_, text) => MapText(text)
       case StepItem(gap, name, space, options, inner, body, suffixes) =>
         && gap != "" && KeyText(name) && GapText(space) && (options.Some? ==> OptionsText(options.value))
         && GapText(inner) && BlockText(body)
         && |suffixes| <= 2 && forall k :: 0 <= k < |suffixes| ==> SuffixText(suffixes[k])
       case OnError(_, text) => BlockText(text)
       case ReturnItem(gap, text) => ReturnText(text) && (gap != "" || NotInWord(text[0]))
  }

  /** Behind a return expression the next item, or the end, stands on a line of its own, with
      no comment in between. */
  predicate Behind(item: Item, lead: string) {
    item.ReturnItem? ==> GapText(lead) && (lead != "" ==> lead[0] == '\n')
  }

  /** White space and comments stand between the items, and behind the last one. */
  predicate Spaced(items: seq<Placed>, tail: string)
    decreases |items|
  {
    if items == [] then Skippable(White, tail, false)
    else
      && Skippable(White, items[0].lead, true) && Spaced(items[1..], tail)
      && Behind(items[0].item, if |items| > 1 then items[1].lead else tail)
      && (items[0].item.ReturnItem? && |items| > 1 ==> items[1].lead != "")
  }

  predicate WellPlaced(items: seq<Placed>, tail: string) {
    Spaced(items, tail) && forall k :: 0 <= k < |items| ==> WellFormed(items[k].item)
  }

  // ---------------------------------------------------------------------------
  // What an item means
  // ---------------------------------------------------------------------------

  function WithSuffix(step: StepDecl, x: Suffix): StepDecl {
    if x.FallbackBlock? then step.(fallback := Trim(x.text)) else step.(compensate := Trim(x.text))
  }

  /** Of two suffixes of one kind the last one counts. */
  function WithSuffixes(step: StepDecl, xs: seq<Suffix>): StepDecl
    decreases |xs|
  {
    if xs == [] then step else WithSuffixes(WithSuffix(step, xs[0]), xs[1..])
  }

  function MapOf(text: string): Contents {
    if ParseMap(Trim(text)).Ok? then ParseMap(Trim(text)).value else map[]
  }

  function OptionsOf(options: Option<string>): StepOptions {
    if options.Some? && OptionsIn(Trim(options.value)).Ok? then OptionsIn(Trim(options.value)).value else NO_OPTIONS
  }

  /** Items of one kind replace each other, except steps, which are collected in order. */
  function Describe(flow: FlowDecl, item: Item): FlowDecl {
    match item
    case Entrypoint(kind, _, text) =>
      var m := MapOf(text);
      flow.(entryType := kind, config := m - {"timeout"}, timeout := IntAt(m, "timeout"))
    case Properties(_, text) => flow.(properties := ResolveCalls(MapOf(text)))
    case StepItem(_, name, _, options, _, body, suffixes) =>
      flow.(steps := flow.steps + [WithSuffixes(StepDecl(name, OptionsOf(options), Trim(body), "", ""), suffixes)])
    case OnError(_, text) => flow.(onError := Trim(text))
    case ReturnItem(_, text) => flow.(returnBody := text)
  }

  function DescribeAll(flow: FlowDecl, items: seq<Placed>): FlowDecl
    decreases |items|
  {
    if items == [] then flow else DescribeAll(Describe(flow, items[0].item), items[1..])
  }

  // ---------------------------------------------------------------------------
  // Words and blocks at a position
  // ---------------------------------------------------------------------------

  predicate IsWord(word: string) {
    word != "" && IsWordChar(word[0]) && forall k :: 0 <= k < |word| ==> !NotInWord(word[k])
  }

  /** Text that may stand behind a word and a gap. */
  predicate RestText(gap: string, rest: string) {
    GapText(gap) && rest != "" && !IsWhite(rest[0]) && (gap == "" ==> NotInWord(rest[0]))
  }

  lemma GapReads(s: string, e: nat, gap: string, rest: string)
    requires At(s, e, gap + rest) && RestText(gap, rest)
    ensures e < |s| && NotInWord(s[e]) && Find(s, e, NotWhite) == e + |gap| < |s| && At(s, e + |gap|, rest)
    ensures s[e + |gap|] == rest[0]
  {
    AtSplit(s, e, gap, rest);
    AtIndex(s, e + |gap|, rest, 0);
    if gap != "" {
      AtIndex(s, e, gap, 0);
    }
    forall m | e <= m < e + |gap| ensures !NotWhite(s[m]) {
      AtIndex(s, e, gap, m - e);
    }
    FindIs(s, e, NotWhite, e + |gap|);
  }

  lemma WordReads(s: string, i: nat, word: string, gap: string, rest: string)
    requires IsWord(word) && At(s, i, word + (gap + rest)) && RestText(gap, rest)
    ensures PeekKeyword(s, i) == word && WordAt(s, i) == (i, i + |word|) && AfterWord(s, i) == i + |word| + |gap|
    ensures i < |s| && s[i] == word[0] && At(s, i, word) && At(s, i + |word| + |gap|, rest)
  {
    var e := i + |word|;
    AtSplit(s, i, word, gap + rest);
    AtIndex(s, i, word, 0);
    AtText(s, i, word);
    GapReads(s, e, gap, rest);
    forall k | i <= k < e ensures !NotInWord(s[k]) {
      AtIndex(s, i, word, k - i);
    }
    FindIs(s, i, IsWordChar, i);
    FindIs(s, i, NotInWord, e);
    FindIs(s, i, NotWhite, i);
  }

  /** Wherever this text stands between braces, it is read as a block. */
  ghost predicate ReadsAsBlock(text: string) {
    forall s: string, i: nat {:trigger BracedBlock(s, i), At(s, i, Block(text))} ::
      At(s, i, Block(text)) ==> BracedBlock(s, i) == Ok((Trim(text), i + |text| + 2))
  }

  lemma BlocksRead(text: string)
    requires BlockText(text)
    ensures ReadsAsBlock(text)
  {
    forall s: string, i: nat | At(s, i, Block(text)) ensures BracedBlock(s, i) == Ok((Trim(text), i + |text| + 2)) {
      BlockReads(Braces, s, i, text);
    }
  }

  lemma BlockAt(s: string, i: nat, text: string)
    requires ReadsAsBlock(text) && At(s, i, Block(text))
    ensures BracedBlock(s, i) == Ok((Trim(text), i + |text| + 2))
  {
  }

  // ---------------------------------------------------------------------------
  // Between items
  // ---------------------------------------------------------------------------

  lemma WhiteSkips(s: string, i: nat)
    requires i < |s| && IsWhite(s[i])
    ensures SkipSpace(s, i) == SkipSpace(s, i + 1)
  {
    assert Find(s, i, NotWhite) == Find(s, i + 1, NotWhite);
  }

  lemma CommentSkips(s: string, i: nat)
    requires CommentAt(s, i)
    ensures SkipSpace(s, i) == SkipSpace(s, Find(s, i, IsNewline))
  {
    FindIs(s, i, NotWhite, i);
  }

  lemma StaysHere(s: string, j: nat)
    requires j <= |s| && (j < |s| ==> !IsWhite(s[j]) && !CommentAt(s, j))
    ensures SkipSpace(s, j) == j
  {
    FindIs(s, j, NotWhite, j);
  }

  lemma {:induction false} BlankSkips(s: string, i: nat, j: nat)
    requires i <= |s| && j <= |s| && Skips(White, s, i, j) && SkipSpace(s, j) == j
    ensures SkipSpace(s, i) == j
    decreases |s| - i
  {
    if i != j {
      if i < |s| && InGap(White, s[i]) && Skips(White, s, i + 1, j) {
        BlankSkips(s, i + 1, j);
        WhiteSkips(s, i);
      } else {
        BlankSkips(s, Find(s, i, IsNewline), j);
        CommentSkips(s, i);
      }
    }
  }

  /** White space and comments are skipped up to what stands behind them. */
  lemma LeadSkips(s: string, i: nat, p: string, more: bool, j: nat)
    requires At(s, i, p) && Skippable(White, p, more) && j == i + |p| && (!more ==> j == |s|)
    requires j < |s| ==> !IsWhite(s[j]) && !CommentAt(s, j)
    ensures SkipSpace(s, i) == j
  {
    SkipStands(White, s, i, p, more);
    StaysHere(s, j);
    BlankSkips(s, i, j);
  }

  /** Where the next item stands. */
  function NextStart(s: string, q: nat): (n: nat)
    requires q <= |s|
    ensures q <= n <= |s|
  {
    SkipSpace(s, q)
  }

  /** Behind white space and comments comes the end or a top-level keyword. */
  predicate NextItem(s: string, q: nat) {
    q <= |s| && var n := NextStart(s, q); n < |s| ==> IsWordChar(s[n]) && IsTopLevel(PeekKeyword(s, n))
  }

  /** At the end, or before a line break; what follows is white up to the end or up to the next
      item. */
  predicate NextLine(s: string, q: nat) {
    NextItem(s, q) && (q < |s| ==> s[q] == '\n') && NextStart(s, q) == Find(s, q, NotWhite)
  }

  lemma StaysAtItem(s: string, n: nat)
    requires n <= |s| && (n < |s| ==> IsWordChar(s[n]))
    ensures SkipSpace(s, n) == n
  {
    FindIs(s, n, NotWhite, n);
  }

  lemma NoSuffixBehind(s: string, q: nat)
    requires NextItem(s, q)
    ensures var word := PeekKeyword(s, NextStart(s, q)); word != "fallback" && word != "compensate"
  {
    if NextStart(s, q) == |s| {
      FindIs(s, |s|, IsWordChar, |s|);
    }
  }

  // ---------------------------------------------------------------------------
  // Suffixes and steps
  // ---------------------------------------------------------------------------

  /** What SuffixText promises, in the form the readers use. */
  ghost predicate SuffixReadable(x: Suffix) {
    Skippable(White, x.lead, true) && GapText(x.gap) && ReadsAsBlock(x.text)
  }

  lemma SuffixIs(s: string, i: nat, j: nat, b: nat, x: Suffix, p: nat, step: StepDecl)
    requires i <= |s| && SkipSpace(s, i) == j && PeekKeyword(s, j) == SuffixWord(x) && AfterWord(s, j) == b
    requires BracedBlock(s, b) == Ok((Trim(x.text), p))
    ensures OneSuffix(s, i, step) == Ok((Some(WithSuffix(step, x)), p))
  {
  }

  /** White space and comments, a word, a gap and what stands behind it. */
  lemma LineReads(s: string, i: nat, j: nat, lead: string, word: string, gap: string, rest: string)
    requires IsWord(word) && RestText(gap, rest) && Skippable(White, lead, true) && j == i + |lead|
    requires At(s, i, lead + (word + (gap + rest)))
    ensures i <= |s| && SkipSpace(s, i) == j < |s| && PeekKeyword(s, j) == word
    ensures AfterWord(s, j) == j + |word| + |gap| && At(s, j + |word| + |gap|, rest)
  {
    AtSplit(s, i, lead, word + (gap + rest));
    WordReads(s, j, word, gap, rest);
    LeadSkips(s, i, lead, true, j);
  }

  lemma SuffixSpelled(x: Suffix, word: string)
    requires word == SuffixWord(x)
    ensures PrintSuffix(x) == x.lead + (word + (x.gap + Block(x.text))) && IsWord(word)
  {
  }

  lemma SuffixLength(x: Suffix, i: nat, b: nat)
    requires b == i + |x.lead| + |SuffixWord(x)| + |x.gap|
    ensures i + |PrintSuffix(x)| == b + |x.text| + 2
  {
  }

  lemma BlockBehind(gap: string, text: string)
    requires GapText(gap)
    ensures RestText(gap, Block(text))
  {
  }

  /** A suffix that stands at i, with its keyword at j and its block at b. */
  lemma SuffixStands(s: string, i: nat, j: nat, b: nat, x: Suffix, word: string)
    requires Skippable(White, x.lead, true) && IsWord(word) && RestText(x.gap, Block(x.text))
    requires At(s, i, x.lead + (word + (x.gap + Block(x.text)))) && j == i + |x.lead| && b == j + |word| + |x.gap|
    ensures i <= |s| && SkipSpace(s, i) == j < |s| && PeekKeyword(s, j) == word && AfterWord(s, j) == b
    ensures At(s, b, Block(x.text))
  {
    LineReads(s, i, j, x.lead, word, x.gap, Block(x.text));
  }

  lemma SuffixStep(s: string, i: nat, m: nat, step: StepDecl, longer: StepDecl, p: nat)
    requires i <= |s| && OneSuffix(s, i, step) == Ok((Some(longer), p))
    ensures ParseSuffixes(s, i, m + 1, step) == ParseSuffixes(s, p, m, longer)
  {
  }

  /** One turn of the loop over suffixes. */
  lemma SuffixTurn(s: string, i: nat, j: nat, b: nat, p: nat, x: Suffix, m: nat, step: StepDecl)
    requires i <= |s| && SkipSpace(s, i) == j && PeekKeyword(s, j) == SuffixWord(x) && AfterWord(s, j) == b
    requires BracedBlock(s, b) == Ok((Trim(x.text), p))
    ensures ParseSuffixes(s, i, m + 1, step) == ParseSuffixes(s, p, m, WithSuffix(step, x))
  {
    SuffixIs(s, i, j, b, x, p, step);
    SuffixStep(s, i, m, step, WithSuffix(step, x), p);
  }

  lemma NoMoreSuffixes(s: string, i: nat, n: nat, step: StepDecl)
    requires NextItem(s, i)
    ensures ParseSuffixes(s, i, n, step) == Ok((step, if n == 0 then i else NextStart(s, i)))
  {
    NoSuffixBehind(s, i);
  }

  function SuffixesEnd(s: string, n: nat, xs: seq<Suffix>, q: nat): nat
    requires q <= |s|
  {
    if |xs| == n then q else NextStart(s, q)
  }

  lemma TurnThenRest(s: string, i: nat, n: nat, m: nat, p: nat, step: StepDecl, longer: StepDecl,
                     r: Outcome<(StepDecl, nat)>)
    requires i <= |s| && p <= |s| && n == m + 1
    requires ParseSuffixes(s, i, m + 1, step) == ParseSuffixes(s, p, m, longer) && ParseSuffixes(s, p, m, longer) == r
    ensures ParseSuffixes(s, i, n, step) == r
  {
  }

  lemma WithFirst(step: StepDecl, xs: seq<Suffix>)
    requires xs != []
    ensures WithSuffixes(step, xs) == WithSuffixes(WithSuffix(step, xs[0]), xs[1..])
  {
  }

  lemma {:induction false} SuffixesRead(s: string, i: nat, n: nat, xs: seq<Suffix>, step: StepDecl, q: nat, end: nat)
    requires |xs| <= n && (forall k :: 0 <= k < |xs| ==> SuffixReadable(xs[k]))
    requires At(s, i, PrintSuffixes(xs)) && q == i + |PrintSuffixes(xs)| && NextItem(s, q)
    requires end == SuffixesEnd(s, n, xs, q)
    ensures i <= |s| && ParseSuffixes(s, i, n, step) == Ok((WithSuffixes(step, xs), end))
    decreases |xs|
  {
    if xs == [] {
      NoMoreSuffixes(s, i, n, step);
    } else {
      var m: nat, longer := n - 1, WithSuffix(step, xs[0]);
      var p := i + |PrintSuffix(xs[0])|;
      SuffixesSplit(s, i, xs, p, q);
      SuffixReads(s, i, p, xs[0], m, step);
      SuffixesRead(s, p, m, xs[1..], longer, q, end);
      WithFirst(step, xs);
      TurnThenRest(s, i, n, m, p, step, longer, Ok((WithSuffixes(step, xs), end)));
    }
  }

  lemma SuffixesSplit(s: string, i: nat, xs: seq<Suffix>, p: nat, q: nat)
    requires xs != [] && At(s, i, PrintSuffixes(xs)) && p == i + |PrintSuffix(xs[0])| && q == i + |PrintSuffixes(xs)|
    ensures At(s, i, PrintSuffix(xs[0])) && At(s, p, PrintSuffixes(xs[1..])) && q == p + |PrintSuffixes(xs[1..])|
  {
    AtSplit(s, i, PrintSuffix(xs[0]), PrintSuffixes(xs[1..]));
  }

  lemma SuffixReads(s: string, i: nat, p: nat, x: Suffix, m: nat, step: StepDecl)
    requires SuffixReadable(x) && At(s, i, PrintSuffix(x)) && p == i + |PrintSuffix(x)|
    ensures i <= |s| && ParseSuffixes(s, i, m + 1, step) == ParseSuffixes(s, p, m, WithSuffix(step, x))
  {
    var word, j := SuffixWord(x), i + |x.lead|;
    var b := j + |word| + |x.gap|;
    SuffixSpelled(x, word);
    SuffixLength(x, i, b);
    SuffixReadsAt(s, i, j, b, p, x, word, m, step);
  }

  lemma SuffixReadsAt(s: string, i: nat, j: nat, b: nat, p: nat, x: Suffix, word: string, m: nat, step: StepDecl)
    requires SuffixReadable(x) && IsWord(word) && At(s, i, x.lead + (word + (x.gap + Block(x.text))))
    requires word == SuffixWord(x) && j == i + |x.lead| && b == j + |word| + |x.gap| && p == b + |x.text| + 2
    ensures i <= |s| && ParseSuffixes(s, i, m + 1, step) == ParseSuffixes(s, p, m, WithSuffix(step, x))
  {
    BlockBehind(x.gap, x.text);
    SuffixStands(s, i, j, b, x, word);
    BlockAt(s, b, x.text);
    SuffixTurn(s, i, j, b, p, x, m, step);
  }

  lemma NameReads(s: string, j: nat, k: nat, name: string, rest: string)
    requires KeyText(name) && At(s, j, name + rest) && k == j + |name| && rest != "" && !IsWordChar(rest[0])
    ensures Find(s, j, NotInName) == k && k < |s| && s[j..k] == name && At(s, k, rest)
  {
    AtSplit(s, j, name, rest);
    AtText(s, j, name);
    AtIndex(s, k, rest, 0);
    forall m | j <= m < k ensures !NotInName(s[m]) {
      AtIndex(s, j, name, m - j);
    }
    FindIs(s, j, NotInName, k);
  }

  /** White space before a text that begins with none. */
  lemma WhiteReads(s: string, p: nat, gap: string, rest: string, b: nat)
    requires At(s, p, gap + rest) && GapText(gap) && rest != "" && !IsWhite(rest[0]) && b == p + |gap|
    ensures p <= |s| && Find(s, p, NotWhite) == b < |s| && s[b] == rest[0] && At(s, b, rest)
  {
    AtSplit(s, p, gap, rest);
    AtIndex(s, b, rest, 0);
    forall m | p <= m < b ensures !NotWhite(s[m]) {
      AtIndex(s, p, gap, m - p);
    }
    FindIs(s, p, NotWhite, b);
  }

  /** The parts of a step behind its name. */
  function Tail(space: string, options: Option<string>, inner: string, rest: string): string {
    space + (PrintOptions(options) + (inner + rest))
  }

  lemma OptionsRead(s: string, k: nat, b: nat, space: string, options: Option<string>, inner: string, rest: string)
    returns (p: nat)
    requires (options.Some? ==> OptionsText(options.value)) && GapText(space) && GapText(inner)
    requires At(s, k, Tail(space, options, inner, rest)) && rest != "" && rest[0] == '{'
    requires b == k + |space| + |PrintOptions(options)| + |inner|
    ensures k <= |s| && ParseOptions(s, Find(s, k, NotWhite)) == Ok((OptionsOf(options), p))
    ensures p <= |s| && Find(s, p, NotWhite) == b && At(s, b, rest)
  {
    if options.None? {
      p := b;
      NoOptionsRead(s, k, b, space, inner, rest);
    } else {
      p := k + |space| + |options.value| + 2;
      SomeOptionsRead(s, k, k + |space|, p, b, space, options.value, inner, rest);
    }
  }

  lemma NoOptionsRead(s: string, k: nat, b: nat, space: string, inner: string, rest: string)
    requires GapText(space) && GapText(inner) && At(s, k, space + ("" + (inner + rest))) && b == k + |space| + |inner|
    requires rest != "" && rest[0] == '{'
    ensures k <= |s| && Find(s, k, NotWhite) == b && ParseOptions(s, b) == Ok((NO_OPTIONS, b))
    ensures Find(s, b, NotWhite) == b && At(s, b, rest)
  {
    assert space + ("" + (inner + rest)) == (space + inner) + rest;
    WhiteReads(s, k, space + inner, rest, b);
    FindIs(s, b, NotWhite, b);
  }

  lemma SomeOptionsRead(s: string, k: nat, o: nat, p: nat, b: nat, space: string, text: string, inner: string,
                        rest: string)
    requires OptionsText(text) && GapText(space) && GapText(inner) && rest != "" && rest[0] == '{'
    requires At(s, k, space + (Enclosed(Parens, text) + (inner + rest)))
    requires o == k + |space| && p == o + |text| + 2 && b == p + |inner|
    ensures k <= |s| && Find(s, k, NotWhite) == o && ParseOptions(s, o) == Ok((OptionsOf(Some(text)), p))
    ensures p <= |s| && Find(s, p, NotWhite) == b && At(s, b, rest)
  {
    WhiteReads(s, k, space, Enclosed(Parens, text) + (inner + rest), o);
    AtSplit(s, o, Enclosed(Parens, text), inner + rest);
    WhiteReads(s, p, inner, rest, b);
    BlockReads(Parens, s, o, text);
    OptionsAre(s, o, p, Trim(text));
  }

  lemma OptionsAre(s: string, k: nat, p: nat, body: string)
    requires k < |s| && s[k] == '(' && ParenBlock(s, k) == Ok((body, p))
    requires OptionsIn(body).Ok?
    ensures ParseOptions(s, k) == Ok((OptionsIn(body).value, p))
  {
  }

  lemma HeadIs(s: string, i: nat, j: nat, k: nat, p: nat, b: nat, e: nat, name: string, x: StepOptions,
               body: string)
    requires i <= |s| && AfterWord(s, i) == j < k <= |s| && Find(s, j, NotInName) == k && s[j..k] == name
    requires ParseOptions(s, Find(s, k, NotWhite)) == Ok((x, p)) && Find(s, p, NotWhite) == b
    requires BracedBlock(s, b) == Ok((body, e))
    ensures ParseStepHead(s, i) == Ok((StepDecl(name, x, body, "", ""), e))
  {
  }

  lemma StepIs(s: string, i: nat, e: nat, end: nat, head: StepDecl, step: StepDecl, flow: FlowDecl)
    requires i <= |s| && ParseStepHead(s, i) == Ok((head, e)) && ParseSuffixes(s, e, 2, head) == Ok((step, end))
    ensures ParseStep(s, i, flow) == Ok((flow.(steps := flow.steps + [step]), end))
  {
  }

  // ---------------------------------------------------------------------------
  // Return expressions
  // ---------------------------------------------------------------------------

  lemma WordStartsInside(s: string, i: nat, t: string, k: nat)
    requires At(s, i, t) && k <= |t| && Find(t, k, IsWordChar) < |t|
    ensures Find(s, i + k, IsWordChar) == i + Find(t, k, IsWordChar)
  {
    var a := Find(t, k, IsWordChar);
    forall m | i + k <= m < i + a ensures !IsWordChar(s[m]) {
      AtIndex(s, i, t, m - i);
    }
    AtIndex(s, i, t, a);
    FindIs(s, i + k, IsWordChar, i + a);
  }

  lemma WordEndsInside(s: string, i: nat, t: string, a: nat)
    requires At(s, i, t) && a <= |t| && (i + |t| < |s| ==> NotInWord(s[i + |t|]))
    ensures Find(s, i + a, NotInWord) == i + Find(t, a, NotInWord)
  {
    var b := Find(t, a, NotInWord);
    forall m | i + a <= m < i + b ensures !NotInWord(s[m]) {
      AtIndex(s, i, t, m - i);
    }
    if b < |t| {
      AtIndex(s, i, t, b);
    }
    FindIs(s, i + a, NotInWord, i + b);
  }

  /** A word found inside the text is the word found at its place in the file. */
  lemma WordInside(s: string, i: nat, t: string, k: nat, c: nat)
    requires At(s, i, t) && k <= |t| && PeekKeyword(t, k) != "" && c == i + k
    requires i + |t| < |s| ==> NotInWord(s[i + |t|])
    ensures PeekKeyword(s, c) == PeekKeyword(t, k)
  {
    var a := Find(t, k, IsWordChar);
    WordStartsInside(s, i, t, k);
    WordEndsInside(s, i, t, a);
    SliceInside(s, i, t, a, Find(t, a, NotInWord));
  }

  lemma SkipInside(s: string, i: nat, t: string, j: nat, a: nat, k: nat)
    requires At(s, i, t) && j <= |t| && k == Find(t, j, NotWhite) < |t| && a == i + j
    ensures Find(s, a, NotWhite) == i + k
  {
    forall m | a <= m < i + k ensures !NotWhite(s[m]) {
      AtIndex(s, i, t, m - i);
    }
    AtIndex(s, i, t, k);
    FindIs(s, a, NotWhite, i + k);
  }

  /** A return expression ends before the next item, or at the end of the file. */
  function ReturnStop(s: string, q: nat): (end: nat)
    requires q <= |s|
    ensures q <= end <= |s|
  {
    if NextStart(s, q) == |s| then |s| else q
  }

  lemma ReturnStops(s: string, q: nat)
    requires NextLine(s, q)
    ensures ReturnEnd(s, q, 0, Code) == ReturnStop(s, q)
  {
    if q < |s| {
      var n := NextStart(s, q);
      FindIs(s, q + 1, NotWhite, n);
    }
  }

  /** A line break outside brackets, before a line that begins with no keyword. */
  lemma ReturnGoesOn(s: string, i: nat, t: string, j: nat, k: nat, a: nat, b: nat)
    requires At(s, i, t) && j < |t| && t[j] == '\n' && k == Find(t, j + 1, NotWhite) < |t|
    requires PeekKeyword(t, k) != "" && !IsTopLevel(PeekKeyword(t, k))
    requires i + |t| < |s| ==> NotInWord(s[i + |t|])
    requires a == i + j && b == i + k
    ensures b <= |s| && ReturnEnd(s, a, 0, Code) == ReturnEnd(s, b, 0, Code)
  {
    BreakInside(s, i, t, j, k, a, b);
    WordInside(s, i, t, k, b);
    ReturnSkips(s, a, b);
  }

  lemma BreakInside(s: string, i: nat, t: string, j: nat, k: nat, a: nat, b: nat)
    requires At(s, i, t) && j < |t| && t[j] == '\n' && k == Find(t, j + 1, NotWhite) < |t|
    requires a == i + j && b == i + k
    ensures a < |s| && s[a] == '\n' && Find(s, a + 1, NotWhite) == b < |s|
  {
    AtIndex(s, i, t, j);
    SkipInside(s, i, t, j + 1, a + 1, k);
  }

  lemma ReturnSkips(s: string, a: nat, b: nat)
    requires a < |s| && s[a] == '\n' && Find(s, a + 1, NotWhite) == b < |s| && !IsTopLevel(PeekKeyword(s, b))
    ensures ReturnEnd(s, a, 0, Code) == ReturnEnd(s, b, 0, Code)
  {
  }

  /** The scan of a return expression that stands at i, from position a of the file on. */
  lemma {:induction false} ReturnReads(s: string, i: nat, t: string, j: nat, a: nat, depth: nat, mode: Mode, q: nat)
    requires At(s, i, t) && q == i + |t| && NextLine(s, q) && j <= |t| && a == i + j && Balanced(t, j, depth, mode)
    ensures ReturnEnd(s, a, depth, mode) == ReturnStop(s, q)
    decreases |t| - j, 1
  {
    if j == |t| {
      ReturnStops(s, q);
    } else if mode.Code? && depth == 0 && t[j] == '\n' {
      ReturnLineReads(s, i, t, j, a, q);
    } else {
      AtIndex(s, i, t, j);
      var c := t[j];
      if mode.InString? && c == '\\' {
        ReturnReads(s, i, t, j + 2, a + 2, depth, mode, q);
      } else if mode.InString? {
        ReturnReads(s, i, t, j + 1, a + 1, depth, if c == mode.quote then Code else mode, q);
      } else {
        ReturnCharReads(s, i, t, j, a, depth, q);
      }
    }
  }

  lemma {:induction false} ReturnLineReads(s: string, i: nat, t: string, j: nat, a: nat, q: nat)
    requires At(s, i, t) && q == i + |t| && NextLine(s, q) && j < |t| && a == i + j && Balanced(t, j, 0, Code)
    requires t[j] == '\n'
    ensures ReturnEnd(s, a, 0, Code) == ReturnStop(s, q)
    decreases |t| - j, 0
  {
    var k := Find(t, j + 1, NotWhite);
    var b := i + k;
    ReturnGoesOn(s, i, t, j, k, a, b);
    ReturnReads(s, i, t, k, b, 0, Code, q);
  }

  lemma {:induction false} ReturnCharReads(s: string, i: nat, t: string, j: nat, a: nat, depth: nat, q: nat)
    requires At(s, i, t) && q == i + |t| && NextLine(s, q) && j < |t| && a == i + j && Balanced(t, j, depth, Code)
    requires depth > 0 || t[j] != '\n'
    ensures ReturnEnd(s, a, depth, Code) == ReturnStop(s, q)
    decreases |t| - j, 0
  {
    AtIndex(s, i, t, j);
    var c := t[j];
    var depth' := if IsAnyQuote(c) then depth else if IsOpening(c) then depth + 1
                  else if IsClosing(c) then depth - 1 else depth;
    var mode' := if IsAnyQuote(c) then InString(c) else Code;
    ReturnReads(s, i, t, j + 1, a + 1, depth', mode', q);
    ReturnChar(s, a, depth, depth', mode');
  }

  /** One character outside strings that is no end and no line break between expressions. */
  lemma ReturnChar(s: string, a: nat, depth: nat, depth': nat, mode': Mode)
    requires a < |s| && (depth > 0 || (s[a] != '\n' && !IsClosing(s[a])))
    requires mode' == if IsAnyQuote(s[a]) then InString(s[a]) else Code
    requires depth' == if IsAnyQuote(s[a]) then depth else if IsOpening(s[a]) then depth + 1
                       else if IsClosing(s[a]) then depth - 1 else depth
    ensures ReturnEnd(s, a, depth, Code) == ReturnEnd(s, a + 1, depth', mode')
  {
  }

  lemma ReturnIs(s: string, i: nat, b: nat, end: nat, text: string, flow: FlowDecl)
    requires i <= |s| && AfterWord(s, i) == b <= end <= |s| && Trim(s[b..end]) == text
    requires ReturnEnd(s, b, 0, Code) == end
    ensures ParseReturn(s, i, flow) == Ok((flow.(returnBody := text), end))
  {
  }

  /** The white space behind the expression is trimmed away. */
  lemma ReturnTrims(s: string, b: nat, q: nat, text: string)
    requires At(s, b, text) && q == b + |text| && Tight(text) && NextLine(s, q)
    ensures Trim(s[b..ReturnStop(s, q)]) == text
  {
    var end := ReturnStop(s, q);
    var pad := s[q..end];
    AtText(s, b, text);
    assert s[b..end] == "" + text + pad;
    forall k | 0 <= k < |pad| ensures IsSpace(pad[k]) {
      assert !NotWhite(s[q + k]);
    }
    TrimPadded("", text, pad);
  }

  // ---------------------------------------------------------------------------
  // Items
  // ---------------------------------------------------------------------------

  lemma KeywordIsWord(item: Item)
    requires item.Entrypoint? ==> forall k :: 0 <= k < |item.kind| ==> !NotInWord(item.kind[k])
    ensures IsWord(Keyword(item)) && IsTopLevel(Keyword(item))
  {
    var e := "entrypoint.";
    if item.Entrypoint? {
      assert Keyword(item)[..10] == "entrypoint";
      forall k | 0 <= k < |Keyword(item)| ensures !NotInWord(Keyword(item)[k]) {
        if k < |e| {
          assert Keyword(item)[k] == e[k];
        }
      }
    }
  }

  /** What WellFormed promises, in the form the readers use. */
  ghost predicate Readable(item: Item) {
    && GapText(item.gap)
    && match item
       case Entrypoint(kind, _, text) =>
         ReadsAsBlock(text) && ParseMap(Trim(text)).Ok? && forall k :: 0 <= k < |kind| ==> !NotInWord(kind[k])
       case Properties(_, text) => ReadsAsBlock(text) && ParseMap(Trim(text)).Ok?
       case StepItem(gap, name, space, options, inner, body, suffixes) =>
         && gap != "" && KeyText(name) && GapText(space) && (options.Some? ==> OptionsText(options.value))
         && GapText(inner) && ReadsAsBlock(body)
         && |suffixes| <= 2 && forall k :: 0 <= k < |suffixes| ==> SuffixReadable(suffixes[k])
       case OnError(_, text) => ReadsAsBlock(text)
       case ReturnItem(gap, text) => ReturnText(text) && (gap != "" || NotInWord(text[0]))
  }

  lemma WellFormedIsReadable(item: Item)
    requires WellFormed(item)
    ensures Readable(item)
  {
    match item
    case Entrypoint(_, _, text) => BlocksRead(text);
    case Properties(_, text) => BlocksRead(text);
    case OnError(_, text) => BlocksRead(text);
    case StepItem(_, _, _, _, _, body, suffixes) =>
      BlocksRead(body);
      forall k | 0 <= k < |suffixes| ensures SuffixReadable(suffixes[k]) {
        BlocksRead(suffixes[k].text);
      }
    case ReturnItem(_, _) =>
  }

  lemma RestBegins(item: Item)
    requires Readable(item)
    ensures RestText(item.gap, PrintRest(item))
  {
    if item.StepItem? {
      var rest := Block(item.body) + PrintSuffixes(item.suffixes);
      ConcatEnds(item.name, Tail(item.space, item.options, item.inner, rest));
      assert IsWordChar(item.name[0]);
    }
  }

  /** Up to the end of an item, or up to the next one. */
  predicate Ends(s: string, q: nat, end: nat)
    requires q <= |s|
  {
    end == q || end == NextStart(s, q)
  }

  lemma ReturnItemReads(s: string, i: nat, b: nat, item: Item, q: nat, flow: FlowDecl)
    requires item.ReturnItem? && ReturnText(item.text)
    requires i <= |s| && AfterWord(s, i) == b && At(s, b, item.text) && q == b + |item.text| && NextLine(s, q)
    ensures ParseReturn(s, i, flow) == Ok((Describe(flow, item), ReturnStop(s, q)))
  {
    ReturnReads(s, b, item.text, 0, b, 0, Code, q);
    ReturnTrims(s, b, q, item.text);
    ReturnIs(s, i, b, ReturnStop(s, q), item.text, flow);
  }

  lemma TailBegins(space: string, options: Option<string>, inner: string, rest: string)
    requires GapText(space) && GapText(inner) && rest != "" && rest[0] == '{'
    ensures Tail(space, options, inner, rest) != "" && !IsWordChar(Tail(space, options, inner, rest)[0])
  {
    ConcatEnds(inner, rest);
    ConcatEnds(PrintOptions(options), inner + rest);
    ConcatEnds(space, PrintOptions(options) + (inner + rest));
    assert inner == "" ==> inner + rest == rest;
    assert PrintOptions(options) == "" ==> PrintOptions(options) + (inner + rest) == inner + rest;
    assert space == "" ==> Tail(space, options, inner, rest) == PrintOptions(options) + (inner + rest);
  }

  lemma StepHeadReads(s: string, i: nat, j: nat, k: nat, b: nat, e: nat, item: Item, rest: string)
    requires item.StepItem? && Readable(item) && i <= |s| && AfterWord(s, i) == j && k == j + |item.name|
    requires At(s, j, item.name + Tail(item.space, item.options, item.inner, Block(item.body) + rest))
    requires b == k + |item.space| + |PrintOptions(item.options)| + |item.inner| && e == b + |item.body| + 2
    ensures ParseStepHead(s, i) == Ok((StepDecl(item.name, OptionsOf(item.options), Trim(item.body), "", ""), e))
    ensures At(s, e, rest)
  {
    TailBegins(item.space, item.options, item.inner, Block(item.body) + rest);
    NameReads(s, j, k, item.name, Tail(item.space, item.options, item.inner, Block(item.body) + rest));
    var p := OptionsRead(s, k, b, item.space, item.options, item.inner, Block(item.body) + rest);
    PrimaryReads(s, b, e, item.body, rest);
    HeadIs(s, i, j, k, p, b, e, item.name, OptionsOf(item.options), Trim(item.body));
  }

  lemma PrimaryReads(s: string, b: nat, e: nat, body: string, rest: string)
    requires ReadsAsBlock(body) && At(s, b, Block(body) + rest) && e == b + |body| + 2
    ensures BracedBlock(s, b) == Ok((Trim(body), e)) && At(s, e, rest)
  {
    AtSplit(s, b, Block(body), rest);
    assert e == b + |Block(body)|;
    BlockAt(s, b, body);
  }

  lemma StepLength(item: Item, j: nat, e: nat)
    requires item.StepItem?
    requires e == j + |item.name| + |item.space| + |PrintOptions(item.options)| + |item.inner| + |item.body| + 2
    ensures e + |PrintSuffixes(item.suffixes)| == j + |PrintRest(item)|
  {
  }

  lemma StepItemReads(s: string, i: nat, j: nat, item: Item, q: nat, flow: FlowDecl) returns (end: nat)
    requires item.StepItem? && Readable(item) && i <= |s| && AfterWord(s, i) == j && At(s, j, PrintRest(item))
    requires q == j + |PrintRest(item)| && NextItem(s, q)
    ensures Ends(s, q, end) && ParseStep(s, i, flow) == Ok((Describe(flow, item), end))
  {
    var k := j + |item.name|;
    var b := k + |item.space| + |PrintOptions(item.options)| + |item.inner|;
    var e := b + |item.body| + 2;
    StepHeadReads(s, i, j, k, b, e, item, PrintSuffixes(item.suffixes));
    StepLength(item, j, e);
    var head := StepDecl(item.name, OptionsOf(item.options), Trim(item.body), "", "");
    end := SuffixesEnd(s, 2, item.suffixes, q);
    SuffixesRead(s, e, 2, item.suffixes, head, q, end);
    StepIs(s, i, e, end, head, WithSuffixes(head, item.suffixes), flow);
  }

  /** The word of an entrypoint, told by its first dot. */
  predicate EntryWordIs(word: string, kind: string) {
    Find(word, 0, IsDot) == 10 < |word| && word[11..] == kind
  }

  lemma EntryWord(word: string, kind: string)
    requires word == "entrypoint." + kind
    ensures EntryWordIs(word, kind)
  {
    var dotted := "entrypoint.";
    assert forall k :: 0 <= k < |dotted| ==> word[k] == dotted[k];
    FindIs(word, 0, IsDot, 10);
  }

  lemma EntryIs(s: string, b: nat, q: nat, word: string, item: Item, flow: FlowDecl)
    requires item.Entrypoint? && EntryWordIs(word, item.kind)
    requires BracedBlock(s, b) == Ok((Trim(item.text), q)) && ParseMap(Trim(item.text)).Ok?
    ensures EntrypointAt(s, word, b, flow) == Ok((Describe(flow, item), q))
  {
  }

  lemma PropertiesAre(s: string, i: nat, b: nat, q: nat, item: Item, flow: FlowDecl)
    requires item.Properties? && i <= |s| && AfterWord(s, i) == b
    requires BracedBlock(s, b) == Ok((Trim(item.text), q)) && ParseMap(Trim(item.text)).Ok?
    ensures ParseProperties(s, i, flow) == Ok((Describe(flow, item), q))
  {
  }

  lemma OnErrorIs(s: string, i: nat, b: nat, q: nat, item: Item, flow: FlowDecl)
    requires item.OnError? && i <= |s| && AfterWord(s, i) == b && BracedBlock(s, b) == Ok((Trim(item.text), q))
    ensures ParseOnError(s, i, flow) == Ok((Describe(flow, item), q))
  {
  }

  /** What the keyword makes the parser read. */
  function Reader(s: string, i: nat, item: Item, flow: FlowDecl): Outcome<(FlowDecl, nat)>
    requires i <= |s|
  {
    match item
    case Entrypoint(_, _, _) => ParseEntrypoint(s, i, flow)
    case Properties(_, _) => ParseProperties(s, i, flow)
    case StepItem(_, _, _, _, _, _, _) => ParseStep(s, i, flow)
    case OnError(_, _) => ParseOnError(s, i, flow)
    case ReturnItem(_, _) => ParseReturn(s, i, flow)
  }

  lemma Dispatches(s: string, i: nat, item: Item, flow: FlowDecl)
    requires i < |s| && PeekKeyword(s, i) == Keyword(item)
    ensures ParseItem(s, i, flow) == Reader(s, i, item, flow)
  {
    var word := Keyword(item);
    if item.Entrypoint? {
      assert word[..10] == "entrypoint";
    } else {
      assert word[0] != 'e';
    }
  }

  /** A word, a gap and some text behind it. */
  predicate Stands(s: string, i: nat, word: string, b: nat, rest: string) {
    && i < |s| && PeekKeyword(s, i) == word && WordAt(s, i) == (i, i + |word|)
    && At(s, i, word) && AfterWord(s, i) == b && At(s, b, rest)
  }

  lemma EntryAt(s: string, i: nat, b: nat, word: string, flow: FlowDecl)
    requires i < |s| && At(s, i, word) && WordAt(s, i) == (i, i + |word|) && AfterWord(s, i) == b
    ensures ParseEntrypoint(s, i, flow) == EntrypointAt(s, word, b, flow)
  {
    AtText(s, i, word);
  }

  lemma EntryReads(s: string, i: nat, b: nat, q: nat, word: string, item: Item, text: string, flow: FlowDecl)
    requires item.Entrypoint? && text == item.text && ReadsAsBlock(text) && ParseMap(Trim(text)).Ok?
    requires Stands(s, i, word, b, Block(text)) && EntryWordIs(word, item.kind) && q == b + |text| + 2
    ensures ParseEntrypoint(s, i, flow) == Ok((Describe(flow, item), q))
  {
    BlockAt(s, b, text);
    EntryAt(s, i, b, word, flow);
    EntryIs(s, b, q, word, item, flow);
  }

  lemma PropertiesRead(s: string, i: nat, b: nat, q: nat, item: Item, text: string, flow: FlowDecl)
    requires item.Properties? && text == item.text && ReadsAsBlock(text) && At(s, b, Block(text)) && q == b + |text| + 2
    requires i <= |s| && AfterWord(s, i) == b && ParseMap(Trim(text)).Ok?
    ensures ParseProperties(s, i, flow) == Ok((Describe(flow, item), q))
  {
    BlockAt(s, b, text);
    PropertiesAre(s, i, b, q, item, flow);
  }

  lemma OnErrorReads(s: string, i: nat, b: nat, q: nat, item: Item, flow: FlowDecl)
    requires item.OnError? && ReadsAsBlock(item.text)
    requires i <= |s| && AfterWord(s, i) == b && At(s, b, Block(item.text)) && q == b + |item.text| + 2
    ensures ParseOnError(s, i, flow) == Ok((Describe(flow, item), q))
  {
    BlockAt(s, b, item.text);
    OnErrorIs(s, i, b, q, item, flow);
  }

  /** What stands behind an item, for its reader. */
  predicate Followed(item: Item, s: string, q: nat) {
    if item.ReturnItem? then NextLine(s, q) else NextItem(s, q)
  }

  /** The reader the keyword chooses reads the whole item. */
  lemma ReaderReads(s: string, i: nat, word: string, item: Item, b: nat, q: nat, flow: FlowDecl) returns (end: nat)
    requires Readable(item) && (item.Entrypoint? ==> EntryWordIs(word, item.kind))
    requires Stands(s, i, word, b, PrintRest(item)) && q == b + |PrintRest(item)| && Followed(item, s, q)
    ensures Ends(s, q, end) && Reader(s, i, item, flow) == Ok((Describe(flow, item), end))
  {
    end := q;
    if item.StepItem? {
      end := StepItemReads(s, i, b, item, q, flow);
    } else if item.ReturnItem? {
      end := ReturnStop(s, q);
      ReturnItemReads(s, i, b, item, q, flow);
    } else {
      BlockItemReads(s, i, word, item, b, q, flow);
    }
  }

  lemma BlockItemReads(s: string, i: nat, word: string, item: Item, b: nat, q: nat, flow: FlowDecl)
    requires item.Entrypoint? || item.Properties? || item.OnError?
    requires Readable(item) && (item.Entrypoint? ==> EntryWordIs(word, item.kind))
    requires Stands(s, i, word, b, PrintRest(item)) && q == b + |PrintRest(item)|
    ensures Reader(s, i, item, flow) == Ok((Describe(flow, item), q))
  {
    assert PrintRest(item) == Block(item.text);
    if item.Entrypoint? {
      EntryReads(s, i, b, q, word, item, item.text, flow);
    } else if item.Properties? {
      PropertiesRead(s, i, b, q, item, item.text, flow);
    } else {
      OnErrorReads(s, i, b, q, item, flow);
    }
  }

  lemma EntryKeyword(item: Item)
    ensures item.Entrypoint? ==> EntryWordIs(Keyword(item), item.kind)
  {
    if item.Entrypoint? {
      EntryWord(Keyword(item), item.kind);
    }
  }

  lemma WordStands(s: string, i: nat, word: string, gap: string, rest: string, b: nat)
    requires IsWord(word) && RestText(gap, rest) && At(s, i, word + (gap + rest)) && b == i + |word| + |gap|
    ensures Stands(s, i, word, b, rest) && IsWordChar(s[i])
  {
    WordReads(s, i, word, gap, rest);
  }

  lemma ItemSpelled(item: Item, word: string, rest: string)
    requires word == Keyword(item) && rest == PrintRest(item)
    ensures PrintItem(item) == word + (item.gap + rest)
  {
  }

  /** An item stands with its keyword in front. */
  lemma ItemStands(s: string, i: nat, item: Item, b: nat)
    requires Readable(item) && At(s, i, PrintItem(item)) && b == i + |Keyword(item)| + |item.gap|
    ensures Stands(s, i, Keyword(item), b, PrintRest(item))
    ensures IsWordChar(s[i]) && IsTopLevel(PeekKeyword(s, i))
  {
    KeywordIsWord(item);
    RestBegins(item);
    ItemSpelled(item, Keyword(item), PrintRest(item));
    WordStands(s, i, Keyword(item), item.gap, PrintRest(item), b);
  }

  lemma ItemLength(item: Item, i: nat, b: nat)
    requires b == i + |Keyword(item)| + |item.gap|
    ensures i + |PrintItem(item)| == b + |PrintRest(item)|
  {
  }

  lemma ItemReads(s: string, i: nat, item: Item, q: nat, flow: FlowDecl) returns (end: nat)
    requires Readable(item) && At(s, i, PrintItem(item)) && q == i + |PrintItem(item)| && Followed(item, s, q)
    ensures i < |s| && ParseItem(s, i, flow) == Ok((Describe(flow, item), end)) && Ends(s, q, end)
  {
    var b := i + |Keyword(item)| + |item.gap|;
    ItemStands(s, i, item, b);
    ItemLength(item, i, b);
    EntryKeyword(item);
    end := ReaderReads(s, i, Keyword(item), item, b, q, flow);
    Dispatches(s, i, item, flow);
  }

  // ---------------------------------------------------------------------------
  // Documents
  // ---------------------------------------------------------------------------

  lemma ItemsStep(s: string, i: nat, end: nat, j: nat, flow: FlowDecl, flow': FlowDecl)
    requires i < |s| && ParseItem(s, i, flow) == Ok((flow', end)) && SkipSpace(s, end) == j && j != i
    ensures ParseItems(s, i, flow) == ParseItems(s, j, flow')
  {
  }

  /** The text leads to the next item or to the end of the file. */
  ghost predicate Leads(p: string) {
    forall s: string, q: nat {:trigger NextItem(s, q), At(s, q, p)} :: At(s, q, p) && q + |p| == |s| ==> NextItem(s, q)
  }

  /** And does so on a line of its own. */
  ghost predicate LeadsLine(p: string) {
    forall s: string, q: nat {:trigger NextLine(s, q), At(s, q, p)} :: At(s, q, p) && q + |p| == |s| ==> NextLine(s, q)
  }

  /** What has to stand behind an item. */
  ghost predicate Follows(item: Item, rest: string) {
    if item.ReturnItem? then LeadsLine(rest) else Leads(rest)
  }

  /** The text, up to the end of the file, is read as these items. */
  ghost predicate ReadsAsItems(p: string, items: seq<Placed>) {
    forall s: string, q: nat, flow: FlowDecl {:trigger ParseItems(s, NextStart(s, q), flow), At(s, q, p)} ::
      At(s, q, p) && q + |p| == |s| ==> ParseItems(s, NextStart(s, q), flow) == Ok(DescribeAll(flow, items))
  }

  /** The text begins with a top-level keyword, wherever it stands. */
  ghost predicate Begins(p: string) {
    forall s: string, i: nat {:trigger PeekKeyword(s, i), At(s, i, p)} ::
      At(s, i, p) ==> i < |s| && IsWordChar(s[i]) && IsTopLevel(PeekKeyword(s, i))
  }

  lemma ItemBegins(item: Item)
    requires Readable(item)
    ensures Begins(PrintItem(item))
  {
    forall s: string, i: nat | At(s, i, PrintItem(item))
      ensures i < |s| && IsWordChar(s[i]) && IsTopLevel(PeekKeyword(s, i))
    {
      ItemStands(s, i, item, i + |Keyword(item)| + |item.gap|);
    }
  }

  lemma TailLeads(tail: string)
    requires Skippable(White, tail, false)
    ensures Leads(tail) && ReadsAsItems(tail, [])
  {
    forall s: string, q: nat | At(s, q, tail) && q + |tail| == |s| ensures NextItem(s, q) && NextStart(s, q) == |s| {
      LeadSkips(s, q, tail, false, |s|);
    }
    forall s: string, q: nat, flow: FlowDecl | At(s, q, tail) && q + |tail| == |s|
      ensures ParseItems(s, NextStart(s, q), flow) == Ok(flow)
    {
      LeadSkips(s, q, tail, false, |s|);
    }
  }

  lemma StandsBehind(s: string, q: nat, n: nat, lead: string, p: string, rest: string)
    requires Skippable(White, lead, true) && Begins(p) && At(s, q, lead + (p + rest)) && n == q + |lead|
    ensures At(s, q, lead) && At(s, n, p) && At(s, n + |p|, rest) && q <= |s| && NextStart(s, q) == n < |s|
    ensures IsWordChar(s[n]) && IsTopLevel(PeekKeyword(s, n))
  {
    AtSplit(s, q, lead, p + rest);
    AtSplit(s, n, p, rest);
    assert IsWordChar(s[n]) && IsTopLevel(PeekKeyword(s, n));
    LeadSkips(s, q, lead, true, n);
  }

  lemma LeadLeads(lead: string, p: string, rest: string)
    requires Skippable(White, lead, true) && Begins(p)
    ensures Leads(lead + (p + rest))
  {
    var whole := lead + (p + rest);
    forall s: string, q: nat | At(s, q, whole) && q + |whole| == |s| ensures NextItem(s, q) {
      StandsBehind(s, q, q + |lead|, lead, p, rest);
    }
  }

  lemma WhiteIsFound(s: string, q: nat, p: string, n: nat)
    requires At(s, q, p) && GapText(p) && n == q + |p| && (n < |s| ==> NotWhite(s[n]))
    ensures Find(s, q, NotWhite) == n
  {
    forall m | q <= m < n ensures !NotWhite(s[m]) {
      AtIndex(s, q, p, m - q);
    }
    FindIs(s, q, NotWhite, n);
  }

  /** White space that begins with a line break. */
  predicate LineGap(lead: string) {
    GapText(lead) && lead != "" && lead[0] == '\n'
  }

  lemma LeadLeadsLine(lead: string, p: string, rest: string)
    requires Skippable(White, lead, true) && LineGap(lead) && Begins(p)
    ensures LeadsLine(lead + (p + rest))
  {
    var whole := lead + (p + rest);
    forall s: string, q: nat | At(s, q, whole) && q + |whole| == |s| ensures NextLine(s, q) {
      StandsBehind(s, q, q + |lead|, lead, p, rest);
      AtIndex(s, q, lead, 0);
      WhiteIsFound(s, q, lead, q + |lead|);
    }
  }

  lemma TailLeadsLine(tail: string)
    requires Skippable(White, tail, false) && (tail == "" || LineGap(tail))
    ensures LeadsLine(tail)
  {
    forall s: string, q: nat | At(s, q, tail) && q + |tail| == |s| ensures NextLine(s, q) {
      LeadSkips(s, q, tail, false, |s|);
      if tail != "" {
        AtIndex(s, q, tail, 0);
      }
      WhiteIsFound(s, q, tail, |s|);
    }
  }

  /** The first item, up to where the next one begins. */
  lemma OneItemReads(s: string, i: nat, item: Item, q: nat, j: nat, flow: FlowDecl)
    requires Readable(item) && At(s, i, PrintItem(item)) && q == i + |PrintItem(item)|
    requires Followed(item, s, q) && j == NextStart(s, q) && j > i
    ensures i <= |s| && ParseItems(s, i, flow) == ParseItems(s, j, Describe(flow, item))
  {
    var end := ItemReads(s, i, item, q, flow);
    StaysAtItem(s, j);
    ItemsStep(s, i, end, j, flow, Describe(flow, item));
  }

  lemma ItemIsLong(item: Item)
    ensures PrintItem(item) != ""
  {
  }

  lemma FollowsAt(item: Item, rest: string, s: string, e: nat)
    requires Follows(item, rest) && At(s, e, rest) && e + |rest| == |s|
    ensures Followed(item, s, e)
  {
  }

  lemma RestReads(rest: string, items: seq<Placed>, s: string, e: nat, flow: FlowDecl)
    requires ReadsAsItems(rest, items) && At(s, e, rest) && e + |rest| == |s|
    ensures ParseItems(s, NextStart(s, e), flow) == Ok(DescribeAll(flow, items))
  {
  }

  lemma ItemThenRest(s: string, q: nat, n: nat, e: nat, lead: string, item: Item, p: string, rest: string,
                     items: seq<Placed>, flow: FlowDecl)
    requires Skippable(White, lead, true) && Readable(item) && p == PrintItem(item) && Begins(p) && p != ""
    requires Follows(item, rest) && ReadsAsItems(rest, items)
    requires At(s, q, lead + (p + rest)) && n == q + |lead| && e == n + |p| && e + |rest| == |s|
    ensures q <= |s| && ParseItems(s, NextStart(s, q), flow) == Ok(DescribeAll(Describe(flow, item), items))
  {
    StandsBehind(s, q, n, lead, p, rest);
    FollowsAt(item, rest, s, e);
    OneItemReads(s, n, item, e, NextStart(s, e), flow);
    RestReads(rest, items, s, e, Describe(flow, item));
  }

  lemma ItemsRead(lead: string, item: Item, p: string, rest: string, items: seq<Placed>)
    requires Skippable(White, lead, true) && Readable(item) && p == PrintItem(item) && Begins(p) && p != ""
    requires Follows(item, rest) && ReadsAsItems(rest, items)
    ensures ReadsAsItems(lead + (p + rest), [Placed(lead, item)] + items)
  {
    var whole := lead + (p + rest);
    assert ([Placed(lead, item)] + items)[1..] == items;
    forall s: string, q: nat, flow: FlowDecl | At(s, q, whole) && q + |whole| == |s|
      ensures ParseItems(s, NextStart(s, q), flow) == Ok(DescribeAll(flow, [Placed(lead, item)] + items))
    {
      ItemThenRest(s, q, q + |lead|, q + |lead| + |p|, lead, item, p, rest, items, flow);
    }
  }

  /** What stands behind an item leads to the next one, on a line of its own if need be. */
  lemma RestFollows(item: Item, items: seq<Placed>, tail: string)
    requires WellPlaced(items, tail) && Behind(item, if items != [] then items[0].lead else tail)
    requires item.ReturnItem? && items != [] ==> items[0].lead != ""
    ensures Follows(item, Document(items, tail))
  {
    if items == [] {
      TailLeads(tail);
      if item.ReturnItem? {
        TailLeadsLine(tail);
      }
    } else {
      var p, rest := PrintItem(items[0].item), Document(items[1..], tail);
      WellFormedIsReadable(items[0].item);
      ItemBegins(items[0].item);
      if item.ReturnItem? {
        LeadLeadsLine(items[0].lead, p, rest);
      } else {
        LeadLeads(items[0].lead, p, rest);
      }
    }
  }

  lemma {:induction false} AllAreRead(items: seq<Placed>, tail: string)
    requires WellPlaced(items, tail)
    ensures ReadsAsItems(Document(items, tail), items)
    decreases |items|
  {
    if items == [] {
      TailLeads(tail);
    } else {
      FirstIsReadable(items, tail);
      AllAreRead(items[1..], tail);
      FirstThenRest(items, tail);
    }
  }

  lemma FirstThenRest(items: seq<Placed>, tail: string)
    requires items != [] && Skippable(White, items[0].lead, true) && Readable(items[0].item)
    requires Begins(PrintItem(items[0].item)) && PrintItem(items[0].item) != ""
    requires Follows(items[0].item, Document(items[1..], tail)) && ReadsAsItems(Document(items[1..], tail), items[1..])
    ensures ReadsAsItems(Document(items, tail), items)
  {
    var first, rest := items[0], items[1..];
    ItemsRead(first.lead, first.item, PrintItem(first.item), Document(rest, tail), rest);
    assert [first] + rest == items;
  }

  lemma FirstIsReadable(items: seq<Placed>, tail: string)
    requires items != [] && WellPlaced(items, tail)
    ensures var item, p := items[0].item, PrintItem(items[0].item);
            && Skippable(White, items[0].lead, true) && Readable(item) && Begins(p) && p != ""
            && Follows(item, Document(items[1..], tail)) && WellPlaced(items[1..], tail)
  {
    WellFormedIsReadable(items[0].item);
    ItemBegins(items[0].item);
    ItemIsLong(items[0].item);
    RestFollows(items[0].item, items[1..], tail);
  }

  /** Every document of well-formed items, with whatever white space and comments between them,
      is read as the flow its items describe, one after another, in whatever order they stand. */
  lemma TextsAreRead(items: seq<Placed>, tail: string)
    requires WellPlaced(items, tail)
    ensures ParseFlow(Document(items, tail)) == Ok(DescribeAll(EMPTY_FLOW, items))
  {
    var s := Document(items, tail);
    AllAreRead(items, tail);
    WholeText(s);
    RestReads(s, items, s, 0, EMPTY_FLOW);
  }
}
