/** Flow files printed from trees: what they mean is said by the trees alone, and that is what
    the parser reads. */
module DslPrinted {
  import opened Prelude
  import opened StoreModel
  import opened DslText
  import opened DslOptions
  import opened DslPlaces
  import opened DslBlocks
  import opened DslScalars
  import opened DslTrees
  import opened DslSealing
  import opened DslRoundTrip
  import opened DslFlow
  import opened DslDocument
  import opened DslProperties
  import opened EnvTexts

  /** What stands between two brackets: fields, and what stands behind the last one. */
  datatype Inside = Inside(fields: seq<Field>, close: string)

  function TextOf(m: Inside): string {
    Body(m.fields, m.close)
  }

  /** The items of a flow file, with their maps as trees. */
  datatype Declaration =
    | EntryOf(kind: string, gap: string, inside: Inside)
    | PropertiesOf(gap: string, inside: Inside)
    | StepOf(gap: string, name: string, space: string, options: Option<Inside>, inner: string, body: string,
             suffixes: seq<Suffix>)
    | OnErrorOf(gap: string, text: string)
    | ReturnOf(gap: string, text: string)

  /** A declaration and what stands in front of it. */
  datatype Declared = Declared(lead: string, what: Declaration)

  function Spell(d: Declaration): Item {
    match d
    case EntryOf(kind, gap, inside) => Entrypoint(kind, gap, TextOf(inside))
    case PropertiesOf(gap, inside) => Properties(gap, TextOf(inside))
    case StepOf(gap, name, space, options, inner, body, suffixes) =>
      StepItem(gap, name, space, if options.Some? then Some(TextOf(options.value)) else None, inner, body, suffixes)
    case OnErrorOf(gap, text) => OnError(gap, text)
    case ReturnOf(gap, text) => ReturnItem(gap, text)
  }

  function SpellAll(ds: seq<Declared>): (items: seq<Placed>)
    ensures |items| == |ds|
    ensures forall k :: 0 <= k < |ds| ==> items[k] == Placed(ds[k].lead, Spell(ds[k].what))
  {
    if ds == [] then [] else [Placed(ds[0].lead, Spell(ds[0].what))] + SpellAll(ds[1..])
  }

  function PrintFlow(ds: seq<Declared>, tail: string): string {
    Document(SpellAll(ds), tail)
  }

  // ---------------------------------------------------------------------------
  // What can be declared, and what it means
  // ---------------------------------------------------------------------------

  /** Fields that close at the bracket behind them. */
  predicate InsideOf(b: Brackets, m: Inside) {
    Fields(m.fields, m.close) && EnclosedText(b, TextOf(m))
  }

  /** Options none of which is refused. */
  predicate OptionsInside(m: Inside) {
    InsideOf(Parens, m) && ApplyOptions(Meant(m.fields)).Success?
  }

  predicate Declarable(d: Declaration) {
    && GapText(d.gap)
    && match d
       case EntryOf(kind, _, inside) =>
         (forall k :: 0 <= k < |kind| ==> !NotInWord(kind[k])) && InsideOf(Braces, inside)
       case PropertiesOf(_, inside) => InsideOf(Braces, inside)
       case StepOf(gap, name, space, options, inner, body, suffixes) =>
         && gap != "" && KeyText(name) && GapText(space) && (options.Some? ==> OptionsInside(options.value))
         && GapText(inner) && BlockText(body)
         && |suffixes| <= 2 && forall k :: 0 <= k < |suffixes| ==> SuffixText(suffixes[k])
       case OnErrorOf(_, text) => BlockText(text)
       case ReturnOf(gap, text) => ReturnText(text) && (gap != "" || NotInWord(text[0]))
  }

  function MeantOptions(options: Option<Inside>): StepOptions {
    if options.Some? && ApplyOptions(Meant(options.value.fields)).Success?
    then ApplyOptions(Meant(options.value.fields)).value else NO_OPTIONS
  }

  /** Items of one kind replace each other, except steps, which are collected in order. */
  function Declare(flow: FlowDecl, d: Declaration): FlowDecl {
    match d
    case EntryOf(kind, _, inside) =>
      var m := Meant(inside.fields);
      flow.(entryType := kind, config := m - {"timeout"}, timeout := IntAt(m, "timeout"))
    case PropertiesOf(_, inside) => flow.(properties := ResolveCalls(Meant(inside.fields)))
    case StepOf(_, name, _, options, _, body, suffixes) =>
      flow.(steps := flow.steps + [WithSuffixes(StepDecl(name, MeantOptions(options), Trim(body), "", ""), suffixes)])
    case OnErrorOf(_, text) => flow.(onError := Trim(text))
    case ReturnOf(_, text) => flow.(returnBody := text)
  }

  function DeclareAll(flow: FlowDecl, ds: seq<Declared>): FlowDecl
    decreases |ds|
  {
    if ds == [] then flow else DeclareAll(Declare(flow, ds[0].what), ds[1..])
  }

  // ---------------------------------------------------------------------------
  // Printed maps between brackets
  // ---------------------------------------------------------------------------

  lemma InsideIsMeant(m: Inside)
    requires Fields(m.fields, m.close)
    ensures ParseMap(Trim(TextOf(m))) == Ok(Meant(m.fields))
  {
    ParsePrintRoundTrip(m.fields, m.close);
    TrimTwice(TextOf(m));
    assert ParseMap(Trim(TextOf(m))) == ParseFields(Trim(Trim(TextOf(m))), 0, map[]);
  }

  /** Printed fields mean the map they were printed from, and may stand as the configuration of
      an entrypoint or as properties exactly when they close lexically at the brace behind
      them. */
  lemma PrintedMapText(m: Inside)
    requires Fields(m.fields, m.close)
    ensures MapText(TextOf(m)) <==> BlockText(TextOf(m))
    ensures BracedBlock(Block(TextOf(m)), 0) == Ok((Trim(TextOf(m)), |TextOf(m)| + 2)) <==> BlockText(TextOf(m))
    ensures MapOf(TextOf(m)) == Meant(m.fields)
  {
    InsideIsMeant(m);
    BracesReadIff(TextOf(m));
  }

  lemma BracesReadIff(text: string)
    ensures BracedBlock(Block(text), 0) == Ok((Trim(text), |text| + 2)) <==> BlockText(text)
  {
    BlockReadsIff(Braces, text);
    assert BlockOf(Braces, Enclosed(Braces, text), 0) == BracedBlock(Block(text), 0);
  }

  /** And as the options of a step exactly when they close at the parenthesis behind them and
      none of them is refused. */
  lemma PrintedOptionsText(m: Inside)
    requires Fields(m.fields, m.close)
    ensures OptionsText(TextOf(m)) <==> OptionsInside(m)
    ensures OptionsOf(Some(TextOf(m))) == MeantOptions(Some(m))
  {
    InsideIsMeant(m);
  }

  /** Fields whose keys and unquoted values close what they open, and hide nothing behind a
      comment, do close at the bracket. */
  lemma QuietInside(b: Brackets, m: Inside)
    requires Fields(m.fields, m.close) && FieldsQuiet(b, m.fields, m.close)
    ensures InsideOf(b, m)
  {
    QuietFieldsEnclosed(b, m.fields, m.close);
  }

  /** Every retry policy, timeout and condition can be written as the options of a step, in
      every layout, and is what the parser takes them for. */
  lemma OptionsCanBeWritten(x: StepOptions, l: Layout) returns (m: Inside)
    requires Expressible(x) && DslRoundTrip.Writable(Map(OptionsMap(x))) && LayoutText(l)
    ensures OptionsInside(m) && OptionsText(TextOf(m)) && OptionsOf(Some(TextOf(m))) == x
  {
    var fields := EveryMapIsRead(OptionsMap(x), l);
    m := Inside(fields, l.pad);
    OptionsAreRead(x);
    assert EnclosedText(Parens, TextOf(m));
    PrintedOptionsText(m);
  }

  // ---------------------------------------------------------------------------
  // Printed files
  // ---------------------------------------------------------------------------

  lemma SpelledIsWellFormed(d: Declaration, flow: FlowDecl)
    requires Declarable(d)
    ensures WellFormed(Spell(d)) && Describe(flow, Spell(d)) == Declare(flow, d)
  {
    match d
    case EntryOf(_, _, inside) => PrintedMapText(inside);
    case PropertiesOf(_, inside) => PrintedMapText(inside);
    case StepOf(_, _, _, options, _, _, _) =>
      if options.Some? {
        PrintedOptionsText(options.value);
      }
    case OnErrorOf(_, _) =>
    case ReturnOf(_, _) =>
  }

  lemma {:induction false} SpelledMeansTheSame(ds: seq<Declared>, flow: FlowDecl)
    requires forall k :: 0 <= k < |ds| ==> Declarable(ds[k].what)
    ensures DescribeAll(flow, SpellAll(ds)) == DeclareAll(flow, ds)
    decreases |ds|
  {
    if ds != [] {
      SpelledIsWellFormed(ds[0].what, flow);
      SpelledMeansTheSame(ds[1..], Declare(flow, ds[0].what));
    }
  }

  /** Every file of declarations, with any white space and comments between them, is read as the
      flow they declare, one after another, in whatever order they stand. */
  lemma DocumentIsRead(ds: seq<Declared>, tail: string)
    requires Spaced(SpellAll(ds), tail) && forall k :: 0 <= k < |ds| ==> Declarable(ds[k].what)
    ensures ParseFlow(PrintFlow(ds, tail)) == Ok(DeclareAll(EMPTY_FLOW, ds))
  {
    var items := SpellAll(ds);
    forall k | 0 <= k < |items| ensures WellFormed(items[k].item) {
      SpelledIsWellFormed(ds[k].what, EMPTY_FLOW);
    }
    TextsAreRead(items, tail);
    SpelledMeansTheSame(ds, EMPTY_FLOW);
  }

  // ---------------------------------------------------------------------------
  // The properties of a printed file
  // ---------------------------------------------------------------------------

  lemma {:induction false} OthersKeepProperties(flow: FlowDecl, ds: seq<Declared>)
    requires forall k :: 0 <= k < |ds| ==> !ds[k].what.PropertiesOf?
    ensures DeclareAll(flow, ds).properties == flow.properties
    decreases |ds|
  {
    if ds != [] {
      OthersKeepProperties(Declare(flow, ds[0].what), ds[1..]);
    }
  }

  lemma {:induction false} LastPropertiesStay(flow: FlowDecl, ds: seq<Declared>, n: nat)
    requires n < |ds| && ds[n].what.PropertiesOf?
    requires forall k :: n < k < |ds| ==> !ds[k].what.PropertiesOf?
    ensures DeclareAll(flow, ds).properties == ResolveCalls(Meant(ds[n].what.inside.fields))
    decreases |ds|
  {
    if n == 0 {
      OthersKeepProperties(Declare(flow, ds[0].what), ds[1..]);
    } else {
      LastPropertiesStay(Declare(flow, ds[0].what), ds[1..], n - 1);
    }
  }

  /** The flow that is read has the properties of the last properties block as its trees have
      them: a plain text, a list and a map unchanged, an env call as its placeholder. */
  lemma PropertiesAreRead(ds: seq<Declared>, tail: string, n: nat)
    requires Spaced(SpellAll(ds), tail) && forall k :: 0 <= k < |ds| ==> Declarable(ds[k].what)
    requires n < |ds| && ds[n].what.PropertiesOf?
    requires forall k :: n < k < |ds| ==> !ds[k].what.PropertiesOf?
    ensures ParseFlow(PrintFlow(ds, tail)).Ok?
    ensures PropertiesBecome(Meant(ds[n].what.inside.fields), ParseFlow(PrintFlow(ds, tail)).value.properties)
  {
    DocumentIsRead(ds, tail);
    LastPropertiesStay(EMPTY_FLOW, ds, n);
    ResolvedBecome(Meant(ds[n].what.inside.fields));
  }

  // ---------------------------------------------------------------------------
  // Why an unquoted double slash needs a line break behind it
  // ---------------------------------------------------------------------------

  /** A comment that nothing ends hides the closing brace from the block reader. */
  lemma CommentHidesTheBrace(text: string, k: nat)
    requires CommentAt(text, k) && LexAt(Braces, text, 0, k).mode == LexMode.Plain
    requires forall m :: k <= m < |text| ==> text[m] != '\n'
    ensures !BlockText(text) && BracedBlock(Block(text), 0) != Ok((Trim(text), |text| + 2))
  {
    assert text[k] == '/' && text[k + 1] == '/';
    InsideComment(text, 0, k, |text|);
    SealedIff(Braces, text);
    BracesReadIff(text);
  }

  /** Up to the first comment of a plain text the lexer stays outside. */
  lemma {:induction false} PlainUpTo(text: string, n: nat, k: nat)
    requires n <= k && CommentAt(text, k) && (forall m :: 0 <= m < k ==> IsPlain(text[m]) && !CommentAt(text, m))
    ensures var l := LexAt(Braces, text, 0, n);
            l == Lex(1, LexMode.Plain) || (l == Lex(1, Slash) && n > 0 && text[n - 1] == '/')
    decreases n
  {
    if n > 0 {
      var m: nat := n - 1;
      PlainUpTo(text, m, k);
      if LexAt(Braces, text, 0, m).mode == Slash {
        var j: nat := m - 1;
        assert !CommentAt(text, j);
      }
    }
  }

  lemma PlainBeforeComment(text: string, k: nat)
    requires CommentAt(text, k) && forall m :: 0 <= m < k ==> IsPlain(text[m]) && !CommentAt(text, m)
    ensures LexAt(Braces, text, 0, k).mode == LexMode.Plain
  {
    PlainUpTo(text, k, k);
    if k > 0 {
      var j: nat := k - 1;
      assert !CommentAt(text, j);
    }
  }

  lemma FirstComment(text: string) returns (k: nat)
    requires !Uncommented(text)
    ensures CommentAt(text, k) && forall m :: 0 <= m < k ==> !CommentAt(text, m)
  {
    k := 0;
    while !CommentAt(text, k)
      invariant k <= |text| && forall m :: 0 <= m < k ==> !CommentAt(text, m)
      decreases |text| - k
    {
      k := k + 1;
    }
  }

  /** One field on one line. */
  function OneField(key: string, word: string): Inside {
    Inside([Field("", key, "", " ", Bare(word))], "")
  }

  lemma OneFieldSpelled(key: string, word: string)
    requires KeyText(key) && PlainWord(word)
    ensures Fields(OneField(key, word).fields, "") && Meant(OneField(key, word).fields) == map[key := Text(word)]
    ensures TextOf(OneField(key, word)) == key + ": " + word
  {
    var f := Field("", key, "", " ", Bare(word));
    PlainIsBare(word);
    WordKey(key);
    assert Find("", 0, NotInline) == 0;
    OneFieldIs(f, "");
    assert Head(f) == key + ("" + (":" + " ")) == key + ": ";
    assert "" + (Head(f) + word) + "" == key + ": " + word;
  }

  /** On one line an unquoted value with a double slash is read as a whole by the map parser,
      yet hides the closing brace from the block reader. */
  lemma SlashesHideTheBrace(key: string, word: string, text: string)
    requires KeyText(key) && PlainWord(word) && !Uncommented(word) && text == TextOf(OneField(key, word))
    ensures ParseMap(text) == Ok(map[key := Text(word)])
    ensures !BlockText(text) && BracedBlock(Block(text), 0) != Ok((Trim(text), |text| + 2))
  {
    OneFieldSpelled(key, word);
    ParsePrintRoundTrip(OneField(key, word).fields, "");
    OneFieldText(key, word, text);
    var k := FirstComment(text);
    PlainBeforeComment(text, k);
    CommentHidesTheBrace(text, k);
  }

  lemma OneFieldText(key: string, word: string, text: string)
    requires KeyText(key) && PlainWord(word) && !Uncommented(word) && text == key + ": " + word
    ensures !Uncommented(text) && forall k :: 0 <= k < |text| ==> IsPlain(text[k]) && text[k] != '\n'
  {
    var k :| 0 <= k < |word| && CommentAt(word, k);
    assert CommentAt(text, |key| + 2 + k);
  }

  lemma {:induction false} PlainLineRuns(p: string, n: nat)
    requires n <= |p| && forall k :: 0 <= k < |p| ==> IsPlain(p[k])
    ensures var l := LexAt(Braces, p, 0, n);
            l.depth == 1 && (l.mode == LexMode.Plain || l.mode == Slash || l.mode == Comment)
    decreases n
  {
    if n > 0 {
      PlainLineRuns(p, n - 1);
    }
  }

  lemma PlainLineSealed(p: string)
    requires forall k :: 0 <= k < |p| ==> IsPlain(p[k])
    ensures Sealed(Braces, p, true)
  {
    forall m: nat | m <= |p| ensures LexAt(Braces, p, 0, m).depth > 0 {
      PlainLineRuns(p, m);
    }
    PlainLineRuns(p, |p|);
  }

  /** With a line break behind it, at once or behind a comma and spaces, the same value is read
      by both: what the comment hides is only what separates the fields. */
  lemma SlashesBeforeABreak(key: string, word: string, close: string)
    requires KeyText(key) && PlainWord(word) && SeparatorText(close) && Breaks(close)
    requires DelimiterText(Bare(word), close, false)
    ensures var m := Inside([Field("", key, "", " ", Bare(word))], close);
            InsideOf(Braces, m) && Meant(m.fields) == map[key := Text(word)]
  {
    var f := Field("", key, "", " ", Bare(word));
    PlainIsBare(word);
    WordKey(key);
    SeparatorsAreSkipped(close, false);
    OneFieldIs(f, close);
    PlainLineSealed(word);
    SeparatorsSealed(Braces, close);
    KeyHeadSealed(Braces, key);
    PlainSealed(Braces, "");
    assert [f][1..] == [];
    assert FieldsQuiet(Braces, [f][1..], close);
    QuietInside(Braces, Inside([f], close));
  }
}
