/** What is refused in a step: its options, its body and its suffix blocks. */
module DslStepRefusals {
  import opened Prelude
  import opened DslText
  import opened DslOptions
  import opened DslGaps
  import opened DslPlaces
  import opened DslBlocks
  import opened DslTrees
  import opened DslFlow
  import opened DslDocument
  import opened DslRefusals

  /** A step and its name stand here, and then white space up to there. */
  predicate StepNamed(s: string, n: nat, gap: string, j: nat, name: string, k: nat, space: string, o: nat) {
    && WordThere(s, n, "step", gap, j) && KeyText(name) && At(s, j, name) && k == j + |name|
    && (k < |s| ==> !InName(s[k])) && GapText(space) && At(s, k, space) && o == k + |space|
    && (o < |s| ==> !InGap(White, s[o]))
  }

  lemma NameEnds(s: string, j: nat, name: string, k: nat)
    requires KeyText(name) && At(s, j, name) && k == j + |name| && (k < |s| ==> !InName(s[k]))
    ensures j < k <= |s| && Find(s, j, NotInName) == k && s[j..k] == name
  {
    AtText(s, j, name);
    forall m | j <= m < k ensures !NotInName(s[m]) {
      AtIndex(s, j, name, m - j);
    }
    FindIs(s, j, NotInName, k);
  }

  lemma GapEnds(s: string, k: nat, space: string, o: nat)
    requires GapText(space) && At(s, k, space) && o == k + |space| && (o < |s| ==> !InGap(White, s[o]))
    ensures o <= |s| && Find(s, k, NotWhite) == o
  {
    forall m | k <= m < o ensures !NotWhite(s[m]) {
      AtIndex(s, k, space, m - k);
    }
    FindIs(s, k, NotWhite, o);
  }

  lemma StepNamedReads(s: string, n: nat, gap: string, j: nat, name: string, k: nat, space: string, o: nat)
    requires StepNamed(s, n, gap, j, name, k, space, o)
    ensures n < |s| && PeekKeyword(s, n) == "step" && AfterWord(s, n) == j < k <= |s|
    ensures Find(s, j, NotInName) == k && s[j..k] == name && o <= |s| && Find(s, k, NotWhite) == o
  {
    WordThereReads(s, n, "step", gap, j);
    NameEnds(s, j, name, k);
    GapEnds(s, k, space, o);
  }

  lemma HeadErrorIsItems(s: string, n: nat, flow: FlowDecl, error: ParseError)
    requires n < |s| && PeekKeyword(s, n) == "step" && ParseStepHead(s, n) == Err(error)
    ensures ParseItem(s, n, flow) == Err(error)
  {
    assert PeekKeyword(s, n)[0] != 'e';
    assert ParseItem(s, n, flow) == ParseStep(s, n, flow);
  }

  lemma OptionsErrorIsHeads(s: string, n: nat, j: nat, k: nat, o: nat, error: ParseError)
    requires n < |s| && AfterWord(s, n) == j < k <= |s| && Find(s, j, NotInName) == k && o <= |s|
    requires Find(s, k, NotWhite) == o && ParseOptions(s, o) == Err(error)
    ensures ParseStepHead(s, n) == Err(error)
  {
  }

  /** Options that are opened and not closed are refused. */
  lemma OptionsMustClose(s: string, n: nat, gap: string, j: nat, name: string, k: nat, space: string, o: nat,
                         flow: FlowDecl)
    requires StepNamed(s, n, gap, j, name, k, space, o) && o < |s| && s[o] == '(' && !Closes(Parens, s, o + 1)
    ensures n < |s| && ParseItem(s, n, flow) == Err(Unclosed('(', o + 1))
  {
    StepNamedReads(s, n, gap, j, name, k, space, o);
    BlockEndsAtDepthZero(Parens, s, o);
    assert BlockOf(Parens, s, o) == ParenBlock(s, o);
    OptionsErrorIsHeads(s, n, j, k, o, Unclosed('(', o + 1));
    HeadErrorIsItems(s, n, flow, Unclosed('(', o + 1));
  }

  /** Options that are no map of fields, or that are refused, refuse their step. */
  lemma OptionsAreRefused(s: string, n: nat, gap: string, j: nat, name: string, k: nat, space: string, o: nat,
                          text: string, error: ParseError, flow: FlowDecl)
    requires StepNamed(s, n, gap, j, name, k, space, o)
    requires At(s, o, Enclosed(Parens, text)) && EnclosedText(Parens, text) && OptionsIn(Trim(text)) == Err(error)
    ensures n < |s| && ParseItem(s, n, flow) == Err(error)
  {
    StepNamedReads(s, n, gap, j, name, k, space, o);
    OptionsFail(s, o, text, error);
    OptionsErrorIsHeads(s, n, j, k, o, error);
    HeadErrorIsItems(s, n, flow, error);
  }

  lemma OptionsFail(s: string, o: nat, text: string, error: ParseError)
    requires At(s, o, Enclosed(Parens, text)) && EnclosedText(Parens, text) && OptionsIn(Trim(text)) == Err(error)
    ensures o <= |s| && ParseOptions(s, o) == Err(error)
  {
    AtIndex(s, o, Enclosed(Parens, text), 0);
    BlockReads(Parens, s, o, text);
    assert BlockOf(Parens, s, o) == ParenBlock(s, o);
  }

  /** The body of a step is due here: behind its name, or behind its options. */
  predicate BodyDue(s: string, o: nat, options: Option<string>, inner: string, b: nat) {
    match options
    case None => b == o && inner == "" && (b < |s| ==> s[b] != '(')
    case Some(text) =>
      && At(s, o, Enclosed(Parens, text)) && OptionsText(text) && GapText(inner)
      && At(s, o + |text| + 2, inner) && b == o + |text| + 2 + |inner|
  }

  lemma BodyDueReads(s: string, o: nat, options: Option<string>, inner: string, b: nat) returns (p: nat)
    requires o <= |s| && BodyDue(s, o, options, inner, b) && (b < |s| ==> !InGap(White, s[b]))
    ensures ParseOptions(s, o) == Ok((OptionsOf(options), p)) && p <= |s| && Find(s, p, NotWhite) == b
  {
    if options.None? {
      p := o;
      FindIs(s, o, NotWhite, o);
    } else {
      p := o + |options.value| + 2;
      OptionsThere(s, o, p, options.value);
      GapEnds(s, p, inner, b);
    }
  }

  lemma OptionsThere(s: string, o: nat, p: nat, text: string)
    requires At(s, o, Enclosed(Parens, text)) && OptionsText(text) && p == o + |text| + 2
    ensures o <= |s| && ParseOptions(s, o) == Ok((OptionsOf(Some(text)), p))
  {
    AtIndex(s, o, Enclosed(Parens, text), 0);
    BlockReads(Parens, s, o, text);
    assert BlockOf(Parens, s, o) == ParenBlock(s, o);
    OptionsAre(s, o, p, Trim(text));
  }

  lemma BodyErrorIsHeads(s: string, n: nat, j: nat, k: nat, o: nat, x: StepOptions, p: nat, b: nat, error: ParseError)
    requires n < |s| && AfterWord(s, n) == j < k <= |s| && Find(s, j, NotInName) == k && o <= |s|
    requires Find(s, k, NotWhite) == o && ParseOptions(s, o) == Ok((x, p)) && p <= |s| && Find(s, p, NotWhite) == b
    requires BracedBlock(s, b) == Err(error)
    ensures ParseStepHead(s, n) == Err(error)
  {
  }

  lemma StepBodyFails(s: string, n: nat, gap: string, j: nat, name: string, k: nat, space: string, o: nat,
                      options: Option<string>, inner: string, b: nat, error: ParseError, flow: FlowDecl)
    requires StepNamed(s, n, gap, j, name, k, space, o) && BodyDue(s, o, options, inner, b)
    requires (b < |s| ==> !InGap(White, s[b])) && BracedBlock(s, b) == Err(error)
    ensures n < |s| && ParseItem(s, n, flow) == Err(error)
  {
    StepNamedReads(s, n, gap, j, name, k, space, o);
    var p := BodyDueReads(s, o, options, inner, b);
    BodyErrorIsHeads(s, n, j, k, o, OptionsOf(options), p, b, error);
    HeadErrorIsItems(s, n, flow, error);
  }

  lemma NoBlockOpens(s: string, b: nat)
    requires b < |s| ==> s[b] != '{'
    ensures BracedBlock(s, b) == Err(ExpectedOpening('{', b))
  {
  }

  lemma NoBlockCloses(s: string, b: nat)
    requires b < |s| && s[b] == '{' && !Closes(Braces, s, b + 1)
    ensures BracedBlock(s, b) == Err(Unclosed('{', b + 1))
  {
    BlockEndsAtDepthZero(Braces, s, b);
    assert BlockOf(Braces, s, b) == BracedBlock(s, b);
  }

  /** A step without a body behind its name and options is refused. */
  lemma BodyMustOpen(s: string, n: nat, gap: string, j: nat, name: string, k: nat, space: string, o: nat,
                     options: Option<string>, inner: string, b: nat, flow: FlowDecl)
    requires StepNamed(s, n, gap, j, name, k, space, o) && BodyDue(s, o, options, inner, b)
    requires b < |s| ==> !InGap(White, s[b]) && s[b] != '{'
    ensures n < |s| && ParseItem(s, n, flow) == Err(ExpectedOpening('{', b))
  {
    NoBlockOpens(s, b);
    StepBodyFails(s, n, gap, j, name, k, space, o, options, inner, b, ExpectedOpening('{', b), flow);
  }

  /** And so is one whose body is not closed. */
  lemma BodyMustClose(s: string, n: nat, gap: string, j: nat, name: string, k: nat, space: string, o: nat,
                      options: Option<string>, inner: string, b: nat, flow: FlowDecl)
    requires StepNamed(s, n, gap, j, name, k, space, o) && BodyDue(s, o, options, inner, b)
    requires b < |s| && s[b] == '{' && !Closes(Braces, s, b + 1)
    ensures n < |s| && ParseItem(s, n, flow) == Err(Unclosed('{', b + 1))
  {
    NoBlockCloses(s, b);
    StepBodyFails(s, n, gap, j, name, k, space, o, options, inner, b, Unclosed('{', b + 1), flow);
  }

  // ---------------------------------------------------------------------------
  // Suffix blocks
  // ---------------------------------------------------------------------------

  /** A step up to its body is read where it stands. */
  lemma HeadThere(s: string, n: nat, gap: string, j: nat, name: string, k: nat, space: string, o: nat,
                  options: Option<string>, inner: string, b: nat, body: string, e: nat)
    requires StepNamed(s, n, gap, j, name, k, space, o) && BodyDue(s, o, options, inner, b)
    requires b < |s| && s[b] == '{' && BracedBlock(s, b) == Ok((Trim(body), e))
    ensures n < |s| && PeekKeyword(s, n) == "step"
    ensures ParseStepHead(s, n) == Ok((StepDecl(name, OptionsOf(options), Trim(body), "", ""), e))
  {
    StepNamedReads(s, n, gap, j, name, k, space, o);
    var p := BodyDueReads(s, o, options, inner, b);
    HeadIs(s, n, j, k, p, b, e, name, OptionsOf(options), Trim(body));
  }

  /** The words fallback and compensate need a block; the error is that of the block. */
  lemma SuffixNeedsBlock(s: string, i: nat, m: nat, step: StepDecl, lead: string, n: nat, word: string, gap: string,
                         b: nat, error: ParseError)
    requires Skippable(White, lead, true) && At(s, i, lead) && n == i + |lead| && WordThere(s, n, word, gap, b)
    requires (word == "fallback" || word == "compensate") && BracedBlock(s, b) == Err(error)
    ensures i <= |s| && ParseSuffixes(s, i, m + 1, step) == Err(error)
  {
    WordThereReads(s, n, word, gap, b);
    LeadSkips(s, i, lead, true, n);
    assert OneSuffix(s, i, step) == Err(error);
  }

  lemma SuffixErrorIsItems(s: string, n: nat, head: StepDecl, e: nat, error: ParseError, flow: FlowDecl)
    requires n < |s| && PeekKeyword(s, n) == "step" && ParseStepHead(s, n) == Ok((head, e)) && e <= |s|
    requires ParseSuffixes(s, e, 2, head) == Err(error)
    ensures ParseItem(s, n, flow) == Err(error)
  {
    assert PeekKeyword(s, n)[0] != 'e';
    assert ParseItem(s, n, flow) == ParseStep(s, n, flow);
  }

  /** The suffix block stands here without a block that can be read. */
  predicate BadSuffix(s: string, i: nat, lead: string, w: nat, word: string, gap: string, b: nat, error: ParseError) {
    && Skippable(White, lead, true) && At(s, i, lead) && w == i + |lead| && WordThere(s, w, word, gap, b)
    && (word == "fallback" || word == "compensate") && BracedBlock(s, b) == Err(error)
  }

  lemma FirstSuffixFails(s: string, e: nat, head: StepDecl, lead: string, w: nat, word: string, gap: string, b: nat,
                         error: ParseError)
    requires e <= |s| && BadSuffix(s, e, lead, w, word, gap, b, error)
    ensures ParseSuffixes(s, e, 2, head) == Err(error)
  {
    SuffixNeedsBlock(s, e, 1, head, lead, w, word, gap, b, error);
  }

  lemma SecondSuffixFails(s: string, e: nat, head: StepDecl, x: Suffix, i: nat, lead: string, w: nat, word: string,
                          gap: string, b: nat, error: ParseError)
    requires SuffixReadable(x) && At(s, e, PrintSuffix(x)) && i == e + |PrintSuffix(x)|
    requires BadSuffix(s, i, lead, w, word, gap, b, error)
    ensures e <= |s| && ParseSuffixes(s, e, 2, head) == Err(error)
  {
    SuffixReads(s, e, i, x, 1, head);
    SuffixNeedsBlock(s, i, 0, WithSuffix(head, x), lead, w, word, gap, b, error);
  }

  /** Right behind the body such a suffix refuses its step. */
  lemma FirstSuffixIsRefused(s: string, n: nat, head: StepDecl, e: nat, lead: string, w: nat, word: string,
                             gap: string, b: nat, error: ParseError, flow: FlowDecl)
    requires n < |s| && PeekKeyword(s, n) == "step" && ParseStepHead(s, n) == Ok((head, e)) && e <= |s|
    requires BadSuffix(s, e, lead, w, word, gap, b, error)
    ensures ParseItem(s, n, flow) == Err(error)
  {
    FirstSuffixFails(s, e, head, lead, w, word, gap, b, error);
    SuffixErrorIsItems(s, n, head, e, error, flow);
  }

  /** So it does behind a first suffix block. */
  lemma SecondSuffixIsRefused(s: string, n: nat, head: StepDecl, e: nat, x: Suffix, i: nat, lead: string, w: nat,
                              word: string, gap: string, b: nat, error: ParseError, flow: FlowDecl)
    requires n < |s| && PeekKeyword(s, n) == "step" && ParseStepHead(s, n) == Ok((head, e))
    requires SuffixReadable(x) && At(s, e, PrintSuffix(x)) && i == e + |PrintSuffix(x)|
    requires BadSuffix(s, i, lead, w, word, gap, b, error)
    ensures ParseItem(s, n, flow) == Err(error)
  {
    SecondSuffixFails(s, e, head, x, i, lead, w, word, gap, b, error);
    SuffixErrorIsItems(s, n, head, e, error, flow);
  }
}
