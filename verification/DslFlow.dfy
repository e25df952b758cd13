/** The flow parser on top of the scanners: blocks, steps, and the top-level loop. */
module DslFlow {
  import opened Prelude
  import opened StoreModel
  import opened DslText
  import opened DslOptions
  import opened EnvDefaults

  datatype StepDecl = StepDecl(id: string, options: StepOptions, body: string, fallback: string, compensate: string)

  datatype FlowDecl = FlowDecl(entryType: string, config: Contents, timeout: int, properties: Contents,
                               steps: seq<StepDecl>, onError: string, returnBody: string)

  const EMPTY_FLOW := FlowDecl("", map[], 0, map[], [], "", "")

  // ---------------------------------------------------------------------------
  // Words
  // ---------------------------------------------------------------------------

  /** readWord: where the word after white space starts and ends. */
  function WordAt(s: string, i: nat): (r: (nat, nat))
    requires i <= |s|
    ensures i <= r.0 <= r.1 <= |s|
  {
    var start := Find(s, i, NotWhite);
    (start, Find(s, start, NotInWord))
  }

  /** Skips a word and the white space around it. */
  function AfterWord(s: string, i: nat): (r: nat)
    requires i <= |s|
    ensures i <= r <= |s|
  {
    Find(s, WordAt(s, i).1, NotWhite)
  }

  predicate IsDot(c: char) {
    c == '.'
  }

  predicate IsTopLevel(word: string) {
    word in {"step", "return", "properties", "on_error"} || "entrypoint" <= word
  }

  // ---------------------------------------------------------------------------
  // Blocks
  // ---------------------------------------------------------------------------

  /** A result together with where reading goes on. */
  function WithPosition<T>(r: Outcome<T>, p: nat): Outcome<(T, nat)> {
    match r
    case Ok(value) => Ok((value, p))
    case Err(e) => Err(e)
    case Panic => Panic
    case Hang => Hang
  }

  /** The configuration of an entrypoint; its `timeout` field is the flow's. */
  function Configure(flow: FlowDecl, kind: string, body: string): Outcome<FlowDecl> {
    match ParseMap(body)
    case Err(e) => Err(e)
    case Panic => Panic
    case Hang => Hang
    case Ok(config) =>
      Ok(flow.(entryType := kind, config := config - {"timeout"}, timeout := IntAt(config, "timeout")))
  }

  function ParseEntrypoint(s: string, i: nat, flow: FlowDecl): (r: Outcome<(FlowDecl, nat)>)
    requires i <= |s|
    ensures r.Ok? ==> i < r.value.1 <= |s|
  {
    var (start, end) := WordAt(s, i);
    EntrypointAt(s, s[start..end], AfterWord(s, i), flow)
  }

  /** The block at b of an entrypoint with this word. */
  function EntrypointAt(s: string, word: string, b: nat, flow: FlowDecl): (r: Outcome<(FlowDecl, nat)>)
    ensures r.Ok? ==> b < r.value.1 <= |s|
  {
    var dot := Find(word, 0, IsDot);
    if dot == |word| then Err(BadEntrypoint(word))
    else
      match BracedBlock(s, b)
      case Err(e) => Err(e)
      case Panic => Panic
      case Hang => Hang
      case Ok((body, p)) =>
        WithPosition(Configure(flow, word[dot + 1..], body), p)
  }

  function ResolveCalls(m: Contents): Contents {
    map k | k in m :: if m[k].Text? then Text(ResolveEnvCall(m[k].text)) else m[k]
  }

  function ParseProperties(s: string, i: nat, flow: FlowDecl): (r: Outcome<(FlowDecl, nat)>)
    requires i <= |s|
    ensures r.Ok? ==> i < r.value.1 <= |s|
  {
    match BracedBlock(s, AfterWord(s, i))
    case Err(e) => Err(e)
    case Panic => Panic
    case Hang => Hang
    case Ok((body, p)) =>
      match ParseMap(body)
      case Err(e) => Err(e)
      case Panic => Panic
      case Hang => Hang
      case Ok(props) => Ok((flow.(properties := ResolveCalls(props)), p))
  }

  /** The options a text says. */
  function OptionsIn(text: string): Outcome<StepOptions> {
    match ParseMap(text)
    case Err(e) => Err(e)
    case Panic => Panic
    case Hang => Hang
    case Ok(m) =>
      match ApplyOptions(m)
      case Success(x) => Ok(x)
      case Failure(e) => Err(e)
  }

  function ParseOptions(s: string, i: nat): (r: Outcome<(StepOptions, nat)>)
    requires i <= |s|
    ensures r.Ok? ==> i <= r.value.1 <= |s|
  {
    if i == |s| || s[i] != '(' then Ok((NO_OPTIONS, i))
    else
      match ParenBlock(s, i)
      case Err(e) => Err(e)
      case Panic => Panic
      case Hang => Hang
      case Ok((text, p)) =>
        WithPosition(OptionsIn(text), p)
  }

  /** The next suffix block, fallback or compensate, or none. */
  function OneSuffix(s: string, i: nat, step: StepDecl): (r: Outcome<(Option<StepDecl>, nat)>)
    requires i <= |s|
    ensures r.Ok? ==> i <= r.value.1 <= |s|
  {
    var j := SkipSpace(s, i);
    var word := PeekKeyword(s, j);
    if word != "fallback" && word != "compensate" then Ok((None, j))
    else
      match BracedBlock(s, AfterWord(s, j))
      case Err(e) => Err(e)
      case Panic => Panic
      case Hang => Hang
      case Ok((body, p)) =>
        Ok((Some(if word == "fallback" then step.(fallback := body) else step.(compensate := body)), p))
  }

  /** Up to n suffix blocks, in any order. */
  function ParseSuffixes(s: string, i: nat, n: nat, step: StepDecl): (r: Outcome<(StepDecl, nat)>)
    requires i <= |s|
    ensures r.Ok? ==> i <= r.value.1 <= |s|
    decreases n
  {
    if n == 0 then Ok((step, i))
    else
      match OneSuffix(s, i, step)
      case Err(e) => Err(e)
      case Panic => Panic
      case Hang => Hang
      case Ok((None, j)) => Ok((step, j))
      case Ok((Some(step'), p)) => ParseSuffixes(s, p, n - 1, step')
  }

  /** A step up to its primary body. */
  function ParseStepHead(s: string, i: nat): (r: Outcome<(StepDecl, nat)>)
    requires i <= |s|
    ensures r.Ok? ==> i < r.value.1 <= |s|
  {
    var j := AfterWord(s, i);
    var k := Find(s, j, NotInName);
    if k == j then Err(ExpectedStepName)
    else
      match ParseOptions(s, Find(s, k, NotWhite))
      case Err(e) => Err(e)
      case Panic => Panic
      case Hang => Hang
      case Ok((options, p)) =>
        match BracedBlock(s, Find(s, p, NotWhite))
        case Err(e) => Err(e)
        case Panic => Panic
        case Hang => Hang
        case Ok((body, q)) => Ok((StepDecl(s[j..k], options, body, "", ""), q))
  }

  function ParseStep(s: string, i: nat, flow: FlowDecl): (r: Outcome<(FlowDecl, nat)>)
    requires i <= |s|
    ensures r.Ok? ==> i < r.value.1 <= |s|
  {
    match ParseStepHead(s, i)
    case Err(e) => Err(e)
    case Panic => Panic
    case Hang => Hang
    case Ok((head, p)) =>
      match ParseSuffixes(s, p, 2, head)
      case Err(e) => Err(e)
      case Panic => Panic
      case Hang => Hang
      case Ok((step, end)) => Ok((flow.(steps := flow.steps + [step]), end))
  }

  function ParseOnError(s: string, i: nat, flow: FlowDecl): (r: Outcome<(FlowDecl, nat)>)
    requires i <= |s|
    ensures r.Ok? ==> i < r.value.1 <= |s|
  {
    match BracedBlock(s, AfterWord(s, i))
    case Err(e) => Err(e)
    case Panic => Panic
    case Hang => Hang
    case Ok((body, p)) => Ok((flow.(onError := body), p))
  }

  /** Where the return expression stops: one past the text if an escape runs over it. */
  function ReturnEnd(s: string, i: nat, depth: nat, mode: Mode): (k: nat)
    requires i <= |s| + 1
    ensures i <= k <= |s| + 1
    decreases |s| + 1 - i
  {
    if i >= |s| then i
    else
      var c := s[i];
      if mode.InString? then
        (if c == '\\' then ReturnEnd(s, i + 2, depth, mode)
         else ReturnEnd(s, i + 1, depth, if c == mode.quote then Code else mode))
      else if IsAnyQuote(c) then ReturnEnd(s, i + 1, depth, InString(c))
      else if IsOpening(c) then ReturnEnd(s, i + 1, depth + 1, Code)
      else if IsClosing(c) then (if depth == 0 then i else ReturnEnd(s, i + 1, depth - 1, Code))
      else if depth == 0 && c == '\n' then
        var j := Find(s, i + 1, NotWhite);
        if j == |s| then j
        else if IsTopLevel(PeekKeyword(s, j)) then i
        else ReturnEnd(s, j, 0, Code)
      else ReturnEnd(s, i + 1, depth, Code)
  }

  function ParseReturn(s: string, i: nat, flow: FlowDecl): (r: Outcome<(FlowDecl, nat)>)
    requires i <= |s|
    ensures r.Ok? ==> i <= r.value.1 <= |s|
  {
    var start := AfterWord(s, i);
    var k := ReturnEnd(s, start, 0, Code);
    if k > |s| then Panic else Ok((flow.(returnBody := Trim(s[start..k])), k))
  }

  // ---------------------------------------------------------------------------
  // The top-level loop
  // ---------------------------------------------------------------------------

  /** One turn of the loop, before white space and comments are skipped again. */
  function ParseItem(s: string, i: nat, flow: FlowDecl): (r: Outcome<(FlowDecl, nat)>)
    requires i < |s|
    ensures r.Ok? ==> i <= r.value.1 <= |s|
    ensures r.Ok? && PeekKeyword(s, i) != "return" ==> i < r.value.1
  {
    var word := PeekKeyword(s, i);
    if "entrypoint" <= word then ParseEntrypoint(s, i, flow)
    else if word == "properties" then ParseProperties(s, i, flow)
    else if word == "step" then ParseStep(s, i, flow)
    else if word == "on_error" then ParseOnError(s, i, flow)
    else if word == "return" then ParseReturn(s, i, flow)
    else Err(Unexpected(i))
  }

  function ParseItems(s: string, i: nat, flow: FlowDecl): Outcome<FlowDecl>
    requires i <= |s|
    decreases |s| - i
  {
    if i == |s| then Ok(flow)
    else
      match ParseItem(s, i, flow)
      case Err(e) => Err(e)
      case Panic => Panic
      case Hang => Hang
      case Ok((flow', p)) =>
        var j := SkipSpace(s, p);
        if j == i then Hang else ParseItems(s, j, flow')
  }

  function ParseFlow(s: string): Outcome<FlowDecl> {
    ParseItems(s, SkipSpace(s, 0), EMPTY_FLOW)
  }

  // ---------------------------------------------------------------------------
  // Progress
  // ---------------------------------------------------------------------------

  /** The one place where the top-level loop goes round without moving. */
  predicate StrayBracket(s: string, i: nat)
    requires i < |s|
  {
    IsClosing(s[i]) && PeekKeyword(s, i) == "return"
  }

  lemma ReturnMoves(s: string, i: nat, flow: FlowDecl)
    requires i < |s| && !IsWhite(s[i]) && ParseReturn(s, i, flow).Ok?
    ensures ParseReturn(s, i, flow).value.1 == i <==> IsClosing(s[i])
  {
    FindIs(s, i, NotWhite, i);
    if NotInWord(s[i]) {
      FindIs(s, i, NotInWord, i);
    }
  }

  lemma SkipStays(s: string, i: nat)
    requires i < |s| && !IsWhite(s[i]) && !CommentAt(s, i)
    ensures SkipSpace(s, i) == i
  {
    FindIs(s, i, NotWhite, i);
  }

  lemma ReturnIsParsed(s: string, i: nat, flow: FlowDecl)
    requires i < |s| && PeekKeyword(s, i) == "return"
    ensures ParseItem(s, i, flow) == ParseReturn(s, i, flow)
  {
  }

  lemma ItemMoves(s: string, i: nat, flow: FlowDecl)
    requires i < |s| && !IsWhite(s[i]) && ParseItem(s, i, flow).Ok?
    ensures ParseItem(s, i, flow).value.1 == i <==> StrayBracket(s, i)
  {
    if PeekKeyword(s, i) == "return" {
      ReturnIsParsed(s, i, flow);
      ReturnMoves(s, i, flow);
    }
  }

  /** Each turn that returns no error strictly advances, except exactly on a closing bracket
      followed by the word `return`, where it stays in place. */
  lemma LoopAdvances(s: string, i: nat, flow: FlowDecl)
    requires i < |s| && !IsWhite(s[i]) && !CommentAt(s, i) && ParseItem(s, i, flow).Ok?
    ensures SkipSpace(s, ParseItem(s, i, flow).value.1) == i <==> StrayBracket(s, i)
    ensures !StrayBracket(s, i) ==> SkipSpace(s, ParseItem(s, i, flow).value.1) > i
  {
    ItemMoves(s, i, flow);
    SkipStays(s, i);
    var p := ParseItem(s, i, flow).value.1;
    assert p == i || SkipSpace(s, p) >= p > i;
  }

  /** Reading an array item strictly advances, except exactly at a closing brace. */
  lemma ItemAdvances(s: string, i: nat)
    requires i < |s| && NotSeparator(s[i]) && s[i] != ']' && ReadValue(s, i).Ok?
    ensures ReadValue(s, i).value.1 == i <==> s[i] == '}'
    ensures s[i] != '}' ==> ReadValue(s, i).value.1 > i
  {
  }

  /** So an array whose next item is at a closing brace is never finished. */
  lemma ArrayHangsAtBrace(s: string, i: nat, j: nat, items: seq<Value>)
    requires i <= j < |s| && s[j] == '}' && forall k :: i <= k < j ==> !NotSeparator(s[k])
    ensures ReadItems(s, i, items) == Hang
  {
    FindIs(s, i, NotSeparator, j);
    assert BareEnd(s, j, Depths(0, 0, 0), Code) == j;
  }
}
