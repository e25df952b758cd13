/** The parser as the code runs it: a cursor advanced by every method, and index loops over
    depth and string state. Every method is proved to compute what the functions of modules
    DslText and DslFlow say. */
module DslParser {
  import opened Prelude
  import opened StoreModel
  import opened Formats
  import opened DslText
  import opened DslOptions
  import opened DslFlow
  import opened EnvDefaults
  import DslProperties
  import EnvTexts

  // ---------------------------------------------------------------------------
  // Values inside a block
  // ---------------------------------------------------------------------------

  method ScanTo(s: string, i: nat, stop: char -> bool) returns (r: nat)
    requires i <= |s|
    ensures r == Find(s, i, stop)
  {
    r := i;
    while r < |s| && !stop(s[r])
      invariant i <= r <= |s|
      invariant Find(s, r, stop) == Find(s, i, stop)
    {
      r := r + 1;
    }
  }

  method ReadQuotedString(s: string, start: nat) returns (r: Outcome<(Value, nat)>)
    requires start < |s|
    ensures r == ReadQuoted(s, start)
  {
    var quote := s[start];
    var i := start + 1;
    while i < |s|
      invariant start < i
      invariant QuoteClose(s, i, quote) == QuoteClose(s, start + 1, quote)
      decreases |s| - i
    {
      if s[i] == '\\' {
        i := i + 2;
      } else if s[i] == quote {
        return Ok((Text(s[start + 1..i]), i + 1));
      } else {
        i := i + 1;
      }
    }
    return Err(Unclosed(quote, start));
  }

  method ReadUnquoted(s: string, start: nat) returns (r: Outcome<(Value, nat)>)
    requires start <= |s|
    ensures r == ReadBare(s, start)
  {
    var i := start;
    var depths, mode := Depths(0, 0, 0), Code;
    while i < |s|
      invariant start <= i <= |s| + 1
      invariant BareEnd(s, i, depths, mode) == BareEnd(s, start, Depths(0, 0, 0), Code)
      decreases |s| + 1 - i
    {
      var c := s[i];
      if mode.InString? {
        if c == '\\' {
          i := i + 1;
        } else if c == mode.quote {
          mode := Code;
        }
        i := i + 1;
        continue;
      }
      if IsAnyQuote(c) {
        mode := InString(c);
      } else if EndsBare(c, depths) {
        return Ok((Text(Trim(s[start..i])), i));
      } else {
        depths := Nest(c, depths);
      }
      i := i + 1;
    }
    if i > |s| {
      return Panic;
    }
    return Ok((Text(Trim(s[start..i])), i));
  }

  method ReadValueAt(s: string, i: nat) returns (r: Outcome<(Value, nat)>)
    requires i <= |s|
    ensures r == ReadValue(s, i)
    decreases |s| - i, 0
  {
    if i == |s| {
      return Ok((Text(""), i));
    }
    if IsQuote(s[i]) {
      r := ReadQuotedString(s, i);
    } else if s[i] == '[' {
      r := ReadArray(s, i);
    } else if s[i] == '{' {
      r := ReadNestedMap(s, i);
    } else {
      r := ReadUnquoted(s, i);
    }
  }

  /** readArray. A turn that does not move the position repeats forever, so it is reported
      instead of being taken again. */
  method ReadArray(s: string, start: nat) returns (r: Outcome<(Value, nat)>)
    requires start < |s|
    ensures r == ReadItems(s, start + 1, [])
    decreases |s| - start - 1, 2
  {
    var i := start + 1;
    var items: seq<Value> := [];
    while i < |s|
      invariant start < i <= |s| + 1
      invariant ReadItems(s, i, items) == ReadItems(s, start + 1, [])
      decreases |s| + 1 - i
    {
      var j := ScanTo(s, i, NotSeparator);
      if j >= |s| || s[j] == ']' {
        return Ok((List(items), j + 1));
      }
      var v := ReadValueAt(s, j);
      if !v.Ok? {
        return v;
      }
      if v.value.1 == j {
        return Hang;
      }
      items, i := items + [v.value.0], v.value.1;
    }
    return Err(UnclosedArray);
  }

  /** The loop of readNestedMap: where the brace that was opened is closed, or past the end. */
  method ScanNested(s: string, start: nat) returns (i: nat)
    requires start < |s|
    ensures i == NestedEnd(s, start + 1, 1, Code)
  {
    i := start + 1;
    var depth, mode := 1, Code;
    while i < |s| && depth > 0
      invariant start < i <= |s| + 1 && depth >= 0
      invariant NestedEnd(s, i, depth, mode) == NestedEnd(s, start + 1, 1, Code)
      decreases |s| + 1 - i
    {
      var c := s[i];
      if mode.InString? {
        if c == '\\' {
          i := i + 1;
        } else if c == mode.quote {
          mode := Code;
        }
        i := i + 1;
        continue;
      }
      if IsQuote(c) {
        mode := InString(c);
      } else if c == '{' {
        depth := depth + 1;
      } else if c == '}' {
        depth := depth - 1;
      }
      i := i + 1;
    }
  }

  method ReadNestedMap(s: string, start: nat) returns (r: Outcome<(Value, nat)>)
    requires start < |s|
    ensures r == ReadNested(s, start)
    decreases |s| - start - 1, 5
  {
    var i := ScanNested(s, start);
    if i - 1 < start + 1 {
      return Panic;
    }
    var m := ParseSimpleMap(s[start + 1..i - 1]);
    match m {
      case Ok(entries) => return Ok((Map(entries), i));
      case Err(e) => return Err(e);
      case Panic => return Panic;
      case Hang => return Hang;
    }
  }

  method ParseSimpleMap(block: string) returns (r: Outcome<Contents>)
    ensures r == ParseMap(block)
    decreases |block|, 4
  {
    var s := Trim(block);
    var result: Contents := map[];
    var i := 0;
    while i < |s|
      invariant 0 <= i <= |s| + 1
      invariant ParseFields(s, i, result) == ParseFields(s, 0, map[])
      decreases |s| + 1 - i
    {
      i := ScanTo(s, i, NotSeparator);
      if i >= |s| {
        break;
      }
      if CommentAt(s, i) {
        i := ScanTo(s, i, IsNewline);
        continue;
      }
      var keyRead := ReadMapKey(s, i);
      if keyRead.NoKey? {
        break;
      }
      if keyRead.NoColon? {
        return Err(ExpectedColon(keyRead.key));
      }
      var v := ReadValueAt(s, keyRead.v);
      match v {
        case Err(e) => return Err(InKey(keyRead.key, e));
        case Panic => return Panic;
        case Hang => return Hang;
        case Ok((value, p)) => result, i := result[keyRead.key := value], p;
      }
    }
    return Ok(result);
  }

  method ReadMapKey(s: string, i: nat) returns (r: KeyRead)
    requires i <= |s|
    ensures r == ReadKey(s, i)
  {
    var e := ScanTo(s, i, EndsKey);
    var key := Trim(s[i..e]);
    if key == "" {
      return NoKey;
    }
    var colon := ScanTo(s, e, IsColon);
    if colon >= |s| {
      return NoColon(key);
    }
    var v := ScanTo(s, colon + 1, NotBlank);
    return Key(key, v);
  }

  /** A method with a cursor ended as a function says: the same value and position, or the
      same way out. */
  predicate Follows<T(==)>(spec: Outcome<(T, nat)>, r: Outcome<T>, pos: nat) {
    match spec
    case Ok((value, p)) => r == Ok(value) && pos == p
    case Err(e) => r == Err(e)
    case Panic => r == Panic
    case Hang => r == Hang
  }

  /** The end of parseEntrypoint: the configuration without the flow's timeout. */
  method ConfigureFlow(flow: FlowDecl, kind: string, body: string) returns (r: Outcome<FlowDecl>)
    ensures r == Configure(flow, kind, body)
  {
    var config := ParseSimpleMap(body);
    match config {
      case Err(e) => return Err(e);
      case Panic => return Panic;
      case Hang => return Hang;
      case Ok(m) =>
        var timeout := if "timeout" in m then ToInt(m["timeout"]) else 0;
        return Ok(flow.(entryType := kind, config := m - {"timeout"}, timeout := timeout));
    }
  }

  /** applyStepOptions. */
  method ApplyStepOptions(text: string) returns (r: Outcome<StepOptions>)
    ensures r == OptionsIn(text)
  {
    var m := ParseSimpleMap(text);
    match m {
      case Err(e) => return Err(e);
      case Panic => return Panic;
      case Hang => return Hang;
      case Ok(_) =>
    }
    var options := NO_OPTIONS;
    if "condition" in m.value {
      options := options.(condition := Format(m.value["condition"]));
    }
    if "timeout" in m.value {
      options := options.(timeout := ToInt(m.value["timeout"]));
    }
    if "retry" in m.value {
      if !m.value["retry"].Map? {
        return Err(BadOptions("retry"));
      }
      var retry := ApplyRetry(m.value["retry"].entries);
      if retry.Failure? {
        return Err(retry.error);
      }
      options := options.(retry := Some(retry.value));
    }
    return Ok(options);
  }

  lemma FormatFirst(items: seq<Value>)
    requires items != []
    ensures FormatAll(items) == [Format(items[0])] + FormatAll(items[1..])
  {
  }

  /** The codes of a list, each as its text. */
  method FormatItems(items: seq<Value>) returns (codes: seq<string>)
    ensures codes == FormatAll(items)
  {
    codes := [];
    for i := 0 to |items|
      invariant codes + FormatAll(items[i..]) == FormatAll(items)
    {
      FormatFirst(items[i..]);
      assert items[i..][1..] == items[i + 1..];
      AppendFirst(codes, Format(items[i]), FormatAll(items[i + 1..]));
      codes := codes + [Format(items[i])];
    }
    assert codes + [] == codes;
  }

  lemma AppendFirst<T>(a: seq<T>, x: T, b: seq<T>)
    ensures a + ([x] + b) == (a + [x]) + b
  {
  }

  /** The retry fields, one after the other. */
  method ApplyRetry(m: Contents) returns (r: Result<RetryDecl, ParseError>)
    ensures r == match RetryError(m) case Some(e) => Failure(e) case None => Success(RetryOf(m))
  {
    if "maxRetries" in m {
      return Failure(BadOptions("maxRetries"));
    }
    if "condition" in m {
      return Failure(BadOptions("condition"));
    }
    var retry := RetryDecl(IntAt(m, "max_attempts"), 0, "", IntAt(m, "max_delay"),
                           "jitter" in m && ToBool(m["jitter"]), TextAt(m, "when"), []);
    if "non_retryable" in m && m["non_retryable"].List? {
      var codes := FormatItems(m["non_retryable"].items);
      retry := retry.(nonRetryable := codes);
    }
    if "backoff" in m {
      if !KnownBackoff(m["backoff"]) {
        return Failure(BadOptions("backoff"));
      }
      retry := retry.(backoff := m["backoff"].text);
    }
    return Success(retry.(delay := IntAt(m, "delay")));
  }

  lemma FollowsHere<T>(r: Outcome<T>, p: nat)
    ensures Follows(WithPosition(r, p), r, p)
  {
  }

  /** Equal counts, whatever they are written as. */
  lemma SameCount(s: string, i: nat, m: nat, n: nat, step: StepDecl)
    requires i <= |s| && m == n
    ensures ParseSuffixes(s, i, m, step) == ParseSuffixes(s, i, n, step)
  {
  }

  /** What a return expression does at a line break outside brackets. */
  lemma ReturnBreaks(s: string, i: nat, j: nat)
    requires i < |s| && s[i] == '\n' && j == Find(s, i + 1, NotWhite)
    ensures ReturnEnd(s, i, 0, Code) ==
            if j == |s| then j else if IsTopLevel(PeekKeyword(s, j)) then i else ReturnEnd(s, j, 0, Code)
  {
  }

  // ---------------------------------------------------------------------------
  // The cursor
  // ---------------------------------------------------------------------------

  class Parser {
    const source: string
    var pos: nat

    constructor (source: string)
      ensures this.source == source && pos == 0
    {
      this.source, pos := source, 0;
    }

    method SkipWhitespace()
      requires pos <= |source|
      modifies this
      ensures pos == Find(source, old(pos), NotWhite)
    {
      while pos < |source| && IsWhite(source[pos])
        invariant old(pos) <= pos <= |source|
        invariant Find(source, pos, NotWhite) == Find(source, old(pos), NotWhite)
      {
        pos := pos + 1;
      }
    }

    method SkipWhitespaceAndComments()
      requires pos <= |source|
      modifies this
      ensures pos == SkipSpace(source, old(pos))
    {
      while true
        invariant old(pos) <= pos <= |source|
        invariant SkipSpace(source, pos) == SkipSpace(source, old(pos))
        decreases |source| - pos
      {
        SkipWhitespace();
        if CommentAt(source, pos) {
          pos := ScanTo(source, pos, IsNewline);
          continue;
        }
        break;
      }
    }

    method ReadWord() returns (word: string)
      requires pos <= |source|
      modifies this
      ensures var (start, end) := WordAt(source, old(pos)); word == source[start..end] && pos == end
    {
      SkipWhitespace();
      var start := pos;
      while pos < |source| && !NotInWord(source[pos])
        invariant start <= pos <= |source|
        invariant Find(source, pos, NotInWord) == Find(source, start, NotInWord)
      {
        pos := pos + 1;
      }
      return source[start..pos];
    }

    method ReadStepName() returns (name: string)
      requires pos <= |source|
      modifies this
      ensures pos == Find(source, old(pos), NotInName) && name == source[old(pos)..pos]
    {
      var start := pos;
      pos := ScanTo(source, pos, NotInName);
      return source[start..pos];
    }

    /** readBracedBlock; on an error the position no longer matters. */
    method ReadBracedBlock() returns (r: Outcome<string>)
      requires pos <= |source|
      modifies this
      ensures Follows(BracedBlock(source, old(pos)), r, pos)
    {
      if pos >= |source| || source[pos] != '{' {
        return Err(ExpectedOpening('{', pos));
      }
      pos := pos + 1;
      var start := pos;
      var depth, mode := 1, Code;
      while pos < |source| && depth > 0
        invariant depth > 0 && start <= pos
        invariant BraceClose(source, pos, depth, mode) == BraceClose(source, start, 1, Code)
        decreases |source| - pos
      {
        var c := source[pos];
        if mode.InString? {
          if c == '\\' {
            pos := pos + 1;
          } else if c == mode.quote {
            mode := Code;
          }
          pos := pos + 1;
          continue;
        }
        if IsAnyQuote(c) {
          mode := InString(c);
        } else if c == '{' {
          depth := depth + 1;
        } else if c == '}' {
          if depth == 1 {
            var body := source[start..pos];
            pos := pos + 1;
            return Ok(Trim(body));
          }
          depth := depth - 1;
        } else if CommentAt(source, pos) {
          pos := ScanTo(source, pos, IsNewline);
          continue;
        }
        pos := pos + 1;
      }
      return Err(Unclosed('{', start));
    }

    method ReadParenBlock() returns (r: Outcome<string>)
      requires pos <= |source|
      modifies this
      ensures Follows(ParenBlock(source, old(pos)), r, pos)
    {
      if pos >= |source| || source[pos] != '(' {
        return Err(ExpectedOpening('(', pos));
      }
      pos := pos + 1;
      var start := pos;
      var depth, mode := 1, Code;
      while pos < |source| && depth > 0
        invariant depth > 0 && start <= pos
        invariant ParenClose(source, pos, depth, mode) == ParenClose(source, start, 1, Code)
        decreases |source| - pos
      {
        var c := source[pos];
        if mode.InString? {
          if c == '\\' {
            pos := pos + 1;
          } else if c == mode.quote {
            mode := Code;
          }
          pos := pos + 1;
          continue;
        }
        if IsAnyQuote(c) {
          mode := InString(c);
        } else if c == '(' {
          depth := depth + 1;
        } else if c == ')' {
          if depth == 1 {
            var body := source[start..pos];
            pos := pos + 1;
            return Ok(Trim(body));
          }
          depth := depth - 1;
        }
        pos := pos + 1;
      }
      return Err(Unclosed('(', start));
    }

    /** A word, white space, and a braced block. */
    method ReadBlockAfterWord() returns (word: string, r: Outcome<string>)
      requires pos <= |source|
      modifies this
      ensures word == source[WordAt(source, old(pos)).0..WordAt(source, old(pos)).1]
      ensures Follows(BracedBlock(source, AfterWord(source, old(pos))), r, pos)
    {
      word := ReadWord();
      SkipWhitespace();
      r := ReadBracedBlock();
    }

    /** A character inside a string, and the one an escape protects. */
    method PassStringChar(mode: Mode, ghost depth: nat) returns (next: Mode)
      requires pos < |source| && mode.InString?
      modifies this
      ensures old(pos) < pos <= |source| + 1
      ensures ReturnEnd(source, pos, depth, next) == ReturnEnd(source, old(pos), depth, mode)
    {
      next := mode;
      var c := source[pos];
      if c == '\\' {
        pos := pos + 1;
      } else if c == mode.quote {
        next := Code;
      }
      pos := pos + 1;
    }

    /** The loop of parseReturn: it leaves the cursor where the expression stops. */
    method SkipReturnText()
      requires pos <= |source|
      modifies this
      ensures pos == ReturnEnd(source, old(pos), 0, Code)
    {
      var depth, mode := 0, Code;
      ghost var start, end := pos, ReturnEnd(source, pos, depth, mode);
      while pos < |source|
        invariant start <= pos <= |source| + 1 && depth >= 0
        invariant ReturnEnd(source, pos, depth, mode) == end
        decreases |source| + 1 - pos
      {
        var c := source[pos];
        if mode.InString? {
          mode := PassStringChar(mode, depth);
          continue;
        }
        if IsAnyQuote(c) {
          mode := InString(c);
          pos := pos + 1;
          continue;
        }
        if IsOpening(c) {
          depth := depth + 1;
        } else if IsClosing(c) {
          if depth == 0 {
            break;
          }
          depth := depth - 1;
        } else if depth == 0 && c == '\n' {
          var stop := PastLineBreak();
          if stop {
            break;
          }
          continue;
        }
        pos := pos + 1;
      }
    }

    /** A line break outside brackets: the expression stops before a top-level keyword. */
    method PastLineBreak() returns (stop: bool)
      requires pos < |source| && source[pos] == '\n'
      modifies this
      ensures pos <= |source| && (stop || old(pos) < pos)
      ensures ReturnEnd(source, old(pos), 0, Code) == if stop then pos else ReturnEnd(source, pos, 0, Code)
    {
      var saved := pos;
      pos := pos + 1;
      SkipWhitespace();
      ReturnBreaks(source, saved, pos);
      if pos >= |source| {
        return true;
      }
      var next := PeekKeyword(source, pos);
      if IsTopLevel(next) {
        pos := saved;
        return true;
      }
      return false;
    }

    method ParseReturnItem(flow: FlowDecl) returns (r: Outcome<FlowDecl>)
      requires pos <= |source|
      modifies this
      ensures Follows(ParseReturn(source, old(pos), flow), r, pos)
    {
      var word := ReadWord();
      SkipWhitespace();
      var start := pos;
      SkipReturnText();
      if pos > |source| {
        return Panic;
      }
      return Ok(flow.(returnBody := Trim(source[start..pos])));
    }

    method ParseEntrypointItem(flow: FlowDecl) returns (r: Outcome<FlowDecl>)
      requires pos <= |source|
      modifies this
      ensures Follows(ParseEntrypoint(source, old(pos), flow), r, pos)
    {
      var word := ReadWord();
      r := ReadEntrypointBlock(word, flow);
    }

    method ReadEntrypointBlock(word: string, flow: FlowDecl) returns (r: Outcome<FlowDecl>)
      requires pos <= |source|
      modifies this
      ensures Follows(EntrypointAt(source, word, Find(source, old(pos), NotWhite), flow), r, pos)
    {
      var dot := ScanTo(word, 0, IsDot);
      if dot == |word| {
        return Err(BadEntrypoint(word));
      }
      SkipWhitespace();
      var body := ReadBracedBlock();
      if !body.Ok? {
        return Err(body.error);
      }
      r := ConfigureFlow(flow, word[dot + 1..], body.value);
      FollowsHere(r, pos);
    }

    method ParsePropertiesItem(flow: FlowDecl) returns (r: Outcome<FlowDecl>)
      requires pos <= |source|
      modifies this
      ensures Follows(ParseProperties(source, old(pos), flow), r, pos)
    {
      var _, body := ReadBlockAfterWord();
      if !body.Ok? {
        return Err(body.error);
      }
      var parsed := ParseSimpleMap(body.value);
      match parsed {
        case Err(e) => return Err(e);
        case Panic => return Panic;
        case Hang => return Hang;
        case Ok(props) =>
          var resolved := ResolveAll(props);
          return Ok(flow.(properties := resolved));
      }
    }

    method ParseOnErrorItem(flow: FlowDecl) returns (r: Outcome<FlowDecl>)
      requires pos <= |source|
      modifies this
      ensures Follows(ParseOnError(source, old(pos), flow), r, pos)
    {
      var _, body := ReadBlockAfterWord();
      if !body.Ok? {
        return Err(body.error);
      }
      return Ok(flow.(onError := body.value));
    }

    method ParseStepOptions() returns (r: Outcome<StepOptions>)
      requires pos <= |source|
      modifies this
      ensures Follows(ParseOptions(source, old(pos)), r, pos)
    {
      if pos >= |source| || source[pos] != '(' {
        return Ok(NO_OPTIONS);
      }
      var text := ReadParenBlock();
      if !text.Ok? {
        return Err(text.error);
      }
      r := ApplyStepOptions(text.value);
    }

    /** Reads one suffix block if there is one. */
    method ParseStepSuffix(step: StepDecl) returns (r: Outcome<Option<StepDecl>>)
      requires pos <= |source|
      modifies this
      ensures Follows(OneSuffix(source, old(pos), step), r, pos)
    {
      SkipWhitespaceAndComments();
      var word := PeekKeyword(source, pos);
      if word != "fallback" && word != "compensate" {
        return Ok(None);
      }
      var _, body := ReadBlockAfterWord();
      if !body.Ok? {
        return Err(body.error);
      }
      return Ok(Some(if word == "fallback" then step.(fallback := body.value) else step.(compensate := body.value)));
    }

    /** One turn of the loop over suffixes: it ends the loop, or goes on with a longer step. */
    method TakeSuffix(step: StepDecl, ghost left: nat, ghost whole: Outcome<(StepDecl, nat)>)
      returns (end: Option<Outcome<StepDecl>>, next: StepDecl, ghost rest: nat)
      requires pos <= |source| && 0 < left && whole == ParseSuffixes(source, pos, left, step)
      modifies this
      ensures end.Some? ==> Follows(whole, end.value, pos)
      ensures rest == left - 1
      ensures end.None? ==> pos <= |source| && whole == ParseSuffixes(source, pos, rest, next)
    {
      next, rest := step, left - 1;
      var suffix := ParseStepSuffix(step);
      match suffix {
        case Err(e) => return Some(Err(e)), step, rest;
        case Panic => return Some(Panic), step, rest;
        case Hang => return Some(Hang), step, rest;
        case Ok(None) => return Some(Ok(step)), step, rest;
        case Ok(Some(longer)) =>
          SameCount(source, pos, left - 1, rest, longer);
          return None, longer, rest;
      }
    }

    /** The loop over suffixes, from the position of the step's body on. */
    method TakeSuffixes(step0: StepDecl, ghost whole: Outcome<(StepDecl, nat)>) returns (r: Outcome<StepDecl>)
      requires pos <= |source| && whole == ParseSuffixes(source, pos, 2, step0)
      modifies this
      ensures Follows(whole, r, pos)
    {
      var step := step0;
      var i := 0;
      ghost var left: nat := 2;
      while i < 2
        invariant 0 <= i <= 2 && left == 2 - i && pos <= |source|
        invariant whole == ParseSuffixes(source, pos, left, step)
      {
        var end;
        end, step, left := TakeSuffix(step, left, whole);
        if end.Some? {
          return end.value;
        }
        i := i + 1;
      }
      return Ok(step);
    }

    method ParseStepSuffixes(step: StepDecl) returns (r: Outcome<StepDecl>)
      requires pos <= |source|
      modifies this
      ensures Follows(ParseSuffixes(source, old(pos), 2, step), r, pos)
    {
      r := TakeSuffixes(step, ParseSuffixes(source, pos, 2, step));
    }

    method ParseStepStart() returns (r: Outcome<StepDecl>)
      requires pos <= |source|
      modifies this
      ensures Follows(ParseStepHead(source, old(pos)), r, pos)
    {
      var _ := ReadWord();
      SkipWhitespace();
      var name := ReadStepName();
      if name == "" {
        return Err(ExpectedStepName);
      }
      SkipWhitespace();
      var options := ParseStepOptions();
      match options {
        case Err(e) => return Err(e);
        case Panic => return Panic;
        case Hang => return Hang;
        case Ok(_) =>
      }
      SkipWhitespace();
      var body := ReadBracedBlock();
      if !body.Ok? {
        return Err(body.error);
      }
      return Ok(StepDecl(name, options.value, body.value, "", ""));
    }

    method ParseStepItem(flow: FlowDecl) returns (r: Outcome<FlowDecl>)
      requires pos <= |source|
      modifies this
      ensures Follows(ParseStep(source, old(pos), flow), r, pos)
    {
      var step := ParseStepStart();
      if step.Ok? {
        step := ParseStepSuffixes(step.value);
      }
      match step {
        case Err(e) => return Err(e);
        case Panic => return Panic;
        case Hang => return Hang;
        case Ok(s) => return Ok(flow.(steps := flow.steps + [s]));
      }
    }

    /** parse: the top-level loop. A turn that does not move the cursor repeats forever, so
        it is reported instead of being taken again. */
    method Parse() returns (r: Outcome<FlowDecl>)
      requires pos == 0
      modifies this
      ensures r == ParseFlow(source)
    {
      var flow := EMPTY_FLOW;
      SkipWhitespaceAndComments();
      while pos < |source|
        invariant pos <= |source|
        invariant ParseItems(source, pos, flow) == ParseFlow(source)
        decreases |source| - pos
      {
        var before := pos;
        r := ParseOne(flow);
        if !r.Ok? {
          return;
        }
        SkipWhitespaceAndComments();
        if pos == before {
          return Hang;
        }
        flow := r.value;
      }
      return Ok(flow);
    }

    method ParseOne(flow: FlowDecl) returns (r: Outcome<FlowDecl>)
      requires pos < |source|
      modifies this
      ensures Follows(ParseItem(source, old(pos), flow), r, pos)
    {
      var keyword := PeekKeyword(source, pos);
      if "entrypoint" <= keyword {
        r := ParseEntrypointItem(flow);
      } else if keyword == "properties" {
        r := ParsePropertiesItem(flow);
      } else if keyword == "step" {
        r := ParseStepItem(flow);
      } else if keyword == "on_error" {
        r := ParseOnErrorItem(flow);
      } else if keyword == "return" {
        r := ParseReturnItem(flow);
      } else {
        r := Err(Unexpected(pos));
      }
    }
  }

  /** Resolves the env calls among the properties, key by key. */
  method ResolveAll(props: Contents) returns (resolved: Contents)
    ensures resolved == ResolveCalls(props) && EnvTexts.PropertiesBecome(props, resolved)
  {
    resolved := props;
    var todo := props.Keys;
    while todo != {}
      invariant todo <= props.Keys && resolved.Keys == props.Keys
      invariant forall k :: k in todo ==> resolved[k] == props[k]
      invariant forall k :: k in props && k !in todo ==> resolved[k] == ResolveCalls(props)[k]
      decreases todo
    {
      var k :| k in todo;
      if resolved[k].Text? {
        resolved := resolved[k := Text(ResolveEnvCall(resolved[k].text))];
      }
      todo := todo - {k};
    }
    DslProperties.ResolvedBecome(props);
  }
}
