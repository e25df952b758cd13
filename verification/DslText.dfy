/** The scanners of the flow language as functions on text.

    Text is a sequence of characters; every character the scanners test is ASCII, so
    positions count characters instead of bytes. Two ways the Go code can go wrong are
    outcomes here: a slice out of range, and a loop that repeats without progress. */
module DslText {
  import opened StoreModel

  datatype ParseError =
    | ExpectedOpening(opening: char, at: nat)
    | Unclosed(opening: char, at: nat)
    | UnclosedArray
    | ExpectedColon(key: string)
    | InKey(key: string, error: ParseError)
    | BadEntrypoint(word: string)
    | ExpectedStepName
    | BadOptions(field: string)
    | Unexpected(at: nat)

  /** What a scan ends in. */
  datatype Outcome<+T> =
    | Ok(value: T)
    | Err(error: ParseError)
    | Panic // a slice with bounds out of range
    | Hang // a loop that goes round without moving

  // ---------------------------------------------------------------------------
  // Characters
  // ---------------------------------------------------------------------------

  /** unicode.IsSpace. */
  predicate IsSpace(c: char) {
    || c == ' ' || '\t' <= c <= '\r' || c == '\U{85}' || c == '\U{A0}' || c == '\U{1680}'
    || '\U{2000}' <= c <= '\U{200A}' || c == '\U{2028}' || c == '\U{2029}' || c == '\U{202F}'
    || c == '\U{205F}' || c == '\U{3000}'
  }

  predicate IsWordChar(c: char) {
    'a' <= c <= 'z' || 'A' <= c <= 'Z' || '0' <= c <= '9' || c == '_'
  }

  predicate IsWhite(c: char) {
    c == ' ' || c == '\t' || c == '\n' || c == '\r'
  }

  predicate NotSeparator(c: char) {
    !IsWhite(c) && c != ','
  }

  predicate NotWhite(c: char) {
    !IsWhite(c)
  }

  predicate NotBlank(c: char) {
    c != ' ' && c != '\t'
  }

  predicate IsNewline(c: char) {
    c == '\n'
  }

  predicate EndsKey(c: char) {
    c == ':' || c == ' ' || c == '\n'
  }

  predicate IsColon(c: char) {
    c == ':'
  }

  predicate NotInWord(c: char) {
    !IsWordChar(c) && c != '.'
  }

  predicate NotInName(c: char) {
    !IsWordChar(c)
  }

  predicate IsQuote(c: char) {
    c == '"' || c == '\''
  }

  predicate IsAnyQuote(c: char) {
    c == '"' || c == '\'' || c == '`'
  }

  predicate IsOpening(c: char) {
    c == '(' || c == '{' || c == '['
  }

  predicate IsClosing(c: char) {
    c == ')' || c == '}' || c == ']'
  }

  // ---------------------------------------------------------------------------
  // Words and spaces
  // ---------------------------------------------------------------------------

  /** The first position from i on whose character stops the scan, or the end. */
  function Find(s: string, i: nat, stop: char -> bool): (r: nat)
    requires i <= |s|
    ensures i <= r <= |s|
    ensures forall k :: i <= k < r ==> !stop(s[k])
    ensures r < |s| ==> stop(s[r])
    decreases |s| - i
  {
    if i == |s| || stop(s[i]) then i else Find(s, i + 1, stop)
  }

  /** The scan stops at r when nothing before r stops it and r does. */
  lemma {:induction false} FindIs(s: string, i: nat, stop: char -> bool, r: nat)
    requires i <= r <= |s|
    requires forall k :: i <= k < r ==> !stop(s[k])
    requires r < |s| ==> stop(s[r])
    ensures Find(s, i, stop) == r
    decreases r - i
  {
    if i < r {
      FindIs(s, i + 1, stop, r);
    }
  }

  function TrimLeft(s: string): string {
    if s != "" && IsSpace(s[0]) then TrimLeft(s[1..]) else s
  }

  function TrimRight(s: string): string {
    if s != "" && IsSpace(s[|s| - 1]) then TrimRight(s[..|s| - 1]) else s
  }

  /** strings.TrimSpace. */
  function Trim(s: string): (r: string)
    ensures |r| <= |s|
  {
    TrimShortens(s);
    TrimRight(TrimLeft(s))
  }

  lemma TrimShortens(s: string)
    ensures |TrimLeft(s)| <= |s|
    ensures |TrimRight(TrimLeft(s))| <= |TrimLeft(s)|
  {
    LeftShortens(s);
    RightShortens(TrimLeft(s));
  }

  lemma LeftShortens(s: string)
    ensures |TrimLeft(s)| <= |s|
  {
  }

  lemma RightShortens(s: string)
    ensures |TrimRight(s)| <= |s|
  {
  }

  /** Text that neither begins nor ends with a space is its own trim. */
  lemma TrimIdle(s: string)
    requires s != "" ==> !IsSpace(s[0]) && !IsSpace(s[|s| - 1])
    ensures Trim(s) == s
  {
  }

  predicate CommentAt(s: string, i: nat) {
    i + 1 < |s| && s[i] == '/' && s[i + 1] == '/'
  }

  /** skipWhitespaceAndComments. */
  function SkipSpace(s: string, i: nat): (r: nat)
    requires i <= |s|
    ensures i <= r <= |s|
    ensures r < |s| ==> !IsWhite(s[r]) && !CommentAt(s, r)
    decreases |s| - i
  {
    var j := Find(s, i, NotWhite);
    if CommentAt(s, j) then SkipSpace(s, Find(s, j, IsNewline)) else j
  }

  /** peekKeyword: the next word, wherever it starts. */
  function PeekKeyword(s: string, i: nat): string
    requires i <= |s|
  {
    var start := Find(s, i, IsWordChar);
    s[start..Find(s, start, NotInWord)]
  }

  // ---------------------------------------------------------------------------
  // Blocks
  // ---------------------------------------------------------------------------

  /** Inside a string up to its quote, or outside any. */
  datatype Mode = Code | InString(quote: char)

  /** The closing brace readBracedBlock finds from i on, or a position past the text. */
  function BraceClose(s: string, i: nat, depth: nat, mode: Mode): (k: nat)
    requires depth > 0
    ensures k >= i
    decreases |s| - i
  {
    if i >= |s| then i
    else
      var c := s[i];
      if mode.InString? then
        (if c == '\\' then BraceClose(s, i + 2, depth, mode)
         else BraceClose(s, i + 1, depth, if c == mode.quote then Code else mode))
      else if IsAnyQuote(c) then BraceClose(s, i + 1, depth, InString(c))
      else if c == '{' then BraceClose(s, i + 1, depth + 1, Code)
      else if c == '}' then (if depth == 1 then i else BraceClose(s, i + 1, depth - 1, Code))
      else if CommentAt(s, i) then BraceClose(s, Find(s, i, IsNewline), depth, Code)
      else BraceClose(s, i + 1, depth, Code)
  }

  /** The trimmed text between braces, and the position after the closing one. */
  function BracedBlock(s: string, i: nat): (r: Outcome<(string, nat)>)
    ensures r.Ok? ==> i < r.value.1 <= |s|
  {
    if i >= |s| || s[i] != '{' then Err(ExpectedOpening('{', i))
    else
      var k := BraceClose(s, i + 1, 1, Code);
      if k < |s| then Ok((Trim(s[i + 1..k]), k + 1)) else Err(Unclosed('{', i + 1))
  }

  function ParenClose(s: string, i: nat, depth: nat, mode: Mode): (k: nat)
    requires depth > 0
    ensures k >= i
    decreases |s| - i
  {
    if i >= |s| then i
    else
      var c := s[i];
      if mode.InString? then
        (if c == '\\' then ParenClose(s, i + 2, depth, mode)
         else ParenClose(s, i + 1, depth, if c == mode.quote then Code else mode))
      else if IsAnyQuote(c) then ParenClose(s, i + 1, depth, InString(c))
      else if c == '(' then ParenClose(s, i + 1, depth + 1, Code)
      else if c == ')' then (if depth == 1 then i else ParenClose(s, i + 1, depth - 1, Code))
      else ParenClose(s, i + 1, depth, Code)
  }

  function ParenBlock(s: string, i: nat): (r: Outcome<(string, nat)>)
    ensures r.Ok? ==> i < r.value.1 <= |s|
  {
    if i >= |s| || s[i] != '(' then Err(ExpectedOpening('(', i))
    else
      var k := ParenClose(s, i + 1, 1, Code);
      if k < |s| then Ok((Trim(s[i + 1..k]), k + 1)) else Err(Unclosed('(', i + 1))
  }

  // ---------------------------------------------------------------------------
  // Values
  // ---------------------------------------------------------------------------

  /** The closing quote from i on, or a position past the text. */
  function QuoteClose(s: string, i: nat, quote: char): (k: nat)
    ensures k >= i
    decreases |s| - i
  {
    if i >= |s| then i
    else if s[i] == '\\' then QuoteClose(s, i + 2, quote)
    else if s[i] == quote then i
    else QuoteClose(s, i + 1, quote)
  }

  function ReadQuoted(s: string, i: nat): (r: Outcome<(Value, nat)>)
    requires i < |s|
    ensures r.Ok? ==> i < r.value.1 <= |s|
    ensures !r.Panic? && !r.Hang?
  {
    var k := QuoteClose(s, i + 1, s[i]);
    if k < |s| then Ok((Text(s[i + 1..k]), k + 1)) else Err(Unclosed(s[i], i))
  }

  datatype Depths = Depths(square: nat, paren: nat, curly: nat)

  predicate AllZero(d: Depths) {
    d.square == 0 && d.paren == 0 && d.curly == 0
  }

  /** A character at which an unquoted value ends, at these depths. */
  predicate EndsBare(c: char, d: Depths) {
    AllZero(d) && (c == ']' || c == '}' || c == ',' || c == '\n')
  }

  function Nest(c: char, d: Depths): Depths {
    if c == '[' then d.(square := d.square + 1)
    else if c == ']' then (if d.square > 0 then d.(square := d.square - 1) else d)
    else if c == '(' then d.(paren := d.paren + 1)
    else if c == ')' then (if d.paren > 0 then d.(paren := d.paren - 1) else d)
    else if c == '{' then d.(curly := d.curly + 1)
    else if c == '}' then (if d.curly > 0 then d.(curly := d.curly - 1) else d)
    else d
  }

  /** Where an unquoted value ends: one past the text if an escape runs over it. */
  function BareEnd(s: string, i: nat, d: Depths, mode: Mode): (k: nat)
    requires i <= |s| + 1
    ensures i <= k <= |s| + 1
    decreases |s| + 1 - i
  {
    if i >= |s| then i
    else
      var c := s[i];
      if mode.InString? then
        (if c == '\\' then BareEnd(s, i + 2, d, mode)
         else BareEnd(s, i + 1, d, if c == mode.quote then Code else mode))
      else if IsAnyQuote(c) then BareEnd(s, i + 1, d, InString(c))
      else if EndsBare(c, d) then i
      else BareEnd(s, i + 1, Nest(c, d), Code)
  }

  function ReadBare(s: string, i: nat): (r: Outcome<(Value, nat)>)
    requires i <= |s|
    ensures r.Ok? ==> i <= r.value.1 <= |s|
    ensures !r.Hang?
  {
    var k := BareEnd(s, i, Depths(0, 0, 0), Code);
    if k <= |s| then Ok((Text(Trim(s[i..k])), k)) else Panic
  }

  /** Where the brace-matching loop of readNestedMap stops. */
  function NestedEnd(s: string, i: nat, depth: nat, mode: Mode): (k: nat)
    requires i <= |s| + 1
    ensures i <= k <= |s| + 1
    decreases |s| + 1 - i
  {
    if i >= |s| || depth == 0 then i
    else
      var c := s[i];
      if mode.InString? then
        (if c == '\\' then NestedEnd(s, i + 2, depth, mode)
         else NestedEnd(s, i + 1, depth, if c == mode.quote then Code else mode))
      else if IsQuote(c) then NestedEnd(s, i + 1, depth, InString(c))
      else if c == '{' then NestedEnd(s, i + 1, depth + 1, Code)
      else if c == '}' then NestedEnd(s, i + 1, depth - 1, Code)
      else NestedEnd(s, i + 1, depth, Code)
  }

  function ReadValue(s: string, i: nat): (r: Outcome<(Value, nat)>)
    requires i <= |s|
    ensures r.Ok? ==> i <= r.value.1 <= |s| + 1
    decreases |s| - i, 0
  {
    if i == |s| then Ok((Text(""), i))
    else if IsQuote(s[i]) then ReadQuoted(s, i)
    else if s[i] == '[' then ReadItems(s, i + 1, [])
    else if s[i] == '{' then ReadNested(s, i)
    else ReadBare(s, i)
  }

  /** The rest of an array from position i on; past the end an open array is accepted
      if only separators were left. */
  function ReadItems(s: string, i: nat, items: seq<Value>): (r: Outcome<(Value, nat)>)
    requires i <= |s| + 1
    ensures r.Ok? ==> i <= r.value.1 <= |s| + 1
    decreases if i <= |s| then |s| - i else 0, 1
  {
    if i >= |s| then Err(UnclosedArray)
    else
      var j := Find(s, i, NotSeparator);
      if j == |s| || s[j] == ']' then Ok((List(items), j + 1))
      else
        match ReadValue(s, j)
        case Ok((value, p)) => if p == j then Hang else ReadItems(s, p, items + [value])
        case Err(e) => Err(e)
        case Panic => Panic
        case Hang => Hang
  }

  function ReadNested(s: string, i: nat): (r: Outcome<(Value, nat)>)
    requires i < |s|
    ensures r.Ok? ==> i < r.value.1 <= |s| + 1
    decreases |s| - i - 1, 4
  {
    var k := NestedEnd(s, i + 1, 1, Code);
    if k - 1 < i + 1 then Panic
    else
      match ParseMap(s[i + 1..k - 1])
      case Ok(m) => Ok((Map(m), k))
      case Err(e) => Err(e)
      case Panic => Panic
      case Hang => Hang
  }

  /** parseSimpleMap. */
  function ParseMap(block: string): Outcome<Contents>
    decreases |block|, 3
  {
    ParseFields(Trim(block), 0, map[])
  }

  function ParseFields(s: string, i: nat, acc: Contents): Outcome<Contents>
    requires i <= |s| + 1
    decreases if i <= |s| then |s| - i else 0, 2
  {
    if i >= |s| then Ok(acc)
    else
      var j := Find(s, i, NotSeparator);
      if j == |s| then Ok(acc)
      else if CommentAt(s, j) then ParseFields(s, Find(s, j, IsNewline), acc)
      else
        match ReadKey(s, j)
        case NoKey => Ok(acc)
        case NoColon(key) => Err(ExpectedColon(key))
        case Key(key, v) =>
          match ReadValue(s, v)
          case Ok((value, p)) => ParseFields(s, p, acc[key := value])
          case Err(error) => Err(InKey(key, error))
          case Panic => Panic
          case Hang => Hang
  }

  /** A key and where its value starts; an empty key ends the map silently. */
  datatype KeyRead = NoKey | NoColon(key: string) | Key(key: string, v: nat)

  function ReadKey(s: string, j: nat): (r: KeyRead)
    requires j <= |s|
    ensures r.Key? ==> j < r.v <= |s|
  {
    var e := Find(s, j, EndsKey);
    var key := Trim(s[j..e]);
    if key == "" then NoKey
    else
      var colon := Find(s, e, IsColon);
      if colon == |s| then NoColon(key) else Key(key, Find(s, colon + 1, NotBlank))
  }
}
