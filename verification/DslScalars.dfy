/** Strings and unquoted values: a character-by-character account of strings, escapes and
    brackets, and where an unquoted value ends by it. */
module DslScalars {
  import opened StoreModel
  import opened DslText
  import opened DslPlaces

  // ---------------------------------------------------------------------------
  // Strings
  // ---------------------------------------------------------------------------

  /** Raw text of a string: no unescaped quote and no dangling backslash. */
  predicate RawText(text: string, quote: char) {
    text == "" ||
    (if text[0] == '\\' then |text| >= 2 && RawText(text[2..], quote)
     else text[0] != quote && RawText(text[1..], quote))
  }

  /** How far the scanners go past one element of a raw text. */
  function Element(text: string): nat
    requires text != ""
  {
    if text[0] == '\\' then 2 else 1
  }

  lemma RawStep(s: string, i: nat, text: string, quote: char)
    requires text != "" && quote != '\\' && RawText(text, quote) && At(s, i, text + [quote])
    ensures Element(text) <= |text| && RawText(text[Element(text)..], quote)
    ensures At(s, i + Element(text), text[Element(text)..] + [quote])
    ensures i + |text| < |s| && s[i] == text[0] != quote
  {
    var n := Element(text);
    AtTail(s, i, text + [quote], n);
    assert (text + [quote])[n..] == text[n..] + [quote];
    AtIndex(s, i, text + [quote], 0);
  }

  lemma {:induction false} QuoteCloses(s: string, i: nat, text: string, quote: char)
    requires quote != '\\' && RawText(text, quote) && At(s, i, text + [quote])
    ensures QuoteClose(s, i, quote) == i + |text|
    decreases |text|
  {
    if text == "" {
      AtIndex(s, i, text + [quote], 0);
    } else {
      RawStep(s, i, text, quote);
      QuoteCloses(s, i + Element(text), text[Element(text)..], quote);
    }
  }

  // ---------------------------------------------------------------------------
  // Where an unquoted value ends
  // ---------------------------------------------------------------------------

  datatype Scan = Free | InQuotes(quote: char) | Escaping(quote: char)

  function ScanStep(m: Scan, c: char): Scan {
    match m
    case Free => if c == '"' || c == '\'' || c == '`' then InQuotes(c) else Free
    case InQuotes(q) => if c == '\\' then Escaping(q) else if c == q then Free else m
    case Escaping(q) => InQuotes(q)
  }

  /** The state before position k, started outside strings at position i. */
  function ScanAt(s: string, i: nat, k: nat): Scan
    requires i <= k <= |s|
  {
    if k == i then Free else ScanStep(ScanAt(s, i, k - 1), s[k - 1])
  }

  /** Outside strings at position k. */
  predicate Outside(s: string, i: nat, k: nat)
    requires i <= k <= |s|
  {
    ScanAt(s, i, k).Free?
  }

  predicate Matches(m: Scan, mode: Mode) {
    match m
    case Free => mode == Code
    case InQuotes(q) => mode == InString(q)
    case Escaping(_) => false
  }

  /** One level more, or one less if there is one. */
  function Level(n: nat, c: char, opening: char, closing: char): nat {
    if c == opening then n + 1 else if c == closing && n > 0 then n - 1 else n
  }

  function DepthsAt(s: string, i: nat, k: nat): Depths
    requires i <= k <= |s|
  {
    if k == i then Depths(0, 0, 0)
    else
      var d, c := DepthsAt(s, i, k - 1), s[k - 1];
      if Outside(s, i, k - 1) then
        Depths(Level(d.square, c, '[', ']'), Level(d.paren, c, '(', ')'), Level(d.curly, c, '{', '}'))
      else d
  }

  /** Here an unquoted value that began at i would end. */
  predicate BareStops(s: string, i: nat, k: nat)
    requires i <= k
  {
    && k < |s| && Outside(s, i, k) && DepthsAt(s, i, k) == Depths(0, 0, 0)
    && (s[k] == ',' || s[k] == '\n' || s[k] == ']' || s[k] == '}')
  }

  /** The scan from i ends at k: at the first stop, or past the text if there is none. */
  predicate BareEndsAt(s: string, i: nat, j: nat, k: nat)
    requires i <= j <= |s|
  {
    && (forall m :: j <= m < k && m < |s| ==> !BareStops(s, i, m))
    && if k < |s| then j <= k && BareStops(s, i, k)
       else k == if ScanAt(s, i, |s|).Escaping? then |s| + 1 else |s|
  }

  lemma BareSteps(s: string, i: nat, j: nat, j': nat, k: nat)
    requires i <= j < j' <= |s| && BareEndsAt(s, i, j', k)
    requires forall m :: j <= m < j' ==> !BareStops(s, i, m)
    ensures BareEndsAt(s, i, j, k)
  {
  }

  lemma {:induction false} BareFollows(s: string, i: nat, j: nat, d: Depths, mode: Mode)
    requires i <= j <= |s| && d == DepthsAt(s, i, j) && Matches(ScanAt(s, i, j), mode)
    ensures BareEndsAt(s, i, j, BareEnd(s, j, d, mode))
    decreases |s| - j, 1
  {
    if j < |s| {
      var c := s[j];
      if mode.InString? && c == '\\' {
        BareFollowsEscape(s, i, j, d, mode);
      } else if mode.InString? || !EndsBare(c, d) {
        assert ScanAt(s, i, j + 1) == ScanStep(ScanAt(s, i, j), c);
        var mode' := if mode.InString? then (if c == mode.quote then Code else mode)
                     else if IsAnyQuote(c) then InString(c) else Code;
        BareFollows(s, i, j + 1, DepthsAt(s, i, j + 1), mode');
        BareSteps(s, i, j, j + 1, BareEnd(s, j, d, mode));
      }
    }
  }

  lemma {:induction false} BareFollowsEscape(s: string, i: nat, j: nat, d: Depths, mode: Mode)
    requires i <= j < |s| && d == DepthsAt(s, i, j) && Matches(ScanAt(s, i, j), mode)
    requires mode.InString? && s[j] == '\\'
    ensures BareEndsAt(s, i, j, BareEnd(s, j, d, mode))
    decreases |s| - j, 0
  {
    assert ScanAt(s, i, j + 1) == ScanStep(ScanAt(s, i, j), s[j]);
    if j + 2 <= |s| {
      BareFollows(s, i, j + 2, d, mode);
      BareSteps(s, i, j, j + 2, BareEnd(s, j, d, mode));
    }
  }

  /** An unquoted value ends at the first comma, line break or closing bracket outside strings
      and brackets, and only there; if there is none it goes on to the end of the text. */
  lemma BareEndsWhere(s: string, i: nat, k: nat)
    requires i <= k <= |s| && i < |s|
    ensures ReadBare(s, i) == Ok((Text(Trim(s[i..k])), k)) <==>
            && (forall m :: i <= m < k ==> !BareStops(s, i, m))
            && if k < |s| then BareStops(s, i, k) else !ScanAt(s, i, |s|).Escaping?
  {
    BareFollows(s, i, i, Depths(0, 0, 0), Code);
  }

  // ---------------------------------------------------------------------------
  // Whole values
  // ---------------------------------------------------------------------------

  /** A text that is one unquoted value wherever it stands before a delimiter: an expression
      with its spaces, strings and calls. */
  predicate BareText(text: string) {
    && text != "" && Tight(text) && !IsQuote(text[0]) && text[0] != '[' && text[0] != '{'
    && (forall k :: 0 <= k < |text| ==> !BareStops(text, 0, k))
    && Outside(text, 0, |text|) && AllZero(DepthsAt(text, 0, |text|))
  }

  /** The scan over such a text from position j of it on. */
  lemma {:induction false} BareRuns(s: string, i: nat, text: string, j: nat, d: Depths, mode: Mode, k: nat)
    requires At(s, i, text) && BareText(text) && j <= |text| && k == i + |text|
    requires d == DepthsAt(text, 0, j) && Matches(ScanAt(text, 0, j), mode)
    ensures BareEnd(s, i + j, d, mode) == BareEnd(s, k, Depths(0, 0, 0), Code)
    decreases |text| - j
  {
    if j < |text| {
      AtIndex(s, i, text, j);
      var c := text[j];
      assert ScanAt(text, 0, j + 1) == ScanStep(ScanAt(text, 0, j), c);
      if mode.InString? && c == '\\' {
        BareEscape(text, j);
        BareRuns(s, i, text, j + 2, d, mode, k);
      } else {
        assert !BareStops(text, 0, j);
        var mode' := if mode.InString? then (if c == mode.quote then Code else mode)
                     else if IsAnyQuote(c) then InString(c) else Code;
        BareRuns(s, i, text, j + 1, DepthsAt(text, 0, j + 1), mode', k);
      }
    }
  }

  lemma BareEscape(text: string, j: nat)
    requires BareText(text) && j < |text| && text[j] == '\\' && ScanAt(text, 0, j).InQuotes?
    ensures j + 2 <= |text| && ScanAt(text, 0, j + 2) == ScanAt(text, 0, j)
    ensures DepthsAt(text, 0, j + 2) == DepthsAt(text, 0, j)
  {
    assert ScanAt(text, 0, j + 1) == ScanStep(ScanAt(text, 0, j), text[j]);
    assert j + 1 < |text|;
    assert ScanAt(text, 0, j + 2) == ScanStep(ScanAt(text, 0, j + 1), text[j + 1]);
    assert DepthsAt(text, 0, j + 1) == DepthsAt(text, 0, j);
  }

  predicate NotInline(c: char) {
    c != ' ' && c != '\t' && c != '\r'
  }

  /** Behind spaces comes what ends an unquoted value, or the end of the text. */
  predicate Delimited(s: string, q: nat)
    requires q <= |s|
  {
    var e := Find(s, q, NotInline);
    e < |s| ==> s[e] == ',' || s[e] == '\n' || s[e] == ']' || s[e] == '}'
  }

  lemma {:induction false} SpacesRun(s: string, q: nat, e: nat)
    requires q <= e <= |s| && (forall m :: q <= m < e ==> !NotInline(s[m]))
    requires e < |s| ==> EndsBare(s[e], Depths(0, 0, 0))
    ensures BareEnd(s, q, Depths(0, 0, 0), Code) == e
    decreases e - q
  {
    if q < e {
      SpacesRun(s, q + 1, e);
    }
  }

  /** What stands behind a value: an unquoted one goes on to the delimiter. */
  function AfterValue(bare: bool, s: string, q: nat): (e: nat)
    requires q <= |s|
    ensures q <= e <= |s|
  {
    if bare then Find(s, q, NotInline) else q
  }

  lemma SpacesTrim(s: string, i: nat, q: nat, e: nat, text: string)
    requires At(s, i, text) && q == i + |text| <= e <= |s| && Tight(text)
    requires forall m :: q <= m < e ==> !NotInline(s[m])
    ensures Trim(s[i..e]) == text
  {
    var pad := s[q..e];
    AtText(s, i, text);
    assert s[i..e] == "" + text + pad;
    forall k | 0 <= k < |pad| ensures IsSpace(pad[k]) {
      assert !NotInline(s[q + k]);
    }
    TrimPadded("", text, pad);
  }

  /** Wherever such a text stands before a delimiter, it is read as one value. */
  lemma BareReads(s: string, i: nat, text: string, q: nat)
    requires BareText(text) && At(s, i, text) && q == i + |text| && Delimited(s, q)
    ensures i < |s| && ReadValue(s, i) == Ok((Text(text), Find(s, q, NotInline)))
  {
    var e := Find(s, q, NotInline);
    AtIndex(s, i, text, 0);
    BareRuns(s, i, text, 0, Depths(0, 0, 0), Code, q);
    SpacesRun(s, q, e);
    SpacesTrim(s, i, q, e, text);
  }

  lemma {:induction false} ScanInFront(s: string, text: string, k: nat)
    requires At(s, 0, text) && k <= |text|
    ensures ScanAt(s, 0, k) == ScanAt(text, 0, k) && DepthsAt(s, 0, k) == DepthsAt(text, 0, k)
    decreases k
  {
    if k > 0 {
      var m: nat := k - 1;
      ScanInFront(s, text, m);
      AtIndex(s, 0, text, m);
    }
  }

  /** And no other text is: before a comma it is read as one value, and as nothing but itself,
      exactly then. */
  lemma BareTextIff(text: string, s: string)
    requires text != "" && Tight(text) && !IsQuote(text[0]) && text[0] != '[' && text[0] != '{' && s == text + ","
    ensures ReadValue(s, 0) == Ok((Text(text), |text|)) <==> BareText(text)
  {
    var n := |text|;
    assert At(s, 0, text) && s[n] == ',';
    assert s[..n] == text;
    TrimIdle(text);
    BareEndsWhere(s, 0, n);
    forall k: nat | k <= n
      ensures ScanAt(s, 0, k) == ScanAt(text, 0, k) && DepthsAt(s, 0, k) == DepthsAt(text, 0, k)
    {
      ScanInFront(s, text, k);
    }
    assert BareStops(s, 0, n) <==> Outside(text, 0, n) && AllZero(DepthsAt(text, 0, n));
    StopsInFront(s, text, n);
  }

  lemma StopsInFront(s: string, text: string, n: nat)
    requires At(s, 0, text) && n == |text|
    requires forall k: nat :: k <= n ==>
               ScanAt(s, 0, k) == ScanAt(text, 0, k) && DepthsAt(s, 0, k) == DepthsAt(text, 0, k)
    ensures forall k: nat :: k < n ==> BareStops(s, 0, k) == BareStops(text, 0, k)
  {
    forall k: nat | k < n ensures BareStops(s, 0, k) == BareStops(text, 0, k) {
      AtIndex(s, 0, text, k);
    }
  }

  // ---------------------------------------------------------------------------
  // Strings inside unquoted values
  // ---------------------------------------------------------------------------

  /** Raw text inside a string stays inside. */
  lemma {:induction false} ScanText(s: string, b: nat, q: nat, text: string, quote: char)
    requires b <= q && At(s, q, text) && RawText(text, quote) && quote != '\\' && ScanAt(s, b, q) == InQuotes(quote)
    ensures ScanAt(s, b, q + |text|) == InQuotes(quote)
    ensures forall m :: q <= m <= q + |text| ==> !Outside(s, b, m)
    decreases |text|
  {
    if text != "" {
      var n := Element(text);
      assert s[q] == text[0] && ScanAt(s, b, q + 1) == ScanStep(InQuotes(quote), s[q]);
      if n == 2 {
        assert ScanAt(s, b, q + 2) == ScanStep(ScanAt(s, b, q + 1), s[q + 1]);
      }
      AtTail(s, q, text, n);
      ScanText(s, b, q + n, text[n..], quote);
    }
  }

  lemma StringLaysOut(s: string, q: nat, text: string, e: nat)
    requires At(s, q, ['"'] + (text + ['"'])) && e == q + |text| + 2
    ensures e <= |s| && s[q] == '"' && At(s, q + 1, text) && s[e - 1] == '"'
  {
    AtIndex(s, q, ['"'] + (text + ['"']), 0);
    AtSplit(s, q, ['"'], text + ['"']);
    AtSplit(s, q + 1, text, ['"']);
    AtIndex(s, e - 1, ['"'], 0);
  }

  lemma StringBegins(s: string, b: nat, q: nat)
    requires b <= q < |s| && Outside(s, b, q) && s[q] == '"'
    ensures ScanAt(s, b, q + 1) == InQuotes('"') && DepthsAt(s, b, q + 1) == DepthsAt(s, b, q) && !BareStops(s, b, q)
  {
  }

  lemma StringEnds(s: string, b: nat, n: nat)
    requires b <= n < |s| && ScanAt(s, b, n) == InQuotes('"') && s[n] == '"'
    ensures Outside(s, b, n + 1) && DepthsAt(s, b, n + 1) == DepthsAt(s, b, n)
  {
  }

  /** A string inside an unquoted value neither ends it nor nests. */
  lemma StringRuns(s: string, b: nat, q: nat, text: string, e: nat)
    requires b <= q <= |s| && Outside(s, b, q) && RawText(text, '"')
    requires At(s, q, ['"'] + (text + ['"'])) && e == q + |text| + 2
    ensures e <= |s| && Outside(s, b, e) && DepthsAt(s, b, e) == DepthsAt(s, b, q)
    ensures forall m :: q <= m < e ==> !BareStops(s, b, m)
  {
    StringLaysOut(s, q, text, e);
    StringBegins(s, b, q);
    ScanText(s, b, q + 1, text, '"');
    DepthsInside(s, b, q + 1, e - 1);
    StringEnds(s, b, e - 1);
  }

  /** Inside a string the depths do not change. */
  lemma {:induction false} DepthsInside(s: string, b: nat, q: nat, e: nat)
    requires b <= q <= e <= |s| && forall m :: q <= m < e ==> !Outside(s, b, m)
    ensures DepthsAt(s, b, e) == DepthsAt(s, b, q)
    decreases e
  {
    if q < e {
      var m: nat := e - 1;
      DepthsInside(s, b, q, m);
      assert !Outside(s, b, m);
    }
  }

  // ---------------------------------------------------------------------------
  // Plain words
  // ---------------------------------------------------------------------------

  /** Neither space, quote, bracket nor comma. */
  predicate IsBareChar(c: char) {
    !IsSpace(c) && !IsAnyQuote(c) && !IsOpening(c) && !IsClosing(c) && c != ','
  }

  predicate PlainWord(text: string) {
    text != "" && forall k :: 0 <= k < |text| ==> IsBareChar(text[k])
  }

  /** Plain characters of an unquoted value do not end it. */
  lemma {:induction false} WordRuns(s: string, b: nat, n: nat)
    requires b + n <= |s| && forall k :: b <= k < b + n ==> IsBareChar(s[k])
    ensures Outside(s, b, b + n) && forall k :: b <= k < b + n ==> !BareStops(s, b, k)
    ensures AllZero(DepthsAt(s, b, b + n))
    decreases n
  {
    if n > 0 {
      WordRuns(s, b, n - 1);
      assert IsBareChar(s[b + n - 1]);
    }
  }

  lemma PlainIsBare(text: string)
    requires PlainWord(text)
    ensures BareText(text)
  {
    WordRuns(text, 0, |text|);
    assert IsBareChar(text[0]) && IsBareChar(text[|text| - 1]);
  }
}
