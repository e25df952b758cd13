/** Where brackets close, told by a character-by-character lexer, and how the three bracket
    matchers of the parser relate to it: the one for blocks in braces, the one for options in
    parentheses, and the one for nested maps. */
module DslBlocks {
  import opened DslText
  import opened DslPlaces

  // ---------------------------------------------------------------------------
  // Lexical depth
  // ---------------------------------------------------------------------------

  /** The brackets of blocks, of options, and of maps inside maps. */
  datatype Brackets = Braces | Parens | Nested

  function OpeningOf(b: Brackets): char {
    if b.Parens? then '(' else '{'
  }

  function ClosingOf(b: Brackets): char {
    if b.Parens? then ')' else '}'
  }

  /** A nested map knows no backtick strings. */
  predicate Quotes(b: Brackets, c: char) {
    c == '"' || c == '\'' || (c == '`' && !b.Nested?)
  }

  datatype LexMode = Plain | Slash | Str(quote: char) | Escaped(quote: char) | Comment

  datatype Lex = Lex(depth: int, mode: LexMode)

  /** One character: strings, their escapes and, in blocks, line comments do not count. */
  function LexStep(b: Brackets, l: Lex, c: char): Lex {
    match l.mode
    case Str(q) => l.(mode := if c == '\\' then Escaped(q) else if c == q then Plain else l.mode)
    case Escaped(q) => l.(mode := Str(q))
    case Comment => l.(mode := if c == '\n' then Plain else Comment)
    case _ =>
      if c == '/' && b.Braces? then l.(mode := if l.mode.Slash? then Comment else Slash)
      else if Quotes(b, c) then l.(mode := Str(c))
      else if c == OpeningOf(b) then Lex(l.depth + 1, Plain)
      else if c == ClosingOf(b) then Lex(l.depth - 1, Plain)
      else l.(mode := Plain)
  }

  /** The lexer's state before position k, started at position i inside one bracket. */
  function LexAt(b: Brackets, s: string, i: nat, k: nat): Lex
    requires i <= k <= |s|
  {
    if k == i then Lex(1, Plain) else LexStep(b, LexAt(b, s, i, k - 1), s[k - 1])
  }

  predicate OpenUpTo(b: Brackets, s: string, i: nat, k: nat) {
    i <= k <= |s| && forall m :: i <= m <= k ==> LexAt(b, s, i, m).depth > 0
  }

  /** The first position after which the lexical depth is zero. */
  predicate ClosesAt(b: Brackets, s: string, i: nat, k: nat) {
    k < |s| && OpenUpTo(b, s, i, k) && LexAt(b, s, i, k + 1).depth == 0
  }

  /** The bracket before position i is closed somewhere. */
  ghost predicate Closes(b: Brackets, s: string, i: nat) {
    exists k: nat :: ClosesAt(b, s, i, k)
  }

  lemma ClosesOnce(b: Brackets, s: string, i: nat, k: nat, k': nat)
    requires ClosesAt(b, s, i, k) && ClosesAt(b, s, i, k')
    ensures k == k'
  {
    if k < k' {
      ClosedIsNotOpen(b, s, i, k, k');
    } else if k' < k {
      ClosedIsNotOpen(b, s, i, k', k);
    }
  }

  lemma ClosedIsNotOpen(b: Brackets, s: string, i: nat, k: nat, k': nat)
    requires ClosesAt(b, s, i, k) && k < k'
    ensures !OpenUpTo(b, s, i, k')
  {
  }

  // ---------------------------------------------------------------------------
  // readBracedBlock and readParenBlock
  // ---------------------------------------------------------------------------

  function CloseOf(b: Brackets, s: string, i: nat, depth: nat, mode: Mode): (k: nat)
    requires depth > 0 && !b.Nested?
    ensures k >= i
  {
    if b.Braces? then BraceClose(s, i, depth, mode) else ParenClose(s, i, depth, mode)
  }

  function BlockOf(b: Brackets, s: string, i: nat): (r: Outcome<(string, nat)>)
    requires !b.Nested?
    ensures r.Ok? ==> i < r.value.1 <= |s|
  {
    if b.Braces? then BracedBlock(s, i) else ParenBlock(s, i)
  }

  /** The scanner's variables at position j say what the lexer's state there says. */
  predicate Agrees(b: Brackets, s: string, j: nat, l: Lex, depth: nat, mode: Mode) {
    && l.depth == depth
    && match mode
       case InString(q) => l.mode == Str(q)
       case Code =>
         || l.mode == Plain
         || (b.Braces? && l.mode == Slash && (j < |s| ==> s[j] != '/'))
         || (b.Braces? && l.mode == Comment && (j < |s| ==> s[j] == '\n'))
  }

  lemma {:induction false} InsideComment(s: string, i: nat, j: nat, n: nat)
    requires i <= j && j + 2 <= n <= |s| && CommentAt(s, j)
    requires LexAt(Braces, s, i, j).mode == Plain
    requires forall k :: j <= k < n ==> s[k] != '\n'
    ensures LexAt(Braces, s, i, n) == Lex(LexAt(Braces, s, i, j).depth, Comment)
    ensures forall m :: j <= m <= n ==> LexAt(Braces, s, i, m).depth == LexAt(Braces, s, i, j).depth
    decreases n
  {
    assert LexAt(Braces, s, i, j + 1) == LexStep(Braces, LexAt(Braces, s, i, j), s[j]);
    assert LexAt(Braces, s, i, j + 2) == LexStep(Braces, LexAt(Braces, s, i, j + 1), s[j + 1]);
    if n > j + 2 {
      InsideComment(s, i, j, n - 1);
      assert LexAt(Braces, s, i, n) == LexStep(Braces, LexAt(Braces, s, i, n - 1), s[n - 1]);
    }
  }

  lemma OpenOne(b: Brackets, s: string, i: nat, j: nat)
    requires OpenUpTo(b, s, i, j) && j < |s| && LexAt(b, s, i, j + 1).depth > 0
    ensures OpenUpTo(b, s, i, j + 1)
  {
  }

  /** The scanner's mode behind a character that is neither escape nor comment. */
  function NextMode(mode: Mode, c: char): Mode {
    if mode.InString? then (if c == mode.quote then Code else mode)
    else if IsAnyQuote(c) then InString(c) else Code
  }

  /** The scanner stops at the first closing position, or past the text if there is none. */
  ghost predicate Finds(b: Brackets, s: string, i: nat, k: nat) {
    if k < |s| then ClosesAt(b, s, i, k) else OpenUpTo(b, s, i, |s|)
  }

  /** One character that is neither escape nor comment nor the closing bracket. */
  lemma LexFollows(b: Brackets, s: string, i: nat, j: nat, depth: nat, mode: Mode)
    requires !b.Nested? && i <= j < |s| && depth > 0 && Agrees(b, s, j, LexAt(b, s, i, j), depth, mode)
    requires !(mode.InString? && s[j] == '\\') && !(b.Braces? && mode.Code? && CommentAt(s, j))
    requires mode.InString? || s[j] != ClosingOf(b) || depth != 1
    ensures var l := LexAt(b, s, i, j + 1);
            && l.depth > 0 && Agrees(b, s, j + 1, l, l.depth, NextMode(mode, s[j]))
            && CloseOf(b, s, j, depth, mode) == CloseOf(b, s, j + 1, l.depth, NextMode(mode, s[j]))
  {
    assert LexAt(b, s, i, j + 1) == LexStep(b, LexAt(b, s, i, j), s[j]);
  }

  lemma {:induction false} CloseIsFirst(b: Brackets, s: string, i: nat, j: nat, depth: nat, mode: Mode)
    requires !b.Nested? && OpenUpTo(b, s, i, j) && depth > 0 && Agrees(b, s, j, LexAt(b, s, i, j), depth, mode)
    ensures Finds(b, s, i, CloseOf(b, s, j, depth, mode))
    decreases |s| - j, 1
  {
    if j < |s| {
      if mode.InString? && s[j] == '\\' {
        CloseAfterEscape(b, s, i, j, depth, mode);
      } else if b.Braces? && mode.Code? && CommentAt(s, j) {
        CloseAfterComment(s, i, j, depth);
      } else if mode.InString? || s[j] != ClosingOf(b) || depth != 1 {
        LexFollows(b, s, i, j, depth, mode);
        OpenOne(b, s, i, j);
        CloseIsFirst(b, s, i, j + 1, LexAt(b, s, i, j + 1).depth, NextMode(mode, s[j]));
      } else {
        ClosesHere(b, s, i, j);
      }
    }
  }

  lemma ClosesHere(b: Brackets, s: string, i: nat, j: nat)
    requires !b.Nested? && OpenUpTo(b, s, i, j) && j < |s| && s[j] == ClosingOf(b)
    requires Agrees(b, s, j, LexAt(b, s, i, j), 1, Code)
    ensures ClosesAt(b, s, i, j)
  {
    assert LexAt(b, s, i, j + 1) == LexStep(b, LexAt(b, s, i, j), s[j]);
  }

  lemma {:induction false} CloseAfterEscape(b: Brackets, s: string, i: nat, j: nat, depth: nat, mode: Mode)
    requires !b.Nested? && OpenUpTo(b, s, i, j) && depth > 0 && Agrees(b, s, j, LexAt(b, s, i, j), depth, mode)
    requires j < |s| && mode.InString? && s[j] == '\\'
    ensures Finds(b, s, i, CloseOf(b, s, j, depth, mode))
    decreases |s| - j, 0
  {
    assert LexAt(b, s, i, j + 1) == LexStep(b, LexAt(b, s, i, j), s[j]);
    OpenOne(b, s, i, j);
    if j + 1 < |s| {
      assert LexAt(b, s, i, j + 2) == LexStep(b, LexAt(b, s, i, j + 1), s[j + 1]);
      OpenOne(b, s, i, j + 1);
      CloseIsFirst(b, s, i, j + 2, depth, mode);
    }
  }

  lemma {:induction false} CloseAfterComment(s: string, i: nat, j: nat, depth: nat)
    requires OpenUpTo(Braces, s, i, j) && depth > 0 && Agrees(Braces, s, j, LexAt(Braces, s, i, j), depth, Code)
    requires CommentAt(s, j)
    ensures Finds(Braces, s, i, BraceClose(s, j, depth, Code))
    decreases |s| - j, 0
  {
    var n := Find(s, j, IsNewline);
    assert s[j] == '/' && s[j + 1] == '/';
    assert n >= j + 2;
    InsideComment(s, i, j, n);
    CloseIsFirst(Braces, s, i, n, depth, Code);
  }

  /** A block is the trimmed text up to the first position where the lexical depth reaches
      zero, and reading one fails exactly when there is none. */
  lemma BlockEndsAtDepthZero(b: Brackets, s: string, i: nat)
    requires !b.Nested? && i < |s| && s[i] == OpeningOf(b)
    ensures BlockOf(b, s, i).Ok? <==> Closes(b, s, i + 1)
    ensures BlockOf(b, s, i).Ok? ==>
              var (body, p) := BlockOf(b, s, i).value;
              p > 0 && ClosesAt(b, s, i + 1, p - 1) && body == Trim(s[i + 1..p - 1])
  {
    CloseIsFirst(b, s, i + 1, i + 1, 1, Code);
    var k := CloseOf(b, s, i + 1, 1, Code);
    if k >= |s| {
      NeverCloses(b, s, i + 1);
    }
  }

  lemma NeverCloses(b: Brackets, s: string, i: nat)
    requires OpenUpTo(b, s, i, |s|)
    ensures !Closes(b, s, i)
  {
    var n: nat := |s|;
    forall k: nat ensures !ClosesAt(b, s, i, k) {
      if k < n && ClosesAt(b, s, i, k) {
        ClosedIsNotOpen(b, s, i, k, n);
      }
    }
  }

  lemma {:induction false} LexOfPrefix(b: Brackets, s: string, t: string, i: nat, k: nat, n: nat)
    requires i <= k <= n <= |s| && n <= |t| && s[..n] == t[..n]
    ensures LexAt(b, s, i, k) == LexAt(b, t, i, k)
    decreases k
  {
    if k > i {
      LexOfPrefix(b, s, t, i, k - 1, n);
      assert s[k - 1] == s[..n][k - 1] == t[k - 1];
    }
  }

  /** A block is the same whatever follows its closing bracket. */
  lemma BlockIgnoresWhatFollows(b: Brackets, s: string, i: nat, tail: string)
    requires !b.Nested? && BlockOf(b, s, i).Ok?
    ensures var p := BlockOf(b, s, i).value.1;
            BlockOf(b, s[..p] + tail, i) == BlockOf(b, s, i)
  {
    var p := BlockOf(b, s, i).value.1;
    var t, k: nat := s[..p] + tail, p - 1;
    assert t[..p] == s[..p];
    assert s[i] == s[..p][i] == t[i];
    BlockEndsAtDepthZero(b, s, i);
    ClosesInPrefix(b, s, t, i + 1, k);
    ClosedBlock(b, t, i, k);
    assert t[i + 1..k] == t[..p][i + 1..k] == s[i + 1..k];
  }

  /** Where the bracket closes, the block ends. */
  lemma ClosedBlock(b: Brackets, s: string, i: nat, k: nat)
    requires !b.Nested? && i < |s| && s[i] == OpeningOf(b) && ClosesAt(b, s, i + 1, k)
    ensures i < k && BlockOf(b, s, i) == Ok((Trim(s[i + 1..k]), k + 1))
  {
    BlockEndsAtDepthZero(b, s, i);
    var k': nat := BlockOf(b, s, i).value.1 - 1;
    ClosesOnce(b, s, i + 1, k, k');
  }

  lemma ClosesInPrefix(b: Brackets, s: string, t: string, i: nat, k: nat)
    requires ClosesAt(b, s, i, k) && k < |t| && s[..k + 1] == t[..k + 1]
    ensures ClosesAt(b, t, i, k)
  {
    forall m: nat | i <= m <= k + 1 ensures LexAt(b, s, i, m) == LexAt(b, t, i, m) {
      LexOfPrefix(b, s, t, i, m, k + 1);
    }
  }

  // ---------------------------------------------------------------------------
  // Text between brackets
  // ---------------------------------------------------------------------------

  function Enclosed(b: Brackets, text: string): string {
    [OpeningOf(b)] + (text + [ClosingOf(b)])
  }

  /** Put between brackets, the text closes lexically at its end and nowhere before. */
  predicate EnclosedText(b: Brackets, text: string) {
    ClosesAt(b, Enclosed(b, text), 1, |text| + 1)
  }

  lemma {:induction false} LexInside(b: Brackets, s: string, i: nat, t: string, a: nat, m: nat)
    requires At(s, i, t) && a <= m <= |t|
    ensures LexAt(b, s, i + a, i + m) == LexAt(b, t, a, m)
    decreases m
  {
    if m > a {
      LexInside(b, s, i, t, a, m - 1);
      AtIndex(s, i, t, m - 1);
    }
  }

  lemma ClosesShifts(b: Brackets, s: string, i: nat, t: string, n: nat, a: nat, k: nat)
    requires At(s, i, t) && ClosesAt(b, t, 1, n) && a == i + 1 && k == i + n
    ensures ClosesAt(b, s, a, k)
  {
    forall m | a <= m <= k ensures LexAt(b, s, a, m).depth > 0 {
      LexInside(b, s, i, t, 1, m - i);
      assert LexAt(b, t, 1, m - i).depth > 0;
    }
    LexInside(b, s, i, t, 1, n + 1);
  }

  lemma EnclosedLaysOut(b: Brackets, s: string, i: nat, a: nat, k: nat, text: string)
    requires At(s, i, Enclosed(b, text)) && a == i + 1 && k == a + |text|
    ensures k < |s| && s[i] == OpeningOf(b) && s[k] == ClosingOf(b) && s[a..k] == text && At(s, a, text)
  {
    AtIndex(s, i, Enclosed(b, text), 0);
    AtSplit(s, i, [OpeningOf(b)], text + [ClosingOf(b)]);
    AtSplit(s, a, text, [ClosingOf(b)]);
    AtIndex(s, k, [ClosingOf(b)], 0);
    AtText(s, a, text);
  }

  lemma EnclosedCloses(b: Brackets, s: string, i: nat, a: nat, k: nat, text: string)
    requires EnclosedText(b, text) && At(s, i, Enclosed(b, text)) && a == i + 1 && k == a + |text|
    ensures ClosesAt(b, s, a, k)
  {
    ClosesShifts(b, s, i, Enclosed(b, text), |text| + 1, a, k);
  }

  /** Text that closes lexically is read whole wherever it stands between its brackets. */
  lemma BlockReads(b: Brackets, s: string, i: nat, text: string)
    requires !b.Nested? && EnclosedText(b, text) && At(s, i, Enclosed(b, text))
    ensures BlockOf(b, s, i) == Ok((Trim(text), i + |text| + 2))
  {
    var a, k := i + 1, i + 1 + |text|;
    EnclosedLaysOut(b, s, i, a, k, text);
    EnclosedCloses(b, s, i, a, k, text);
    ClosedBlock(b, s, i, k);
  }

  /** And no other text is: between brackets a text is read as a whole exactly when it closes
      lexically at its end. */
  lemma BlockReadsIff(b: Brackets, text: string)
    requires !b.Nested?
    ensures BlockOf(b, Enclosed(b, text), 0) == Ok((Trim(text), |text| + 2)) <==> EnclosedText(b, text)
  {
    var s := Enclosed(b, text);
    WholeText(s);
    if EnclosedText(b, text) {
      BlockReads(b, s, 0, text);
    }
    if BlockOf(b, s, 0) == Ok((Trim(text), |text| + 2)) {
      BlockEndsAtDepthZero(b, s, 0);
    }
  }

  /** Read from inside one bracket on, the text stays inside it and ends outside strings, and
      outside comments unless a line break follows. */
  predicate Sealed(b: Brackets, p: string, breaks: bool) {
    && OpenUpTo(b, p, 0, |p|)
    && var l := LexAt(b, p, 0, |p|);
       l.depth == 1 && (l.mode == Plain || l.mode == Slash || (breaks && l.mode == Comment))
  }

  /** Such text, and only such text, closes when it is put between brackets. */
  lemma SealedIff(b: Brackets, p: string)
    ensures Sealed(b, p, false) <==> EnclosedText(b, p)
  {
    var s, n: nat := Enclosed(b, p), |p|;
    WholeText(s);
    EnclosedLaysOut(b, s, 0, 1, 1 + n, p);
    SameStates(b, s, p, n);
    SealedOpens(b, s, p, n);
    SealedEnds(b, s, p, n);
    EnclosedParts(b, s, p, n);
  }

  lemma SameStates(b: Brackets, s: string, p: string, n: nat)
    requires At(s, 1, p) && n == |p|
    ensures forall m: nat :: m <= n ==> LexAt(b, s, 1, 1 + m) == LexAt(b, p, 0, m)
  {
    forall m: nat | m <= n ensures LexAt(b, s, 1, 1 + m) == LexAt(b, p, 0, m) {
      LexInside(b, s, 1, p, 0, m);
    }
  }

  lemma EnclosedParts(b: Brackets, s: string, p: string, n: nat)
    requires s == Enclosed(b, p) && n == |p|
    ensures EnclosedText(b, p) <==> OpenUpTo(b, s, 1, n + 1) && LexAt(b, s, 1, n + 2).depth == 0
  {
  }

  /** The bracket behind the text closes exactly what is left open. */
  lemma SealedEnds(b: Brackets, s: string, p: string, n: nat)
    requires n == |p| && |s| == n + 2 && s[n + 1] == ClosingOf(b) && LexAt(b, s, 1, 1 + n) == LexAt(b, p, 0, n)
    ensures LexAt(b, s, 1, n + 2).depth == 0 && LexAt(b, p, 0, n).depth > 0 <==>
            LexAt(b, p, 0, n).depth == 1 && (LexAt(b, p, 0, n).mode == Plain || LexAt(b, p, 0, n).mode == Slash)
  {
    assert LexAt(b, s, 1, n + 2) == LexStep(b, LexAt(b, s, 1, n + 1), s[n + 1]);
  }

  lemma SealedOpens(b: Brackets, s: string, p: string, n: nat)
    requires n == |p| && |s| == n + 2 && forall m: nat :: m <= n ==> LexAt(b, s, 1, 1 + m) == LexAt(b, p, 0, m)
    ensures OpenUpTo(b, p, 0, n) <==> OpenUpTo(b, s, 1, n + 1)
  {
    if OpenUpTo(b, p, 0, n) {
      forall m: nat | 1 <= m <= n + 1 ensures LexAt(b, s, 1, m).depth > 0 {
        var k: nat := m - 1;
        assert LexAt(b, s, 1, 1 + k) == LexAt(b, p, 0, k);
      }
    }
    if OpenUpTo(b, s, 1, n + 1) {
      forall m: nat | m <= n ensures LexAt(b, p, 0, m).depth > 0 {
        assert LexAt(b, s, 1, 1 + m) == LexAt(b, p, 0, m);
      }
    }
  }

  // ---------------------------------------------------------------------------
  // readNestedMap
  // ---------------------------------------------------------------------------

  lemma {:induction false} NestedFollows(s: string, i: nat, j: nat, depth: nat, mode: Mode, k: nat)
    requires ClosesAt(Nested, s, i, k) && i <= j <= k && depth > 0
    requires Agrees(Nested, s, j, LexAt(Nested, s, i, j), depth, mode)
    ensures NestedEnd(s, j, depth, mode) == k + 1
    decreases k - j
  {
    var c, l := s[j], LexAt(Nested, s, i, j);
    assert LexAt(Nested, s, i, j + 1) == LexStep(Nested, l, c);
    if mode.InString? && c == '\\' {
      NestedEscape(s, i, j, k);
      NestedFollows(s, i, j + 2, depth, mode, k);
    } else if mode.Code? && c == '}' && depth == 1 {
      NestedEndsHere(s, i, j, k);
    } else {
      assert j < k;
      var mode' := if mode.InString? then (if c == mode.quote then Code else mode)
                   else if IsQuote(c) then InString(c) else Code;
      NestedFollows(s, i, j + 1, LexAt(Nested, s, i, j + 1).depth, mode', k);
    }
  }

  lemma NestedEndsHere(s: string, i: nat, j: nat, k: nat)
    requires ClosesAt(Nested, s, i, k) && i <= j <= k && s[j] == '}' && LexAt(Nested, s, i, j) == Lex(1, Plain)
    ensures j == k && NestedEnd(s, j, 1, Code) == k + 1
  {
    assert LexAt(Nested, s, i, j + 1) == Lex(0, Plain);
    assert NestedEnd(s, j + 1, 0, Code) == j + 1;
  }

  /** An escape and the character behind it do not close the bracket. */
  lemma NestedEscape(s: string, i: nat, j: nat, k: nat)
    requires ClosesAt(Nested, s, i, k) && i <= j <= k && s[j] == '\\' && LexAt(Nested, s, i, j).mode.Str?
    ensures j + 2 <= k && LexAt(Nested, s, i, j + 2) == LexAt(Nested, s, i, j)
  {
    assert LexAt(Nested, s, i, j + 1) == LexStep(Nested, LexAt(Nested, s, i, j), s[j]);
    assert j < k;
    assert LexAt(Nested, s, i, j + 2) == LexStep(Nested, LexAt(Nested, s, i, j + 1), s[j + 1]);
    assert LexAt(Nested, s, i, j).depth > 0;
  }

  /** The nested-map reader, too, goes to where the lexical depth reaches zero. */
  lemma NestedEndsAtDepthZero(s: string, i: nat, k: nat)
    requires ClosesAt(Nested, s, i, k)
    ensures NestedEnd(s, i, 1, Code) == k + 1
  {
    NestedFollows(s, i, i, 1, Code, k);
  }

  // ---------------------------------------------------------------------------
  // readNestedMap against readBracedBlock
  // ---------------------------------------------------------------------------

  /** The states in which both brace matchers see the same. */
  predicate Shared(m: LexMode) {
    m != Comment && m != Str('`')
  }

  /** No comment and no backtick string begins between the positions. */
  predicate Simple(s: string, i: nat, k: nat) {
    i <= k <= |s| && forall m :: i <= m <= k ==> Shared(LexAt(Braces, s, i, m).mode)
  }

  lemma {:induction false} MatchersAgree(s: string, i: nat, j: nat, depth: nat, mode: Mode, k: nat)
    requires i <= j <= |s| && depth > 0 && Agrees(Braces, s, j, LexAt(Braces, s, i, j), depth, mode)
    requires k == BraceClose(s, j, depth, mode) < |s| && Simple(s, i, k)
    ensures NestedEnd(s, j, depth, mode) == k + 1
    decreases |s| - j, 1
  {
    var c, l := s[j], LexAt(Braces, s, i, j);
    assert Shared(l.mode);
    assert LexAt(Braces, s, i, j + 1) == LexStep(Braces, l, c);
    if mode.InString? && c == '\\' {
      MatchersAgreeBehindEscape(s, i, j, depth, mode, k);
    } else if mode.Code? && c == '}' && depth == 1 {
      assert NestedEnd(s, j + 1, 0, Code) == j + 1;
    } else {
      NoCommentHere(s, i, j, depth, mode, k);
      assert Shared(LexAt(Braces, s, i, j + 1).mode);
      MatchersAgree(s, i, j + 1, LexAt(Braces, s, i, j + 1).depth, NextMode(mode, c), k);
    }
  }

  lemma {:induction false} MatchersAgreeBehindEscape(s: string, i: nat, j: nat, depth: nat, mode: Mode, k: nat)
    requires i <= j < |s| && depth > 0 && Agrees(Braces, s, j, LexAt(Braces, s, i, j), depth, mode)
    requires k == BraceClose(s, j, depth, mode) < |s| && Simple(s, i, k) && mode.InString? && s[j] == '\\'
    ensures NestedEnd(s, j, depth, mode) == k + 1
    decreases |s| - j, 0
  {
    assert LexAt(Braces, s, i, j + 1) == LexStep(Braces, LexAt(Braces, s, i, j), s[j]);
    assert LexAt(Braces, s, i, j + 2) == LexStep(Braces, LexAt(Braces, s, i, j + 1), s[j + 1]);
    MatchersAgree(s, i, j + 2, depth, mode, k);
  }

  /** The block reader goes past a comment, and the lexer sees it. */
  lemma CommentIsSeen(s: string, i: nat, j: nat, depth: nat)
    requires i <= j && depth > 0 && CommentAt(s, j) && Agrees(Braces, s, j, LexAt(Braces, s, i, j), depth, Code)
    ensures j + 2 <= BraceClose(s, j, depth, Code) && LexAt(Braces, s, i, j + 2).mode == Comment
  {
    assert LexAt(Braces, s, i, j + 1) == LexStep(Braces, LexAt(Braces, s, i, j), s[j]);
    assert LexAt(Braces, s, i, j + 2) == LexStep(Braces, LexAt(Braces, s, i, j + 1), s[j + 1]);
    assert s[j] == '/' && s[j + 1] == '/' && Find(s, j, IsNewline) >= j + 2;
  }

  /** On simple text there is none. */
  lemma NoCommentHere(s: string, i: nat, j: nat, depth: nat, mode: Mode, k: nat)
    requires i <= j < |s| && depth > 0 && Agrees(Braces, s, j, LexAt(Braces, s, i, j), depth, mode)
    requires k == BraceClose(s, j, depth, mode) < |s| && Simple(s, i, k)
    ensures mode.Code? ==> !CommentAt(s, j)
  {
    if mode.Code? && CommentAt(s, j) {
      CommentIsSeen(s, i, j, depth);
    }
  }

  /** Where the block reader succeeds on text without backtick strings and comments, the
      nested-map reader started at the same brace delimits the same body. */
  lemma NestedMapDelimitsSameBody(s: string, i: nat)
    requires BracedBlock(s, i).Ok? && Simple(s, i + 1, BracedBlock(s, i).value.1 - 1)
    ensures NestedEnd(s, i + 1, 1, Code) == BracedBlock(s, i).value.1
  {
    MatchersAgree(s, i + 1, i + 1, 1, Code, BracedBlock(s, i).value.1 - 1);
  }

  /** With a backtick string the two matchers part: the block reader skips the brace in the
      string, the nested-map reader counts it. */
  lemma BacktickParts()
    ensures BracedBlock("{`}`}", 0).Ok? && BracedBlock("{`}`}", 0).value.1 == 5
    ensures NestedEnd("{`}`}", 1, 1, Code) == 3
  {
    var s := "{`}`}";
    assert BraceClose(s, 4, 1, Code) == 4;
    assert BraceClose(s, 3, 1, InString('`')) == 4;
    assert BraceClose(s, 2, 1, InString('`')) == 4;
    assert NestedEnd(s, 2, 1, Code) == 3;
  }

  /** And so they do with a comment, for the same reason. */
  lemma CommentParts()
    ensures BracedBlock("{//}\n}", 0).Ok? && BracedBlock("{//}\n}", 0).value.1 == 6
    ensures NestedEnd("{//}\n}", 1, 1, Code) == 4
  {
    var s := "{//}\n}";
    FindIs(s, 1, IsNewline, 4);
    assert BraceClose(s, 5, 1, Code) == 5;
    assert BraceClose(s, 4, 1, Code) == 5;
    assert NestedEnd(s, 3, 1, Code) == 4;
    assert NestedEnd(s, 2, 1, Code) == 4;
  }

  /** An unclosed brace at the end of the text is the one input on which the nested-map
      reader's own slice is out of range. */
  lemma NestedSliceOutOfRangeIff(s: string, i: nat)
    requires i < |s|
    ensures NestedEnd(s, i + 1, 1, Code) - 1 < i + 1 <==> i + 1 == |s|
  {
    NestedAdvances(s, i + 1);
  }

  lemma NestedAdvances(s: string, j: nat)
    requires j <= |s|
    ensures j < |s| ==> NestedEnd(s, j, 1, Code) > j
  {
  }
}
