/** Bounded log values: strings cut at a rune boundary, lifted over nested maps and lists. */
module Sanitize {

  type Byte = x: int | 0 <= x < 256

  /** "...[truncated]" */
  const SUFFIX: seq<Byte> := [46, 46, 46, 91, 116, 114, 117, 110, 99, 97, 116, 101, 100, 93]

  // ---------------------------------------------------------------------------
  // UTF-8, sections 3 and 4 of RFC 3629
  // ---------------------------------------------------------------------------

  predicate Tail(b: Byte) {
    0x80 <= b <= 0xBF
  }

  /** utf8.RuneStart: the byte is not a continuation byte. */
  predicate RuneStart(b: Byte) {
    !Tail(b)
  }

  /** The length of the well-formed rune at the front, 0 if there is none. */
  function RuneAt(s: seq<Byte>): (n: nat)
    ensures n <= 4 && n <= |s|
    ensures n > 0 ==> RuneStart(s[0]) && forall i :: 0 < i < n ==> Tail(s[i])
  {
    if |s| >= 1 && s[0] <= 0x7F then 1
    else if |s| >= 2 && 0xC2 <= s[0] <= 0xDF && Tail(s[1]) then 2
    else if |s| >= 3 && Second3(s[0], s[1]) && Tail(s[1]) && Tail(s[2]) then 3
    else if |s| >= 4 && Second4(s[0], s[1]) && Tail(s[1]) && Tail(s[2]) && Tail(s[3]) then 4
    else 0
  }

  /** Three bytes: no overlong form and no surrogate. */
  predicate Second3(lead: Byte, second: Byte) {
    (lead == 0xE0 && 0xA0 <= second) || 0xE1 <= lead <= 0xEC || (lead == 0xED && second <= 0x9F) || 0xEE <= lead <= 0xEF
  }

  /** Four bytes: no overlong form and nothing past the last code point. */
  predicate Second4(lead: Byte, second: Byte) {
    (lead == 0xF0 && 0x90 <= second) || 0xF1 <= lead <= 0xF3 || (lead == 0xF4 && second <= 0x8F)
  }

  predicate ValidUtf8(s: seq<Byte>) {
    s == [] || (RuneAt(s) > 0 && ValidUtf8(s[RuneAt(s)..]))
  }

  lemma RuneAtAppend(s: seq<Byte>, t: seq<Byte>)
    requires RuneAt(s) > 0
    ensures RuneAt(s + t) == RuneAt(s)
  {
    assert forall i :: 0 <= i < |s| ==> (s + t)[i] == s[i];
  }

  lemma ValidFront(s: seq<Byte>, n: nat)
    requires n == RuneAt(s) && n > 0 && ValidUtf8(s[n..])
    ensures ValidUtf8(s)
  {
  }

  lemma DropAppend(s: seq<Byte>, t: seq<Byte>, n: nat)
    requires n <= |s|
    ensures (s + t)[n..] == s[n..] + t
  {
  }

  lemma {:induction false} ValidAppend(s: seq<Byte>, t: seq<Byte>)
    requires ValidUtf8(s) && ValidUtf8(t)
    ensures ValidUtf8(s + t)
    decreases |s|
  {
    if s == [] {
      assert s + t == t;
    } else {
      var n := RuneAt(s);
      RuneAtAppend(s, t);
      ValidAppend(s[n..], t);
      DropAppend(s, t, n);
      ValidFront(s + t, n);
    }
  }

  lemma RuneAtPrefix(s: seq<Byte>, n: nat)
    requires 0 < RuneAt(s) <= n <= |s|
    ensures RuneAt(s[..n]) == RuneAt(s)
  {
    assert forall i :: 0 <= i < n ==> s[..n][i] == s[i];
  }

  /** A valid string may be cut wherever a rune starts. */
  lemma {:induction false} CutAtRuneStart(s: seq<Byte>, n: nat)
    requires ValidUtf8(s) && n <= |s| && (n < |s| ==> RuneStart(s[n]))
    ensures ValidUtf8(s[..n])
  {
    if 0 < n {
      var k := RuneAt(s);
      RuneAtPrefix(s, n);
      CutAtRuneStart(s[k..], n - k);
      assert s[..n][k..] == s[k..][..n - k];
    }
  }

  /** A valid string has a rune start within any four bytes in a row. */
  lemma {:induction false} RuneStartNear(s: seq<Byte>, n: nat)
    requires ValidUtf8(s) && n < |s|
    ensures exists i :: 0 <= i <= n < i + 4 && RuneStart(s[i])
  {
    var k := RuneAt(s);
    if n < k {
      assert RuneStart(s[0]);
    } else {
      RuneStartNear(s[k..], n - k);
      var i :| 0 <= i <= n - k < i + 4 && RuneStart(s[k..][i]);
      assert RuneStart(s[k + i]);
    }
  }

  // ---------------------------------------------------------------------------
  // Truncation
  // ---------------------------------------------------------------------------

  /** The last rune start at or before a position; 0 if there is none after the front. */
  function Back(s: seq<Byte>, limit: nat): (l: nat)
    requires limit < |s|
    ensures l <= limit && (l > 0 ==> RuneStart(s[l]))
    ensures forall i :: l < i <= limit ==> Tail(s[i])
  {
    if limit == 0 || RuneStart(s[limit]) then limit else Back(s, limit - 1)
  }

  function Truncate(s: seq<Byte>, maxBytes: int): (r: seq<Byte>) {
    if maxBytes <= 0 || |s| <= maxBytes then s
    else if maxBytes <= |SUFFIX| then SUFFIX
    else s[..Back(s, maxBytes - |SUFFIX|)] + SUFFIX
  }

  /** What truncation gives: a text within the limit itself; of any other the longest front
      before a rune start that leaves room for the suffix, or nothing, and then the suffix. */
  ghost predicate IsTruncated(s: seq<Byte>, maxBytes: int, r: seq<Byte>) {
    if maxBytes <= 0 || |s| <= maxBytes then r == s
    else exists l: nat :: l < |s| && r == s[..l] + SUFFIX && LastStart(s, maxBytes - |SUFFIX|, l)
  }

  /** The last position up to the limit where a rune starts, or the front. */
  predicate LastStart(s: seq<Byte>, limit: int, l: nat)
    requires l < |s|
  {
    && (l > 0 ==> l <= limit && RuneStart(s[l]))
    && forall i :: l < i < |s| && i <= limit ==> Tail(s[i])
  }

  lemma OneLastStart(s: seq<Byte>, limit: int, l: nat, l': nat)
    requires l < |s| && l' < |s| && LastStart(s, limit, l) && LastStart(s, limit, l')
    ensures l == l'
  {
  }

  lemma TruncateIs(s: seq<Byte>, maxBytes: int, r: seq<Byte>)
    ensures IsTruncated(s, maxBytes, r) <==> r == Truncate(s, maxBytes)
  {
    if 0 < maxBytes < |s| {
      var room := maxBytes - |SUFFIX|;
      var l := if room <= 0 then 0 else Back(s, room);
      assert LastStart(s, room, l) && Truncate(s, maxBytes) == s[..l] + SUFFIX;
      forall l': nat | l' < |s| && LastStart(s, room, l') ensures l' == l {
        OneLastStart(s, room, l, l');
      }
    }
  }

  /** The suffix in characters. */
  lemma SuffixSpells()
    ensures |SUFFIX| == |"...[truncated]"|
    ensures forall i :: 0 <= i < |SUFFIX| ==> SUFFIX[i] == "...[truncated]"[i] as int
  {
  }

  method TruncateString(value: seq<Byte>, maxBytes: int) returns (r: seq<Byte>)
    ensures r == Truncate(value, maxBytes) && IsTruncated(value, maxBytes, r)
  {
    TruncateIs(value, maxBytes, Truncate(value, maxBytes));
    if maxBytes <= 0 || |value| <= maxBytes {
      return value;
    }
    var limit := maxBytes - |SUFFIX|;
    if limit <= 0 {
      return SUFFIX;
    }
    while limit > 0 && !RuneStart(value[limit])
      invariant 0 <= limit < |value| && Back(value, limit) == Back(value, maxBytes - |SUFFIX|)
    {
      limit := limit - 1;
    }
    if limit <= 0 {
      assert value[..0] + SUFFIX == SUFFIX;
      return SUFFIX;
    }
    return value[..limit] + SUFFIX;
  }

  lemma TruncateBounds(s: seq<Byte>, maxBytes: int)
    requires maxBytes > 0
    ensures |Truncate(s, maxBytes)| <= if maxBytes > |SUFFIX| then maxBytes else |SUFFIX|
    ensures Truncate(s, maxBytes) == s <==> |s| <= maxBytes || (s == SUFFIX && maxBytes < |SUFFIX|)
  {
  }

  lemma TruncateTwice(s: seq<Byte>, maxBytes: int)
    ensures Truncate(Truncate(s, maxBytes), maxBytes) == Truncate(s, maxBytes)
  {
    if maxBytes > 0 {
      TruncateBounds(s, maxBytes);
    }
  }

  predicate Ascii(s: seq<Byte>) {
    forall i :: 0 <= i < |s| ==> s[i] <= 0x7F
  }

  lemma {:induction false} AsciiIsValid(s: seq<Byte>)
    requires Ascii(s)
    ensures ValidUtf8(s)
  {
    if s != [] {
      AsciiIsValid(s[1..]);
    }
  }

  lemma SuffixIsAscii()
    ensures Ascii(SUFFIX)
  {
  }

  /** What is left before a rune start, with a valid text behind it, is valid. */
  lemma CutAndAppended(s: seq<Byte>, l: nat, t: seq<Byte>)
    requires ValidUtf8(s) && ValidUtf8(t) && l < |s| && (l > 0 ==> RuneStart(s[l]))
    ensures ValidUtf8(s[..l] + t)
  {
    if l == 0 {
      assert s[..0] == [];
    } else {
      CutAtRuneStart(s, l);
    }
    ValidAppend(s[..l], t);
  }

  /** Truncation keeps valid UTF-8 valid. */
  lemma TruncateKeepsUtf8(s: seq<Byte>, maxBytes: int)
    requires ValidUtf8(s)
    ensures ValidUtf8(Truncate(s, maxBytes))
  {
    SuffixIsAscii();
    TruncatedIsValid(s, maxBytes, SUFFIX, Truncate(s, maxBytes));
  }

  lemma TruncatedIsValid(s: seq<Byte>, maxBytes: int, suffix: seq<Byte>, r: seq<Byte>)
    requires ValidUtf8(s) && Ascii(suffix)
    requires r == if maxBytes <= 0 || |s| <= maxBytes then s
                  else if maxBytes <= |suffix| then suffix
                  else s[..Back(s, maxBytes - |suffix|)] + suffix
    ensures ValidUtf8(r)
  {
    AsciiIsValid(suffix);
    if |suffix| < maxBytes < |s| {
      CutAndAppended(s, Back(s, maxBytes - |suffix|), suffix);
    }
  }

  /** On valid UTF-8 at most three bytes more than needed are given up, and what is kept is a
      prefix of the string. */
  lemma TruncateKeepsMost(s: seq<Byte>, maxBytes: int)
    requires ValidUtf8(s) && |SUFFIX| < maxBytes < |s|
    ensures |Truncate(s, maxBytes)| >= maxBytes - 3
    ensures var r := Truncate(s, maxBytes); r[..|r| - |SUFFIX|] <= s && r[|r| - |SUFFIX|..] == SUFFIX
  {
    RuneStartNear(s, maxBytes - |SUFFIX|);
    var l := Back(s, maxBytes - |SUFFIX|);
    assert (s[..l] + SUFFIX)[..l] == s[..l];
  }

  // ---------------------------------------------------------------------------
  // Nested values
  // ---------------------------------------------------------------------------

  /** What is no string but has a text: an error, a Stringer, or a byte slice. */
  datatype Speaker = Failure | Stringer | Bytes

  datatype LogValue =
    | Null
    | Str(bytes: seq<Byte>)
    | Speaking(speaker: Speaker, bytes: seq<Byte>)
    | Plain(id: int)
    | Dict(entries: map<string, LogValue>)
    | Array(items: seq<LogValue>)

  /** No text in the value is cut. */
  predicate Fits(v: LogValue, maxBytes: int) {
    match v
    case Str(bytes) => Truncate(bytes, maxBytes) == bytes
    case Speaking(_, bytes) => Truncate(bytes, maxBytes) == bytes
    case Dict(entries) => forall k :: k in entries ==> Fits(entries[k], maxBytes)
    case Array(items) => forall i :: 0 <= i < |items| ==> Fits(items[i], maxBytes)
    case _ => true
  }

  /** The second value is the first made loggable. A container in which no text is cut is kept
      as it is, speakers and all; in any other each member is made loggable, with the same
      keys or length, texts truncated, and speakers replaced by their text. */
  predicate Cut(v: LogValue, w: LogValue, maxBytes: int) {
    match v
    case Str(bytes) => w == Str(Truncate(bytes, maxBytes))
    case Speaking(_, bytes) => w == Str(Truncate(bytes, maxBytes))
    case Dict(entries) =>
      if Fits(v, maxBytes) then w == v
      else
        && w.Dict? && w.entries.Keys == entries.Keys
        && forall k :: k in entries ==> Cut(entries[k], w.entries[k], maxBytes)
    case Array(items) =>
      if Fits(v, maxBytes) then w == v
      else
        && w.Array? && |w.items| == |items|
        && forall i :: 0 <= i < |items| ==> Cut(items[i], w.items[i], maxBytes)
    case _ => w == v
  }

  /** The value as it is logged when no text of it is cut: a speaker as its text. */
  function AsLogged(v: LogValue): LogValue {
    if v.Speaking? then Str(v.bytes) else v
  }

  /** The value made loggable, and whether that changed it. */
  method SanitizeAnyValue(value: LogValue, maxBytes: int) returns (out: LogValue, changed: bool)
    ensures Cut(value, out, maxBytes)
    ensures changed <==> !Fits(value, maxBytes)
    ensures changed <==> out != AsLogged(value)
    decreases value, 1
  {
    match value {
      case Str(bytes) =>
        var truncated := TruncateString(bytes, maxBytes);
        out, changed := Str(truncated), truncated != bytes;
      case Speaking(_, bytes) =>
        var truncated := TruncateString(bytes, maxBytes);
        out, changed := Str(truncated), truncated != bytes;
      case Dict(entries) =>
        out, changed := SanitizeEntries(value, maxBytes);
      case Array(items) =>
        out, changed := SanitizeItems(value, maxBytes);
      case _ =>
        out, changed := value, false;
    }
    UnchangedIffFits(value, out, maxBytes);
  }

  method SanitizeEntries(value: LogValue, maxBytes: int) returns (out: LogValue, changed: bool)
    requires value.Dict?
    ensures Cut(value, out, maxBytes)
    ensures changed <==> !Fits(value, maxBytes)
    decreases value, 0
  {
    var sanitized := map[];
    changed := false;
    var left := value.entries.Keys;
    while left != {}
      invariant left <= value.entries.Keys && sanitized.Keys == value.entries.Keys - left
      invariant forall k :: k in sanitized ==> Cut(value.entries[k], sanitized[k], maxBytes)
      invariant changed <==> exists k :: k in sanitized && !Fits(value.entries[k], maxBytes)
      decreases left
    {
      var k :| k in left;
      var nested, nestedChanged := SanitizeAnyValue(value.entries[k], maxBytes);
      ghost var before := sanitized;
      sanitized := sanitized[k := nested];
      assert forall j :: j in before ==> sanitized[j] == before[j];
      changed := changed || nestedChanged;
      left := left - {k};
    }
    out := if changed then Dict(sanitized) else value;
  }

  /** The first items made loggable. */
  predicate FirstCut(items: seq<LogValue>, sanitized: seq<LogValue>, maxBytes: int) {
    |sanitized| <= |items| && forall j :: 0 <= j < |sanitized| ==> Cut(items[j], sanitized[j], maxBytes)
  }

  lemma FirstCutMore(items: seq<LogValue>, sanitized: seq<LogValue>, nested: LogValue, maxBytes: int)
    requires FirstCut(items, sanitized, maxBytes) && |sanitized| < |items|
    requires Cut(items[|sanitized|], nested, maxBytes)
    ensures FirstCut(items, sanitized + [nested], maxBytes)
  {
  }

  predicate FirstFit(items: seq<LogValue>, n: nat, maxBytes: int)
    requires n <= |items|
  {
    forall j :: 0 <= j < n ==> Fits(items[j], maxBytes)
  }

  lemma ItemsAreCut(value: LogValue, sanitized: seq<LogValue>, maxBytes: int)
    requires value.Array? && FirstCut(value.items, sanitized, maxBytes) && |sanitized| == |value.items|
    ensures Fits(value, maxBytes) <==> FirstFit(value.items, |value.items|, maxBytes)
    ensures Cut(value, if Fits(value, maxBytes) then value else Array(sanitized), maxBytes)
  {
  }

  method SanitizeItems(value: LogValue, maxBytes: int) returns (out: LogValue, changed: bool)
    requires value.Array?
    ensures Cut(value, out, maxBytes)
    ensures changed <==> !Fits(value, maxBytes)
    decreases value, 0
  {
    var sanitized: seq<LogValue> := [];
    changed := false;
    for i := 0 to |value.items|
      invariant |sanitized| == i && FirstCut(value.items, sanitized, maxBytes)
      invariant changed <==> !FirstFit(value.items, i, maxBytes)
    {
      var nested, nestedChanged := SanitizeAnyValue(value.items[i], maxBytes);
      FirstCutMore(value.items, sanitized, nested, maxBytes);
      sanitized := sanitized + [nested];
      changed := changed || nestedChanged;
    }
    ItemsAreCut(value, sanitized, maxBytes);
    out := if changed then Array(sanitized) else value;
  }

  /** There is only one sanitized value. */
  lemma {:induction false} CutIsUnique(v: LogValue, w: LogValue, w': LogValue, maxBytes: int)
    requires Cut(v, w, maxBytes) && Cut(v, w', maxBytes)
    ensures w == w'
    decreases v
  {
    if !Fits(v, maxBytes) {
      match v
      case Dict(entries) =>
        forall k | k in entries ensures w.entries[k] == w'.entries[k] {
          CutIsUnique(entries[k], w.entries[k], w'.entries[k], maxBytes);
        }
        assert w.entries == w'.entries;
      case Array(items) =>
        forall i | 0 <= i < |items| ensures w.items[i] == w'.items[i] {
          CutIsUnique(items[i], w.items[i], w'.items[i], maxBytes);
        }
        assert w.items == w'.items;
      case _ =>
    }
  }

  predicate Bounded(v: LogValue, n: int) {
    match v
    case Str(bytes) => |bytes| <= n
    case Speaking(_, bytes) => |bytes| <= n
    case Dict(entries) => forall k :: k in entries ==> Bounded(entries[k], n)
    case Array(items) => forall i :: 0 <= i < |items| ==> Bounded(items[i], n)
    case _ => true
  }

  predicate Utf8Leaves(v: LogValue) {
    match v
    case Str(bytes) => ValidUtf8(bytes)
    case Speaking(_, bytes) => ValidUtf8(bytes)
    case Dict(entries) => forall k :: k in entries ==> Utf8Leaves(entries[k])
    case Array(items) => forall i :: 0 <= i < |items| ==> Utf8Leaves(items[i])
    case _ => true
  }

  function Limit(maxBytes: int): int {
    if maxBytes > |SUFFIX| then maxBytes else |SUFFIX|
  }

  /** In a sanitized value no text is left to be cut. */
  lemma {:induction false} SanitizedFits(v: LogValue, w: LogValue, maxBytes: int)
    requires Cut(v, w, maxBytes)
    ensures Fits(w, maxBytes)
    decreases v
  {
    match v
    case Str(bytes) => TruncateTwice(bytes, maxBytes);
    case Speaking(_, bytes) => TruncateTwice(bytes, maxBytes);
    case Dict(entries) =>
      if !Fits(v, maxBytes) {
        forall k | k in entries ensures Fits(w.entries[k], maxBytes) {
          SanitizedFits(entries[k], w.entries[k], maxBytes);
        }
      }
    case Array(items) =>
      if !Fits(v, maxBytes) {
        forall i | 0 <= i < |items| ensures Fits(w.items[i], maxBytes) {
          SanitizedFits(items[i], w.items[i], maxBytes);
        }
      }
    case _ =>
  }

  lemma {:induction false} FittingIsBounded(v: LogValue, maxBytes: int)
    requires Fits(v, maxBytes) && maxBytes > 0
    ensures Bounded(v, Limit(maxBytes))
    decreases v
  {
    match v
    case Str(bytes) => TruncateBounds(bytes, maxBytes);
    case Speaking(_, bytes) => TruncateBounds(bytes, maxBytes);
    case Dict(entries) =>
      forall k | k in entries ensures Bounded(entries[k], Limit(maxBytes)) {
        FittingIsBounded(entries[k], maxBytes);
      }
    case Array(items) =>
      forall i | 0 <= i < |items| ensures Bounded(items[i], Limit(maxBytes)) {
        FittingIsBounded(items[i], maxBytes);
      }
    case _ =>
  }

  /** Every text at a leaf is bounded. */
  lemma SanitizedIsBounded(v: LogValue, w: LogValue, maxBytes: int)
    requires Cut(v, w, maxBytes) && maxBytes > 0
    ensures Bounded(w, Limit(maxBytes))
  {
    SanitizedFits(v, w, maxBytes);
    FittingIsBounded(w, maxBytes);
  }

  /** Valid UTF-8 stays valid at every leaf. */
  lemma {:induction false} SanitizedKeepsUtf8(v: LogValue, w: LogValue, maxBytes: int)
    requires Cut(v, w, maxBytes) && Utf8Leaves(v)
    ensures Utf8Leaves(w)
    decreases v
  {
    match v
    case Str(bytes) => TruncateKeepsUtf8(bytes, maxBytes);
    case Speaking(_, bytes) => TruncateKeepsUtf8(bytes, maxBytes);
    case Dict(entries) =>
      if !Fits(v, maxBytes) {
        forall k | k in entries ensures Utf8Leaves(w.entries[k]) {
          SanitizedKeepsUtf8(entries[k], w.entries[k], maxBytes);
        }
      }
    case Array(items) =>
      if !Fits(v, maxBytes) {
        forall i | 0 <= i < |items| ensures Utf8Leaves(w.items[i]) {
          SanitizedKeepsUtf8(items[i], w.items[i], maxBytes);
        }
      }
    case _ =>
  }

  /** Sanitizing once more changes nothing. */
  lemma SanitizedTwice(v: LogValue, w: LogValue, w': LogValue, maxBytes: int)
    requires Cut(v, w, maxBytes) && Cut(w, w', maxBytes)
    ensures w' == w
  {
    SanitizedFits(v, w, maxBytes);
  }

  lemma {:induction false} BoundedFits(v: LogValue, maxBytes: int)
    requires Bounded(v, maxBytes)
    ensures Fits(v, maxBytes)
    decreases v
  {
    match v
    case Dict(entries) =>
      forall k | k in entries ensures Fits(entries[k], maxBytes) {
        BoundedFits(entries[k], maxBytes);
      }
    case Array(items) =>
      forall i | 0 <= i < |items| ensures Fits(items[i], maxBytes) {
        BoundedFits(items[i], maxBytes);
      }
    case _ =>
  }

  /** The output is the input, with a speaker as its text, exactly when no text is cut: for
      every limit, none or a negative one included. */
  lemma UnchangedIffFits(v: LogValue, w: LogValue, maxBytes: int)
    requires Cut(v, w, maxBytes)
    ensures w == AsLogged(v) <==> Fits(v, maxBytes)
  {
    SanitizedFits(v, w, maxBytes);
  }

  /** So a value whose texts all are within the limit comes back as it is. */
  lemma BoundedIsUnchanged(v: LogValue, w: LogValue, maxBytes: int)
    requires Cut(v, w, maxBytes) && Bounded(v, maxBytes)
    ensures w == AsLogged(v)
  {
    BoundedFits(v, maxBytes);
  }
}
