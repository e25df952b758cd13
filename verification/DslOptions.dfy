/** The options of a step and the timeout of a flow: what the parsed maps are turned into. */
module DslOptions {
  import opened Prelude
  import opened Numerals
  import opened StoreModel
  import opened Backoff
  import opened Formats
  import opened DslText

  datatype RetryDecl = RetryDecl(maxAttempts: int, delay: int, backoff: string, maxDelay: int, jitter: bool,
                                 when: string, nonRetryable: seq<string>)

  datatype StepOptions = StepOptions(condition: string, timeout: int, retry: Option<RetryDecl>)

  const NO_OPTIONS := StepOptions("", 0, None)

  // ---------------------------------------------------------------------------
  // Conversions
  // ---------------------------------------------------------------------------

  predicate EndsLead(c: char) {
    !IsSpace(c) || c == '\n'
  }

  predicate NotDigit(c: char) {
    !IsDigit(c)
  }

  predicate IsSign(c: char) {
    c == '+' || c == '-'
  }

  /** Where a number begins behind its sign, and where it ends. */
  function NumberAt(s: string, i: nat): (r: (nat, nat))
    requires i <= |s|
    ensures i <= r.0 <= r.1 <= |s| && AllDigits(s[r.0..r.1])
  {
    var start := if i < |s| && IsSign(s[i]) then i + 1 else i;
    (start, Find(s, start, NotDigit))
  }

  function Signed(negative: bool, n: int): int {
    if negative then -n else n
  }

  /** A number that does not fit into 64 bits is not stored. */
  function Stored(n: int): int {
    if InInt64(n) then n else 0
  }

  /** fmt.Sscanf(s, "%d", &i) on a zero i: the integer a text begins with, or 0. What follows
      it is ignored; one that does not fit into 64 bits is not stored. */
  function ScanInt(s: string): (n: int)
    ensures InInt64(n)
  {
    var i := Find(s, 0, EndsLead);
    var (start, end) := NumberAt(s, i);
    if start == end then 0
    else
      Stored(Signed(s[i] == '-', Number(s[start..end])))
  }

  function ToInt(v: Value): int {
    match v
    case Int(n) => n
    case Text(s) => ScanInt(s)
    case _ => 0
  }

  function ToBool(v: Value): bool {
    match v
    case Bool(b) => b
    case Text(s) => s == "true"
    case _ => false
  }

  /** Spaces before a number: not a line break. */
  predicate SpaceText(lead: string) {
    forall k :: 0 <= k < |lead| ==> !EndsLead(lead[k])
  }

  predicate SignText(sign: string) {
    sign == "" || (|sign| == 1 && IsSign(sign[0]))
  }

  /** What stands behind the digits, or behind the lead when there are none. */
  predicate BehindDigits(sign: string, digits: string, rest: string) {
    rest != "" ==> !IsDigit(rest[0]) && (sign == "" && digits == "" ==> EndsLead(rest[0]) && !IsSign(rest[0]))
  }

  /** The parts at their places in the text. */
  lemma PartsStand(s: string, lead: string, sign: string, digits: string, rest: string, i: nat, start: nat, end: nat)
    requires s == lead + sign + digits + rest && i == |lead| && start == i + |sign| && end == start + |digits|
    ensures end <= |s| && s[..i] == lead && s[i..start] == sign && s[start..end] == digits && s[end..] == rest
    ensures rest != "" ==> end < |s| && s[end] == rest[0]
  {
  }

  lemma LeadIsSkipped(s: string, lead: string, sign: string, digits: string, rest: string, i: nat)
    requires s == lead + sign + digits + rest && i == |lead|
    requires SpaceText(lead) && SignText(sign) && AllDigits(digits) && BehindDigits(sign, digits, rest)
    ensures Find(s, 0, EndsLead) == i
  {
    PartsStand(s, lead, sign, digits, rest, i, i + |sign|, i + |sign| + |digits|);
    forall k | 0 <= k < i ensures !EndsLead(s[k]) {
      assert s[k] == s[..i][k];
    }
    if sign != "" {
      assert s[i] == s[i..i + |sign|][0];
    } else if digits != "" {
      assert s[i] == digits[0];
    }
    FindIs(s, 0, EndsLead, i);
  }

  lemma NumberStands(s: string, lead: string, sign: string, digits: string, rest: string, i: nat)
    requires s == lead + sign + digits + rest && i == |lead|
    requires SpaceText(lead) && SignText(sign) && AllDigits(digits) && BehindDigits(sign, digits, rest)
    ensures NumberAt(s, i) == (i + |sign|, i + |sign| + |digits|)
    ensures sign != "" ==> s[i] == sign[0]
    ensures sign == "" && digits != "" ==> IsDigit(s[i])
  {
    var start, end := i + |sign|, i + |sign| + |digits|;
    PartsStand(s, lead, sign, digits, rest, i, start, end);
    if sign != "" {
      assert s[i] == s[i..start][0];
    } else if digits != "" {
      assert s[i] == s[start..end][0];
    }
    forall k | start <= k < end ensures !NotDigit(s[k]) {
      assert s[k] == s[start..end][k - start];
    }
    FindIs(s, start, NotDigit, end);
  }

  /** What every text counts as: spaces, a sign or none, digits and the rest. Without digits
      it is zero, whatever else stands there. */
  lemma ScanReads(lead: string, sign: string, digits: string, rest: string)
    requires SpaceText(lead) && SignText(sign) && AllDigits(digits) && BehindDigits(sign, digits, rest)
    ensures var n := (if sign == "-" then -1 else 1) * Number(digits);
            ScanInt(lead + sign + digits + rest) ==
            if digits != "" && -0x8000_0000_0000_0000 <= n < 0x8000_0000_0000_0000 then n else 0
  {
    var s, i := lead + sign + digits + rest, |lead|;
    LeadIsSkipped(s, lead, sign, digits, rest, i);
    NumberStands(s, lead, sign, digits, rest, i);
    PartsStand(s, lead, sign, digits, rest, i, i + |sign|, i + |sign| + |digits|);
  }

  /** Every text has such parts. */
  lemma ScanParts(s: string) returns (lead: string, sign: string, digits: string, rest: string)
    ensures s == lead + sign + digits + rest
    ensures SpaceText(lead) && SignText(sign) && AllDigits(digits) && BehindDigits(sign, digits, rest)
  {
    var i := Find(s, 0, EndsLead);
    var (start, end) := NumberAt(s, i);
    lead, sign, digits, rest := s[..i], s[i..start], s[start..end], s[end..];
    FourParts(s, i, start, end);
    LeadEnds(s, i, lead);
    RestBehind(s, i, start, end);
  }

  lemma FourParts(s: string, i: nat, start: nat, end: nat)
    requires i <= start <= end <= |s|
    ensures s == s[..i] + s[i..start] + s[start..end] + s[end..]
  {
    assert s[..start] == s[..i] + s[i..start] && s[..end] == s[..start] + s[start..end];
  }

  lemma RestBehind(s: string, i: nat, start: nat, end: nat)
    requires i == Find(s, 0, EndsLead) && NumberAt(s, i) == (start, end)
    ensures SignText(s[i..start]) && BehindDigits(s[i..start], s[start..end], s[end..])
  {
    if end < |s| {
      assert s[end..][0] == s[end];
    }
  }

  lemma LeadEnds(s: string, i: nat, lead: string)
    requires i == Find(s, 0, EndsLead) && lead == s[..i]
    ensures SpaceText(lead)
  {
    forall k | 0 <= k < |lead| ensures !EndsLead(lead[k]) {
      assert lead[k] == s[k];
    }
  }

  /** Every integer of the platform is read back from its numeral, whatever follows it that is
      no digit. */
  lemma ScanNumeral(n: int, rest: string)
    requires InInt64(n) && (rest != "" ==> !IsDigit(rest[0]))
    ensures ScanInt(Numeral(n) + rest) == n
  {
    if n < 0 {
      ScanWritten("-", -n, rest);
    } else {
      assert "" + Decimal(n) == Decimal(n);
      ScanWritten("", n, rest);
    }
  }

  lemma ScanWritten(sign: string, n: nat, rest: string)
    requires SignText(sign) && (rest != "" ==> !IsDigit(rest[0]))
    ensures ScanInt(sign + Decimal(n) + rest) == Stored(Signed(sign == "-", n))
  {
    DecimalIsNumber(n);
    ScanReads("", sign, Decimal(n), rest);
    assert "" + sign == sign;
  }

  /** A text without digits behind its spaces and its sign counts as zero. */
  lemma ScanNothing(lead: string, sign: string, rest: string)
    requires SpaceText(lead) && SignText(sign) && BehindDigits(sign, "", rest)
    ensures ScanInt(lead + sign + rest) == 0
  {
    assert lead + sign + "" + rest == lead + sign + rest;
    ScanReads(lead, sign, "", rest);
  }

  // ---------------------------------------------------------------------------
  // applyStepOptions
  // ---------------------------------------------------------------------------

  function IntAt(m: Contents, key: string): int {
    if key in m then ToInt(m[key]) else 0
  }

  function TextAt(m: Contents, key: string): string {
    if key in m then Format(m[key]) else ""
  }

  function TextsAt(m: Contents, key: string): seq<string> {
    if key in m && m[key].List? then FormatAll(m[key].items) else []
  }

  predicate KnownBackoff(v: Value) {
    v == Text("none") || v == Text("linear") || v == Text("exponential")
  }

  /** The retry fields the code refuses. */
  function RetryError(retry: Contents): Option<ParseError> {
    if "maxRetries" in retry then Some(BadOptions("maxRetries"))
    else if "condition" in retry then Some(BadOptions("condition"))
    else if "backoff" in retry && !KnownBackoff(retry["backoff"]) then Some(BadOptions("backoff"))
    else None
  }

  function RetryOf(retry: Contents): RetryDecl {
    RetryDecl(IntAt(retry, "max_attempts"), IntAt(retry, "delay"),
              if "backoff" in retry && retry["backoff"].Text? then retry["backoff"].text else "",
              IntAt(retry, "max_delay"), "jitter" in retry && ToBool(retry["jitter"]),
              TextAt(retry, "when"), TextsAt(retry, "non_retryable"))
  }

  function ApplyOptions(m: Contents): Result<StepOptions, ParseError> {
    var condition, timeout := TextAt(m, "condition"), IntAt(m, "timeout");
    if "retry" !in m then Success(StepOptions(condition, timeout, None))
    else if !m["retry"].Map? then Failure(BadOptions("retry"))
    else
      match RetryError(m["retry"].entries)
      case Some(e) => Failure(e)
      case None => Success(StepOptions(condition, timeout, Some(RetryOf(m["retry"].entries))))
  }

  /** A retry block that is refused: no map at all, a field under its old name, or a backoff
      other than the three. */
  predicate IsRefused(retry: Value) {
    || !retry.Map?
    || "maxRetries" in retry.entries || "condition" in retry.entries
    || ("backoff" in retry.entries
        && retry.entries["backoff"] !in [Text("none"), Text("linear"), Text("exponential")])
  }

  /** Options are refused exactly for such a retry block, whatever else they say. */
  lemma RefusedIff(m: Contents)
    ensures ApplyOptions(m).Failure? <==> "retry" in m && IsRefused(m["retry"])
    ensures ApplyOptions(m).Failure? ==>
              var field := if !m["retry"].Map? then "retry"
                           else if "maxRetries" in m["retry"].entries then "maxRetries"
                           else if "condition" in m["retry"].entries then "condition" else "backoff";
              ApplyOptions(m).error == BadOptions(field)
  {
  }

  /** A number: itself, the one a text begins with, or zero; also for a field that is absent. */
  predicate NumberIn(m: Contents, key: string, n: int) {
    if key in m then
      match m[key]
      case Int(k) => n == k
      case Text(s) => n == ScanInt(s)
      case _ => n == 0
    else n == 0
  }

  /** The retry policy a map says. */
  predicate SaysPolicy(m: Contents, r: RetryDecl) {
    && NumberIn(m, "max_attempts", r.maxAttempts) && NumberIn(m, "delay", r.delay)
    && NumberIn(m, "max_delay", r.maxDelay)
    && (r.jitter <==> "jitter" in m && (m["jitter"] == Bool(true) || m["jitter"] == Text("true")))
    && (if "backoff" in m then m["backoff"] == Text(r.backoff) else r.backoff == "")
    && (if "when" in m then r.when == Format(m["when"]) else r.when == "")
    && (if "non_retryable" in m && m["non_retryable"].List? then
          var items := m["non_retryable"].items;
          |r.nonRetryable| == |items| && forall k :: 0 <= k < |items| ==> r.nonRetryable[k] == Format(items[k])
        else r.nonRetryable == [])
  }

  lemma {:induction false} FormatsEach(items: seq<Value>)
    ensures |FormatAll(items)| == |items| && forall k :: 0 <= k < |items| ==> FormatAll(items)[k] == Format(items[k])
  {
    if items != [] {
      FormatsEach(items[1..]);
    }
  }

  /** Options that are not refused are what their fields say, and there is a policy exactly if
      there is a retry block. */
  lemma AcceptedSay(m: Contents)
    requires ApplyOptions(m).Success?
    ensures var x := ApplyOptions(m).value;
            && x.condition == (if "condition" in m then Format(m["condition"]) else "")
            && NumberIn(m, "timeout", x.timeout)
            && (x.retry.Some? <==> "retry" in m)
            && (x.retry.Some? ==> m["retry"].Map? && SaysPolicy(m["retry"].entries, x.retry.value))
  {
    if "retry" in m {
      var r := m["retry"].entries;
      if "non_retryable" in r && r["non_retryable"].List? {
        FormatsEach(r["non_retryable"].items);
      }
    }
  }

  // ---------------------------------------------------------------------------
  // Every policy can be declared
  // ---------------------------------------------------------------------------

  function TextsOf(codes: seq<string>): (items: seq<Value>)
    ensures |items| == |codes| && forall i :: 0 <= i < |codes| ==> items[i] == Text(codes[i])
  {
    if codes == [] then [] else [Text(codes[0])] + TextsOf(codes[1..])
  }

  lemma {:induction false} TextsAreFormatted(codes: seq<string>)
    ensures FormatAll(TextsOf(codes)) == codes
  {
    if codes != [] {
      TextsAreFormatted(codes[1..]);
      assert TextsOf(codes)[1..] == TextsOf(codes[1..]);
    }
  }

  /** Retry fields that say this policy. */
  function RetryMap(r: RetryDecl): Contents {
    var m := map["max_attempts" := Text(Numeral(r.maxAttempts)), "delay" := Text(Numeral(r.delay)),
                 "max_delay" := Text(Numeral(r.maxDelay)), "jitter" := Text(if r.jitter then "true" else "false"),
                 "when" := Text(r.when), "non_retryable" := List(TextsOf(r.nonRetryable))];
    if r.backoff == "" then m else m["backoff" := Text(r.backoff)]
  }

  function OptionsMap(x: StepOptions): Contents {
    var m: Contents := map["timeout" := Text(Numeral(x.timeout)), "condition" := Text(x.condition)];
    if x.retry.Some? then m["retry" := Map(RetryMap(x.retry.value))] else m
  }

  /** The backoffs a policy may name, or none at all. */
  predicate MayName(backoff: string) {
    backoff == "" || backoff == "none" || backoff == "linear" || backoff == "exponential"
  }

  /** Numbers of the platform and a backoff that may be named. */
  predicate Expressible(x: StepOptions) {
    && InInt64(x.timeout)
    && (x.retry.Some? ==>
          var r := x.retry.value;
          && InInt64(r.maxAttempts) && InInt64(r.delay) && InInt64(r.maxDelay)
          && MayName(r.backoff))
  }

  lemma NumeralIsRead(n: int)
    requires InInt64(n)
    ensures ToInt(Text(Numeral(n))) == n
  {
    ScanNumeral(n, "");
    assert Numeral(n) + "" == Numeral(n);
  }

  /** What is said under a key. */
  predicate Says(m: Contents, key: string, text: string) {
    key in m && m[key] == Text(text)
  }

  lemma RetryNumbersAreRead(r: RetryDecl)
    ensures Says(RetryMap(r), "max_attempts", Numeral(r.maxAttempts))
    ensures Says(RetryMap(r), "delay", Numeral(r.delay)) && Says(RetryMap(r), "max_delay", Numeral(r.maxDelay))
  {
  }

  lemma RetryRestIsRead(r: RetryDecl)
    ensures Says(RetryMap(r), "jitter", if r.jitter then "true" else "false") && Says(RetryMap(r), "when", r.when)
    ensures TextsAt(RetryMap(r), "non_retryable") == r.nonRetryable
  {
    TextsAreFormatted(r.nonRetryable);
  }

  lemma RetryBackoffIsRead(r: RetryDecl)
    ensures if r.backoff == "" then "backoff" !in RetryMap(r) else Says(RetryMap(r), "backoff", r.backoff)
    ensures "maxRetries" !in RetryMap(r) && "condition" !in RetryMap(r)
  {
  }

  lemma RetryIsAccepted(r: RetryDecl)
    requires MayName(r.backoff)
    ensures RetryError(RetryMap(r)) == None
  {
    RetryBackoffIsRead(r);
  }

  lemma RetryIsRead(r: RetryDecl)
    requires InInt64(r.maxAttempts) && InInt64(r.delay) && InInt64(r.maxDelay)
    requires MayName(r.backoff)
    ensures RetryError(RetryMap(r)) == None && RetryOf(RetryMap(r)) == r
  {
    NumeralIsRead(r.maxAttempts);
    NumeralIsRead(r.delay);
    NumeralIsRead(r.maxDelay);
    RetryNumbersAreRead(r);
    RetryRestIsRead(r);
    RetryBackoffIsRead(r);
    RetryIsAccepted(r);
  }

  /** Round trip: the map that says some options is turned into exactly these options. */
  lemma OptionsAreRead(x: StepOptions)
    requires Expressible(x)
    ensures ApplyOptions(OptionsMap(x)) == Success(x)
  {
    NumeralIsRead(x.timeout);
    if x.retry.Some? {
      RetryIsRead(x.retry.value);
    }
  }
}
