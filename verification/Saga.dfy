/** The flow executor as a state machine: which step, which attempt, which way out.

    Step bodies, expressions, contexts and handlers are foreign code. An oracle answers
    for them from everything that happened so far, so quantifying over oracles covers
    every run. Each transition performs one action of the executor and records it in
    the trace; Finish iterates the transitions and is the meaning of a run. */
module Saga {
  import opened Prelude
  import opened StoreModel
  import opened Backoff

  // ---------------------------------------------------------------------------
  // Flows and errors
  // ---------------------------------------------------------------------------

  datatype Path = Primary | Fallback

  datatype RetryConfig = RetryConfig(maxAttempts: int, policy: Policy, when: string, nonRetryable: seq<string>)

  datatype Step = Step(id: string, condition: string, body: string, timeout: int, retry: Option<RetryConfig>,
                       fallbackBody: string, compensateBody: string)

  datatype Flow = Flow(steps: seq<Step>, onErrorBody: string)

  datatype FlowError = FlowError(kind: string, code: string, message: string, step: string, retries: int)

  /** A Go error, by what errors.Is and errors.As find in its chain. */
  datatype GoError = GoError(deadline: bool, canceled: bool, flow: Option<FlowError>, message: string)

  datatype ContextError = DeadlineExceeded | Canceled

  /** A step whose work must be undone if a later step fails. */
  datatype Entry = Entry(stepID: string, body: string, path: Path)

  function ContextMessage(e: ContextError): string {
    if e.DeadlineExceeded? then "context deadline exceeded" else "context canceled"
  }

  /** The error for a context found done before a step or an attempt. */
  function ContextFailure(e: ContextError, stepID: string, retries: int): FlowError {
    FlowError("timeout", if e.DeadlineExceeded? then "DEADLINE_EXCEEDED" else "CONTEXT_CANCELLED",
              ContextMessage(e), stepID, retries)
  }

  /** Any error as a flow error; one found in the chain keeps its fields. */
  function ToFlowError(e: GoError, stepID: string, attempt: int): FlowError {
    if e.deadline then FlowError("timeout", "DEADLINE_EXCEEDED", e.message, stepID, attempt)
    else if e.canceled then FlowError("timeout", "CONTEXT_CANCELLED", e.message, stepID, attempt)
    else if e.flow.Some? then
      (if e.flow.value.step == "" then e.flow.value.(step := stepID) else e.flow.value)
    else FlowError("permanent", "RUNTIME_ERROR", e.message, stepID, attempt)
  }

  function ErrorMap(fe: FlowError): Value {
    Map(map["type" := Text(fe.kind), "code" := Text(fe.code), "message" := Text(fe.message),
            "step" := Text(fe.step), "retries" := Int(fe.retries)])
  }

  // ---------------------------------------------------------------------------
  // State and trace
  // ---------------------------------------------------------------------------

  datatype Verdict = Pass | Skip | Broken(error: GoError)

  datatype Event =
    | FlowCheck(i: nat, found: Option<ContextError>)
    | Condition(i: nat, verdict: Verdict)
    | AttemptCheck(i: nat, path: Path, attempt: nat, found: Option<ContextError>)
    | Wait(i: nat, path: Path, attempt: nat, delay: int, found: Option<ContextError>)
    | Body(i: nat, path: Path, attempt: nat, error: Option<GoError>)
    | Decide(i: nat, path: Path, attempt: nat, fe: FlowError, again: bool)
    | Next(i: nat, target: string)
    | Responded(i: nat)
    | Failure(i: nat, fe: FlowError)
    | Compensated(entry: Entry, ok: bool)
    | Handled(fe: FlowError, error: Option<GoError>)

  type Trace = seq<Event>

  datatype State = State(store: Contents, response: Option<Value>, comps: seq<Entry>, trace: Trace) {
    function Log(e: Event): State {
      this.(trace := trace + [e])
    }

    function After(effect: Effect): State {
      this.(store := effect.store, response := effect.response)
    }
  }

  /** What a call into foreign code returns and leaves behind. */
  datatype Effect = Effect(error: Option<GoError>, store: Contents, response: Option<Value>)

  /** The world outside the executor. A step's context is identified by the length of
      the trace when it was created, and its timeout. */
  datatype Oracle = Oracle(
    flowDone: Trace -> Option<ContextError>,
    stepDone: (Trace, nat, int) -> Option<ContextError>,
    waitCut: (Trace, nat, int, int) -> Option<ContextError>,
    draw: (Trace, int) -> int,
    hugePower: int,
    execute: (State, Step, Path, nat, nat) -> Effect,
    eval: (State, string) -> Result<Value, GoError>,
    compensate: (State, Entry) -> Effect,
    onError: (State, string, FlowError) -> Effect,
    contextValue: string -> Value,
    format: Value -> string,
    typeName: Value -> string,
    handlesErrors: bool)

  // ---------------------------------------------------------------------------
  // The pieces of a transition
  // ---------------------------------------------------------------------------

  function FallbackStep(step: Step): Step {
    step.(body := step.fallbackBody, retry := None)
  }

  /** The step as executed on a path: the fallback has its own body and no retry policy. */
  function StepOn(flow: Flow, i: nat, path: Path): Step
    requires i < |flow.steps|
  {
    if path.Primary? then flow.steps[i] else FallbackStep(flow.steps[i])
  }

  function MaxAttempts(step: Step): (n: nat)
    ensures n >= 1
  {
    if step.retry.Some? && step.retry.value.maxAttempts > 1 then step.retry.value.maxAttempts else 1
  }

  function Evaluate(o: Oracle, s: State, condition: string): Verdict {
    match o.eval(s, condition)
    case Failure(e) =>
      Broken(e.(message := "error evaluating condition " + condition + ": " + e.message))
    case Success(v) =>
      if !v.Bool? then
        Broken(GoError(false, false, None,
                       "condition " + condition + " evaluated to " + o.typeName(v) + ", expected boolean"))
      else if v.flag then Pass else Skip
  }

  /** Whether to try again, and the store after the `when` expression had its `error`. */
  function ShouldRetry(o: Oracle, s: State, step: Step, fe: FlowError): (bool, State) {
    if step.retry.None? then (false, s)
    else
      var retry := step.retry.value;
      if fe.code in retry.nonRetryable then (false, s)
      else if retry.when != "" then
        var asked := s.(store := Set(s.store, "error", ErrorMap(fe)));
        var answer := o.eval(asked, retry.when);
        (answer == Success(Bool(true)), asked.(store := Set(asked.store, "error", Nil)))
      else (fe.kind == "transient", s)
  }

  predicate Waits(step: Step, attempt: nat) {
    attempt > 0 && step.retry.Some? && step.retry.value.policy.delay > 0
  }

  function Delay(o: Oracle, trace: Trace, policy: Policy, attempt: nat): int
    requires attempt >= 1
  {
    ComputeDelay(policy, attempt, o.hugePower,
                 o.draw(trace, JitterBound(PreJitter(policy, attempt, o.hugePower))))
  }

  /** Execution.Value: the store first, then the context. */
  function Lookup(o: Oracle, store: Contents, key: string): Value {
    var found := Get(store, key);
    if found.Some? then found.value else o.contextValue(key)
  }

  /** The ID a successful step jumps to, or "" to go on with the next step. */
  function Target(o: Oracle, s: State, step: Step): string {
    var next := Lookup(o, s.store, step.id + ".__next");
    if next.Nil? then "" else o.format(next)
  }

  function Record(s: State, step: Step, path: Path): State {
    if step.compensateBody == "" then s
    else s.(comps := s.comps + [Entry(step.id, step.compensateBody, path)])
  }

  // ---------------------------------------------------------------------------
  // Control and transitions
  // ---------------------------------------------------------------------------

  datatype Control =
    | AtStep(i: nat, next: string)
    | AtCondition(i: nat)
    | AtAttempt(i: nat, path: Path, mark: nat, attempt: nat)
    | AtPause(i: nat, path: Path, mark: nat, attempt: nat)
    | AtBody(i: nat, path: Path, mark: nat, attempt: nat)
    | AtDecision(i: nat, path: Path, mark: nat, attempt: nat, fe: FlowError)
    | AtOutcome(i: nat, path: Path, failed: Option<FlowError>)
    | AtEnd(i: nat)
    | Failing(i: nat, fe: FlowError)
    | Unwinding(stack: seq<Entry>, k: nat, fe: FlowError)
    | Handling(fe: FlowError)
    | Done(result: Option<FlowError>)

  datatype Config = Config(at: Control, s: State)

  predicate Attempting(at: Control) {
    at.AtAttempt? || at.AtPause? || at.AtBody? || at.AtDecision?
  }

  predicate WellFormed(flow: Flow, at: Control) {
    match at
    case AtStep(i, _) => i <= |flow.steps|
    case AtCondition(i) => i < |flow.steps|
    case AtAttempt(i, path, _, a) => i < |flow.steps| && a < MaxAttempts(StepOn(flow, i, path))
    case AtPause(i, path, _, a) => i < |flow.steps| && a < MaxAttempts(StepOn(flow, i, path))
    case AtBody(i, path, _, a) => i < |flow.steps| && a < MaxAttempts(StepOn(flow, i, path))
    case AtDecision(i, path, _, a, _) => i < |flow.steps| && a + 1 < MaxAttempts(StepOn(flow, i, path))
    case AtOutcome(i, _, _) => i < |flow.steps|
    case AtEnd(i) => i < |flow.steps|
    case Failing(i, _) => i < |flow.steps|
    case Unwinding(stack, k, _) => k <= |stack|
    case Handling(_) => true
    case Done(_) => true
  }

  datatype Rank = Rank(major: nat, phase: nat, attempts: nat, action: nat)

  /** Decreases with every transition. */
  function RankOf(flow: Flow, at: Control): Rank
    requires WellFormed(flow, at)
  {
    var n := |flow.steps|;
    match at
    case AtStep(i, _) => Rank(n - i + 1, 6, 0, 0)
    case AtCondition(i) => Rank(n - i + 1, 5, 0, 0)
    case AtAttempt(i, path, _, a) => Rank(n - i + 1, PathPhase(path), MaxAttempts(StepOn(flow, i, path)) - a, 3)
    case AtPause(i, path, _, a) => Rank(n - i + 1, PathPhase(path), MaxAttempts(StepOn(flow, i, path)) - a, 2)
    case AtBody(i, path, _, a) => Rank(n - i + 1, PathPhase(path), MaxAttempts(StepOn(flow, i, path)) - a, 1)
    case AtDecision(i, path, _, a, _) => Rank(n - i + 1, PathPhase(path), MaxAttempts(StepOn(flow, i, path)) - a, 0)
    case AtOutcome(i, path, _) => Rank(n - i + 1, PathPhase(path) - 1, 0, 0)
    case AtEnd(i) => Rank(n - i + 1, 0, 0, 0)
    case Failing(_, _) => Rank(0, 3, 0, 0)
    case Unwinding(_, k, _) => Rank(0, 2, k, 0)
    case Handling(_) => Rank(0, 1, 0, 0)
    case Done(_) => Rank(0, 0, 0, 0)
  }

  function PathPhase(path: Path): nat {
    if path.Primary? then 4 else 2
  }

  predicate Less(a: Rank, b: Rank) {
    || a.major < b.major
    || (a.major == b.major && a.phase < b.phase)
    || (a.major == b.major && a.phase == b.phase && a.attempts < b.attempts)
    || (a.major == b.major && a.phase == b.phase && a.attempts == b.attempts && a.action < b.action)
  }

  /** One action of the executor. */
  function Advance(o: Oracle, flow: Flow, c: Config): (r: Config)
    requires WellFormed(flow, c.at) && !c.at.Done?
    ensures WellFormed(flow, r.at)
  {
    if c.at.AtStep? then AdvanceStep(o, flow, c)
    else if c.at.AtCondition? then AdvanceCondition(o, flow, c)
    else if c.at.AtAttempt? then AdvanceAttempt(o, flow, c)
    else if c.at.AtPause? then AdvancePause(o, flow, c)
    else if c.at.AtBody? then AdvanceBody(o, flow, c)
    else if c.at.AtDecision? then AdvanceDecision(o, flow, c)
    else if c.at.AtOutcome? then AdvanceOutcome(o, flow, c)
    else if c.at.AtEnd? then AdvanceEnd(o, flow, c)
    else AdvanceFailure(o, flow, c)
  }

  function AdvanceStep(o: Oracle, flow: Flow, c: Config): (r: Config)
    requires WellFormed(flow, c.at) && c.at.AtStep?
    ensures WellFormed(flow, r.at)
  {
    var (i, next, s) := (c.at.i, c.at.next, c.s);
    if i == |flow.steps| then Config(Done(None), s)
    else
      var found := o.flowDone(s.trace);
      var s' := s.Log(FlowCheck(i, found));
      if found.Some? then Config(Failing(i, ContextFailure(found.value, flow.steps[i].id, 0)), s')
      else if next != "" && flow.steps[i].id != next then Config(AtStep(i + 1, next), s')
      else Config(AtCondition(i), s')
  }

  function AdvanceCondition(o: Oracle, flow: Flow, c: Config): (r: Config)
    requires WellFormed(flow, c.at) && c.at.AtCondition?
    ensures WellFormed(flow, r.at)
  {
    var (i, s) := (c.at.i, c.s);
    if flow.steps[i].condition == "" then Config(AtAttempt(i, Primary, |s.trace|, 0), s)
    else
      var verdict := Evaluate(o, s, flow.steps[i].condition);
      var s' := s.Log(Condition(i, verdict));
      match verdict
      case Pass => Config(AtAttempt(i, Primary, |s'.trace|, 0), s')
      case Skip => Config(AtStep(i + 1, ""), s')
      case Broken(e) => Config(Failing(i, ToFlowError(e, flow.steps[i].id, 0)), s')
  }

  function AdvanceAttempt(o: Oracle, flow: Flow, c: Config): (r: Config)
    requires WellFormed(flow, c.at) && c.at.AtAttempt?
    ensures WellFormed(flow, r.at)
  {
    var (i, path, a, s) := (c.at.i, c.at.path, c.at.attempt, c.s);
    var step := StepOn(flow, i, path);
    var found := o.stepDone(s.trace, c.at.mark, step.timeout);
    var s' := s.Log(AttemptCheck(i, path, a, found));
    if found.Some? then Config(AtOutcome(i, path, Some(ContextFailure(found.value, step.id, a))), s')
    else Config(AtPause(i, path, c.at.mark, a), s')
  }

  function AdvancePause(o: Oracle, flow: Flow, c: Config): (r: Config)
    requires WellFormed(flow, c.at) && c.at.AtPause?
    ensures WellFormed(flow, r.at)
  {
    var (i, path, a, s) := (c.at.i, c.at.path, c.at.attempt, c.s);
    var step := StepOn(flow, i, path);
    if Waits(step, a) then
      var delay := Delay(o, s.trace, step.retry.value.policy, a);
      var cut := o.waitCut(s.trace, c.at.mark, step.timeout, delay);
      var s' := s.Log(Wait(i, path, a, delay, cut));
      if cut.Some? then Config(AtOutcome(i, path, Some(ContextFailure(cut.value, step.id, a))), s')
      else Config(AtBody(i, path, c.at.mark, a), s')
    else Config(AtBody(i, path, c.at.mark, a), s)
  }

  function AdvanceBody(o: Oracle, flow: Flow, c: Config): (r: Config)
    requires WellFormed(flow, c.at) && c.at.AtBody?
    ensures WellFormed(flow, r.at)
  {
    var (i, path, a, s) := (c.at.i, c.at.path, c.at.attempt, c.s);
    var step := StepOn(flow, i, path);
    var effect := o.execute(s, step, path, c.at.mark, a);
    var s' := s.After(effect).Log(Body(i, path, a, effect.error));
    if effect.error.None? then Config(AtOutcome(i, path, None), s')
    else
      var fe := AttemptError(effect.error.value, step.id, a);
      if a + 1 < MaxAttempts(step) then Config(AtDecision(i, path, c.at.mark, a, fe), s')
      else Config(AtOutcome(i, path, Some(fe)), s')
  }

  /** A body's error as a flow error that counts the attempts before it. */
  function AttemptError(e: GoError, stepID: string, attempt: nat): FlowError {
    ToFlowError(e, stepID, attempt).(retries := attempt)
  }

  function AdvanceDecision(o: Oracle, flow: Flow, c: Config): (r: Config)
    requires WellFormed(flow, c.at) && c.at.AtDecision?
    ensures WellFormed(flow, r.at)
  {
    var (i, path, a, fe) := (c.at.i, c.at.path, c.at.attempt, c.at.fe);
    var (again, s) := ShouldRetry(o, c.s, StepOn(flow, i, path), fe);
    var s' := s.Log(Decide(i, path, a, fe, again));
    if again then Config(AtAttempt(i, path, c.at.mark, a + 1), s')
    else Config(AtOutcome(i, path, Some(fe)), s')
  }

  function AdvanceOutcome(o: Oracle, flow: Flow, c: Config): (r: Config)
    requires WellFormed(flow, c.at) && c.at.AtOutcome?
    ensures WellFormed(flow, r.at)
  {
    var (i, path, failed, s) := (c.at.i, c.at.path, c.at.failed, c.s);
    if failed.None? then Config(AtEnd(i), Record(s, flow.steps[i], path))
    else if path.Primary? && flow.steps[i].fallbackBody != "" then
      Config(AtAttempt(i, Fallback, |s.trace|, 0), s)
    else Config(Failing(i, failed.value), s)
  }

  function AdvanceEnd(o: Oracle, flow: Flow, c: Config): (r: Config)
    requires WellFormed(flow, c.at) && c.at.AtEnd?
    ensures WellFormed(flow, r.at)
  {
    var (i, s) := (c.at.i, c.s);
    if s.response.Some? then Config(Done(None), s.Log(Responded(i)))
    else
      var target := Target(o, s, flow.steps[i]);
      Config(AtStep(i + 1, target), s.Log(Next(i, target)))
  }

  predicate InFailure(at: Control) {
    at.Failing? || at.Unwinding? || at.Handling?
  }

  function AdvanceFailure(o: Oracle, flow: Flow, c: Config): (r: Config)
    requires WellFormed(flow, c.at) && InFailure(c.at)
    ensures WellFormed(flow, r.at)
  {
    var s := c.s;
    match c.at
    case Failing(i, fe) =>
      var s' := s.Log(Event.Failure(i, fe));
      if o.handlesErrors then Config(Unwinding(s.comps, |s.comps|, fe), s')
      else Config(Done(Some(fe)), s')
    case Unwinding(stack, k, fe) =>
      if k > 0 then
        var effect := o.compensate(s, stack[k - 1]);
        Config(Unwinding(stack, k - 1, fe), s.After(effect).Log(Compensated(stack[k - 1], effect.error.None?)))
      else if flow.onErrorBody == "" then Config(Done(Some(fe)), s)
      else Config(Handling(fe), s)
    case Handling(fe) =>
      var effect := o.onError(s, flow.onErrorBody, fe);
      var result := if effect.error.None? then None else Some(ToFlowError(effect.error.value, "on_error", 0));
      Config(Done(result), s.After(effect).Log(Handled(fe, effect.error)))
  }

  // ---------------------------------------------------------------------------
  // The protocol with the outside world's answers left open
  // ---------------------------------------------------------------------------

  /** A failure a retry policy lets through: never one of its non-retryable codes, and
      without a `when` expression only a transient one. */
  predicate Permitted(step: Step, fe: FlowError) {
    && step.retry.Some? && fe.code !in step.retry.value.nonRetryable
    && (step.retry.value.when == "" ==> fe.kind == "transient")
  }

  predicate Entering(at: Control, i: nat, path: Path) {
    at.AtAttempt? && at.i == i && at.path == path && at.attempt == 0
  }

  /** The attempts were cut short by the step's context, after the given number of calls. */
  predicate CutShort(at: Control, i: nat, path: Path, calls: nat) {
    && at.AtOutcome? && at.i == i && at.path == path
    && at.failed.Some? && at.failed.value.retries == calls
  }

  /** The transition table: which events and controls may follow a control. */
  predicate Moves(flow: Flow, a: Control, e: Trace, b: Control)
    requires WellFormed(flow, a)
  {
    match a
    case AtStep(i, next) =>
      if i == |flow.steps| then e == [] && b == Done(None)
      else && |e| == 1 && e[0].FlowCheck? && e[0].i == i
           && if e[0].found.Some? then b.Failing? && b.i == i
              else b == if next != "" && flow.steps[i].id != next then AtStep(i + 1, next) else AtCondition(i)
    case AtCondition(i) =>
      if flow.steps[i].condition == "" then e == [] && Entering(b, i, Primary)
      else && |e| == 1 && e[0].Condition? && e[0].i == i
           && (e[0].verdict.Pass? ==> Entering(b, i, Primary))
           && (e[0].verdict.Skip? ==> b == AtStep(i + 1, ""))
           && (e[0].verdict.Broken? ==> b.Failing? && b.i == i)
    case AtAttempt(i, path, mark, n) =>
      && |e| == 1 && e[0].AttemptCheck? && e[0] == AttemptCheck(i, path, n, e[0].found)
      && if e[0].found.Some? then CutShort(b, i, path, n) else b == AtPause(i, path, mark, n)
    case AtPause(i, path, mark, n) =>
      if Waits(StepOn(flow, i, path), n) then
        && |e| == 1 && e[0].Wait? && e[0] == Wait(i, path, n, e[0].delay, e[0].found)
        && if e[0].found.Some? then CutShort(b, i, path, n) else b == AtBody(i, path, mark, n)
      else e == [] && b == AtBody(i, path, mark, n)
    case AtBody(i, path, mark, n) =>
      && |e| == 1 && e[0].Body? && e[0] == Body(i, path, n, e[0].error)
      && if e[0].error.None? then b == AtOutcome(i, path, None)
         else
           var fe := AttemptError(e[0].error.value, flow.steps[i].id, n);
           b == if n + 1 < MaxAttempts(StepOn(flow, i, path)) then AtDecision(i, path, mark, n, fe)
                else AtOutcome(i, path, Some(fe))
    case AtDecision(i, path, mark, n, fe) =>
      && |e| == 1 && e[0].Decide? && e[0] == Decide(i, path, n, fe, e[0].again)
      && if e[0].again then Permitted(StepOn(flow, i, path), fe) && b == AtAttempt(i, path, mark, n + 1)
         else b == AtOutcome(i, path, Some(fe))
    case AtOutcome(i, path, failed) =>
      && e == []
      && if failed.None? then b == AtEnd(i)
         else if path.Primary? && flow.steps[i].fallbackBody != "" then Entering(b, i, Fallback)
         else b == Failing(i, failed.value)
    case AtEnd(i) =>
      && |e| == 1
      && if e[0].Responded? then e[0].i == i && b == Done(None)
         else e[0].Next? && e[0].i == i && b == AtStep(i + 1, e[0].target)
    case Failing(i, fe) =>
      e == [Event.Failure(i, fe)] && (b == Done(Some(fe)) || (b.Unwinding? && b.fe == fe))
    case Unwinding(stack, k, fe) =>
      if k > 0 then |e| == 1 && e[0].Compensated? && b == Unwinding(stack, k - 1, fe)
      else e == [] && (b == Done(Some(fe)) || b == Handling(fe))
    case Handling(fe) =>
      && |e| == 1 && e[0].Handled? && e[0].fe == fe
      && b.Done? && (b.result.None? <==> e[0].error.None?)
    case Done(_) => false
  }

  /** What a transition adds to the trace. */
  function Added(o: Oracle, flow: Flow, c: Config): Trace
    requires WellFormed(flow, c.at) && !c.at.Done?
  {
    var t := Advance(o, flow, c).s.trace;
    if |t| > |c.s.trace| then t[|c.s.trace|..] else []
  }

  /** The transition follows the table and only extends the trace. */
  predicate Follows(o: Oracle, flow: Flow, c: Config)
    requires WellFormed(flow, c.at) && !c.at.Done?
  {
    && Moves(flow, c.at, Added(o, flow, c), Advance(o, flow, c).at)
    && Advance(o, flow, c).s.trace == c.s.trace + Added(o, flow, c)
  }

  /** So does every transition. */
  lemma AdvanceMoves(o: Oracle, flow: Flow, c: Config)
    requires WellFormed(flow, c.at) && !c.at.Done?
    ensures Moves(flow, c.at, Added(o, flow, c), Advance(o, flow, c).at)
    ensures Advance(o, flow, c).s.trace == c.s.trace + Added(o, flow, c)
  {
    if c.at.AtDecision? {
      DecisionMoves(o, flow, c);
    } else if Attempting(c.at) {
      AttemptMoves(o, flow, c);
    } else if InFailure(c.at) {
      FailureMoves(o, flow, c);
    } else {
      StepMoves(o, flow, c);
    }
  }

  lemma AttemptMoves(o: Oracle, flow: Flow, c: Config)
    requires WellFormed(flow, c.at) && Attempting(c.at) && !c.at.AtDecision?
    ensures Follows(o, flow, c)
  {
  }

  lemma FailureMoves(o: Oracle, flow: Flow, c: Config)
    requires WellFormed(flow, c.at) && InFailure(c.at)
    ensures Follows(o, flow, c)
  {
  }

  lemma StepMoves(o: Oracle, flow: Flow, c: Config)
    requires WellFormed(flow, c.at) && !Attempting(c.at) && !InFailure(c.at) && !c.at.Done?
    ensures Follows(o, flow, c)
  {
  }

  /** A retry is decided on only where the policy permits one, and logs nothing itself. */
  lemma RetryIsPermitted(o: Oracle, s: State, step: Step, fe: FlowError)
    ensures ShouldRetry(o, s, step, fe).0 ==> Permitted(step, fe)
    ensures ShouldRetry(o, s, step, fe).1.trace == s.trace
  {
  }

  lemma DecisionMoves(o: Oracle, flow: Flow, c: Config)
    requires WellFormed(flow, c.at) && c.at.AtDecision?
    ensures Follows(o, flow, c)
  {
    RetryIsPermitted(o, c.s, StepOn(flow, c.at.i, c.at.path), c.at.fe);
  }

  lemma AttemptDescends(flow: Flow, a: Control, e: Trace, b: Control)
    requires WellFormed(flow, a) && Moves(flow, a, e, b) && WellFormed(flow, b) && Attempting(a)
    ensures Less(RankOf(flow, b), RankOf(flow, a))
  {
  }

  lemma StepDescends(flow: Flow, a: Control, e: Trace, b: Control)
    requires WellFormed(flow, a) && Moves(flow, a, e, b) && WellFormed(flow, b) && !Attempting(a)
    ensures Less(RankOf(flow, b), RankOf(flow, a))
  {
  }

  /** Every transition comes closer to the end. */
  lemma AdvanceDescends(o: Oracle, flow: Flow, c: Config)
    requires WellFormed(flow, c.at) && !c.at.Done?
    ensures Less(RankOf(flow, Advance(o, flow, c).at), RankOf(flow, c.at))
  {
    AdvanceMoves(o, flow, c);
    if Attempting(c.at) {
      AttemptDescends(flow, c.at, Added(o, flow, c), Advance(o, flow, c).at);
    } else {
      StepDescends(flow, c.at, Added(o, flow, c), Advance(o, flow, c).at);
    }
  }

  /** Runs to the end. */
  function Finish(o: Oracle, flow: Flow, c: Config): (r: Config)
    requires WellFormed(flow, c.at)
    ensures r.at.Done?
    decreases RankOf(flow, c.at).major, RankOf(flow, c.at).phase, RankOf(flow, c.at).attempts, RankOf(flow, c.at).action
  {
    if c.at.Done? then c
    else
      AdvanceDescends(o, flow, c);
      Finish(o, flow, Advance(o, flow, c))
  }

  /** An action of an attempt stays with the path of the step and comes closer to the end. */
  lemma AttemptStays(o: Oracle, flow: Flow, c: Config)
    requires WellFormed(flow, c.at) && Attempting(c.at)
    ensures var d := Advance(o, flow, c);
            && (Attempting(d.at) || d.at.AtOutcome?) && d.at.i == c.at.i && d.at.path == c.at.path
            && Less(RankOf(flow, d.at), RankOf(flow, c.at))
  {
    AdvanceMoves(o, flow, c);
    AttemptDescends(flow, c.at, Added(o, flow, c), Advance(o, flow, c).at);
    MovesWithinPath(flow, c.at, Added(o, flow, c), Advance(o, flow, c).at);
  }

  lemma MovesWithinPath(flow: Flow, a: Control, e: Trace, b: Control)
    requires WellFormed(flow, a) && Attempting(a) && Moves(flow, a, e, b)
    ensures (Attempting(b) || b.AtOutcome?) && b.i == a.i && b.path == a.path
  {
  }

  /** Runs the attempts of one path of one step: the meaning of executeStepWithRetries. */
  function FinishAttempts(o: Oracle, flow: Flow, c: Config): (r: Config)
    requires WellFormed(flow, c.at) && (Attempting(c.at) || c.at.AtOutcome?)
    ensures WellFormed(flow, r.at) && r.at.AtOutcome? && r.at.i == c.at.i && r.at.path == c.at.path
    decreases RankOf(flow, c.at).major, RankOf(flow, c.at).phase, RankOf(flow, c.at).attempts, RankOf(flow, c.at).action
  {
    if c.at.AtOutcome? then c
    else
      AttemptStays(o, flow, c);
      FinishAttempts(o, flow, Advance(o, flow, c))
  }

  lemma {:induction false} FinishAfterAttempts(o: Oracle, flow: Flow, c: Config)
    requires WellFormed(flow, c.at) && (Attempting(c.at) || c.at.AtOutcome?)
    ensures Finish(o, flow, FinishAttempts(o, flow, c)) == Finish(o, flow, c)
    decreases RankOf(flow, c.at).major, RankOf(flow, c.at).phase, RankOf(flow, c.at).attempts, RankOf(flow, c.at).action
  {
    if !c.at.AtOutcome? {
      AttemptStays(o, flow, c);
      FinishAfterAttempts(o, flow, Advance(o, flow, c));
    }
  }

  function Start(store: Contents, response: Option<Value>): Config {
    Config(AtStep(0, ""), State(store, response, [], []))
  }

  /** A whole run of a flow from a fresh run state. */
  function Run(o: Oracle, flow: Flow, store: Contents, response: Option<Value>): Config {
    Finish(o, flow, Start(store, response))
  }
}
