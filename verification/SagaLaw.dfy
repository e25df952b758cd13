/** The log of a run as a law of its own: what is due after a log, what each event says
    about the answers of the outside world, and what replaying the log leaves behind. The
    law knows nothing of the state machine; a log obeys it exactly if it is the run's. */
module SagaLaw {
  import opened Prelude
  import opened StoreModel
  import opened Backoff
  import opened Saga
  import opened SagaUnwind

  // ---------------------------------------------------------------------------
  // Errors
  // ---------------------------------------------------------------------------

  /** What a context found done is reported as. */
  function Timeout(e: ContextError, stepID: string, retries: int): FlowError {
    match e
    case DeadlineExceeded => FlowError("timeout", "DEADLINE_EXCEEDED", "context deadline exceeded", stepID, retries)
    case Canceled => FlowError("timeout", "CONTEXT_CANCELLED", "context canceled", stepID, retries)
  }

  /** What any other error is reported as: a flow error in its chain is kept, and only given
      the step's name if it has none. */
  function Reported(e: GoError, stepID: string, retries: int): FlowError {
    match e
    case GoError(true, _, _, message) => FlowError("timeout", "DEADLINE_EXCEEDED", message, stepID, retries)
    case GoError(false, true, _, message) => FlowError("timeout", "CONTEXT_CANCELLED", message, stepID, retries)
    case GoError(false, false, Some(FlowError(kind, code, message, step, n)), _) =>
      FlowError(kind, code, message, if step == "" then stepID else step, n)
    case GoError(false, false, None, message) => FlowError("permanent", "RUNTIME_ERROR", message, stepID, retries)
  }

  /** The error of a body counts the attempts before it, whatever it said itself. */
  function CallError(e: GoError, stepID: string, attempt: nat): FlowError {
    var FlowError(kind, code, message, step, _) := Reported(e, stepID, attempt);
    FlowError(kind, code, message, step, attempt)
  }

  // ---------------------------------------------------------------------------
  // What is due
  // ---------------------------------------------------------------------------

  /** What has to happen next. */
  datatype Duty =
    | ReachStep(i: nat)
    | Ask(i: nat)
    | Try(i: nat, path: Path, attempt: nat)
    | Pause(i: nat, path: Path, attempt: nat)
    | Call(i: nat, path: Path, attempt: nat)
    | Choose(i: nat, path: Path, attempt: nat, fe: FlowError)
    | Leave(i: nat)
    | Fail(i: nat, fe: FlowError)
    | Undo(entry: Entry)
    | Handle(fe: FlowError)
    | Stop

  /** The step a path executes: the fallback has its own body and is never retried. */
  function Called(flow: Flow, i: nat, path: Path): Step
    requires i < |flow.steps|
  {
    var step := flow.steps[i];
    match path
    case Primary => step
    case Fallback =>
      Step(step.id, step.condition, step.fallbackBody, step.timeout, None, step.fallbackBody, step.compensateBody)
  }

  /** No attempt is left after this one. */
  predicate LastAttempt(step: Step, attempt: nat) {
    match step.retry
    case Some(retry) => retry.maxAttempts <= attempt + 1
    case None => true
  }

  function StepOrStop(flow: Flow, i: nat): Duty {
    if i == |flow.steps| then Stop else ReachStep(i)
  }

  function PauseOrCall(step: Step, i: nat, path: Path, attempt: nat): Duty {
    match step.retry
    case Some(retry) =>
      if attempt > 0 && retry.policy.delay > 0 then Pause(i, path, attempt) else Call(i, path, attempt)
    case None => Call(i, path, attempt)
  }

  /** The primary path leaves it to the fallback, if there is one. */
  function FallbackOrFail(step: Step, i: nat, path: Path, fe: FlowError): Duty {
    if path == Primary && step.fallbackBody != "" then Try(i, Fallback, 0) else Fail(i, fe)
  }

  /** The failure the log contains. */
  function Cause(t: Trace): Option<FlowError> {
    if t == [] then None
    else if t[|t| - 1].Failure? then Some(t[|t| - 1].fe)
    else Cause(t[..|t| - 1])
  }

  /** After the failure: the last committed entry not yet undone, then the handler. */
  function UndoOrHandle(flow: Flow, done: seq<Entry>, undone: seq<Entry>, cause: Option<FlowError>): Duty {
    if |undone| < |done| then Undo(done[|done| - |undone| - 1])
    else if flow.onErrorBody != "" && cause.Some? then Handle(cause.value)
    else Stop
  }

  /** The jump still to be made after a log, or "". */
  function Pending(flow: Flow, t: Trace): string {
    if t == [] then ""
    else
      match t[|t| - 1]
      case Next(_, target) => target
      case FlowCheck(i, None) => 
        var target := Pending(flow, t[..|t| - 1]);
        if PassesOver(flow, target, i) then target else ""
      case _ => ""
  }

  predicate PassesOver(flow: Flow, target: string, i: nat) {
    target != "" && i < |flow.steps| && flow.steps[i].id != target
  }

  predicate Places(flow: Flow, e: Event) {
    match e
    case Failure(_, _) => true
    case Compensated(_, _) => true
    case Handled(_, _) => true
    case _ => e.i < |flow.steps|
  }

  /** What is due after an event, given the jump pending before it and what is left to undo. */
  function DueAfter(o: Oracle, flow: Flow, pending: string, undoing: Duty, e: Event): Duty
    requires Places(flow, e)
  {
    match e
    case FlowCheck(i, Some(found)) => Fail(i, Timeout(found, flow.steps[i].id, 0))
    case FlowCheck(i, None) =>
      if PassesOver(flow, pending, i) then StepOrStop(flow, i + 1)
      else if flow.steps[i].condition == "" then Try(i, Primary, 0)
      else Ask(i)
    case Condition(i, Pass) => Try(i, Primary, 0)
    case Condition(i, Skip) => StepOrStop(flow, i + 1)
    case Condition(i, Broken(error)) => Fail(i, Reported(error, flow.steps[i].id, 0))
    case AttemptCheck(i, path, a, Some(found)) =>
      FallbackOrFail(flow.steps[i], i, path, Timeout(found, flow.steps[i].id, a))
    case AttemptCheck(i, path, a, None) => PauseOrCall(Called(flow, i, path), i, path, a)
    case Wait(i, path, a, _, Some(found)) =>
      FallbackOrFail(flow.steps[i], i, path, Timeout(found, flow.steps[i].id, a))
    case Wait(i, path, a, _, None) => Call(i, path, a)
    case Body(i, path, a, None) => Leave(i)
    case Body(i, path, a, Some(error)) =>
      var fe := CallError(error, flow.steps[i].id, a);
      if LastAttempt(Called(flow, i, path), a) then FallbackOrFail(flow.steps[i], i, path, fe)
      else Choose(i, path, a, fe)
    case Decide(i, path, a, fe, again) =>
      if again then Try(i, path, a + 1) else FallbackOrFail(flow.steps[i], i, path, fe)
    case Next(i, _) => StepOrStop(flow, i + 1)
    case Responded(_) => Stop
    case Failure(_, _) => if o.handlesErrors then undoing else Stop
    case Compensated(_, _) => undoing
    case Handled(_, _) => Stop
  }

  /** What is due after a log. */
  function Due(o: Oracle, flow: Flow, t: Trace): Duty {
    if t == [] then StepOrStop(flow, 0)
    else if Places(flow, t[|t| - 1]) then
      DueAfter(o, flow, Pending(flow, t[..|t| - 1]), UndoOrHandle(flow, Committed(flow, t), Undone(t), Cause(t)),
               t[|t| - 1])
    else Stop
  }

  /** The event is what was due. */
  predicate Fulfils(duty: Duty, e: Event) {
    match duty
    case ReachStep(i) => e.FlowCheck? && e.i == i
    case Ask(i) => e.Condition? && e.i == i
    case Try(i, path, a) => e.AttemptCheck? && e.i == i && e.path == path && e.attempt == a
    case Pause(i, path, a) => e.Wait? && e.i == i && e.path == path && e.attempt == a
    case Call(i, path, a) => e.Body? && e.i == i && e.path == path && e.attempt == a
    case Choose(i, path, a, fe) => e.Decide? && e.i == i && e.path == path && e.attempt == a && e.fe == fe
    case Leave(i) => (e.Responded? || e.Next?) && e.i == i
    case Fail(i, fe) => e == Event.Failure(i, fe)
    case Undo(entry) => e.Compensated? && e.entry == entry
    case Handle(fe) => e.Handled? && e.fe == fe
    case Stop => false
  }

  /** What a run returns: nothing without a failure; else the failure, unless the handler's
      result takes its place. */
  function Outcome(t: Trace): Option<FlowError> {
    if t != [] && t[|t| - 1].Handled? then
      match t[|t| - 1].error
      case None => None
      case Some(error) => Some(Reported(error, "on_error", 0))
    else Cause(t)
  }

  // ---------------------------------------------------------------------------
  // What the outside world answers and leaves
  // ---------------------------------------------------------------------------

  datatype Memory = Memory(store: Contents, response: Option<Value>)

  predicate OfPath(e: Event, i: nat, path: Path) {
    (e.AttemptCheck? || e.Wait? || e.Body? || e.Decide?) && e.i == i && e.path == path
  }

  /** Where the attempts of a path began that the log ends with: its context was made there. */
  function Entered(t: Trace, i: nat, path: Path): nat {
    if t != [] && OfPath(t[|t| - 1], i, path) then Entered(t[..|t| - 1], i, path) else |t|
  }

  function Described(fe: FlowError): Value {
    Map(map["type" := Text(fe.kind), "code" := Text(fe.code), "message" := Text(fe.message),
            "step" := Text(fe.step), "retries" := Int(fe.retries)])
  }

  /** The `when` expression of the policy is consulted. */
  predicate AsksWhen(step: Step, fe: FlowError) {
    step.retry.Some? && fe.code !in step.retry.value.nonRetryable && step.retry.value.when != ""
  }

  /** A failure is tried again: its code is not excluded, and either it is transient or the
      `when` expression, seeing the failure under `error`, says true. */
  predicate Retried(o: Oracle, s: State, step: Step, fe: FlowError) {
    match step.retry
    case None => false
    case Some(retry) =>
      && fe.code !in retry.nonRetryable
      && if retry.when == "" then fe.kind == "transient"
         else o.eval(s.(store := Set(s.store, "error", Described(fe))), retry.when) == Success(Bool(true))
  }

  /** A condition passes on true, skips on false, and is broken by anything else. */
  predicate Judged(o: Oracle, s: State, condition: string, verdict: Verdict) {
    match o.eval(s, condition)
    case Success(Bool(true)) => verdict == Pass
    case Success(Bool(false)) => verdict == Skip
    case Success(v) =>
      verdict == Broken(GoError(false, false, None,
                                "condition " + condition + " evaluated to " + o.typeName(v) + ", expected boolean"))
    case Failure(GoError(deadline, canceled, flow, message)) =>
      verdict == Broken(GoError(deadline, canceled, flow, "error evaluating condition " + condition + ": " + message))
  }

  /** The step to jump to is the one stored for the step, or else the one of the context. */
  predicate JumpsTo(o: Oracle, store: Contents, stepID: string, target: string) {
    var key := stepID + ".__next";
    match Get(store, key)
    case Some(Nil) => target == ""
    case Some(v) => target == o.format(v)
    case None => target == if o.contextValue(key) == Nil then "" else o.format(o.contextValue(key))
  }

  /** The event says what the outside world answered. */
  predicate Answered(o: Oracle, flow: Flow, s: State, e: Event) {
    match e
    case FlowCheck(i, found) => i < |flow.steps| && found == o.flowDone(s.trace)
    case Condition(i, verdict) => i < |flow.steps| && Judged(o, s, flow.steps[i].condition, verdict)
    case AttemptCheck(i, path, _, found) =>
      i < |flow.steps| && found == o.stepDone(s.trace, Entered(s.trace, i, path), flow.steps[i].timeout)
    case Wait(i, path, a, delay, found) =>
      && i < |flow.steps| && a > 0 && Called(flow, i, path).retry.Some?
      && var policy := Called(flow, i, path).retry.value.policy;
      && delay == ComputeDelay(policy, a, o.hugePower,
                               o.draw(s.trace, JitterBound(PreJitter(policy, a, o.hugePower))))
      && found == o.waitCut(s.trace, Entered(s.trace, i, path), flow.steps[i].timeout, delay)
    case Body(i, path, a, error) =>
      && i < |flow.steps|
      && error == o.execute(s, Called(flow, i, path), path, Entered(s.trace, i, path), a).error
    case Decide(i, path, _, fe, again) => i < |flow.steps| && again == Retried(o, s, Called(flow, i, path), fe)
    case Next(i, target) => i < |flow.steps| && s.response.None? && JumpsTo(o, s.store, flow.steps[i].id, target)
    case Responded(i) => i < |flow.steps| && s.response.Some?
    case Failure(_, _) => true
    case Compensated(entry, ok) => ok == o.compensate(s, entry).error.None?
    case Handled(fe, error) => error == o.onError(s, flow.onErrorBody, fe).error
  }

  function LeftBy(effect: Effect): Memory {
    Memory(effect.store, effect.response)
  }

  /** What an event leaves: what the call it stands for left, and otherwise what was there. */
  function After(o: Oracle, flow: Flow, s: State, e: Event): Memory {
    match e
    case Body(i, path, a, _) =>
      if i < |flow.steps| then LeftBy(o.execute(s, Called(flow, i, path), path, Entered(s.trace, i, path), a))
      else Memory(s.store, s.response)
    case Decide(i, path, _, fe, _) =>
      if i < |flow.steps| && AsksWhen(Called(flow, i, path), fe) then Memory(Set(s.store, "error", Nil), s.response)
      else Memory(s.store, s.response)
    case Compensated(entry, _) => LeftBy(o.compensate(s, entry))
    case Handled(fe, _) => LeftBy(o.onError(s, flow.onErrorBody, fe))
    case _ => Memory(s.store, s.response)
  }

  function Resumed(flow: Flow, t: Trace, m: Memory): State {
    State(m.store, m.response, Committed(flow, t), t)
  }

  /** Store and response after a log, by replaying it. */
  function Replay(o: Oracle, flow: Flow, start: Memory, t: Trace): Memory {
    if t == [] then start
    else
      var before := t[..|t| - 1];
      After(o, flow, Resumed(flow, before, Replay(o, flow, start, before)), t[|t| - 1])
  }

  /** The state of a run that has this log. */
  function StateAfter(o: Oracle, flow: Flow, start: Memory, t: Trace): State {
    Resumed(flow, t, Replay(o, flow, start, t))
  }

  /** After this log, the event was due and says what the world answered. */
  predicate Allowed(o: Oracle, flow: Flow, start: Memory, t: Trace, e: Event) {
    Fulfils(Due(o, flow, t), e) && Answered(o, flow, StateAfter(o, flow, start, t), e)
  }

  /** The law: so it is for every event. */
  ghost predicate Lawful(o: Oracle, flow: Flow, start: Memory, t: Trace) {
    forall p {:trigger Allowed(o, flow, start, t[..p], t[p])} ::
      0 <= p < |t| ==> Allowed(o, flow, start, t[..p], t[p])
  }

  /** A complete log: it obeys the law, and nothing is due after it. */
  ghost predicate Complete(o: Oracle, flow: Flow, start: Memory, t: Trace) {
    Lawful(o, flow, start, t) && Due(o, flow, t) == Stop
  }
}
