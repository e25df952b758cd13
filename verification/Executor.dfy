/** The executor as the code runs it: loops over shared run state. Every method is proved
    to end exactly where the state machine of module Saga ends, and so with a log that obeys the law. */
module Executor {
  import opened Prelude
  import opened StoreModel
  import opened PropertyMerge
  import opened Saga
  import opened SagaLaw
  import SagaLawful

  /** The mutable state all views of one request share. */
  class RunState {
    var store: Contents
    var response: Option<Value>
    var compStack: seq<Entry>

    constructor (store: Contents)
      ensures this.store == store && response == None && compStack == []
    {
      this.store, response, compStack := store, None, [];
    }

    method AppendCompensation(entry: Entry)
      modifies this`compStack
      ensures compStack == old(compStack) + [entry]
    {
      compStack := compStack + [entry];
    }

    method Absorb(effect: Effect)
      modifies this`store, this`response
      ensures store == effect.store && response == effect.response
    {
      store, response := effect.store, effect.response;
    }
  }

  /** The world outside: what it answered so far decides what it answers next. */
  class World {
    const oracle: Oracle
    var history: Trace

    constructor (oracle: Oracle)
      ensures this.oracle == oracle && history == []
    {
      this.oracle, history := oracle, [];
    }

    method Observe(e: Event)
      modifies this`history
      ensures history == old(history) + [e]
    {
      history := history + [e];
    }
  }

  /** The context a view carries. */
  datatype Scope = FlowScope | StepScope(mark: nat, timeout: int) | Detached

  /** A copyable view of a running flow; copies share the run state. */
  datatype Execution = Execution(flow: Flow, state: RunState, world: World, scope: Scope,
                                 activeStep: string, activePath: Option<Path>) {
    function WithContext(scope: Scope): Execution {
      this.(scope := scope)
    }

    function WithActiveStep(id: string): Execution {
      this.(activeStep := id)
    }

    function WithActivePath(path: Path): Execution {
      this.(activePath := Some(path))
    }

    ghost function View(): State
      reads state, world
    {
      State(state.store, state.response, state.compStack, world.history)
    }

    /** Where the run that is now at this control will end. */
    ghost function Ending(at: Control): Config
      requires WellFormed(flow, at)
      reads state, world
    {
      Finish(world.oracle, flow, Config(at, View()))
    }

    /** Where the attempts that are now at this control will end. */
    ghost function Outcome(at: Control): Config
      requires WellFormed(flow, at) && (Attempting(at) || at.AtOutcome?)
      reads state, world
    {
      FinishAttempts(world.oracle, flow, Config(at, View()))
    }
  }

  /** One transition does not change where a run ends. */
  lemma EndsAfter(o: Oracle, flow: Flow, c: Config)
    requires WellFormed(flow, c.at) && !c.at.Done?
    ensures Finish(o, flow, c) == Finish(o, flow, Advance(o, flow, c))
  {
  }

  /** Where a step goes on once its condition is known. */
  function AfterCondition(flow: Flow, i: nat, verdict: Verdict, mark: nat): Control
    requires i < |flow.steps|
  {
    match verdict
    case Pass => AtAttempt(i, Primary, mark, 0)
    case Skip => AtStep(i + 1, "")
    case Broken(e) => Failing(i, ToFlowError(e, flow.steps[i].id, 0))
  }

  /** evaluateCondition: pass, skip, or an error that fails the run. */
  method EvaluateCondition(x: Execution, i: nat) returns (verdict: Verdict)
    requires i < |x.flow.steps|
    modifies x.world
    ensures x.Ending(AfterCondition(x.flow, i, verdict, |x.world.history|)) == old(x.Ending(AtCondition(i)))
    ensures x.flow.steps[i].condition == "" ==> verdict == Pass && x.world.history == old(x.world.history)
    ensures x.flow.steps[i].condition != "" ==>
              && Judged(x.world.oracle, old(x.View()), x.flow.steps[i].condition, verdict)
              && x.world.history == old(x.world.history) + [Condition(i, verdict)]
  {
    EndsAfter(x.world.oracle, x.flow, Config(AtCondition(i), x.View()));
    var condition := x.flow.steps[i].condition;
    if condition == "" {
      return Pass;
    }
    var s := State(x.state.store, x.state.response, x.state.compStack, x.world.history);
    var answer := x.world.oracle.eval(s, condition);
    match answer {
      case Failure(e) =>
        verdict := Broken(e.(message := "error evaluating condition " + condition + ": " + e.message));
      case Success(v) =>
        if !v.Bool? {
          verdict := Broken(GoError(false, false, None, "condition " + condition + " evaluated to " +
                                                        x.world.oracle.typeName(v) + ", expected boolean"));
        } else {
          verdict := if v.flag then Pass else Skip;
        }
    }
    x.world.Observe(Condition(i, verdict));
  }

  /** shouldRetry: the `when` expression sees the error in the store under `error`. */
  method DecideRetry(x: Execution, step: Step, fe: FlowError) returns (again: bool)
    modifies x.state`store
    ensures (again, x.View()) == ShouldRetry(x.world.oracle, old(x.View()), step, fe)
    ensures again <==> Retried(x.world.oracle, old(x.View()), step, fe)
  {
    if step.retry.None? {
      return false;
    }
    var retry := step.retry.value;
    if fe.code in retry.nonRetryable {
      return false;
    }
    if retry.when != "" {
      x.state.store := Set(x.state.store, "error", ErrorMap(fe));
      var s := State(x.state.store, x.state.response, x.state.compStack, x.world.history);
      var answer := x.world.oracle.eval(s, retry.when);
      x.state.store := Set(x.state.store, "error", Nil);
      return answer == Success(Bool(true));
    }
    return fe.kind == "transient";
  }

  /** The wait between two attempts, if the policy asks for one. */
  method Pause(x: Execution, i: nat, path: Path, attempt: nat, mark: nat) returns (cut: Option<ContextError>)
    requires i < |x.flow.steps| && attempt < MaxAttempts(StepOn(x.flow, i, path))
    modifies x.world
    ensures AdvancePause(x.world.oracle, x.flow, Config(AtPause(i, path, mark, attempt), old(x.View()))) ==
            Config(if cut.Some?
                   then AtOutcome(i, path, Some(ContextFailure(cut.value, x.flow.steps[i].id, attempt)))
                   else AtBody(i, path, mark, attempt), x.View())
  {
    var step := StepOn(x.flow, i, path);
    if attempt > 0 && step.retry.Some? && step.retry.value.policy.delay > 0 {
      var delay := Delay(x.world.oracle, x.world.history, step.retry.value.policy, attempt);
      cut := x.world.oracle.waitCut(x.world.history, mark, step.timeout, delay);
      x.world.Observe(Wait(i, path, attempt, delay, cut));
    } else {
      cut := None;
    }
  }

  /** Where the attempts go on once a call has returned. */
  function AfterCall(flow: Flow, i: nat, path: Path, mark: nat, attempt: nat, error: Option<GoError>): Control
    requires i < |flow.steps|
  {
    var step := StepOn(flow, i, path);
    if error.None? then AtOutcome(i, path, None)
    else
      var fe := AttemptError(error.value, step.id, attempt);
      if attempt + 1 < MaxAttempts(step) then AtDecision(i, path, mark, attempt, fe)
      else AtOutcome(i, path, Some(fe))
  }

  /** One call of a step body, on the view scoped to the step. */
  method CallBody(x: Execution, i: nat, path: Path, attempt: nat, mark: nat) returns (error: Option<GoError>)
    requires i < |x.flow.steps| && attempt < MaxAttempts(StepOn(x.flow, i, path))
    modifies x.state, x.world
    ensures x.Outcome(AfterCall(x.flow, i, path, mark, attempt, error)) ==
            old(x.Outcome(AtBody(i, path, mark, attempt)))
  {
    AttemptsAfter(x.world.oracle, x.flow, Config(AtBody(i, path, mark, attempt), x.View()));
    var s := State(x.state.store, x.state.response, x.state.compStack, x.world.history);
    var effect := x.world.oracle.execute(s, StepOn(x.flow, i, path), path, mark, attempt);
    x.state.Absorb(effect);
    x.world.Observe(Body(i, path, attempt, effect.error));
    return effect.error;
  }

  /** A decision is one transition of the attempts. */
  lemma DecisionAdvances(o: Oracle, flow: Flow, i: nat, path: Path, mark: nat, attempt: nat, fe: FlowError,
                         before: State, again: bool, asked: State, after: State)
    requires i < |flow.steps| && attempt + 1 < MaxAttempts(StepOn(flow, i, path))
    requires (again, asked) == ShouldRetry(o, before, StepOn(flow, i, path), fe)
    requires after == asked.Log(Decide(i, path, attempt, fe, again))
    ensures var c := Config(AtDecision(i, path, mark, attempt, fe), before);
            FinishAttempts(o, flow, c) ==
            FinishAttempts(o, flow, Config(if again then AtAttempt(i, path, mark, attempt + 1)
                                           else AtOutcome(i, path, Some(fe)), after))
  {
    AttemptsAfter(o, flow, Config(AtDecision(i, path, mark, attempt, fe), before));
  }

  /** The decision on another attempt. */
  method Reconsider(x: Execution, i: nat, path: Path, attempt: nat, mark: nat, fe: FlowError) returns (again: bool)
    requires i < |x.flow.steps| && attempt + 1 < MaxAttempts(StepOn(x.flow, i, path))
    modifies x.state, x.world
    ensures again ==>
              x.Outcome(AtAttempt(i, path, mark, attempt + 1)) == old(x.Outcome(AtDecision(i, path, mark, attempt, fe)))
    ensures !again ==>
              x.Outcome(AtOutcome(i, path, Some(fe))) == old(x.Outcome(AtDecision(i, path, mark, attempt, fe)))
  {
    ghost var before := x.View();
    again := DecideRetry(x, StepOn(x.flow, i, path), fe);
    ghost var asked := x.View();
    x.world.Observe(Decide(i, path, attempt, fe, again));
    DecisionAdvances(x.world.oracle, x.flow, i, path, mark, attempt, fe, before, again, asked, x.View());
  }

  /** The context check and the wait before a call. */
  method BeginAttempt(x: Execution, i: nat, path: Path, attempt: nat, mark: nat) returns (failed: Option<FlowError>)
    requires i < |x.flow.steps| && attempt < MaxAttempts(StepOn(x.flow, i, path))
    modifies x.world
    ensures x.Outcome(if failed.Some? then AtOutcome(i, path, failed) else AtBody(i, path, mark, attempt)) ==
            old(x.Outcome(AtAttempt(i, path, mark, attempt)))
  {
    var step := StepOn(x.flow, i, path);
    ghost var c := Config(AtAttempt(i, path, mark, attempt), x.View());
    AttemptsAfter(x.world.oracle, x.flow, c);
    var found := x.world.oracle.stepDone(x.world.history, mark, step.timeout);
    x.world.Observe(AttemptCheck(i, path, attempt, found));
    if found.Some? {
      return Some(ContextFailure(found.value, step.id, attempt));
    }
    c := Config(AtPause(i, path, mark, attempt), x.View());
    AttemptsAfter(x.world.oracle, x.flow, c);
    var cut := Pause(x, i, path, attempt, mark);
    if cut.Some? {
      return Some(ContextFailure(cut.value, step.id, attempt));
    }
    return None;
  }

  /** One turn of the attempt loop: the checks, the call and the decision. */
  method TryOnce(x: Execution, stepExec: Execution, i: nat, path: Path, attempt: nat, mark: nat)
    returns (again: bool, failed: Option<FlowError>)
    requires i < |x.flow.steps| && attempt < MaxAttempts(StepOn(x.flow, i, path))
    requires stepExec.flow == x.flow && stepExec.state == x.state && stepExec.world == x.world
    modifies x.state, x.world
    ensures again ==> attempt + 1 < MaxAttempts(StepOn(x.flow, i, path))
    ensures again ==>
              x.Outcome(AtAttempt(i, path, mark, attempt + 1)) == old(x.Outcome(AtAttempt(i, path, mark, attempt)))
    ensures !again ==> x.Outcome(AtOutcome(i, path, failed)) == old(x.Outcome(AtAttempt(i, path, mark, attempt)))
  {
    failed := BeginAttempt(x, i, path, attempt, mark);
    if failed.Some? {
      return false, failed;
    }
    again, failed := CallAndDecide(stepExec, i, path, attempt, mark);
  }

  /** The call, and after a failure the decision. */
  method CallAndDecide(x: Execution, i: nat, path: Path, attempt: nat, mark: nat)
    returns (again: bool, failed: Option<FlowError>)
    requires i < |x.flow.steps| && attempt < MaxAttempts(StepOn(x.flow, i, path))
    modifies x.state, x.world
    ensures again ==> attempt + 1 < MaxAttempts(StepOn(x.flow, i, path))
    ensures again ==> x.Outcome(AtAttempt(i, path, mark, attempt + 1)) == old(x.Outcome(AtBody(i, path, mark, attempt)))
    ensures !again ==> x.Outcome(AtOutcome(i, path, failed)) == old(x.Outcome(AtBody(i, path, mark, attempt)))
  {
    var error := CallBody(x, i, path, attempt, mark);
    var step := StepOn(x.flow, i, path);
    ghost var after := AfterCall(x.flow, i, path, mark, attempt, error);
    if error.None? {
      assert after == AtOutcome(i, path, None);
      return false, None;
    }
    var fe := AttemptError(error.value, step.id, attempt);
    if attempt + 1 < MaxAttempts(step) {
      assert after == AtDecision(i, path, mark, attempt, fe);
      again := Reconsider(x, i, path, attempt, mark, fe);
      return again, Some(fe);
    }
    assert after == AtOutcome(i, path, Some(fe));
    return false, Some(fe);
  }

  /** executeStepWithRetries: it ends exactly where the attempts of the state machine end. */
  method ExecuteStepWithRetries(x: Execution, i: nat, path: Path) returns (failed: Option<FlowError>)
    requires i < |x.flow.steps|
    modifies x.state, x.world
    ensures Config(AtOutcome(i, path, failed), x.View()) ==
            old(x.Outcome(AtAttempt(i, path, |x.world.history|, 0)))
  {
    var step := StepOn(x.flow, i, path);
    var mark := |x.world.history|;
    var stepExec := x.WithContext(StepScope(mark, step.timeout)).WithActivePath(path).WithActiveStep(step.id);
    var maxAttempts := MaxAttempts(step);
    ghost var goal := x.Outcome(AtAttempt(i, path, mark, 0));
    var attempt := 0;
    while attempt < maxAttempts
      invariant attempt < maxAttempts && x.Outcome(AtAttempt(i, path, mark, attempt)) == goal
    {
      var again;
      again, failed := TryOnce(x, stepExec, i, path, attempt, mark);
      if !again {
        return;
      }
      attempt := attempt + 1;
    }
  }

  lemma AttemptsAfter(o: Oracle, flow: Flow, c: Config)
    requires WellFormed(flow, c.at) && Attempting(c.at)
    ensures FinishAttempts(o, flow, c) == FinishAttempts(o, flow, Advance(o, flow, c))
  {
  }

  /** runCompensations: last recorded first; a failing one does not stop the rest. */
  method RunCompensations(x: Execution, ghost fe: FlowError)
    requires x.world.oracle.handlesErrors
    modifies x.state, x.world
    ensures x.Ending(Unwinding(old(x.state.compStack), 0, fe)) ==
            old(x.Ending(Unwinding(x.state.compStack, |x.state.compStack|, fe)))
  {
    var safeExec := x.WithContext(Detached);
    var stack := x.state.compStack;
    var i := |stack|;
    while i > 0
      invariant 0 <= i <= |stack|
      invariant x.Ending(Unwinding(stack, i, fe)) == old(x.Ending(Unwinding(stack, |stack|, fe)))
    {
      ghost var c := Config(Unwinding(stack, i, fe), x.View());
      i := i - 1;
      var entry := stack[i];
      var s := State(safeExec.state.store, safeExec.state.response, safeExec.state.compStack, x.world.history);
      var effect := x.world.oracle.compensate(s, entry);
      safeExec.state.Absorb(effect);
      x.world.Observe(Compensated(entry, effect.error.None?));
      EndsAfter(x.world.oracle, x.flow, c);
    }
  }

  /** runOnErrorHandler: runs the on_error body when there is one and it can be executed. */
  method RunOnErrorHandler(x: Execution, fe: FlowError) returns (handled: bool, handlerErr: Option<FlowError>)
    modifies x.state, x.world
    ensures handled == (x.flow.onErrorBody != "" && x.world.oracle.handlesErrors)
    ensures !handled ==> x.View() == old(x.View())
    ensures handled ==> Config(Done(handlerErr), x.View()) ==
                        AdvanceFailure(x.world.oracle, x.flow, Config(Handling(fe), old(x.View())))
  {
    if x.flow.onErrorBody == "" || !x.world.oracle.handlesErrors {
      return false, None;
    }
    var safeExec := x.WithContext(Detached);
    var s := State(x.state.store, x.state.response, x.state.compStack, x.world.history);
    var effect := x.world.oracle.onError(s, x.flow.onErrorBody, fe);
    safeExec.state.Absorb(effect);
    x.world.Observe(Handled(fe, effect.error));
    if effect.error.None? {
      return true, None;
    }
    return true, Some(ToFlowError(effect.error.value, "on_error", 0));
  }

  /** handleFailure: compensations, then the handler; its result is the run's result. */
  method HandleFailure(x: Execution, i: nat, fe: FlowError) returns (result: Option<FlowError>)
    requires i < |x.flow.steps|
    modifies x.state, x.world
    ensures Config(Done(result), x.View()) == old(x.Ending(Failing(i, fe)))
  {
    ghost var c := Config(Failing(i, fe), x.View());
    x.world.Observe(Event.Failure(i, fe));
    EndsAfter(x.world.oracle, x.flow, c);
    if x.world.oracle.handlesErrors {
      ghost var stack := x.state.compStack;
      RunCompensations(x, fe);
      EndsAfter(x.world.oracle, x.flow, Config(Unwinding(stack, 0, fe), x.View()));
    }
    ghost var before := Config(Handling(fe), x.View());
    var handled, handlerErr := RunOnErrorHandler(x, fe);
    if !handled {
      return Some(fe);
    }
    EndsAfter(x.world.oracle, x.flow, before);
    return handlerErr;
  }

  /** Primary body with retries, then the fallback if there is one. */
  method ExecuteStep(x: Execution, i: nat) returns (failed: Option<FlowError>)
    requires i < |x.flow.steps|
    modifies x.state, x.world
    ensures x.Ending(if failed.None? then AtEnd(i) else Failing(i, failed.value)) ==
            old(x.Ending(AtAttempt(i, Primary, |x.world.history|, 0)))
  {
    var step := x.flow.steps[i];
    failed := RunPath(x, i, Primary);
    ghost var c := Config(AtOutcome(i, Primary, failed), x.View());
    EndsAfter(x.world.oracle, x.flow, c);
    if failed.None? {
      RecordSuccess(x, step, Primary);
    } else if step.fallbackBody != "" {
      failed := RunPath(x, i, Fallback);
      c := Config(AtOutcome(i, Fallback, failed), x.View());
      EndsAfter(x.world.oracle, x.flow, c);
      if failed.None? {
        RecordSuccess(x, step, Fallback);
      }
    }
  }

  method RunPath(x: Execution, i: nat, path: Path) returns (failed: Option<FlowError>)
    requires i < |x.flow.steps|
    modifies x.state, x.world
    ensures x.Ending(AtOutcome(i, path, failed)) == old(x.Ending(AtAttempt(i, path, |x.world.history|, 0)))
  {
    FinishAfterAttempts(x.world.oracle, x.flow, Config(AtAttempt(i, path, |x.world.history|, 0), x.View()));
    failed := ExecuteStepWithRetries(x, i, path);
  }

  method RecordSuccess(x: Execution, step: Step, path: Path)
    modifies x.state`compStack
    ensures x.View() == Record(old(x.View()), step, path)
  {
    if step.compensateBody != "" {
      x.state.AppendCompensation(Entry(step.id, step.compensateBody, path));
    }
  }

  /** After a successful step: stop on a response, or read where to go on. */
  method EndStep(x: Execution, i: nat) returns (stop: bool, nextStep: string)
    requires i < |x.flow.steps|
    modifies x.world
    ensures x.Ending(if stop then Done(None) else AtStep(i + 1, nextStep)) == old(x.Ending(AtEnd(i)))
    ensures stop <==> x.state.response.Some?
    ensures !stop ==> JumpsTo(x.world.oracle, x.state.store, x.flow.steps[i].id, nextStep)
  {
    EndsAfter(x.world.oracle, x.flow, Config(AtEnd(i), x.View()));
    nextStep := "";
    if x.state.response.Some? {
      x.world.Observe(Responded(i));
      return true, nextStep;
    }
    var next := Lookup(x.world.oracle, x.state.store, x.flow.steps[i].id + ".__next");
    if !next.Nil? {
      nextStep := x.world.oracle.format(next);
    }
    x.world.Observe(Next(i, nextStep));
    return false, nextStep;
  }

  /** How one turn of the step loop ends. */
  datatype Turn = GoOn(nextStep: string) | Return(result: Option<FlowError>)

  function AfterTurn(i: nat, turn: Turn): Control {
    match turn
    case GoOn(nextStep) => AtStep(i + 1, nextStep)
    case Return(result) => Done(result)
  }

  /** A step whose turn has come: its condition, its body and what follows it. */
  method RunStep(x: Execution, i: nat) returns (turn: Turn)
    requires i < |x.flow.steps|
    modifies x.state, x.world
    ensures x.Ending(AfterTurn(i, turn)) == old(x.Ending(AtCondition(i)))
  {
    var s := x.flow.steps[i];
    var verdict := EvaluateCondition(x, i);
    if verdict.Broken? {
      var result := HandleFailure(x, i, ToFlowError(verdict.error, s.id, 0));
      return Return(result);
    } else if verdict.Skip? {
      return GoOn("");
    }
    var failed := ExecuteStep(x, i);
    if failed.Some? {
      var result := HandleFailure(x, i, failed.value);
      return Return(result);
    }
    var stop, nextStep := EndStep(x, i);
    return if stop then Return(None) else GoOn(nextStep);
  }

  /** The body of the step loop. */
  method TakeTurn(x: Execution, i: nat, nextStep: string) returns (turn: Turn)
    requires i < |x.flow.steps|
    modifies x.state, x.world
    ensures x.Ending(AfterTurn(i, turn)) == old(x.Ending(AtStep(i, nextStep)))
  {
    var s := x.flow.steps[i];
    EndsAfter(x.world.oracle, x.flow, Config(AtStep(i, nextStep), x.View()));
    var found := x.world.oracle.flowDone(x.world.history);
    x.world.Observe(FlowCheck(i, found));
    if found.Some? {
      var result := HandleFailure(x, i, ContextFailure(found.value, s.id, 0));
      return Return(result);
    }
    if nextStep != "" && s.id != nextStep {
      return GoOn(nextStep);
    }
    turn := RunStep(x, i);
  }

  /** ExecuteSteps: the step loop. It returns what the state machine returns and leaves the
      run state and the world as the state machine leaves them. */
  method ExecuteSteps(x: Execution) returns (result: Option<FlowError>)
    modifies x.state, x.world
    ensures Config(Done(result), x.View()) == old(x.Ending(AtStep(0, "")))
    ensures old(x.state.compStack) == [] && old(x.world.history) == [] ==>
              var start := Memory(old(x.state.store), old(x.state.response));
              && Complete(x.world.oracle, x.flow, start, x.world.history) && result == Outcome(x.world.history)
              && Memory(x.state.store, x.state.response) == Replay(x.world.oracle, x.flow, start, x.world.history)
  {
    if x.state.compStack == [] && x.world.history == [] {
      SagaLawful.RunIsLawful(x.world.oracle, x.flow, x.state.store, x.state.response);
    }
    var nextStep := "";
    var i := 0;
    while i < |x.flow.steps|
      invariant 0 <= i <= |x.flow.steps|
      invariant x.Ending(AtStep(i, nextStep)) == old(x.Ending(AtStep(0, "")))
    {
      var turn := TakeTurn(x, i, nextStep);
      if turn.Return? {
        return turn.result;
      }
      nextStep := turn.nextStep;
      i := i + 1;
    }
    EndsAfter(x.world.oracle, x.flow, Config(AtStep(i, nextStep), x.View()));
    return None;
  }

  // ---------------------------------------------------------------------------
  // NewExecution
  // ---------------------------------------------------------------------------

  /** The properties a run starts with: the global ones are set in some order, then those of
      the flow in some order. */
  method MergeProperties(state: RunState, globals: map<string, Value>, flowProperties: map<string, Value>)
    returns (ghost first: seq<string>, ghost second: seq<string>)
    modifies state`store
    ensures Lists(first, globals.Keys) && Lists(second, flowProperties.Keys)
    ensures state.store == Merge(old(state.store), globals, flowProperties, first, second)
    ensures AllRead(state.store, globals + flowProperties) <==> Coherent(globals + flowProperties)
  {
    first := AddAll(state, globals);
    second := AddAll(state, flowProperties);
    FlowPropertyWins(old(state.store), globals, flowProperties, first, second);
  }

  method AddAll(state: RunState, properties: map<string, Value>) returns (ghost order: seq<string>)
    modifies state`store
    ensures Lists(order, properties.Keys) && state.store == SetAll(old(state.store), properties, order)
  {
    order := [];
    var todo := properties.Keys;
    while todo != {}
      invariant todo <= properties.Keys && Lists(order, properties.Keys - todo)
      invariant state.store == SetAll(old(state.store), properties, order)
      decreases todo
    {
      var n :| n in todo;
      ListsMore(order, properties.Keys - todo, n);
      todo := todo - {n};
      assert properties.Keys - todo == (properties.Keys - (todo + {n})) + {n};
      assert (order + [n])[..|order|] == order;
      state.store := Set(state.store, "properties." + n, properties[n]);
      order := order + [n];
    }
  }
}
