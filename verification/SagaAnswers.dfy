/** What a run does with the answers of the outside world, event by event: each call is made
    with what the log names and leaves what the run goes on with, conditions decide, retries
    and steps that are due happen. Read off from the law every run obeys. */
module SagaAnswers {
  import opened Prelude
  import opened StoreModel
  import opened Saga
  import opened SagaUnwind
  import opened SagaLaw
  import opened SagaLawful

  function LogOf(o: Oracle, flow: Flow, m: Memory): Trace {
    Run(o, flow, m.store, m.response).s.trace
  }

  /** The state in which the event at a position of the log happened. */
  function StateAt(o: Oracle, flow: Flow, m: Memory, p: nat): State
    requires p <= |LogOf(o, flow, m)|
  {
    StateAfter(o, flow, m, LogOf(o, flow, m)[..p])
  }

  /** Store and response of the run after that many events. */
  function MemoryAt(o: Oracle, flow: Flow, m: Memory, p: nat): Memory
    requires p <= |LogOf(o, flow, m)|
  {
    Memory(StateAt(o, flow, m, p).store, StateAt(o, flow, m, p).response)
  }

  lemma EventIsAllowed(o: Oracle, flow: Flow, m: Memory, p: nat)
    requires p < |LogOf(o, flow, m)|
    ensures Allowed(o, flow, m, LogOf(o, flow, m)[..p], LogOf(o, flow, m)[p])
    ensures MemoryAt(o, flow, m, p + 1) == After(o, flow, StateAt(o, flow, m, p), LogOf(o, flow, m)[p])
  {
    RunIsLawful(o, flow, m.store, m.response);
    var t := LogOf(o, flow, m);
    assert t[..p + 1][..p] == t[..p];
  }

  /** What is due after an event of the log. */
  function DueBehind(o: Oracle, flow: Flow, m: Memory, p: nat): Duty
    requires p < |LogOf(o, flow, m)| && Places(flow, LogOf(o, flow, m)[p])
  {
    var t := LogOf(o, flow, m);
    DueAfter(o, flow, Pending(flow, t[..p]),
             UndoOrHandle(flow, Committed(flow, t[..p + 1]), Undone(t[..p + 1]), Cause(t[..p + 1])), t[p])
  }

  /** What is due comes next, and the run ends where nothing is due. */
  lemma DutiesAreMet(o: Oracle, flow: Flow, m: Memory, p: nat)
    requires p < |LogOf(o, flow, m)|
    ensures var t := LogOf(o, flow, m);
            && Places(flow, t[p])
            && if p + 1 == |t| then DueBehind(o, flow, m, p) == Stop
               else Fulfils(DueBehind(o, flow, m, p), t[p + 1])
  {
    var t := LogOf(o, flow, m);
    RunIsLawful(o, flow, m.store, m.response);
    EventIsAllowed(o, flow, m, p);
    assert t[..p + 1][..p] == t[..p];
    if p + 1 == |t| {
      assert t[..p + 1] == t;
    } else {
      EventIsAllowed(o, flow, m, p + 1);
    }
  }

  /** The run starts with what it was given, and ends with what its last event left. */
  lemma MemoryIsReplayed(o: Oracle, flow: Flow, m: Memory)
    ensures var r := Run(o, flow, m.store, m.response);
            && MemoryAt(o, flow, m, 0) == m
            && MemoryAt(o, flow, m, |LogOf(o, flow, m)|) == Memory(r.s.store, r.s.response)
  {
    RunIsLawful(o, flow, m.store, m.response);
    var t := LogOf(o, flow, m);
    assert t[..|t|] == t;
  }

  // ---------------------------------------------------------------------------
  // Calls
  // ---------------------------------------------------------------------------

  /** The path's attempts, which the log ends with, began here. */
  predicate BeganAt(t: Trace, i: nat, path: Path, mark: nat) {
    && mark <= |t| && (forall q :: mark <= q < |t| ==> OfPath(t[q], i, path))
    && (mark > 0 ==> !OfPath(t[mark - 1], i, path))
  }

  lemma {:induction false} EnteredWhereBegan(t: Trace, i: nat, path: Path)
    ensures BeganAt(t, i, path, Entered(t, i, path))
  {
    if t != [] && OfPath(t[|t| - 1], i, path) {
      EnteredWhereBegan(t[..|t| - 1], i, path);
    }
  }

  /** The call ended with this error, and left what the run goes on with. */
  predicate Ended(effect: Effect, error: Option<GoError>, left: Memory) {
    effect.error == error && effect.store == left.store && effect.response == left.response
  }

  /** The call an event stands for: a compensation executes the entry that is named, the
      handler gets the failure that is named, and a step is executed with the body of the
      path that is named, in the context made when the path was entered. */
  predicate CallExecuted(o: Oracle, flow: Flow, s: State, e: Event, left: Memory) {
    match e
    case Compensated(entry, ok) =>
      var effect := o.compensate(s, entry);
      Ended(effect, effect.error, left) && (ok <==> effect.error == None)
    case Handled(fe, error) => Ended(o.onError(s, flow.onErrorBody, fe), error, left)
    case Body(i, path, a, error) =>
      && i < |flow.steps|
      && var mark := Entered(s.trace, i, path);
      && var primary := flow.steps[i];
      && BeganAt(s.trace, i, path, mark)
      && Ended(o.execute(s, if path == Fallback then primary.(body := primary.fallbackBody, retry := None) else primary,
                         path, mark, a), error, left)
    case _ => left.response == s.response && (e.Decide? || left.store == s.store)
  }

  lemma AnswerIsExecuted(o: Oracle, flow: Flow, s: State, e: Event)
    requires Answered(o, flow, s, e)
    ensures CallExecuted(o, flow, s, e, After(o, flow, s, e))
  {
    if e.Body? {
      EnteredWhereBegan(s.trace, e.i, e.path);
    }
  }

  /** So it is for every event of every run. */
  lemma CallsAreExecuted(o: Oracle, flow: Flow, m: Memory, p: nat)
    requires p < |LogOf(o, flow, m)|
    ensures var s := StateAt(o, flow, m, p);
            && s.trace == LogOf(o, flow, m)[..p]
            && CallExecuted(o, flow, s, LogOf(o, flow, m)[p], MemoryAt(o, flow, m, p + 1))
  {
    EventIsAllowed(o, flow, m, p);
    AnswerIsExecuted(o, flow, StateAt(o, flow, m, p), LogOf(o, flow, m)[p]);
  }

  // ---------------------------------------------------------------------------
  // Conditions
  // ---------------------------------------------------------------------------

  /** A condition passes exactly on true and skips exactly on false. */
  predicate Decides(answer: Result<Value, GoError>, verdict: Verdict) {
    && (verdict == Pass <==> answer == Success(Bool(true)))
    && (verdict == Skip <==> answer == Success(Bool(false)))
  }

  lemma JudgementDecides(o: Oracle, s: State, condition: string, verdict: Verdict)
    requires Judged(o, s, condition, verdict)
    ensures Decides(o.eval(s, condition), verdict)
  {
  }

  /** So does every condition of every run; any other value, and an error, breaks it. */
  lemma ConditionsDecide(o: Oracle, flow: Flow, m: Memory, p: nat)
    requires p < |LogOf(o, flow, m)| && LogOf(o, flow, m)[p].Condition?
    ensures var (i, verdict) := (LogOf(o, flow, m)[p].i, LogOf(o, flow, m)[p].verdict);
            i < |flow.steps| && Decides(o.eval(StateAt(o, flow, m, p), flow.steps[i].condition), verdict)
  {
    EventIsAllowed(o, flow, m, p);
    var e := LogOf(o, flow, m)[p];
    JudgementDecides(o, StateAt(o, flow, m, p), flow.steps[e.i].condition, e.verdict);
  }

  predicate IsTry(t: Trace, p: nat, i: nat, path: Path, attempt: nat) {
    p < |t| && t[p].AttemptCheck? && t[p].i == i && t[p].path == path && t[p].attempt == attempt
  }

  /** After a condition that passed its step is tried, after one that skipped the next step is
      reached, if there is one, and one that broke fails the run. */
  lemma VerdictsAreFollowed(o: Oracle, flow: Flow, m: Memory, p: nat)
    requires p < |LogOf(o, flow, m)| && LogOf(o, flow, m)[p].Condition?
    ensures var t := LogOf(o, flow, m);
            var i := t[p].i;
            && i < |flow.steps|
            && (t[p].verdict.Pass? ==> IsTry(t, p + 1, i, Primary, 0))
            && (t[p].verdict.Skip? ==>
                  if i + 1 == |flow.steps| then p + 1 == |t|
                  else p + 1 < |t| && t[p + 1].FlowCheck? && t[p + 1].i == i + 1)
            && (t[p].verdict.Broken? ==>
                  && p + 1 < |t| && t[p + 1].Failure? && t[p + 1].i == i
                  && IsReported(t[p + 1].fe, t[p].verdict.error, flow.steps[i].id, 0))
  {
    DutiesAreMet(o, flow, m, p);
    var e := LogOf(o, flow, m)[p];
    if e.verdict.Broken? {
      ReportedIs(e.verdict.error, flow.steps[e.i].id, 0);
    }
  }

  /** Nothing of a step is tried before its condition has passed, if it has one. */
  predicate Cleared(flow: Flow, t: Trace, i: nat) {
    i < |flow.steps| && (flow.steps[i].condition == "" || exists q :: 0 <= q < |t| && t[q] == Condition(i, Pass))
  }

  /** The duty is about the attempts of a step. */
  predicate Trying(duty: Duty) {
    duty.Try? || duty.Pause? || duty.Call? || duty.Choose?
  }

  lemma ClearedLater(flow: Flow, t: Trace, e: Event, i: nat)
    requires Cleared(flow, t, i) || (i < |flow.steps| && e == Condition(i, Pass))
    ensures Cleared(flow, t + [e], i)
  {
    if flow.steps[i].condition != "" {
      if Cleared(flow, t, i) {
        var q :| 0 <= q < |t| && t[q] == Condition(i, Pass);
        assert (t + [e])[q] == Condition(i, Pass);
      } else {
        assert (t + [e])[|t|] == e;
      }
    }
  }

  /** Attempts become due behind a cleared step only. */
  lemma DueIsCleared(o: Oracle, flow: Flow, t: Trace, e: Event, pending: string, undoing: Duty, duty: Duty)
    requires Places(flow, e) && Fulfils(duty, e) && (Trying(duty) ==> Cleared(flow, t, duty.i))
    requires !Trying(undoing)
    ensures var next := DueAfter(o, flow, pending, undoing, e); Trying(next) ==> Cleared(flow, t + [e], next.i)
  {
    var next := DueAfter(o, flow, pending, undoing, e);
    if Trying(next) && flow.steps[next.i].condition != "" {
      ClearedLater(flow, t, e, next.i);
    }
  }

  /** If attempts are due after a log, their step is cleared. */
  ghost predicate AttemptsCleared(o: Oracle, flow: Flow, t: Trace) {
    forall duty {:trigger Trying(duty)} :: duty == Due(o, flow, t) && Trying(duty) ==> Cleared(flow, t, duty.i)
  }

  lemma OneMoreIsCleared(o: Oracle, flow: Flow, t: Trace, e: Event)
    requires Places(flow, e) && Fulfils(Due(o, flow, t), e) && AttemptsCleared(o, flow, t)
    ensures AttemptsCleared(o, flow, t + [e])
  {
    var r := Further(flow, Read(flow, t), e);
    DueLog(o, flow, t, e);
    DueIsCleared(o, flow, t, e, Pending(flow, t), UndoOrHandle(flow, r.done, r.undone, r.cause), Due(o, flow, t));
  }

  lemma EventIsDue(o: Oracle, flow: Flow, m: Memory, p: nat)
    requires p < |LogOf(o, flow, m)|
    ensures var t := LogOf(o, flow, m); Fulfils(Due(o, flow, t[..p]), t[p]) && Places(flow, t[p])
  {
    EventIsAllowed(o, flow, m, p);
  }

  lemma {:induction false} AttemptsAreCleared(o: Oracle, flow: Flow, m: Memory, k: nat)
    requires k <= |LogOf(o, flow, m)|
    ensures AttemptsCleared(o, flow, LogOf(o, flow, m)[..k])
  {
    if k > 0 {
      AttemptsAreCleared(o, flow, m, k - 1);
      var t := LogOf(o, flow, m);
      EventIsDue(o, flow, m, k - 1);
      OneMoreIsCleared(o, flow, t[..k - 1], t[k - 1]);
      assert t[..k] == t[..k - 1] + [t[k - 1]];
    }
  }

  lemma CallIsCleared(o: Oracle, flow: Flow, t: Trace, e: Event)
    requires e.Body? && Fulfils(Due(o, flow, t), e) && AttemptsCleared(o, flow, t)
    ensures Cleared(flow, t, e.i)
  {
    assert Trying(Due(o, flow, t));
  }

  lemma BodyIsCleared(o: Oracle, flow: Flow, m: Memory, p: nat)
    requires p < |LogOf(o, flow, m)| && LogOf(o, flow, m)[p].Body?
    ensures Cleared(flow, LogOf(o, flow, m)[..p], LogOf(o, flow, m)[p].i)
  {
    EventIsAllowed(o, flow, m, p);
    AttemptsAreCleared(o, flow, m, p);
    CallIsCleared(o, flow, LogOf(o, flow, m)[..p], LogOf(o, flow, m)[p]);
  }

  lemma ClearedIsPassed(flow: Flow, t: Trace, p: nat, i: nat)
    requires p <= |t| && Cleared(flow, t[..p], i) && flow.steps[i].condition != ""
    ensures exists q :: 0 <= q < p && t[q] == Condition(i, Pass)
  {
    var q :| 0 <= q < |t[..p]| && t[..p][q] == Condition(i, Pass);
    assert t[q] == Condition(i, Pass);
  }

  /** On every run a body starts behind a condition of its step that passed, or the step has
      no condition. */
  lemma BodiesAreCleared(o: Oracle, flow: Flow, m: Memory, p: nat)
    requires p < |LogOf(o, flow, m)| && LogOf(o, flow, m)[p].Body?
    ensures var (t, i) := (LogOf(o, flow, m), LogOf(o, flow, m)[p].i);
            && i < |flow.steps|
            && (flow.steps[i].condition == "" || exists q :: 0 <= q < p && t[q] == Condition(i, Pass))
  {
    var t := LogOf(o, flow, m);
    BodyIsCleared(o, flow, m, p);
    if flow.steps[t[p].i].condition != "" {
      ClearedIsPassed(flow, t, p, t[p].i);
    }
  }

  // ---------------------------------------------------------------------------
  // Attempts
  // ---------------------------------------------------------------------------

  /** The store a `when` expression sees. */
  function ErrorBound(store: Contents, fe: FlowError): Contents {
    Set(store, "error",
        Map(map["type" := Text(fe.kind), "code" := Text(fe.code), "message" := Text(fe.message),
                "step" := Text(fe.step), "retries" := Int(fe.retries)]))
  }

  /** A failure is tried again exactly if the policy of the primary path lets its code through
      and it is transient, or, with a `when` expression, exactly if that says true. */
  predicate IsRetried(o: Oracle, s: State, step: Step, path: Path, fe: FlowError) {
    && path == Primary && step.retry.Some? && fe.code !in step.retry.value.nonRetryable
    && (step.retry.value.when == "" ==> fe.kind == "transient")
    && (step.retry.value.when != "" ==>
          o.eval(s.(store := ErrorBound(s.store, fe)), step.retry.value.when) == Success(Bool(true)))
  }

  lemma RetriedIsPolicy(o: Oracle, flow: Flow, s: State, i: nat, path: Path, fe: FlowError)
    requires i < |flow.steps|
    ensures Retried(o, s, Called(flow, i, path), fe) <==> IsRetried(o, s, flow.steps[i], path, fe)
  {
  }

  predicate IsBody(t: Trace, p: nat, i: nat, path: Path, attempt: nat) {
    p < |t| && t[p].Body? && t[p].i == i && t[p].path == path && t[p].attempt == attempt
  }

  predicate IsWait(t: Trace, p: nat, i: nat, path: Path, attempt: nat) {
    p < |t| && t[p].Wait? && t[p].i == i && t[p].path == path && t[p].attempt == attempt
  }

  /** The path is given up: the fallback is tried, or the run fails with this failure. */
  predicate GivenUp(flow: Flow, t: Trace, p: nat, i: nat, path: Path, fe: FlowError) {
    && i < |flow.steps|
    && if path == Primary && flow.steps[i].fallbackBody != "" then IsTry(t, p, i, Fallback, 0)
       else p < |t| && t[p] == Event.Failure(i, fe)
  }

  /** On every run: decisions are the policy's, a failure that is to be tried again is tried
      again with the next attempt, and one that is not gives the path up. */
  lemma RetriesAreMade(o: Oracle, flow: Flow, m: Memory, p: nat)
    requires p < |LogOf(o, flow, m)| && LogOf(o, flow, m)[p].Decide?
    ensures var t := LogOf(o, flow, m);
            var Decide(i, path, a, fe, again) := t[p];
            && i < |flow.steps|
            && (again <==> IsRetried(o, StateAt(o, flow, m, p), flow.steps[i], path, fe))
            && if again then IsTry(t, p + 1, i, path, a + 1) else GivenUp(flow, t, p + 1, i, path, fe)
  {
    EventIsAllowed(o, flow, m, p);
    DutiesAreMet(o, flow, m, p);
    var e := LogOf(o, flow, m)[p];
    RetriedIsPolicy(o, flow, StateAt(o, flow, m, p), e.i, e.path, e.fe);
  }

  /** The delay of a policy is waited for before every attempt but the first. */
  predicate HasPause(step: Step, path: Path, attempt: nat) {
    attempt > 0 && path == Primary && step.retry.Some? && step.retry.value.policy.delay > 0
  }

  /** A timeout or cancellation, under its own code. */
  predicate IsTimeout(fe: FlowError, found: ContextError, stepID: string, attempts: int) {
    && fe.kind == "timeout" && fe.step == stepID && fe.retries == attempts
    && (found == DeadlineExceeded ==> fe.code == "DEADLINE_EXCEEDED" && fe.message == "context deadline exceeded")
    && (found == Canceled ==> fe.code == "CONTEXT_CANCELLED" && fe.message == "context canceled")
  }

  /** A try whose context is alive leads to its call, behind a pause if there is one; one whose
      context is done gives the path up as a timeout. */
  lemma TriesAreCalled(o: Oracle, flow: Flow, m: Memory, p: nat)
    requires p < |LogOf(o, flow, m)| && (LogOf(o, flow, m)[p].AttemptCheck? || LogOf(o, flow, m)[p].Wait?)
    ensures var t := LogOf(o, flow, m);
            var (i, path, a) := (t[p].i, t[p].path, t[p].attempt);
            && i < |flow.steps|
            && match t[p].found
               case None =>
                 if t[p].AttemptCheck? && HasPause(flow.steps[i], path, a) then IsWait(t, p + 1, i, path, a)
                 else IsBody(t, p + 1, i, path, a)
               case Some(found) =>
                 var fe := Timeout(found, flow.steps[i].id, a);
                 IsTimeout(fe, found, flow.steps[i].id, a) && GivenUp(flow, t, p + 1, i, path, fe)
  {
    DutiesAreMet(o, flow, m, p);
  }

  /** How an error is reported: a deadline or a cancellation in its chain as a timeout, a flow
      error in its chain as itself, under the name of the step if it has none, and anything
      else as a permanent error. */
  predicate IsReported(fe: FlowError, e: GoError, stepID: string, retries: int) {
    if e.deadline then fe == FlowError("timeout", "DEADLINE_EXCEEDED", e.message, stepID, retries)
    else if e.canceled then fe == FlowError("timeout", "CONTEXT_CANCELLED", e.message, stepID, retries)
    else if e.flow.None? then fe == FlowError("permanent", "RUNTIME_ERROR", e.message, stepID, retries)
    else fe == e.flow.value.(step := if e.flow.value.step == "" then stepID else e.flow.value.step)
  }

  lemma ReportedIs(e: GoError, stepID: string, retries: int)
    ensures IsReported(Reported(e, stepID, retries), e, stepID, retries)
  {
  }

  /** There is another attempt after this one. */
  predicate HasMore(step: Step, path: Path, attempt: nat) {
    path == Primary && step.retry.Some? && attempt + 1 < step.retry.value.maxAttempts
  }

  /** What a failed call leads to: a decision, while there are attempts left, and otherwise the
      end of the path; the error that is reported counts the attempts before it. */
  lemma FailedCallsAreWeighed(o: Oracle, flow: Flow, m: Memory, p: nat)
    requires p < |LogOf(o, flow, m)| && LogOf(o, flow, m)[p].Body? && LogOf(o, flow, m)[p].error.Some?
    ensures var t := LogOf(o, flow, m);
            var Body(i, path, a, error) := t[p];
            && i < |flow.steps|
            && exists fe: FlowError ::
                 && IsReported(fe, error.value, flow.steps[i].id, a)
                 && if HasMore(flow.steps[i], path, a)
                    then p + 1 < |t| && t[p + 1].Decide? && OfPath(t[p + 1], i, path) && t[p + 1].attempt == a
                         && t[p + 1].fe == fe.(retries := a)
                    else GivenUp(flow, t, p + 1, i, path, fe.(retries := a))
  {
    DutiesAreMet(o, flow, m, p);
    var t := LogOf(o, flow, m);
    ReportedIs(t[p].error.value, flow.steps[t[p].i].id, t[p].attempt);
  }

  // ---------------------------------------------------------------------------
  // The end of a step and of the run
  // ---------------------------------------------------------------------------

  /** A step that succeeded ends the run exactly if there is a response; otherwise it is read
      where to go on: what is stored for the step, or else what the context has for it. */
  lemma SuccessStopsOrGoesOn(o: Oracle, flow: Flow, m: Memory, p: nat)
    requires p < |LogOf(o, flow, m)| && LogOf(o, flow, m)[p].Body? && LogOf(o, flow, m)[p].error.None?
    ensures var t := LogOf(o, flow, m);
            var (i, left) := (t[p].i, MemoryAt(o, flow, m, p + 1));
            && i < |flow.steps| && p + 1 < |t|
            && if left.response.Some? then t[p + 1] == Responded(i) && p + 2 == |t|
               else
                 var key := flow.steps[i].id + ".__next";
                 var value := if Get(left.store, key).Some? then Get(left.store, key).value else o.contextValue(key);
                 t[p + 1] == Next(i, if value == Nil then "" else o.format(value))
  {
    DutiesAreMet(o, flow, m, p);
    EventIsAllowed(o, flow, m, p + 1);
    if LogOf(o, flow, m)[p + 1].Responded? {
      DutiesAreMet(o, flow, m, p + 1);
    }
  }

  /** Before a step: a context found done fails the run as a timeout. */
  lemma DoneContextFailsRun(o: Oracle, flow: Flow, m: Memory, p: nat)
    requires p < |LogOf(o, flow, m)| && LogOf(o, flow, m)[p].FlowCheck? && LogOf(o, flow, m)[p].found.Some?
    ensures var t := LogOf(o, flow, m);
            var i := t[p].i;
            && i < |flow.steps| && p + 1 < |t| && t[p + 1].Failure? && t[p + 1].i == i
            && IsTimeout(t[p + 1].fe, t[p].found.value, flow.steps[i].id, 0)
  {
    DutiesAreMet(o, flow, m, p);
  }

  /** What a run returns: the handler's error, reported, if a handler was run; else the failure
      that was met, and nothing if there was none. */
  lemma ResultIsTold(o: Oracle, flow: Flow, m: Memory)
    ensures var (t, result) := (LogOf(o, flow, m), Run(o, flow, m.store, m.response).at.result);
            if t != [] && t[|t| - 1].Handled? then
              match t[|t| - 1].error
              case None => result == None
              case Some(error) => result.Some? && IsReported(result.value, error, "on_error", 0)
            else if forall q :: 0 <= q < |t| ==> !t[q].Failure? then result == None
            else result.Some? && exists q :: 0 <= q < |t| && t[q].Failure? && t[q].fe == result.value
  {
    RunIsLawful(o, flow, m.store, m.response);
    var t := LogOf(o, flow, m);
    CauseIsFailure(t);
    if t != [] && t[|t| - 1].Handled? && t[|t| - 1].error.Some? {
      ReportedIs(t[|t| - 1].error.value, "on_error", 0);
    }
  }

  lemma {:induction false} CauseIsFailure(t: Trace)
    ensures if Cause(t).Some? then exists q :: 0 <= q < |t| && t[q].Failure? && t[q].fe == Cause(t).value
            else forall q :: 0 <= q < |t| ==> !t[q].Failure?
  {
    if t != [] && !t[|t| - 1].Failure? {
      CauseIsFailure(t[..|t| - 1]);
      if Cause(t).Some? {
        var q :| 0 <= q < |t| - 1 && t[..|t| - 1][q].Failure? && t[..|t| - 1][q].fe == Cause(t).value;
        assert t[q].Failure?;
      } else {
        forall q | 0 <= q < |t| ensures !t[q].Failure? {
          assert q < |t| - 1 ==> t[..|t| - 1][q] == t[q];
        }
      }
    }
  }
}
