/** Every run of the state machine obeys the law of its log, and no other log does. */
module SagaLawful {
  import opened Prelude
  import opened StoreModel
  import opened Saga
  import opened SagaUnwind
  import opened SagaLaw

  // ---------------------------------------------------------------------------
  // Every run obeys the law
  // ---------------------------------------------------------------------------

  /** What the law reads in a log. */
  datatype Reading = Reading(size: nat, pending: string, cause: Option<FlowError>, result: Option<FlowError>,
                             done: seq<Entry>, undone: seq<Entry>, path: Option<(nat, Path)>, since: nat)

  function PathOf(e: Event): Option<(nat, Path)> {
    if e.AttemptCheck? || e.Wait? || e.Body? || e.Decide? then Some((e.i, e.path)) else None
  }

  function Read(flow: Flow, t: Trace): Reading {
    var path := if t == [] then None else PathOf(t[|t| - 1]);
    Reading(|t|, Pending(flow, t), Cause(t), Outcome(t), Committed(flow, t), Undone(t), path,
            if path.Some? then Entered(t, path.value.0, path.value.1) else |t|)
  }

  /** Where the context of a path comes from, by the reading. */
  function Since(r: Reading, i: nat, path: Path): nat {
    if r.path == Some((i, path)) then r.since else r.size
  }

  /** What one more event changes in the reading. */
  function Further(flow: Flow, r: Reading, e: Event): Reading {
    var pending :=
      match e
      case Next(_, target) => target
      case FlowCheck(i, None) => if PassesOver(flow, r.pending, i) then r.pending else ""
      case _ => "";
    var cause := if e.Failure? then Some(e.fe) else r.cause;
    var result := if e.Handled? then HandlerResult(e.error) else cause;
    Reading(r.size + 1, pending, cause, result, r.done + CommittedBy(flow, e),
            r.undone + (if e.Compensated? then [e.entry] else []), PathOf(e),
            if PathOf(e).Some? then Since(r, e.i, e.path) else r.size + 1)
  }

  /** What the handler's error makes of the run. */
  function HandlerResult(error: Option<GoError>): Option<FlowError> {
    if error.None? then None else Some(Reported(error.value, "on_error", 0))
  }

  lemma ReadLog(flow: Flow, t: Trace, e: Event)
    ensures Read(flow, t + [e]) == Further(flow, Read(flow, t), e)
  {
    assert (t + [e])[..|t|] == t;
    Logged(flow, t, e);
    if PathOf(e).Some? {
      EnteredIsSince(flow, t, e.i, e.path);
    }
  }

  lemma EnteredIsSince(flow: Flow, t: Trace, i: nat, path: Path)
    ensures Entered(t, i, path) == Since(Read(flow, t), i, path)
  {
  }

  /** What is due after one more event, by the reading. */
  function DueNext(o: Oracle, flow: Flow, r: Reading, e: Event): Duty
    requires Places(flow, e)
  {
    var r' := Further(flow, r, e);
    DueAfter(o, flow, r.pending, UndoOrHandle(flow, r'.done, r'.undone, r'.cause), e)
  }

  lemma DueLog(o: Oracle, flow: Flow, t: Trace, e: Event)
    requires Places(flow, e)
    ensures Due(o, flow, t + [e]) == DueNext(o, flow, Read(flow, t), e)
  {
    assert (t + [e])[..|t|] == t;
    ReadLog(flow, t, e);
  }

  /** Nothing has failed yet. */
  predicate Onward(r: Reading) {
    r.cause == None && r.undone == [] && r.result == None
  }

  /** What is due is what the control is about to do. */
  predicate Ready(flow: Flow, due: Duty, r: Reading, at: Control)
    requires WellFormed(flow, at)
  {
    match at
    case AtStep(i, next) => Onward(r) && next == r.pending && due == StepOrStop(flow, i)
    case AtCondition(i) =>
      && Onward(r) && due == (if flow.steps[i].condition == "" then Try(i, Primary, 0) else Ask(i))
      && Since(r, i, Primary) == r.size
    case AtAttempt(i, path, mark, a) => Onward(r) && due == Try(i, path, a) && mark == Since(r, i, path)
    case AtPause(i, path, mark, a) =>
      Onward(r) && due == PauseOrCall(Called(flow, i, path), i, path, a) && mark == Since(r, i, path)
    case AtBody(i, path, mark, a) => Onward(r) && due == Call(i, path, a) && mark == Since(r, i, path)
    case AtDecision(i, path, mark, a, fe) => Onward(r) && due == Choose(i, path, a, fe) && mark == Since(r, i, path)
    case AtOutcome(i, path, failed) =>
      && Onward(r) && r.path == Some((i, path))
      && due == if failed.None? then Leave(i) else FallbackOrFail(flow.steps[i], i, path, failed.value)
    case AtEnd(i) => Onward(r) && due == Leave(i)
    case Failing(i, fe) => Onward(r) && due == Fail(i, fe)
    case Unwinding(stack, k, fe) =>
      && r.cause == Some(fe) && r.result == Some(fe) && stack == r.done && |r.undone| == |stack| - k
      && due == UndoOrHandle(flow, r.done, r.undone, r.cause)
    case Handling(fe) => due == Handle(fe)
    case Done(result) => due == Stop && result == r.result
  }

  /** A body that succeeded is committed before its entry is recorded. */
  predicate Booked(flow: Flow, at: Control, s: State)
    requires WellFormed(flow, at)
  {
    if at.AtOutcome? && at.failed.None? then Record(s, flow.steps[at.i], at.path).comps == Committed(flow, s.trace)
    else s.comps == Committed(flow, s.trace)
  }

  /** The log obeys the law, and replaying it gives the state. */
  ghost predicate Sound(o: Oracle, flow: Flow, start: Memory, s: State) {
    Lawful(o, flow, start, s.trace) && Memory(s.store, s.response) == Replay(o, flow, start, s.trace)
  }

  ghost predicate Obeys(o: Oracle, flow: Flow, start: Memory, c: Config)
    requires WellFormed(flow, c.at)
  {
    && Sound(o, flow, start, c.s) && Booked(flow, c.at, c.s)
    && Ready(flow, Due(o, flow, c.s.trace), Read(flow, c.s.trace), c.at)
  }

  lemma LawfulLog(o: Oracle, flow: Flow, start: Memory, t: Trace, e: Event)
    requires Lawful(o, flow, start, t) && Allowed(o, flow, start, t, e)
    ensures Lawful(o, flow, start, t + [e])
  {
    var u := t + [e];
    forall p | 0 <= p < |u| ensures Allowed(o, flow, start, u[..p], u[p]) {
      assert u[..p] == t[..p];
      if p == |t| {
        assert t[..p] == t;
      } else {
        assert Allowed(o, flow, start, t[..p], t[p]);
      }
    }
  }

  /** One more event that was due and says what was answered. */
  lemma SoundLog(o: Oracle, flow: Flow, start: Memory, s: State, e: Event, s': State)
    requires Sound(o, flow, start, s) && s.comps == Committed(flow, s.trace)
    requires Fulfils(Due(o, flow, s.trace), e) && Answered(o, flow, s, e)
    requires s'.trace == s.trace + [e] && Memory(s'.store, s'.response) == After(o, flow, s, e)
    ensures Sound(o, flow, start, s')
  {
    assert s'.trace[..|s.trace|] == s.trace;
    assert s == StateAfter(o, flow, start, s.trace);
    LawfulLog(o, flow, start, s.trace, e);
  }

  /** After the event the control is ready again. */
  predicate Moved(o: Oracle, flow: Flow, r: Reading, e: Event, at: Control)
    requires Places(flow, e) && WellFormed(flow, at)
  {
    Ready(flow, DueNext(o, flow, r, e), Further(flow, r, e), at)
  }

  /** A transition that logs an event, but for the calls of bodies. */
  lemma ObeysLog(o: Oracle, flow: Flow, start: Memory, s: State, e: Event, d: Config)
    requires Sound(o, flow, start, s) && s.comps == Committed(flow, s.trace)
    requires Fulfils(Due(o, flow, s.trace), e) && Answered(o, flow, s, e)
    requires d.s.trace == s.trace + [e] && Memory(d.s.store, d.s.response) == After(o, flow, s, e)
    requires Places(flow, e) && WellFormed(flow, d.at) && Moved(o, flow, Read(flow, s.trace), e, d.at)
    requires !e.Body? && d.s.comps == s.comps && !(d.at.AtOutcome? && d.at.failed.None?)
    ensures Obeys(o, flow, start, d)
  {
    SoundLog(o, flow, start, s, e, d.s);
    ReadLog(flow, s.trace, e);
    DueLog(o, flow, s.trace, e);
  }

  /** The step a path runs is the one the state machine runs. */
  lemma CalledIsRun(flow: Flow, i: nat, path: Path)
    requires i < |flow.steps|
    ensures Called(flow, i, path) == StepOn(flow, i, path)
  {
  }

  /** Errors are reported as the state machine reports them. */
  lemma ReportedAlike(e: GoError, stepID: string, retries: nat)
    ensures Reported(e, stepID, retries) == ToFlowError(e, stepID, retries)
    ensures CallError(e, stepID, retries) == AttemptError(e, stepID, retries)
  {
  }

  /** Where a step goes on whose context check found this. */
  function Checking(flow: Flow, i: nat, next: string, found: Option<ContextError>): Control
    requires i < |flow.steps|
  {
    if found.Some? then Failing(i, Timeout(found.value, flow.steps[i].id, 0))
    else if next != "" && flow.steps[i].id != next then AtStep(i + 1, next)
    else AtCondition(i)
  }

  lemma ReadyStep(o: Oracle, flow: Flow, r: Reading, due: Duty, i: nat, next: string, found: Option<ContextError>)
    requires i < |flow.steps| && Ready(flow, due, r, AtStep(i, next))
    ensures var e := FlowCheck(i, found);
            Fulfils(due, e) && Moved(o, flow, r, e, Checking(flow, i, next, found))
  {
  }

  lemma StepChecks(o: Oracle, flow: Flow, s: State, i: nat, next: string)
    requires i < |flow.steps|
    ensures var found := o.flowDone(s.trace);
            AdvanceStep(o, flow, Config(AtStep(i, next), s)) ==
            Config(Checking(flow, i, next, found), s.Log(FlowCheck(i, found)))
  {
  }

  lemma ObeysStep(o: Oracle, flow: Flow, start: Memory, s: State, i: nat, next: string)
    requires i < |flow.steps| && Obeys(o, flow, start, Config(AtStep(i, next), s))
    ensures Obeys(o, flow, start, AdvanceStep(o, flow, Config(AtStep(i, next), s)))
  {
    var found := o.flowDone(s.trace);
    StepChecks(o, flow, s, i, next);
    ReadyStep(o, flow, Read(flow, s.trace), Due(o, flow, s.trace), i, next, found);
    ObeysLog(o, flow, start, s, FlowCheck(i, found),
             Config(Checking(flow, i, next, found), s.Log(FlowCheck(i, found))));
  }

  /** Behind the last step, and where a step has no condition, nothing is logged. */
  lemma ObeysSilently(o: Oracle, flow: Flow, start: Memory, c: Config)
    requires WellFormed(flow, c.at) && Obeys(o, flow, start, c)
    requires || (c.at.AtStep? && c.at.i == |flow.steps|)
             || (c.at.AtCondition? && flow.steps[c.at.i].condition == "")
    ensures Obeys(o, flow, start, Advance(o, flow, c))
  {
  }

  lemma EvaluateJudges(o: Oracle, s: State, condition: string)
    ensures Judged(o, s, condition, Evaluate(o, s, condition))
  {
  }

  /** Where a step goes on with a verdict. */
  function Judging(flow: Flow, i: nat, mark: nat, verdict: Verdict): Control
    requires i < |flow.steps|
  {
    match verdict
    case Pass => AtAttempt(i, Primary, mark, 0)
    case Skip => AtStep(i + 1, "")
    case Broken(e) => Failing(i, Reported(e, flow.steps[i].id, 0))
  }

  lemma ReadyCondition(o: Oracle, flow: Flow, r: Reading, due: Duty, i: nat, verdict: Verdict)
    requires i < |flow.steps| && flow.steps[i].condition != "" && Ready(flow, due, r, AtCondition(i))
    ensures var e := Condition(i, verdict);
            Fulfils(due, e) && Moved(o, flow, r, e, Judging(flow, i, r.size + 1, verdict))
  {
  }

  lemma ConditionJudges(o: Oracle, flow: Flow, s: State, i: nat)
    requires i < |flow.steps| && flow.steps[i].condition != ""
    ensures var verdict := Evaluate(o, s, flow.steps[i].condition);
            AdvanceCondition(o, flow, Config(AtCondition(i), s)) ==
            Config(Judging(flow, i, |s.trace| + 1, verdict), s.Log(Condition(i, verdict)))
  {
    var verdict := Evaluate(o, s, flow.steps[i].condition);
    if verdict.Broken? {
      ReportedAlike(verdict.error, flow.steps[i].id, 0);
    }
  }

  lemma ObeysCondition(o: Oracle, flow: Flow, start: Memory, s: State, i: nat)
    requires i < |flow.steps| && flow.steps[i].condition != "" && Obeys(o, flow, start, Config(AtCondition(i), s))
    ensures Obeys(o, flow, start, AdvanceCondition(o, flow, Config(AtCondition(i), s)))
  {
    var verdict := Evaluate(o, s, flow.steps[i].condition);
    var e := Condition(i, verdict);
    ConditionJudges(o, flow, s, i);
    EvaluateJudges(o, s, flow.steps[i].condition);
    ReadyCondition(o, flow, Read(flow, s.trace), Due(o, flow, s.trace), i, verdict);
    ObeysLog(o, flow, start, s, e, Config(Judging(flow, i, |s.trace| + 1, verdict), s.Log(e)));
  }

  /** Where the attempts go on whose context check found this. */
  function Checked(flow: Flow, i: nat, path: Path, a: nat, found: Option<ContextError>, alive: Control): Control
    requires i < |flow.steps|
  {
    if found.Some? then AtOutcome(i, path, Some(Timeout(found.value, flow.steps[i].id, a))) else alive
  }

  lemma ReadyAttempt(o: Oracle, flow: Flow, r: Reading, due: Duty, i: nat, path: Path, mark: nat, a: nat,
                     found: Option<ContextError>)
    requires i < |flow.steps| && a < MaxAttempts(StepOn(flow, i, path))
    requires Ready(flow, due, r, AtAttempt(i, path, mark, a))
    ensures var e := AttemptCheck(i, path, a, found);
            && Fulfils(due, e)
            && Moved(o, flow, r, e, Checked(flow, i, path, a, found, AtPause(i, path, mark, a)))
  {
  }

  lemma AttemptChecks(o: Oracle, flow: Flow, s: State, i: nat, path: Path, mark: nat, a: nat)
    requires i < |flow.steps| && a < MaxAttempts(StepOn(flow, i, path))
    ensures var found := o.stepDone(s.trace, mark, flow.steps[i].timeout);
            AdvanceAttempt(o, flow, Config(AtAttempt(i, path, mark, a), s)) ==
            Config(Checked(flow, i, path, a, found, AtPause(i, path, mark, a)), s.Log(AttemptCheck(i, path, a, found)))
  {
    CalledIsRun(flow, i, path);
  }

  lemma ObeysAttempt(o: Oracle, flow: Flow, start: Memory, s: State, i: nat, path: Path, mark: nat, a: nat)
    requires i < |flow.steps| && a < MaxAttempts(StepOn(flow, i, path))
    requires Obeys(o, flow, start, Config(AtAttempt(i, path, mark, a), s))
    ensures Obeys(o, flow, start, AdvanceAttempt(o, flow, Config(AtAttempt(i, path, mark, a), s)))
  {
    var found := o.stepDone(s.trace, mark, flow.steps[i].timeout);
    var e := AttemptCheck(i, path, a, found);
    AttemptChecks(o, flow, s, i, path, mark, a);
    EnteredIsSince(flow, s.trace, i, path);
    ReadyAttempt(o, flow, Read(flow, s.trace), Due(o, flow, s.trace), i, path, mark, a, found);
    ObeysLog(o, flow, start, s, e, Config(Checked(flow, i, path, a, found, AtPause(i, path, mark, a)), s.Log(e)));
  }

  lemma ReadyPause(o: Oracle, flow: Flow, r: Reading, due: Duty, i: nat, path: Path, mark: nat, a: nat, delay: int,
                   cut: Option<ContextError>)
    requires i < |flow.steps| && a < MaxAttempts(StepOn(flow, i, path)) && Waits(StepOn(flow, i, path), a)
    requires Ready(flow, due, r, AtPause(i, path, mark, a))
    ensures var e := Wait(i, path, a, delay, cut);
            && Fulfils(due, e)
            && Moved(o, flow, r, e, Checked(flow, i, path, a, cut, AtBody(i, path, mark, a)))
  {
    CalledIsRun(flow, i, path);
  }

  /** The event of a wait. */
  function Waited(o: Oracle, flow: Flow, t: Trace, i: nat, path: Path, mark: nat, a: nat): Event
    requires i < |flow.steps| && Waits(StepOn(flow, i, path), a)
  {
    var delay := Delay(o, t, StepOn(flow, i, path).retry.value.policy, a);
    Wait(i, path, a, delay, o.waitCut(t, mark, flow.steps[i].timeout, delay))
  }

  lemma PauseWaits(o: Oracle, flow: Flow, s: State, i: nat, path: Path, mark: nat, a: nat)
    requires i < |flow.steps| && a < MaxAttempts(StepOn(flow, i, path)) && Waits(StepOn(flow, i, path), a)
    ensures var e := Waited(o, flow, s.trace, i, path, mark, a);
            && e == Wait(i, path, a, e.delay, e.found)
            && AdvancePause(o, flow, Config(AtPause(i, path, mark, a), s)) ==
               Config(Checked(flow, i, path, a, e.found, AtBody(i, path, mark, a)), s.Log(e))
    ensures mark == Entered(s.trace, i, path) ==> Answered(o, flow, s, Waited(o, flow, s.trace, i, path, mark, a))
  {
    CalledIsRun(flow, i, path);
  }

  lemma ObeysWait(o: Oracle, flow: Flow, start: Memory, s: State, i: nat, path: Path, mark: nat, a: nat)
    requires i < |flow.steps| && a < MaxAttempts(StepOn(flow, i, path)) && Waits(StepOn(flow, i, path), a)
    requires Obeys(o, flow, start, Config(AtPause(i, path, mark, a), s))
    ensures Obeys(o, flow, start, AdvancePause(o, flow, Config(AtPause(i, path, mark, a), s)))
  {
    var e := Waited(o, flow, s.trace, i, path, mark, a);
    PauseWaits(o, flow, s, i, path, mark, a);
    EnteredIsSince(flow, s.trace, i, path);
    ReadyPause(o, flow, Read(flow, s.trace), Due(o, flow, s.trace), i, path, mark, a, e.delay, e.found);
    ObeysLog(o, flow, start, s, e, Config(Checked(flow, i, path, a, e.found, AtBody(i, path, mark, a)), s.Log(e)));
  }

  lemma ObeysPause(o: Oracle, flow: Flow, start: Memory, s: State, i: nat, path: Path, mark: nat, a: nat)
    requires i < |flow.steps| && a < MaxAttempts(StepOn(flow, i, path))
    requires Obeys(o, flow, start, Config(AtPause(i, path, mark, a), s))
    ensures Obeys(o, flow, start, AdvancePause(o, flow, Config(AtPause(i, path, mark, a), s)))
  {
    if Waits(StepOn(flow, i, path), a) {
      ObeysWait(o, flow, start, s, i, path, mark, a);
    } else {
      CalledIsRun(flow, i, path);
    }
  }

  /** Where the attempts go on after a call. */
  function Returning(flow: Flow, i: nat, path: Path, mark: nat, a: nat, error: Option<GoError>): Control
    requires i < |flow.steps|
  {
    if error.None? then AtOutcome(i, path, None)
    else
      var fe := CallError(error.value, flow.steps[i].id, a);
      if LastAttempt(Called(flow, i, path), a) then AtOutcome(i, path, Some(fe))
      else AtDecision(i, path, mark, a, fe)
  }

  lemma BodyReturns(o: Oracle, flow: Flow, s: State, i: nat, path: Path, mark: nat, a: nat)
    requires i < |flow.steps| && a < MaxAttempts(StepOn(flow, i, path))
    ensures var effect := o.execute(s, Called(flow, i, path), path, mark, a);
            AdvanceBody(o, flow, Config(AtBody(i, path, mark, a), s)) ==
            Config(Returning(flow, i, path, mark, a, effect.error),
                   s.After(effect).Log(Body(i, path, a, effect.error)))
  {
    CalledIsRun(flow, i, path);
    var error := o.execute(s, StepOn(flow, i, path), path, mark, a).error;
    if error.Some? {
      ReportedAlike(error.value, flow.steps[i].id, a);
    }
  }

  lemma ReadyBody(o: Oracle, flow: Flow, r: Reading, due: Duty, i: nat, path: Path, mark: nat, a: nat,
                  error: Option<GoError>)
    requires i < |flow.steps| && a < MaxAttempts(StepOn(flow, i, path))
    requires Ready(flow, due, r, AtBody(i, path, mark, a))
    ensures var e := Body(i, path, a, error);
            && Fulfils(due, e)
            && Moved(o, flow, r, e, Returning(flow, i, path, mark, a, error))
  {
  }

  lemma BodyBooked(flow: Flow, s: State, s': State, i: nat, path: Path, mark: nat, a: nat, error: Option<GoError>)
    requires i < |flow.steps| && a < MaxAttempts(StepOn(flow, i, path)) && s.comps == Committed(flow, s.trace)
    requires s'.comps == s.comps && s'.trace == s.trace + [Body(i, path, a, error)]
    ensures Booked(flow, Returning(flow, i, path, mark, a, error), s')
  {
    Logged(flow, s.trace, Body(i, path, a, error));
  }

  lemma BodySounds(o: Oracle, flow: Flow, start: Memory, s: State, i: nat, path: Path, mark: nat, a: nat)
    requires i < |flow.steps| && Sound(o, flow, start, s) && s.comps == Committed(flow, s.trace)
    requires Due(o, flow, s.trace) == Call(i, path, a) && mark == Entered(s.trace, i, path)
    ensures var effect := o.execute(s, Called(flow, i, path), path, mark, a);
            Sound(o, flow, start, s.After(effect).Log(Body(i, path, a, effect.error)))
  {
    var effect := o.execute(s, Called(flow, i, path), path, mark, a);
    var e := Body(i, path, a, effect.error);
    SoundLog(o, flow, start, s, e, s.After(effect).Log(e));
  }

  lemma ObeysReturn(o: Oracle, flow: Flow, start: Memory, s: State, s': State, i: nat, path: Path, mark: nat, a: nat,
                    error: Option<GoError>)
    requires i < |flow.steps| && a < MaxAttempts(StepOn(flow, i, path))
    requires Obeys(o, flow, start, Config(AtBody(i, path, mark, a), s)) && Sound(o, flow, start, s')
    requires s'.comps == s.comps && s'.trace == s.trace + [Body(i, path, a, error)]
    ensures Obeys(o, flow, start, Config(Returning(flow, i, path, mark, a, error), s'))
  {
    var e := Body(i, path, a, error);
    ReadyBody(o, flow, Read(flow, s.trace), Due(o, flow, s.trace), i, path, mark, a, error);
    BodyBooked(flow, s, s', i, path, mark, a, error);
    ReadLog(flow, s.trace, e);
    DueLog(o, flow, s.trace, e);
  }

  lemma ObeysBody(o: Oracle, flow: Flow, start: Memory, s: State, i: nat, path: Path, mark: nat, a: nat)
    requires i < |flow.steps| && a < MaxAttempts(StepOn(flow, i, path))
    requires Obeys(o, flow, start, Config(AtBody(i, path, mark, a), s))
    ensures Obeys(o, flow, start, AdvanceBody(o, flow, Config(AtBody(i, path, mark, a), s)))
  {
    var effect := o.execute(s, Called(flow, i, path), path, mark, a);
    var s' := s.After(effect).Log(Body(i, path, a, effect.error));
    BodyReturns(o, flow, s, i, path, mark, a);
    EnteredIsSince(flow, s.trace, i, path);
    BodySounds(o, flow, start, s, i, path, mark, a);
    ObeysReturn(o, flow, start, s, s', i, path, mark, a, effect.error);
  }

  /** The decision is the one the law asks for, and leaves what it says. */
  lemma DecisionAnswers(o: Oracle, s: State, step: Step, fe: FlowError)
    ensures var (again, s') := ShouldRetry(o, s, step, fe);
            && again == Retried(o, s, step, fe) && s'.response == s.response && s'.comps == s.comps
            && s'.trace == s.trace
            && s'.store == if AsksWhen(step, fe) then Set(s.store, "error", Nil) else s.store
  {
    LastSetWinsPath(s.store, Split("error"), ErrorMap(fe), Nil);
  }

  /** Where the attempts go on after a decision. */
  function Deciding(i: nat, path: Path, mark: nat, a: nat, fe: FlowError, again: bool): Control {
    if again then AtAttempt(i, path, mark, a + 1) else AtOutcome(i, path, Some(fe))
  }

  lemma ReadyDecision(o: Oracle, flow: Flow, r: Reading, due: Duty, i: nat, path: Path, mark: nat, a: nat,
                      fe: FlowError, again: bool)
    requires i < |flow.steps| && a + 1 < MaxAttempts(StepOn(flow, i, path))
    requires Ready(flow, due, r, AtDecision(i, path, mark, a, fe))
    ensures var e := Decide(i, path, a, fe, again);
            && Fulfils(due, e)
            && Moved(o, flow, r, e, Deciding(i, path, mark, a, fe, again))
  {
  }

  lemma DecisionTurns(o: Oracle, flow: Flow, s: State, i: nat, path: Path, mark: nat, a: nat, fe: FlowError)
    requires i < |flow.steps| && a + 1 < MaxAttempts(StepOn(flow, i, path))
    ensures var (again, asked) := ShouldRetry(o, s, StepOn(flow, i, path), fe);
            AdvanceDecision(o, flow, Config(AtDecision(i, path, mark, a, fe), s)) ==
            Config(Deciding(i, path, mark, a, fe, again), asked.Log(Decide(i, path, a, fe, again)))
  {
  }

  lemma ObeysDecision(o: Oracle, flow: Flow, start: Memory, s: State, i: nat, path: Path, mark: nat, a: nat,
                      fe: FlowError)
    requires i < |flow.steps| && a + 1 < MaxAttempts(StepOn(flow, i, path))
    requires Obeys(o, flow, start, Config(AtDecision(i, path, mark, a, fe), s))
    ensures Obeys(o, flow, start, AdvanceDecision(o, flow, Config(AtDecision(i, path, mark, a, fe), s)))
  {
    CalledIsRun(flow, i, path);
    var (again, asked) := ShouldRetry(o, s, Called(flow, i, path), fe);
    var e := Decide(i, path, a, fe, again);
    DecisionAnswers(o, s, Called(flow, i, path), fe);
    DecisionTurns(o, flow, s, i, path, mark, a, fe);
    ReadyDecision(o, flow, Read(flow, s.trace), Due(o, flow, s.trace), i, path, mark, a, fe, again);
    ObeysLog(o, flow, start, s, e, Config(Deciding(i, path, mark, a, fe, again), asked.Log(e)));
  }

  lemma ReadyOutcome(o: Oracle, flow: Flow, s: State, due: Duty, r: Reading, i: nat, path: Path,
                     failed: Option<FlowError>)
    requires i < |flow.steps| && r.size == |s.trace| && Ready(flow, due, r, AtOutcome(i, path, failed))
    ensures var d := AdvanceOutcome(o, flow, Config(AtOutcome(i, path, failed), s)); Ready(flow, due, r, d.at)
  {
  }

  lemma ObeysOutcome(o: Oracle, flow: Flow, start: Memory, s: State, i: nat, path: Path, failed: Option<FlowError>)
    requires i < |flow.steps| && Obeys(o, flow, start, Config(AtOutcome(i, path, failed), s))
    ensures Obeys(o, flow, start, AdvanceOutcome(o, flow, Config(AtOutcome(i, path, failed), s)))
  {
    ReadyOutcome(o, flow, s, Due(o, flow, s.trace), Read(flow, s.trace), i, path, failed);
  }

  lemma ReadyResponded(o: Oracle, flow: Flow, r: Reading, due: Duty, i: nat)
    requires i < |flow.steps| && Ready(flow, due, r, AtEnd(i))
    ensures var e := Responded(i); Fulfils(due, e) && Moved(o, flow, r, e, Done(None))
  {
  }

  lemma ReadyNext(o: Oracle, flow: Flow, r: Reading, due: Duty, i: nat, target: string)
    requires i < |flow.steps| && Ready(flow, due, r, AtEnd(i))
    ensures var e := Next(i, target);
            Fulfils(due, e) && Moved(o, flow, r, e, AtStep(i + 1, target))
  {
  }

  lemma ObeysResponded(o: Oracle, flow: Flow, start: Memory, s: State, i: nat)
    requires i < |flow.steps| && s.response.Some? && Obeys(o, flow, start, Config(AtEnd(i), s))
    ensures Obeys(o, flow, start, Config(Done(None), s.Log(Responded(i))))
  {
    ReadyResponded(o, flow, Read(flow, s.trace), Due(o, flow, s.trace), i);
    ObeysLog(o, flow, start, s, Responded(i), Config(Done(None), s.Log(Responded(i))));
  }

  lemma TargetAnswers(o: Oracle, s: State, step: Step)
    ensures JumpsTo(o, s.store, step.id, Target(o, s, step))
  {
  }

  lemma ObeysNext(o: Oracle, flow: Flow, start: Memory, s: State, i: nat, target: string)
    requires i < |flow.steps| && s.response.None? && Obeys(o, flow, start, Config(AtEnd(i), s))
    requires JumpsTo(o, s.store, flow.steps[i].id, target)
    ensures Obeys(o, flow, start, Config(AtStep(i + 1, target), s.Log(Next(i, target))))
  {
    ReadyNext(o, flow, Read(flow, s.trace), Due(o, flow, s.trace), i, target);
    ObeysLog(o, flow, start, s, Next(i, target), Config(AtStep(i + 1, target), s.Log(Next(i, target))));
  }

  lemma ObeysEnd(o: Oracle, flow: Flow, start: Memory, s: State, i: nat)
    requires i < |flow.steps| && Obeys(o, flow, start, Config(AtEnd(i), s))
    ensures Obeys(o, flow, start, AdvanceEnd(o, flow, Config(AtEnd(i), s)))
  {
    if s.response.Some? {
      ObeysResponded(o, flow, start, s, i);
    } else {
      TargetAnswers(o, s, flow.steps[i]);
      ObeysNext(o, flow, start, s, i, Target(o, s, flow.steps[i]));
    }
  }

  /** Where a failed run goes on. */
  function Opening(o: Oracle, stack: seq<Entry>, fe: FlowError): Control {
    if o.handlesErrors then Unwinding(stack, |stack|, fe) else Done(Some(fe))
  }

  lemma ReadyFailing(o: Oracle, flow: Flow, r: Reading, due: Duty, i: nat, fe: FlowError)
    requires i < |flow.steps| && Ready(flow, due, r, Failing(i, fe))
    ensures var e := Event.Failure(i, fe);
            && Fulfils(due, e)
            && Moved(o, flow, r, e, Opening(o, r.done, fe))
  {
  }

  lemma ObeysFailing(o: Oracle, flow: Flow, start: Memory, s: State, i: nat, fe: FlowError)
    requires i < |flow.steps| && Obeys(o, flow, start, Config(Failing(i, fe), s))
    ensures Obeys(o, flow, start, AdvanceFailure(o, flow, Config(Failing(i, fe), s)))
  {
    var e := Event.Failure(i, fe);
    ReadyFailing(o, flow, Read(flow, s.trace), Due(o, flow, s.trace), i, fe);
    ObeysLog(o, flow, start, s, e, Config(Opening(o, s.comps, fe), s.Log(e)));
  }

  lemma ReadyCompensated(o: Oracle, flow: Flow, r: Reading, due: Duty, stack: seq<Entry>, k: nat, fe: FlowError,
                         ok: bool)
    requires 0 < k <= |stack| && Ready(flow, due, r, Unwinding(stack, k, fe))
    ensures var e := Compensated(stack[k - 1], ok);
            && Fulfils(due, e)
            && Moved(o, flow, r, e, Unwinding(stack, k - 1, fe))
  {
  }

  lemma ReadyUnwound(flow: Flow, r: Reading, due: Duty, stack: seq<Entry>, fe: FlowError)
    requires Ready(flow, due, r, Unwinding(stack, 0, fe))
    ensures Ready(flow, due, r, if flow.onErrorBody == "" then Done(Some(fe)) else Handling(fe))
  {
  }

  lemma ObeysUnwinding(o: Oracle, flow: Flow, start: Memory, s: State, stack: seq<Entry>, k: nat, fe: FlowError)
    requires k <= |stack| && Obeys(o, flow, start, Config(Unwinding(stack, k, fe), s))
    ensures Obeys(o, flow, start, AdvanceFailure(o, flow, Config(Unwinding(stack, k, fe), s)))
  {
    if k > 0 {
      var effect := o.compensate(s, stack[k - 1]);
      var e := Compensated(stack[k - 1], effect.error.None?);
      ReadyCompensated(o, flow, Read(flow, s.trace), Due(o, flow, s.trace), stack, k, fe, effect.error.None?);
      ObeysLog(o, flow, start, s, e, Config(Unwinding(stack, k - 1, fe), s.After(effect).Log(e)));
    } else {
      ReadyUnwound(flow, Read(flow, s.trace), Due(o, flow, s.trace), stack, fe);
    }
  }

  lemma ReadyHandled(o: Oracle, flow: Flow, r: Reading, fe: FlowError, error: Option<GoError>)
    ensures var e := Handled(fe, error); Moved(o, flow, r, e, Done(HandlerResult(error)))
  {
  }

  lemma HandlerReturns(o: Oracle, flow: Flow, s: State, fe: FlowError)
    ensures var effect := o.onError(s, flow.onErrorBody, fe);
            AdvanceFailure(o, flow, Config(Handling(fe), s)) ==
            Config(Done(HandlerResult(effect.error)), s.After(effect).Log(Handled(fe, effect.error)))
  {
    var error := o.onError(s, flow.onErrorBody, fe).error;
    if error.Some? {
      ReportedAlike(error.value, "on_error", 0);
    }
  }

  lemma ObeysHandled(o: Oracle, flow: Flow, start: Memory, s: State, fe: FlowError, effect: Effect)
    requires Obeys(o, flow, start, Config(Handling(fe), s)) && effect == o.onError(s, flow.onErrorBody, fe)
    ensures var e := Handled(fe, effect.error);
            Obeys(o, flow, start, Config(Done(HandlerResult(effect.error)), s.After(effect).Log(e)))
  {
    var e := Handled(fe, effect.error);
    ReadyHandled(o, flow, Read(flow, s.trace), fe, effect.error);
    ObeysLog(o, flow, start, s, e, Config(Done(HandlerResult(effect.error)), s.After(effect).Log(e)));
  }

  lemma ObeysHandling(o: Oracle, flow: Flow, start: Memory, s: State, fe: FlowError)
    requires Obeys(o, flow, start, Config(Handling(fe), s))
    ensures Obeys(o, flow, start, AdvanceFailure(o, flow, Config(Handling(fe), s)))
  {
    HandlerReturns(o, flow, s, fe);
    ObeysHandled(o, flow, start, s, fe, o.onError(s, flow.onErrorBody, fe));
  }

  lemma ObeysTrying(o: Oracle, flow: Flow, start: Memory, c: Config)
    requires WellFormed(flow, c.at) && Attempting(c.at) && Obeys(o, flow, start, c)
    ensures Obeys(o, flow, start, Advance(o, flow, c))
  {
    match c.at
    case AtAttempt(i, path, mark, a) => ObeysAttempt(o, flow, start, c.s, i, path, mark, a);
    case AtPause(i, path, mark, a) => ObeysPause(o, flow, start, c.s, i, path, mark, a);
    case AtBody(i, path, mark, a) => ObeysBody(o, flow, start, c.s, i, path, mark, a);
    case AtDecision(i, path, mark, a, fe) => ObeysDecision(o, flow, start, c.s, i, path, mark, a, fe);
  }

  lemma ObeysFailure(o: Oracle, flow: Flow, start: Memory, c: Config)
    requires WellFormed(flow, c.at) && InFailure(c.at) && Obeys(o, flow, start, c)
    ensures Obeys(o, flow, start, AdvanceFailure(o, flow, c))
  {
    match c.at
    case Failing(i, fe) => ObeysFailing(o, flow, start, c.s, i, fe);
    case Unwinding(stack, k, fe) => ObeysUnwinding(o, flow, start, c.s, stack, k, fe);
    case Handling(fe) => ObeysHandling(o, flow, start, c.s, fe);
  }

  lemma ObeysAdvance(o: Oracle, flow: Flow, start: Memory, c: Config)
    requires WellFormed(flow, c.at) && !c.at.Done? && Obeys(o, flow, start, c)
    ensures Obeys(o, flow, start, Advance(o, flow, c))
  {
    if Attempting(c.at) {
      ObeysTrying(o, flow, start, c);
    } else if InFailure(c.at) {
      ObeysFailure(o, flow, start, c);
    } else if (c.at.AtStep? && c.at.i == |flow.steps|) || (c.at.AtCondition? && flow.steps[c.at.i].condition == "") {
      ObeysSilently(o, flow, start, c);
    } else {
      match c.at
      case AtStep(i, next) => ObeysStep(o, flow, start, c.s, i, next);
      case AtCondition(i) => ObeysCondition(o, flow, start, c.s, i);
      case AtOutcome(i, path, failed) => ObeysOutcome(o, flow, start, c.s, i, path, failed);
      case AtEnd(i) => ObeysEnd(o, flow, start, c.s, i);
    }
  }

  lemma {:induction false} ObeysFinish(o: Oracle, flow: Flow, start: Memory, c: Config)
    requires WellFormed(flow, c.at) && Obeys(o, flow, start, c)
    ensures Obeys(o, flow, start, Finish(o, flow, c))
    decreases RankOf(flow, c.at).major, RankOf(flow, c.at).phase, RankOf(flow, c.at).attempts, RankOf(flow, c.at).action
  {
    if !c.at.Done? {
      AdvanceDescends(o, flow, c);
      ObeysAdvance(o, flow, start, c);
      ObeysFinish(o, flow, start, Advance(o, flow, c));
    }
  }

  lemma StartObeys(o: Oracle, flow: Flow, store: Contents, response: Option<Value>)
    ensures Obeys(o, flow, Memory(store, response), Start(store, response))
  {
  }

  lemma DoneIsComplete(o: Oracle, flow: Flow, start: Memory, c: Config)
    requires c.at.Done? && Obeys(o, flow, start, c)
    ensures Complete(o, flow, start, c.s.trace) && c.at == Done(Outcome(c.s.trace))
    ensures c.s == StateAfter(o, flow, start, c.s.trace)
  {
  }

  /** Every run leaves a complete log. Its store and response are what replaying the log
      gives, and its result is the one the log tells. */
  lemma RunIsLawful(o: Oracle, flow: Flow, store: Contents, response: Option<Value>)
    ensures var r, start := Run(o, flow, store, response), Memory(store, response);
            && Complete(o, flow, start, r.s.trace) && r.at == Done(Outcome(r.s.trace))
            && r.s == StateAfter(o, flow, start, r.s.trace)
  {
    StartObeys(o, flow, store, response);
    ObeysFinish(o, flow, Memory(store, response), Start(store, response));
    DoneIsComplete(o, flow, Memory(store, response), Run(o, flow, store, response));
  }

  // ---------------------------------------------------------------------------
  // Only the run obeys the law
  // ---------------------------------------------------------------------------

  /** What is due leaves no choice once the world has answered. */
  lemma DutyDetermines(o: Oracle, flow: Flow, s: State, duty: Duty, e: Event, f: Event)
    requires Fulfils(duty, e) && Answered(o, flow, s, e)
    requires Fulfils(duty, f) && Answered(o, flow, s, f)
    ensures e == f
  {
  }

  lemma AllowedOnce(o: Oracle, flow: Flow, start: Memory, t: Trace, e: Event, f: Event)
    requires Allowed(o, flow, start, t, e) && Allowed(o, flow, start, t, f)
    ensures e == f
  {
    DutyDetermines(o, flow, StateAfter(o, flow, start, t), Due(o, flow, t), e, f);
  }

  lemma NoneAllowed(o: Oracle, flow: Flow, start: Memory, t: Trace, e: Event)
    requires Due(o, flow, t) == Stop
    ensures !Allowed(o, flow, start, t, e)
  {
  }

  lemma NextAgrees(o: Oracle, flow: Flow, start: Memory, t: Trace, u: Trace, k: nat)
    requires Lawful(o, flow, start, t) && Lawful(o, flow, start, u) && k < |t| && k < |u|
    requires t[..k] == u[..k]
    ensures t[k] == u[k]
  {
    assert Allowed(o, flow, start, t[..k], t[k]) && Allowed(o, flow, start, u[..k], u[k]);
    AllowedOnce(o, flow, start, t[..k], t[k], u[k]);
  }

  /** Two lawful logs agree as far as both go. */
  lemma {:induction false} LawfulAgree(o: Oracle, flow: Flow, start: Memory, t: Trace, u: Trace, k: nat)
    requires Lawful(o, flow, start, t) && Lawful(o, flow, start, u) && k <= |t| && k <= |u|
    ensures t[..k] == u[..k]
  {
    if k > 0 {
      LawfulAgree(o, flow, start, t, u, k - 1);
      NextAgrees(o, flow, start, t, u, k - 1);
      assert t[..k] == t[..k - 1] + [t[k - 1]] && u[..k] == u[..k - 1] + [u[k - 1]];
    }
  }

  lemma NothingAfterStop(o: Oracle, flow: Flow, start: Memory, t: Trace, u: Trace)
    requires Complete(o, flow, start, t) && Lawful(o, flow, start, u)
    ensures |u| <= |t|
  {
    if |t| < |u| {
      assert u[..|t|] == t by {
        LawfulAgree(o, flow, start, t, u, |t|);
        assert t[..|t|] == t;
      }
      assert Allowed(o, flow, start, u[..|t|], u[|t|]);
      NoneAllowed(o, flow, start, t, u[|t|]);
    }
  }

  /** A log is complete exactly if it is the log of the run. */
  lemma CompleteIffRun(o: Oracle, flow: Flow, store: Contents, response: Option<Value>, t: Trace)
    ensures Complete(o, flow, Memory(store, response), t) <==> t == Run(o, flow, store, response).s.trace
  {
    var start, u := Memory(store, response), Run(o, flow, store, response).s.trace;
    RunIsLawful(o, flow, store, response);
    if Complete(o, flow, start, t) {
      NothingAfterStop(o, flow, start, t, u);
      NothingAfterStop(o, flow, start, u, t);
      LawfulAgree(o, flow, start, t, u, |t|);
      assert t[..|t|] == t && u[..|u|] == u;
    }
  }
}
