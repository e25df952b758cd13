/** Compensation and error handling over whole runs: what is undone, in which order,
    and what a run returns. */
module SagaUnwind {
  import opened Prelude
  import opened StoreModel
  import opened Saga

  // ---------------------------------------------------------------------------
  // Reading a trace
  // ---------------------------------------------------------------------------

  function Reversed<T>(s: seq<T>): seq<T> {
    if s == [] then [] else Reversed(s[1..]) + [s[0]]
  }

  /** The entry a successful body leaves to undo, if its step has a compensate body. */
  function CommittedBy(flow: Flow, e: Event): seq<Entry> {
    if e.Body? && e.error.None? && e.i < |flow.steps| && flow.steps[e.i].compensateBody != ""
    then [Entry(flow.steps[e.i].id, flow.steps[e.i].compensateBody, e.path)]
    else []
  }

  /** The successful steps with a compensate body, in order, with the path that succeeded. */
  function Committed(flow: Flow, t: Trace): seq<Entry> {
    if t == [] then [] else Committed(flow, t[..|t| - 1]) + CommittedBy(flow, t[|t| - 1])
  }

  /** The compensations started, in order. */
  function Undone(t: Trace): seq<Entry> {
    if t == [] then []
    else Undone(t[..|t| - 1]) + (if t[|t| - 1].Compensated? then [t[|t| - 1].entry] else [])
  }

  function Failures(t: Trace): nat {
    if t == [] then 0 else Failures(t[..|t| - 1]) + (if t[|t| - 1].Failure? then 1 else 0)
  }

  function Handlers(t: Trace): nat {
    if t == [] then 0 else Handlers(t[..|t| - 1]) + (if t[|t| - 1].Handled? then 1 else 0)
  }

  predicate Failed(t: Trace) {
    Failures(t) > 0
  }

  lemma Logged(flow: Flow, t: Trace, e: Event)
    ensures Committed(flow, t + [e]) == Committed(flow, t) + CommittedBy(flow, e)
    ensures CommittedBy(flow, e) == [] ==> Committed(flow, t + [e]) == Committed(flow, t)
    ensures Undone(t + [e]) == if e.Compensated? then Undone(t) + [e.entry] else Undone(t)
    ensures Failures(t + [e]) == Failures(t) + (if e.Failure? then 1 else 0)
    ensures Handlers(t + [e]) == Handlers(t) + (if e.Handled? then 1 else 0)
  {
    assert (t + [e])[..|t|] == t;
  }

  // ---------------------------------------------------------------------------
  // The invariant
  // ---------------------------------------------------------------------------

  /** While the flow goes forward the stack is exactly what was committed, and nothing
      has been undone. */
  predicate Stacked(flow: Flow, s: State) {
    && s.comps == Committed(flow, s.trace) && Undone(s.trace) == []
    && Failures(s.trace) == 0 && Handlers(s.trace) == 0
  }

  /** How a run may have ended. */
  predicate Ended(o: Oracle, flow: Flow, t: Trace, result: Option<FlowError>) {
    if !Failed(t) then Undone(t) == [] && Handlers(t) == 0 && result == None
    else if !o.handlesErrors then Undone(t) == [] && Handlers(t) == 0
    else Undone(t) == Reversed(Committed(flow, t)) && Handlers(t) == (if flow.onErrorBody == "" then 0 else 1)
  }

  predicate Unwound(o: Oracle, flow: Flow, c: Config) {
    var (s, t) := (c.s, c.s.trace);
    match c.at
    case AtOutcome(i, path, failed) =>
      if failed.None? then i < |flow.steps| && Stacked(flow, Record(s, flow.steps[i], path)) else Stacked(flow, s)
    case Unwinding(stack, k, _) =>
      && o.handlesErrors && Failures(t) == 1 && Handlers(t) == 0 && k <= |stack|
      && stack == Committed(flow, t) && Undone(t) == Reversed(stack[k..])
    case Handling(_) =>
      && o.handlesErrors && flow.onErrorBody != "" && Failures(t) == 1 && Handlers(t) == 0
      && Undone(t) == Reversed(Committed(flow, t))
    case Done(result) => Ended(o, flow, t, result)
    case _ => Stacked(flow, s)
  }

  /** Recording an action that commits and undoes nothing. */
  lemma StackedLog(flow: Flow, s: State, e: Event)
    requires Stacked(flow, s) && CommittedBy(flow, e) == []
    requires !e.Compensated? && !e.Failure? && !e.Handled?
    ensures Stacked(flow, s.Log(e))
  {
    Logged(flow, s.trace, e);
  }

  lemma UnwoundStep(o: Oracle, flow: Flow, c: Config)
    requires WellFormed(flow, c.at) && c.at.AtStep? && Unwound(o, flow, c)
    ensures Unwound(o, flow, Advance(o, flow, c))
  {
    StackedLog(flow, c.s, FlowCheck(c.at.i, o.flowDone(c.s.trace)));
  }

  lemma UnwoundCondition(o: Oracle, flow: Flow, c: Config)
    requires WellFormed(flow, c.at) && c.at.AtCondition? && Unwound(o, flow, c)
    ensures Unwound(o, flow, Advance(o, flow, c))
  {
    StackedLog(flow, c.s, Condition(c.at.i, Evaluate(o, c.s, flow.steps[c.at.i].condition)));
  }

  lemma UnwoundAttempt(o: Oracle, flow: Flow, c: Config)
    requires WellFormed(flow, c.at) && (c.at.AtAttempt? || c.at.AtPause?) && Unwound(o, flow, c)
    ensures Unwound(o, flow, Advance(o, flow, c))
  {
    var d := Advance(o, flow, c);
    if d.s != c.s {
      StackedLog(flow, c.s, d.s.trace[|c.s.trace|]);
    }
  }

  /** A body that succeeds commits the entry that is going to be recorded; one that fails
      commits nothing. */
  lemma StackedBody(flow: Flow, s: State, s': State, e: Event)
    requires Stacked(flow, s) && e.Body? && e.i < |flow.steps|
    requires s'.comps == s.comps && s'.trace == s.trace + [e]
    ensures if e.error.None? then Stacked(flow, Record(s', flow.steps[e.i], e.path)) else Stacked(flow, s')
  {
    Logged(flow, s.trace, e);
  }

  lemma UnwoundBody(o: Oracle, flow: Flow, c: Config)
    requires WellFormed(flow, c.at) && c.at.AtBody? && Unwound(o, flow, c)
    ensures Unwound(o, flow, Advance(o, flow, c))
  {
    var effect := o.execute(c.s, StepOn(flow, c.at.i, c.at.path), c.at.path, c.at.mark, c.at.attempt);
    StackedBody(flow, c.s, Advance(o, flow, c).s, Body(c.at.i, c.at.path, c.at.attempt, effect.error));
  }

  lemma UnwoundDecision(o: Oracle, flow: Flow, c: Config)
    requires WellFormed(flow, c.at) && c.at.AtDecision? && Unwound(o, flow, c)
    ensures Unwound(o, flow, Advance(o, flow, c))
  {
    var (again, s) := ShouldRetry(o, c.s, StepOn(flow, c.at.i, c.at.path), c.at.fe);
    assert Stacked(flow, s);
    StackedLog(flow, s, Decide(c.at.i, c.at.path, c.at.attempt, c.at.fe, again));
  }

  lemma UnwoundStepEnd(o: Oracle, flow: Flow, c: Config)
    requires WellFormed(flow, c.at) && (c.at.AtOutcome? || c.at.AtEnd?) && Unwound(o, flow, c)
    ensures Unwound(o, flow, Advance(o, flow, c))
  {
    if c.at.AtEnd? {
      StackedLog(flow, c.s, Responded(c.at.i));
      StackedLog(flow, c.s, Next(c.at.i, Target(o, c.s, flow.steps[c.at.i])));
    }
  }

  lemma UnwoundFailing(o: Oracle, flow: Flow, c: Config)
    requires WellFormed(flow, c.at) && c.at.Failing? && Unwound(o, flow, c)
    ensures Unwound(o, flow, Advance(o, flow, c))
  {
    Logged(flow, c.s.trace, Event.Failure(c.at.i, c.at.fe));
    assert c.s.comps[|c.s.comps|..] == [];
  }

  /** One compensation undoes the last entry not yet undone. */
  lemma UndoesOne(flow: Flow, t: Trace, e: Event, stack: seq<Entry>, k: nat)
    requires 0 < k <= |stack| && stack == Committed(flow, t) && Undone(t) == Reversed(stack[k..])
    requires e.Compensated? && e.entry == stack[k - 1]
    ensures Committed(flow, t + [e]) == stack && Undone(t + [e]) == Reversed(stack[k - 1..])
    ensures Failures(t + [e]) == Failures(t) && Handlers(t + [e]) == Handlers(t)
  {
    Logged(flow, t, e);
    assert stack[k - 1..] == [stack[k - 1]] + stack[k..];
  }

  lemma UnwoundBack(o: Oracle, flow: Flow, c: Config)
    requires WellFormed(flow, c.at) && c.at.Unwinding? && Unwound(o, flow, c)
    ensures Unwound(o, flow, Advance(o, flow, c))
  {
    var (stack, k) := (c.at.stack, c.at.k);
    if k > 0 {
      UndoesOne(flow, c.s.trace, Compensated(stack[k - 1], o.compensate(c.s, stack[k - 1]).error.None?), stack, k);
    } else {
      assert stack[0..] == stack;
    }
  }

  lemma UnwoundHandler(o: Oracle, flow: Flow, c: Config)
    requires WellFormed(flow, c.at) && c.at.Handling? && Unwound(o, flow, c)
    ensures Unwound(o, flow, Advance(o, flow, c))
  {
    Logged(flow, c.s.trace, Handled(c.at.fe, o.onError(c.s, flow.onErrorBody, c.at.fe).error));
  }

  lemma UnwoundAdvance(o: Oracle, flow: Flow, c: Config)
    requires WellFormed(flow, c.at) && !c.at.Done? && Unwound(o, flow, c)
    ensures Unwound(o, flow, Advance(o, flow, c))
  {
    match c.at
    case AtStep(_, _) => UnwoundStep(o, flow, c);
    case AtCondition(_) => UnwoundCondition(o, flow, c);
    case AtAttempt(_, _, _, _) => UnwoundAttempt(o, flow, c);
    case AtPause(_, _, _, _) => UnwoundAttempt(o, flow, c);
    case AtBody(_, _, _, _) => UnwoundBody(o, flow, c);
    case AtDecision(_, _, _, _, _) => UnwoundDecision(o, flow, c);
    case AtOutcome(_, _, _) => UnwoundStepEnd(o, flow, c);
    case AtEnd(_) => UnwoundStepEnd(o, flow, c);
    case Failing(_, _) => UnwoundFailing(o, flow, c);
    case Unwinding(_, _, _) => UnwoundBack(o, flow, c);
    case Handling(_) => UnwoundHandler(o, flow, c);
  }

  lemma {:induction false} UnwoundFinish(o: Oracle, flow: Flow, c: Config)
    requires WellFormed(flow, c.at) && Unwound(o, flow, c)
    ensures Unwound(o, flow, Finish(o, flow, c))
    decreases RankOf(flow, c.at).major, RankOf(flow, c.at).phase, RankOf(flow, c.at).attempts, RankOf(flow, c.at).action
  {
    if !c.at.Done? {
      AdvanceDescends(o, flow, c);
      UnwoundAdvance(o, flow, c);
      UnwoundFinish(o, flow, Advance(o, flow, c));
    }
  }

  /** On any run: if a failure is reached and handlers can be executed, the compensations
      run are exactly the committed steps in reverse order, each once, with the path that
      succeeded, whether or not some of them fail, and then the on_error body runs if there
      is one. A run that reaches no failure undoes nothing and returns no error. */
  lemma CompensationIsExact(o: Oracle, flow: Flow, store: Contents, response: Option<Value>)
    ensures var r := Run(o, flow, store, response);
            r.at.Done? && Ended(o, flow, r.s.trace, r.at.result)
  {
    UnwoundFinish(o, flow, Start(store, response));
  }
}
