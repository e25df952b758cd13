/** What bounds a run: the number of calls and the total wait of one path of a step, and
    what a context found done still lets happen. */
module SagaLimits {
  import opened Prelude
  import opened StoreModel
  import opened Backoff
  import opened Saga
  import opened SagaTraces

  // ---------------------------------------------------------------------------
  // Calls
  // ---------------------------------------------------------------------------

  predicate CallOf(e: Event, i: nat, path: Path) {
    e.Body? && e.i == i && e.path == path
  }

  /** How often the body of a path of a step was called. */
  function Calls(t: Trace, i: nat, path: Path): nat {
    if t == [] then 0 else Calls(t[..|t| - 1], i, path) + (if CallOf(t[|t| - 1], i, path) then 1 else 0)
  }

  lemma CallsLog(t: Trace, e: Event, i: nat, path: Path)
    ensures Calls(t + [e], i, path) == Calls(t, i, path) + (if CallOf(e, i, path) then 1 else 0)
  {
    assert (t + [e])[..|t|] == t;
  }

  predicate AttemptsBelow(t: Trace, i: nat, path: Path, n: nat) {
    forall q :: 0 <= q < |t| && CallOf(t[q], i, path) ==> t[q].attempt < n
  }

  /** Calls in increasing order of attempt are at most as many as attempts. */
  lemma {:induction false} OrderBoundsCalls(t: Trace, i: nat, path: Path, n: nat)
    requires InOrder(t) && AttemptsBelow(t, i, path, n)
    ensures Calls(t, i, path) <= n
    decreases |t|
  {
    if t != [] {
      var init, e := t[..|t| - 1], t[|t| - 1];
      assert forall q :: 0 <= q < |init| ==> init[q] == t[q];
      OrderBoundsCalls(init, i, path, if CallOf(e, i, path) then e.attempt else n);
    }
  }

  /** On any run, the body of a path is called at most max(1, MaxAttempts) times; the
      fallback, which has no retry policy, at most once. */
  lemma CallsAreBounded(o: Oracle, flow: Flow, store: Contents, response: Option<Value>, i: nat, path: Path)
    requires i < |flow.steps|
    ensures Calls(Run(o, flow, store, response).s.trace, i, path) <= MaxAttempts(StepOn(flow, i, path))
    ensures path.Fallback? ==> MaxAttempts(StepOn(flow, i, path)) == 1
  {
    StepsRunInOrder(o, flow, store, response);
    RetriesFollowPolicy(o, flow, store, response);
    OrderBoundsCalls(Run(o, flow, store, response).s.trace, i, path, MaxAttempts(StepOn(flow, i, path)));
  }

  /** The attempts ended on the step's context rather than on a call. */
  predicate Cut(e: Event) {
    (e.AttemptCheck? || e.Wait?) && e.found.Some?
  }

  /** What one execution with retries has done, counting from the given number of calls:
      success means the last call succeeded; otherwise the error's retry count is the
      number of calls before the failing one. */
  predicate Counted(flow: Flow, t: Trace, at: Control, base: nat) {
    match at
    case AtAttempt(i, path, _, a) => Calls(t, i, path) == base + a
    case AtPause(i, path, _, a) => Calls(t, i, path) == base + a
    case AtBody(i, path, _, a) => Calls(t, i, path) == base + a
    case AtDecision(i, path, _, a, fe) => Calls(t, i, path) == base + a + 1 && fe.retries == a
    case AtOutcome(i, path, failed) =>
      && i < |flow.steps| && |t| > 0
      && base <= Calls(t, i, path) <= base + MaxAttempts(StepOn(flow, i, path))
      && (failed.None? <==> t[|t| - 1].Body? && t[|t| - 1].error.None?)
      && (failed.Some? ==>
            if Cut(t[|t| - 1]) then failed.value.retries == Calls(t, i, path) - base
            else failed.value.retries == Calls(t, i, path) - base - 1
                 && ((t[|t| - 1].Body? && t[|t| - 1].error.Some?) || (t[|t| - 1].Decide? && !t[|t| - 1].again)))
    case _ => true
  }

  lemma CountedMoves(flow: Flow, t: Trace, a: Control, e: Trace, b: Control, base: nat)
    requires WellFormed(flow, a) && Attempting(a) && Moves(flow, a, e, b) && Counted(flow, t, a, base)
    ensures Counted(flow, t + e, b, base)
  {
    if e == [] {
      assert t + e == t;
    } else {
      assert e == [e[0]];
      CallsLog(t, e[0], a.i, a.path);
    }
  }

  /** executeStepWithRetries: at most max(1, MaxAttempts) calls; nil exactly when the last
      call succeeded; an error counts the calls before it. */
  lemma {:induction false} RetriesAreCounted(o: Oracle, flow: Flow, c: Config, base: nat)
    requires WellFormed(flow, c.at) && (Attempting(c.at) || c.at.AtOutcome?) && Counted(flow, c.s.trace, c.at, base)
    ensures var r := FinishAttempts(o, flow, c); Counted(flow, r.s.trace, r.at, base)
    decreases RankOf(flow, c.at).major, RankOf(flow, c.at).phase, RankOf(flow, c.at).attempts, RankOf(flow, c.at).action
  {
    if !c.at.AtOutcome? {
      var d := Advance(o, flow, c);
      AttemptStays(o, flow, c);
      AdvanceMoves(o, flow, c);
      CountedMoves(flow, c.s.trace, c.at, Added(o, flow, c), d.at, base);
      RetriesAreCounted(o, flow, d, base);
    }
  }

  // ---------------------------------------------------------------------------
  // Waits
  // ---------------------------------------------------------------------------

  /** The total delay asked for between the attempts of a path of a step. */
  function Waited(t: Trace, i: nat, path: Path): int {
    if t == [] then 0 else Waited(t[..|t| - 1], i, path) + DelayOf(t[|t| - 1], i, path)
  }

  function DelayOf(e: Event, i: nat, path: Path): int {
    if e.Wait? && e.i == i && e.path == path then e.delay else 0
  }

  lemma WaitedLog(t: Trace, e: Event, i: nat, path: Path)
    ensures Waited(t + [e], i, path) == Waited(t, i, path) + DelayOf(e, i, path)
  {
    assert (t + [e])[..|t|] == t;
  }

  /** Random draws are within their bound, as Int64N promises for a positive one. */
  ghost predicate FairDraws(o: Oracle) {
    forall t: Trace, bound: int :: bound > 0 ==> 0 <= o.draw(t, bound) < bound
  }

  /** The policy stays in range for every retry of the step. */
  ghost predicate SafeRetries(step: Step) {
    forall a: nat :: 1 <= a < MaxAttempts(step) && Waits(step, a) ==> Safe(step.retry.value.policy, a)
  }

  /** A total below eleven tenths of the intended one, or nothing waited at all. */
  predicate Below(total: int, ideal: int) {
    10 * total < 11 * ideal || (total == 0 && ideal == 0)
  }

  function IdealWait(step: Step, n: nat): int {
    if step.retry.Some? && step.retry.value.policy.delay > 0 then IdealTotal(step.retry.value.policy, n) else 0
  }

  lemma {:induction false} IdealWaitGrows(step: Step, n: nat, m: nat)
    requires n <= m
    ensures 0 <= IdealWait(step, n) <= IdealWait(step, m)
    decreases m
  {
    if step.retry.Some? && step.retry.value.policy.delay > 0 && m > 1 {
      IdealAtLeastBase(step.retry.value.policy, m - 1);
      if n < m {
        IdealWaitGrows(step, n, m - 1);
      } else {
        IdealWaitGrows(step, m - 1, m - 1);
      }
    }
  }

  /** Up to attempt n of a path, no more than the intended waits beyond the base. */
  predicate WaitedUpTo(flow: Flow, t: Trace, i: nat, path: Path, n: nat, base: int) {
    i < |flow.steps| && Below(Waited(t, i, path) - base, IdealWait(StepOn(flow, i, path), n))
  }

  predicate WaitedAt(flow: Flow, t: Trace, at: Control, base: int) {
    match at
    case AtAttempt(i, path, _, a) => WaitedUpTo(flow, t, i, path, a, base)
    case AtPause(i, path, _, a) => WaitedUpTo(flow, t, i, path, a, base)
    case AtBody(i, path, _, a) => WaitedUpTo(flow, t, i, path, a + 1, base)
    case AtDecision(i, path, _, a, _) => WaitedUpTo(flow, t, i, path, a + 1, base)
    case AtOutcome(i, path, _) =>
      i < |flow.steps| && WaitedUpTo(flow, t, i, path, MaxAttempts(StepOn(flow, i, path)), base)
    case _ => true
  }

  lemma PauseWaits(o: Oracle, flow: Flow, c: Config, base: int)
    requires WellFormed(flow, c.at) && c.at.AtPause? && WaitedAt(flow, c.s.trace, c.at, base)
    requires FairDraws(o) && SafeRetries(StepOn(flow, c.at.i, c.at.path))
    ensures var d := AdvancePause(o, flow, c);
            Below(Waited(d.s.trace, c.at.i, c.at.path) - base,
                  IdealWait(StepOn(flow, c.at.i, c.at.path), c.at.attempt + 1))
  {
    var (i, path, a) := (c.at.i, c.at.path, c.at.attempt);
    var step := StepOn(flow, i, path);
    if Waits(step, a) {
      var policy := step.retry.value.policy;
      var delay := Delay(o, c.s.trace, policy, a);
      PreJitterIsCappedIdeal(policy, a, o.hugePower);
      JitterBoundIsPositive(policy, a, o.hugePower);
      DelayWithinBounds(policy, a, o.hugePower, o.draw(c.s.trace, JitterBound(PreJitter(policy, a, o.hugePower))));
      WaitedLog(c.s.trace, Wait(i, path, a, delay, o.waitCut(c.s.trace, c.at.mark, step.timeout, delay)), i, path);
    }
  }

  lemma WaitedMoves(flow: Flow, t: Trace, a: Control, e: Trace, b: Control, base: int)
    requires WellFormed(flow, a) && Attempting(a) && !a.AtPause? && Moves(flow, a, e, b) && WaitedAt(flow, t, a, base)
    ensures WaitedAt(flow, t + e, b, base)
  {
    assert e == [e[0]];
    WaitedLog(t, e[0], a.i, a.path);
    var step := StepOn(flow, a.i, a.path);
    IdealWaitGrows(step, a.attempt, MaxAttempts(step));
    IdealWaitGrows(step, a.attempt + 1, MaxAttempts(step));
  }

  lemma PauseMoves(o: Oracle, flow: Flow, c: Config, base: int)
    requires WellFormed(flow, c.at) && c.at.AtPause? && WaitedAt(flow, c.s.trace, c.at, base)
    requires FairDraws(o) && SafeRetries(StepOn(flow, c.at.i, c.at.path))
    ensures var d := Advance(o, flow, c); WaitedAt(flow, d.s.trace, d.at, base)
  {
    PauseWaits(o, flow, c, base);
    var step := StepOn(flow, c.at.i, c.at.path);
    IdealWaitGrows(step, c.at.attempt + 1, MaxAttempts(step));
  }

  lemma WaitedAdvance(o: Oracle, flow: Flow, c: Config, base: int)
    requires WellFormed(flow, c.at) && Attempting(c.at) && WaitedAt(flow, c.s.trace, c.at, base)
    requires FairDraws(o) && SafeRetries(StepOn(flow, c.at.i, c.at.path))
    ensures var d := Advance(o, flow, c); WaitedAt(flow, d.s.trace, d.at, base)
  {
    if c.at.AtPause? {
      PauseMoves(o, flow, c, base);
    } else {
      AdvanceMoves(o, flow, c);
      WaitedMoves(flow, c.s.trace, c.at, Added(o, flow, c), Advance(o, flow, c).at, base);
    }
  }

  lemma {:induction false} WaitsFinish(o: Oracle, flow: Flow, c: Config, base: int)
    requires WellFormed(flow, c.at) && (Attempting(c.at) || c.at.AtOutcome?) && WaitedAt(flow, c.s.trace, c.at, base)
    requires FairDraws(o) && SafeRetries(StepOn(flow, c.at.i, c.at.path))
    ensures var r := FinishAttempts(o, flow, c); WaitedAt(flow, r.s.trace, r.at, base)
    decreases RankOf(flow, c.at).major, RankOf(flow, c.at).phase, RankOf(flow, c.at).attempts, RankOf(flow, c.at).action
  {
    if !c.at.AtOutcome? {
      AttemptStays(o, flow, c);
      WaitedAdvance(o, flow, c, base);
      WaitsFinish(o, flow, Advance(o, flow, c), base);
    }
  }

  /** The waits between the attempts of one execution with retries add up to less than
      eleven tenths of the intended total for the policy's backoff (or to nothing). */
  lemma WaitsAreBounded(o: Oracle, flow: Flow, i: nat, path: Path, mark: nat, s: State)
    requires i < |flow.steps| && FairDraws(o) && SafeRetries(StepOn(flow, i, path))
    ensures var r := FinishAttempts(o, flow, Config(AtAttempt(i, path, mark, 0), s));
            var step := StepOn(flow, i, path);
            Below(Waited(r.s.trace, i, path) - Waited(s.trace, i, path), IdealWait(step, MaxAttempts(step)))
  {
    WaitsFinish(o, flow, Config(AtAttempt(i, path, mark, 0), s), Waited(s.trace, i, path));
  }
}
