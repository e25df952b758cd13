/** Properties of every trace a run can leave: order, jumps, retries, and the shape of
    the way out. Each is kept by every transition the table allows. */
module SagaTraces {
  import opened Prelude
  import opened StoreModel
  import opened Saga

  predicate Succeeded(e: Event) {
    e.Body? && e.error.None?
  }

  // ---------------------------------------------------------------------------
  // Order: step, then path, then attempt
  // ---------------------------------------------------------------------------

  function PathRank(path: Path): nat {
    if path.Primary? then 0 else 1
  }

  predicate Before(e: Event, i: nat, path: Path, attempt: nat)
    requires e.Body?
  {
    || e.i < i
    || (e.i == i && PathRank(e.path) < PathRank(path))
    || (e.i == i && e.path == path && e.attempt < attempt)
  }

  predicate BodiesBefore(t: Trace, i: nat, path: Path, attempt: nat) {
    forall q :: 0 <= q < |t| && t[q].Body? ==> Before(t[q], i, path, attempt)
  }

  /** Bodies start in strictly increasing order of step, path and attempt. */
  predicate InOrder(t: Trace) {
    forall p, q :: 0 <= p < q < |t| && t[p].Body? && t[q].Body? ==> Before(t[p], t[q].i, t[q].path, t[q].attempt)
  }

  predicate SuccessesBefore(t: Trace, i: nat) {
    forall q :: 0 <= q < |t| && Succeeded(t[q]) ==> t[q].i < i
  }

  /** The step at which a run fails is after every step that succeeded. */
  predicate FailsAfterSuccesses(t: Trace) {
    forall p, q :: 0 <= p < |t| && 0 <= q < |t| && t[p].Failure? && Succeeded(t[q]) ==> t[q].i < t[p].i
  }

  /** Once a step has succeeded only bodies of later steps start, so no step succeeds twice. */
  predicate SucceedsOnce(t: Trace) {
    forall p, q :: 0 <= p < q < |t| && Succeeded(t[p]) && t[q].Body? ==> t[p].i < t[q].i
  }

  predicate OrderAt(t: Trace, at: Control) {
    match at
    case AtStep(i, _) => BodiesBefore(t, i, Primary, 0) && SuccessesBefore(t, i)
    case AtCondition(i) => BodiesBefore(t, i, Primary, 0) && SuccessesBefore(t, i)
    case AtAttempt(i, path, _, a) => BodiesBefore(t, i, path, a) && SuccessesBefore(t, i)
    case AtPause(i, path, _, a) => BodiesBefore(t, i, path, a) && SuccessesBefore(t, i)
    case AtBody(i, path, _, a) => BodiesBefore(t, i, path, a) && SuccessesBefore(t, i)
    case AtDecision(i, path, _, a, _) => BodiesBefore(t, i, path, a + 1) && SuccessesBefore(t, i)
    case AtOutcome(i, path, failed) =>
      && (if path.Primary? then BodiesBefore(t, i, Fallback, 0) else BodiesBefore(t, i + 1, Primary, 0))
      && SuccessesBefore(t, if failed.Some? then i else i + 1)
    case AtEnd(i) => BodiesBefore(t, i + 1, Primary, 0) && SuccessesBefore(t, i + 1)
    case Failing(i, _) => SuccessesBefore(t, i)
    case _ => true
  }

  predicate Ordered(t: Trace, at: Control) {
    InOrder(t) && SucceedsOnce(t) && OrderAt(t, at)
  }

  lemma OrderedMoves(flow: Flow, t: Trace, a: Control, e: Trace, b: Control)
    requires WellFormed(flow, a) && Moves(flow, a, e, b) && Ordered(t, a)
    ensures Ordered(t + e, b)
  {
    OrderAtMoves(flow, t, a, e, b);
    if e == [] {
      assert t + e == t;
    } else {
      assert e == [e[0]];
      InOrderLogs(t, e[0]);
    }
  }

  lemma InOrderLogs(t: Trace, e: Event)
    requires InOrder(t) && SucceedsOnce(t)
    requires e.Body? ==> BodiesBefore(t, e.i, e.path, e.attempt) && SuccessesBefore(t, e.i)
    ensures InOrder(t + [e]) && SucceedsOnce(t + [e])
  {
  }

  lemma OrderAtMoves(flow: Flow, t: Trace, a: Control, e: Trace, b: Control)
    requires WellFormed(flow, a) && Moves(flow, a, e, b) && OrderAt(t, a)
    ensures OrderAt(t + e, b)
  {
    if Attempting(a) {
      OrderAttemptMoves(flow, t, a, e, b);
    } else {
      OrderStepMoves(flow, t, a, e, b);
    }
  }

  lemma OrderAttemptMoves(flow: Flow, t: Trace, a: Control, e: Trace, b: Control)
    requires WellFormed(flow, a) && Moves(flow, a, e, b) && OrderAt(t, a) && Attempting(a)
    ensures OrderAt(t + e, b)
  {
    if a.AtBody? {
      OrderBodyMoves(flow, t, a, e, b);
    } else {
      OrderCheckMoves(flow, t, a, e, b);
    }
  }

  lemma OrderBodyMoves(flow: Flow, t: Trace, a: Control, e: Trace, b: Control)
    requires WellFormed(flow, a) && Moves(flow, a, e, b) && OrderAt(t, a) && a.AtBody?
    ensures OrderAt(t + e, b)
  {
  }

  lemma OrderCheckMoves(flow: Flow, t: Trace, a: Control, e: Trace, b: Control)
    requires WellFormed(flow, a) && Moves(flow, a, e, b) && OrderAt(t, a) && Attempting(a) && !a.AtBody?
    ensures OrderAt(t + e, b)
  {
  }

  lemma OrderStepMoves(flow: Flow, t: Trace, a: Control, e: Trace, b: Control)
    requires WellFormed(flow, a) && Moves(flow, a, e, b) && OrderAt(t, a) && !Attempting(a)
    ensures OrderAt(t + e, b)
  {
    if a.AtStep? || a.AtCondition? {
      OrderEntryMoves(flow, t, a, e, b);
    } else {
      OrderExitMoves(flow, t, a, e, b);
    }
  }

  lemma OrderEntryMoves(flow: Flow, t: Trace, a: Control, e: Trace, b: Control)
    requires WellFormed(flow, a) && Moves(flow, a, e, b) && OrderAt(t, a) && (a.AtStep? || a.AtCondition?)
    ensures OrderAt(t + e, b)
  {
  }

  lemma OrderExitMoves(flow: Flow, t: Trace, a: Control, e: Trace, b: Control)
    requires WellFormed(flow, a) && Moves(flow, a, e, b) && OrderAt(t, a)
    requires !Attempting(a) && !a.AtStep? && !a.AtCondition?
    ensures OrderAt(t + e, b)
  {
  }

  /** While nothing has failed there is no failure event; afterwards no step succeeds. */
  predicate Placed(t: Trace, at: Control) {
    && FailsAfterSuccesses(t)
    && (InFailure(at) || at.Done? || forall p :: 0 <= p < |t| ==> !t[p].Failure?)
    && (at.Failing? ==> SuccessesBefore(t, at.i) && forall p :: 0 <= p < |t| ==> !t[p].Failure?)
  }

  lemma PlacedMoves(flow: Flow, t: Trace, a: Control, e: Trace, b: Control)
    requires WellFormed(flow, a) && Moves(flow, a, e, b) && OrderAt(t, a) && Placed(t, a)
    ensures Placed(t + e, b)
  {
  }

  // ---------------------------------------------------------------------------
  // The way out
  // ---------------------------------------------------------------------------

  function Phase(e: Event): nat {
    if e.Failure? then 1 else if e.Compensated? then 2 else if e.Handled? then 3 else if e.Responded? then 4 else 0
  }

  predicate PhasesUpTo(t: Trace, phase: nat) {
    forall p :: 0 <= p < |t| ==> Phase(t[p]) <= phase
  }

  /** Forward actions, then at most one failure, then the compensations, then at most one
      handler call; a response ends the run without a failure. */
  predicate InPhases(t: Trace) {
    forall p, q :: 0 <= p < q < |t| ==>
                     && Phase(t[p]) <= Phase(t[q]) && (Phase(t[p]) == Phase(t[q]) ==> Phase(t[p]) in {0, 2})
                     && (t[q].Responded? ==> Phase(t[p]) == 0)
  }

  predicate FailedWith(t: Trace, fe: FlowError) {
    exists p :: 0 <= p < |t| && t[p].Failure? && t[p].fe == fe
  }

  /** What a finished run returns: nil unless it failed; the original error when no handler
      ran; otherwise nil exactly when the handler succeeded. */
  predicate Returns(t: Trace, result: Option<FlowError>) {
    if |t| > 0 && t[|t| - 1].Handled? then
      FailedWith(t, t[|t| - 1].fe) && (result.None? <==> t[|t| - 1].error.None?)
    else if result.Some? then FailedWith(t, result.value)
    else PhasesUpTo(t, 0) || t[|t| - 1].Responded?
  }

  predicate Leaving(t: Trace, at: Control) {
    && InPhases(t)
    && match at
       case Unwinding(_, _, fe) => PhasesUpTo(t, 2) && FailedWith(t, fe)
       case Handling(fe) => PhasesUpTo(t, 2) && FailedWith(t, fe)
       case Done(result) => Returns(t, result)
       case _ => PhasesUpTo(t, 0)
  }

  lemma KeepsFailure(t: Trace, e: Trace, fe: FlowError)
    requires FailedWith(t, fe)
    ensures FailedWith(t + e, fe)
  {
    var p :| 0 <= p < |t| && t[p].Failure? && t[p].fe == fe;
    assert (t + e)[p] == t[p];
  }

  lemma LeavingMoves(flow: Flow, t: Trace, a: Control, e: Trace, b: Control)
    requires WellFormed(flow, a) && Moves(flow, a, e, b) && Leaving(t, a)
    ensures Leaving(t + e, b)
  {
    if InFailure(a) {
      LeavingInFailure(flow, t, a, e, b);
    } else if e == [] {
      assert t + e == t;
    } else {
      LeavingLogs(flow, t, a, e[0], b);
      assert e == [e[0]];
    }
  }

  lemma LeavingLogs(flow: Flow, t: Trace, a: Control, e: Event, b: Control)
    requires WellFormed(flow, a) && Moves(flow, a, [e], b) && Leaving(t, a) && !InFailure(a)
    ensures Leaving(t + [e], b)
  {
    PhasesLog(t, e);
    LogsForward(flow, a, e, b);
    assert (t + [e])[|t|] == e;
  }

  /** Before a failure, events are forward actions, or a response that ends the run. */
  lemma LogsForward(flow: Flow, a: Control, e: Event, b: Control)
    requires WellFormed(flow, a) && Moves(flow, a, [e], b) && !InFailure(a)
    ensures if b.Done? then e.Responded? && b.result.None? else Phase(e) == 0 && !b.Unwinding? && !b.Handling?
  {
  }

  lemma LeavingInFailure(flow: Flow, t: Trace, a: Control, e: Trace, b: Control)
    requires WellFormed(flow, a) && Moves(flow, a, e, b) && Leaving(t, a) && InFailure(a)
    ensures Leaving(t + e, b)
  {
    if e == [] {
      assert t + e == t;
    } else {
      assert e == [e[0]];
      PhasesLog(t, e[0]);
      FailureStands(flow, t, a, e[0], b);
    }
  }

  lemma FailureStands(flow: Flow, t: Trace, a: Control, e: Event, b: Control)
    requires WellFormed(flow, a) && Moves(flow, a, [e], b) && Leaving(t, a) && InFailure(a) && InPhases(t + [e])
    ensures Leaving(t + [e], b)
  {
    assert (t + [e])[|t|] == e;
    if a.Failing? {
      assert FailedWith(t + [e], a.fe);
    } else {
      KeepsFailure(t, [e], a.fe);
    }
  }

  lemma PhasesLog(t: Trace, e: Event)
    requires InPhases(t)
    requires PhasesUpTo(t, if Phase(e) == 1 || Phase(e) == 4 then 0 else if Phase(e) == 3 then 2 else Phase(e))
    ensures InPhases(t + [e])
  {
  }

  // ---------------------------------------------------------------------------
  // Jumps
  // ---------------------------------------------------------------------------

  /** Some step after the one that asked, up to step j, has the requested ID. */
  predicate Lands(flow: Flow, e: Event, j: nat)
    requires e.Next?
  {
    exists k :: e.i < k <= j && k < |flow.steps| && flow.steps[k].id == e.target
  }

  predicate Jump(e: Event) {
    e.Next? && e.target != ""
  }

  /** After a step asks for X, no condition or body of a later step runs before the first
      later step with ID X has been reached. */
  predicate JumpsLand(flow: Flow, t: Trace) {
    forall p, q :: 0 <= p < q < |t| && Jump(t[p]) && (t[q].Condition? || t[q].Body?) ==> Lands(flow, t[p], t[q].i)
  }

  predicate LandedBy(flow: Flow, t: Trace, j: nat) {
    forall p :: 0 <= p < |t| && Jump(t[p]) ==> Lands(flow, t[p], j)
  }

  predicate JumpAt(flow: Flow, t: Trace, at: Control) {
    match at
    case AtStep(i, next) =>
      forall p :: 0 <= p < |t| && Jump(t[p]) ==>
                    t[p].i < i && (t[p].target == next || Lands(flow, t[p], i - 1))
    case AtCondition(i) => LandedBy(flow, t, i)
    case AtAttempt(i, _, _, _) => LandedBy(flow, t, i)
    case AtPause(i, _, _, _) => LandedBy(flow, t, i)
    case AtBody(i, _, _, _) => LandedBy(flow, t, i)
    case AtDecision(i, _, _, _, _) => LandedBy(flow, t, i)
    case AtOutcome(i, _, _) => LandedBy(flow, t, i)
    case AtEnd(i) => LandedBy(flow, t, i)
    case _ => true
  }

  predicate Jumping(flow: Flow, t: Trace, at: Control) {
    JumpsLand(flow, t) && JumpAt(flow, t, at)
  }

  lemma LandsLater(flow: Flow, e: Event, j: nat, j': nat)
    requires e.Next? && Lands(flow, e, j) && j <= j'
    ensures Lands(flow, e, j')
  {
  }

  lemma JumpResolves(flow: Flow, t: Trace, i: nat, next: string)
    requires i < |flow.steps| && JumpAt(flow, t, AtStep(i, next))
    requires next == "" || flow.steps[i].id == next
    ensures LandedBy(flow, t, i)
  {
    forall p | 0 <= p < |t| && Jump(t[p]) ensures Lands(flow, t[p], i) {
      if t[p].target == next {
        assert t[p].i < i && flow.steps[i].id == t[p].target;
      } else {
        LandsLater(flow, t[p], i - 1, i);
      }
    }
  }

  lemma JumpCarries(flow: Flow, t: Trace, i: nat, next: string)
    requires i < |flow.steps| && JumpAt(flow, t, AtStep(i, next))
    ensures JumpAt(flow, t, AtStep(i + 1, next))
  {
    forall p | 0 <= p < |t| && Jump(t[p]) && t[p].target != next ensures Lands(flow, t[p], i) {
      LandsLater(flow, t[p], i - 1, i);
    }
  }

  /** Events other than jumps leave the jump facts alone. */
  lemma JumpLogs(flow: Flow, t: Trace, e: Event)
    requires JumpsLand(flow, t) && !e.Next?
    requires e.Condition? || e.Body? ==> LandedBy(flow, t, e.i)
    ensures JumpsLand(flow, t + [e])
    ensures forall at :: JumpAt(flow, t, at) ==> JumpAt(flow, t + [e], at)
  {
  }

  lemma JumpingMoves(flow: Flow, t: Trace, a: Control, e: Trace, b: Control)
    requires WellFormed(flow, a) && Moves(flow, a, e, b) && Jumping(flow, t, a)
    ensures Jumping(flow, t + e, b)
  {
    if e == [] {
      assert t + e == t;
    } else {
      assert e == [e[0]];
      if a.AtEnd? {
        JumpingEnds(flow, t, a, e[0], b);
      } else {
        JumpLogs(flow, t, e[0]);
        JumpAtMoves(flow, t + e, a, e[0], b);
      }
    }
  }

  lemma JumpAtMoves(flow: Flow, t: Trace, a: Control, e: Event, b: Control)
    requires WellFormed(flow, a) && !a.AtEnd? && Moves(flow, a, [e], b) && JumpAt(flow, t, a)
    ensures JumpAt(flow, t, b)
  {
    if a.AtStep? {
      if b.AtCondition? {
        JumpResolves(flow, t, a.i, a.next);
      } else if b.AtStep? {
        JumpCarries(flow, t, a.i, a.next);
      }
    }
  }

  lemma JumpingEnds(flow: Flow, t: Trace, a: Control, e: Event, b: Control)
    requires WellFormed(flow, a) && a.AtEnd? && Moves(flow, a, [e], b) && Jumping(flow, t, a)
    ensures Jumping(flow, t + [e], b)
  {
  }

  // ---------------------------------------------------------------------------
  // Retries
  // ---------------------------------------------------------------------------

  /** The failed attempt was put to the retry policy, which let it through. */
  predicate ApprovedAt(flow: Flow, d: Event, i: nat, path: Path, attempt: nat) {
    && d.Decide? && d.i == i && d.path == path && d.attempt + 1 == attempt && d.again
    && i < |flow.steps| && Permitted(StepOn(flow, i, path), d.fe)
  }

  predicate Approved(flow: Flow, t: Trace, i: nat, path: Path, attempt: nat) {
    attempt > 0 ==> exists r :: 0 <= r < |t| && ApprovedAt(flow, t[r], i, path, attempt)
  }

  /** A body is called again only after an approved failure, and never beyond the bound. */
  predicate RetriesApproved(flow: Flow, t: Trace) {
    forall q :: 0 <= q < |t| && t[q].Body? ==>
                  && t[q].i < |flow.steps|
                  && t[q].attempt < MaxAttempts(StepOn(flow, t[q].i, t[q].path))
                  && Approved(flow, t[..q], t[q].i, t[q].path, t[q].attempt)
  }

  /** Every decision is about the failure of the call just before it. */
  predicate DecisionsFollowFailures(flow: Flow, t: Trace) {
    forall r :: 0 <= r < |t| && t[r].Decide? ==> r > 0 && t[r].i < |flow.steps| && DecidesOn(flow, t[r - 1], t[r])
  }

  predicate DecidesOn(flow: Flow, b: Event, d: Event)
    requires d.Decide? && d.i < |flow.steps|
  {
    && b.Body? && b.i == d.i && b.path == d.path && b.attempt == d.attempt && b.error.Some?
    && d.fe == AttemptError(b.error.value, flow.steps[d.i].id, d.attempt)
  }

  predicate RetryAt(flow: Flow, t: Trace, at: Control) {
    match at
    case AtAttempt(i, path, _, a) => Approved(flow, t, i, path, a)
    case AtPause(i, path, _, a) => Approved(flow, t, i, path, a)
    case AtBody(i, path, _, a) => Approved(flow, t, i, path, a)
    case AtDecision(i, path, _, a, fe) =>
      |t| > 0 && i < |flow.steps| && DecidesOn(flow, t[|t| - 1], Decide(i, path, a, fe, true))
    case _ => true
  }

  predicate Retrying(flow: Flow, t: Trace, at: Control) {
    RetriesApproved(flow, t) && DecisionsFollowFailures(flow, t) && RetryAt(flow, t, at)
  }

  lemma ApprovalKept(flow: Flow, t: Trace, e: Trace, i: nat, path: Path, attempt: nat)
    requires Approved(flow, t, i, path, attempt)
    ensures Approved(flow, t + e, i, path, attempt)
  {
    if attempt > 0 {
      var r :| 0 <= r < |t| && ApprovedAt(flow, t[r], i, path, attempt);
      assert (t + e)[r] == t[r];
    }
  }

  lemma RetriesLog(flow: Flow, t: Trace, e: Event)
    requires RetriesApproved(flow, t)
    requires e.Body? ==> && e.i < |flow.steps| && e.attempt < MaxAttempts(StepOn(flow, e.i, e.path))
                         && Approved(flow, t, e.i, e.path, e.attempt)
    ensures RetriesApproved(flow, t + [e])
  {
    var t' := t + [e];
    forall q | 0 <= q < |t'| && t'[q].Body?
      ensures t'[q].i < |flow.steps| && t'[q].attempt < MaxAttempts(StepOn(flow, t'[q].i, t'[q].path))
      ensures Approved(flow, t'[..q], t'[q].i, t'[q].path, t'[q].attempt)
    {
      if q < |t| {
        assert t'[..q] == t[..q];
      } else {
        assert t'[..q] == t;
      }
    }
  }

  lemma DecisionsLog(flow: Flow, t: Trace, e: Event)
    requires DecisionsFollowFailures(flow, t)
    requires e.Decide? ==> |t| > 0 && e.i < |flow.steps| && DecidesOn(flow, t[|t| - 1], e)
    ensures DecisionsFollowFailures(flow, t + [e])
  {
  }

  lemma RetryingMoves(flow: Flow, t: Trace, a: Control, e: Trace, b: Control)
    requires WellFormed(flow, a) && Moves(flow, a, e, b) && Retrying(flow, t, a)
    ensures Retrying(flow, t + e, b)
  {
    if e == [] {
      assert t + e == t;
    } else {
      assert e == [e[0]];
      RetriesLog(flow, t, e[0]);
      DecisionsLog(flow, t, e[0]);
      RetryAtMoves(flow, t, a, e[0], b);
    }
  }

  lemma RetryAtMoves(flow: Flow, t: Trace, a: Control, e: Event, b: Control)
    requires WellFormed(flow, a) && Moves(flow, a, [e], b) && RetryAt(flow, t, a)
    ensures RetryAt(flow, t + [e], b)
  {
    if a.AtAttempt? || a.AtPause? || a.AtBody? {
      ApprovalKept(flow, t, [e], a.i, a.path, a.attempt);
    } else if a.AtDecision? && e.again {
      assert (t + [e])[|t|] == e && ApprovedAt(flow, e, a.i, a.path, a.attempt + 1);
    }
  }

  // ---------------------------------------------------------------------------
  // All runs
  // ---------------------------------------------------------------------------

  predicate Lawful(flow: Flow, t: Trace, at: Control) {
    Ordered(t, at) && Placed(t, at) && Leaving(t, at) && Jumping(flow, t, at) && Retrying(flow, t, at)
  }

  lemma LawfulMoves(flow: Flow, t: Trace, a: Control, e: Trace, b: Control)
    requires WellFormed(flow, a) && Moves(flow, a, e, b) && Lawful(flow, t, a)
    ensures Lawful(flow, t + e, b)
  {
    OrderedMoves(flow, t, a, e, b);
    PlacedMoves(flow, t, a, e, b);
    LeavingMoves(flow, t, a, e, b);
    JumpingMoves(flow, t, a, e, b);
    RetryingMoves(flow, t, a, e, b);
  }

  lemma {:induction false} LawfulFinish(o: Oracle, flow: Flow, c: Config)
    requires WellFormed(flow, c.at) && Lawful(flow, c.s.trace, c.at)
    ensures var r := Finish(o, flow, c); Lawful(flow, r.s.trace, r.at)
    decreases RankOf(flow, c.at).major, RankOf(flow, c.at).phase, RankOf(flow, c.at).attempts, RankOf(flow, c.at).action
  {
    if !c.at.Done? {
      var d := Advance(o, flow, c);
      AdvanceDescends(o, flow, c);
      AdvanceMoves(o, flow, c);
      LawfulMoves(flow, c.s.trace, c.at, Added(o, flow, c), d.at);
      LawfulFinish(o, flow, d);
    }
  }

  /** On any run, bodies start in strictly increasing order of step, path and attempt, no
      step succeeds twice, and the step that fails is after every step that succeeded. */
  lemma StepsRunInOrder(o: Oracle, flow: Flow, store: Contents, response: Option<Value>)
    ensures var t := Run(o, flow, store, response).s.trace;
            InOrder(t) && SucceedsOnce(t) && FailsAfterSuccesses(t)
  {
    LawfulFinish(o, flow, Start(store, response));
  }

  /** On any run, nothing follows a response, compensations come only after the failure,
      the handler only after the compensations, and the result is as documented. */
  lemma FailureIsHandledInOrder(o: Oracle, flow: Flow, store: Contents, response: Option<Value>)
    ensures var r := Run(o, flow, store, response);
            r.at.Done? && InPhases(r.s.trace) && Returns(r.s.trace, r.at.result)
  {
    LawfulFinish(o, flow, Start(store, response));
  }

  /** On any run, after a jump nothing runs before the first later step with that ID. */
  lemma JumpsSkipToTarget(o: Oracle, flow: Flow, store: Contents, response: Option<Value>)
    ensures JumpsLand(flow, Run(o, flow, store, response).s.trace)
  {
    LawfulFinish(o, flow, Start(store, response));
  }

  /** On any run, every repeated call was approved by the retry policy for the failure of
      the call before it, and no body is called beyond its bound. */
  lemma RetriesFollowPolicy(o: Oracle, flow: Flow, store: Contents, response: Option<Value>)
    ensures var t := Run(o, flow, store, response).s.trace;
            RetriesApproved(flow, t) && DecisionsFollowFailures(flow, t)
  {
    LawfulFinish(o, flow, Start(store, response));
  }
}
