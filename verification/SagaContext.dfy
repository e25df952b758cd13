/** What a context found done still lets happen, how a jump passes over steps, and what a
    `when` expression leaves in the store. */
module SagaContext {
  import opened Prelude
  import opened StoreModel
  import opened Saga

  /** Contexts are monotone, and a step's context is done when the flow's is. */
  ghost predicate Monotone(o: Oracle) {
    && (forall t: Trace, k: nat :: k <= |t| && o.flowDone(t[..k]).Some? ==> o.flowDone(t).Some?)
    && (forall t: Trace, mark: nat, timeout: int :: o.flowDone(t).Some? ==> o.stepDone(t, mark, timeout).Some?)
  }

  /** The check at this position found its context done, and the flow's context was. */
  predicate SawFlowDone(o: Oracle, t: Trace, p: nat)
    requires p < |t|
  {
    && (t[p].FlowCheck? || t[p].AttemptCheck? || t[p].Wait?) && t[p].found.Some?
    && o.flowDone(t[..p + 1]).Some?
  }

  predicate NoneSaw(o: Oracle, t: Trace) {
    forall p :: 0 <= p < |t| ==> !SawFlowDone(o, t, p)
  }

  /** Once a check has seen the flow's context done, no body starts. */
  predicate NoBodyAfter(o: Oracle, t: Trace) {
    forall p, q :: 0 <= p < q < |t| && SawFlowDone(o, t, p) ==> !t[q].Body?
  }

  predicate Alive(o: Oracle, t: Trace, at: Control) {
    NoBodyAfter(o, t) && (at.AtPause? || at.AtBody? ==> NoneSaw(o, t))
  }

  lemma SawKept(o: Oracle, t: Trace, e: Event, p: nat)
    requires p < |t|
    ensures SawFlowDone(o, t + [e], p) <==> SawFlowDone(o, t, p)
  {
    assert (t + [e])[..p + 1] == t[..p + 1];
  }

  lemma AliveLog(o: Oracle, t: Trace, e: Event)
    requires NoBodyAfter(o, t) && (e.Body? ==> NoneSaw(o, t))
    ensures NoBodyAfter(o, t + [e])
    ensures NoneSaw(o, t) && !SawFlowDone(o, t + [e], |t|) ==> NoneSaw(o, t + [e])
  {
    forall p | 0 <= p < |t| ensures SawFlowDone(o, t + [e], p) <==> SawFlowDone(o, t, p) {
      SawKept(o, t, e, p);
    }
  }

  /** A step context found alive shows that no check can have seen the flow done. */
  lemma AliveStepSawNothing(o: Oracle, t: Trace, mark: nat, timeout: int)
    requires Monotone(o) && o.stepDone(t, mark, timeout).None?
    ensures NoneSaw(o, t)
  {
    forall p | 0 <= p < |t| ensures !SawFlowDone(o, t, p) {
      assert o.flowDone(t).None?;
    }
  }

  lemma AliveAdvance(o: Oracle, flow: Flow, c: Config)
    requires Monotone(o) && WellFormed(flow, c.at) && !c.at.Done? && Alive(o, c.s.trace, c.at)
    ensures var d := Advance(o, flow, c); Alive(o, d.s.trace, d.at)
  {
    AdvanceMoves(o, flow, c);
    var t, e := c.s.trace, Added(o, flow, c);
    if e == [] {
      assert t + e == t;
    } else {
      assert e == [e[0]];
      if c.at.AtAttempt? && e[0].found.None? {
        AliveStepSawNothing(o, t, c.at.mark, StepOn(flow, c.at.i, c.at.path).timeout);
      }
      AliveLog(o, t, e[0]);
    }
  }

  lemma {:induction false} AliveFinish(o: Oracle, flow: Flow, c: Config)
    requires Monotone(o) && WellFormed(flow, c.at) && Alive(o, c.s.trace, c.at)
    ensures NoBodyAfter(o, Finish(o, flow, c).s.trace)
    decreases RankOf(flow, c.at).major, RankOf(flow, c.at).phase, RankOf(flow, c.at).attempts, RankOf(flow, c.at).action
  {
    if !c.at.Done? {
      AdvanceDescends(o, flow, c);
      AliveAdvance(o, flow, c);
      AliveFinish(o, flow, Advance(o, flow, c));
    }
  }

  /** On any run, once any check has seen the flow's context done, no further step body
      starts: neither a primary, nor a retry, nor a fallback. */
  lemma NothingStartsOnceDone(o: Oracle, flow: Flow, store: Contents, response: Option<Value>)
    requires Monotone(o)
    ensures NoBodyAfter(o, Run(o, flow, store, response).s.trace)
  {
    AliveFinish(o, flow, Start(store, response));
  }

  // ---------------------------------------------------------------------------
  // Passing over steps
  // ---------------------------------------------------------------------------

  /** The state after passing over steps i to j-1 with the context found alive. */
  function Passed(s: State, i: nat, j: nat): State
    requires i <= j
    decreases j - i
  {
    if i == j then s else Passed(s.Log(FlowCheck(i, None)), i + 1, j)
  }

  predicate AliveWhilePassing(o: Oracle, s: State, i: nat, j: nat)
    requires i <= j
    decreases j - i
  {
    i == j || (o.flowDone(s.trace).None? && AliveWhilePassing(o, s.Log(FlowCheck(i, None)), i + 1, j))
  }

  /** While a jump is pending, steps with other IDs only have the context checked. */
  lemma {:induction false} JumpPasses(o: Oracle, flow: Flow, i: nat, j: nat, target: string, s: State)
    requires i <= j <= |flow.steps| && target != ""
    requires forall k :: i <= k < j ==> flow.steps[k].id != target
    requires AliveWhilePassing(o, s, i, j)
    ensures Finish(o, flow, Config(AtStep(i, target), s)) == Finish(o, flow, Config(AtStep(j, target), Passed(s, i, j)))
    decreases j - i
  {
    if i < j {
      JumpPasses(o, flow, i + 1, j, target, s.Log(FlowCheck(i, None)));
    }
  }

  /** A jump to an ID no later step has: the run ends there, without an error. */
  lemma MissedJumpEndsRun(o: Oracle, flow: Flow, i: nat, target: string, s: State)
    requires i <= |flow.steps| && target != ""
    requires forall k :: i <= k < |flow.steps| ==> flow.steps[k].id != target
    requires AliveWhilePassing(o, s, i, |flow.steps|)
    ensures Finish(o, flow, Config(AtStep(i, target), s)) ==
            Config(Done(None), Passed(s, i, |flow.steps|))
  {
    JumpPasses(o, flow, i, |flow.steps|, target, s);
  }

  /** A jump to a later step: its condition is tested as if it were reached in sequence. */
  lemma JumpResumesAtFirst(o: Oracle, flow: Flow, i: nat, j: nat, target: string, s: State)
    requires i <= j < |flow.steps| && target != "" && flow.steps[j].id == target
    requires forall k :: i <= k < j ==> flow.steps[k].id != target
    requires AliveWhilePassing(o, s, i, j)
    ensures Finish(o, flow, Config(AtStep(i, target), s)) == Finish(o, flow, Config(AtStep(j, ""), Passed(s, i, j)))
  {
    JumpPasses(o, flow, i, j, target, s);
  }

  // ---------------------------------------------------------------------------
  // The store under a retry decision
  // ---------------------------------------------------------------------------

  /** Deciding on a retry touches the store only when a `when` expression is asked, and
      then only under `error`, which is left bound to nil: a step result stored under that
      key is lost, everything else is as before. */
  lemma RetryDecisionOnStore(o: Oracle, s: State, step: Step, fe: FlowError, other: string)
    ensures var (_, s') := ShouldRetry(o, s, step, fe);
            && s' == s.(store := s'.store)
            && (s'.store == s.store || Get(s'.store, "error") == Some(Nil))
            && (Incomparable(Split("error"), Split(other)) ==> Get(s'.store, other) == Get(s.store, other))
  {
    var asked := Set(s.store, "error", ErrorMap(fe));
    SetThenGet(asked, "error", Nil);
    if Incomparable(Split("error"), Split(other)) {
      SetKeepsOthers(s.store, "error", ErrorMap(fe), other);
      SetKeepsOthers(asked, "error", Nil, other);
    }
  }
}
