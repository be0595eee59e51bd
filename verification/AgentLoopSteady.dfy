/** Runs whose compactor writes notes that list what was read: one capacity recovery per model step. */
module AgentLoopSteady {
  import opened Common
  import opened AgentTurns
  import opened AgentCompaction
  import opened AgentLoop
  import opened AgentLoopRuns
  import opened AgentLoopTheorems

  /**
   What one compactor does in a run: its notes depend on what was read so far, and nothing is read between two model
   steps. The refresher rewrites the task or appends inputs.
  */
  ghost predicate SteadyVisit(s: State, e: Env, notes: nat -> Compaction) {
    var c := notes(s.modelSteps);
    && c.trailing == []
    && (s.node.ModelAction? && e.model.OverCapacity? ==> e.model.compacted == Compact(s.messages, c))
    && (s.node in {PrepareInitial, PrepareNext} ==>
          e.refresh.compacted == Compact(e.refresh.inputs, c) && RefreshedQuietly(s, e.refresh.inputs, c))
  }

  /** After a recovery no input arrives before the model has answered, unless the trimmed history keeps a turn. */
  ghost predicate RefreshedQuietly(s: State, inputs: seq<Msg>, c: Compaction) {
    exists text, added ::
      && inputs == Refreshed(s.messages, text, added)
      && (s.recoveries > 0 ==> (text.None? || c.task.None?) && (added == [] || KeepsTurn(s.messages, c)))
  }

  ghost predicate Steady(p: Policy, request: seq<Msg>, es: seq<Env>, notes: nat -> Compaction) {
    && FirstHuman(request).Some?
    && forall i | 0 <= i < |es| :: SteadyVisit(Run(p, Initial(request), es[..i]), es[i], notes)
  }

  /** At most one recovery per model step. */
  predicate Counted(p: Policy, s: State) {
    && s.recoveries <= 1 && s.past.recovered <= s.modelSteps + s.recoveries
    && (p.stepLimit.Some? ==> s.past.recovered <= p.stepLimit.value)
    && (s.node.ModelAction? ==> s.noProgress < p.patience || s.warned)
    && (Resting(s) ==> s.node in {PrepareNext, Guard, ModelAction} && (s.noProgress < p.patience || s.warned))
  }

  /** The model has not answered since the last recovery. */
  predicate Resting(s: State) { s.recoveries == 1 && s.terminal.None? }

  /** What a recovery leaves is trimmed until the model answers. */
  predicate OnceInv(p: Policy, s: State, notes: nat -> Compaction) {
    && FirstHuman(s.messages).Some? && Counted(p, s)
    && (Resting(s) ==> Trimmed(s.messages, notes(s.modelSteps)))
  }

  /** The part of the loop's invariant this needs. */
  predicate Ready(p: Policy, s: State) {
    && (s.terminal.Some? ==> s.node in {Guard, PrepareNext, End})
    && (s.node.ModelAction? && p.stepLimit.Some? ==> s.modelSteps < p.stepLimit.value)
  }

  lemma TaskStays(ms: seq<Msg>, more: seq<Msg>)
    requires FirstHuman(ms).Some?
    ensures FirstHuman(ms + more).Some?
  {
    FirstsExact(ms);
    FirstsExact(ms + more);
    assert (ms + more)[FirstHuman(ms).value].Human?;
  }

  lemma TaskRewritten(ms: seq<Msg>, text: Option<int>)
    requires FirstHuman(ms).Some?
    ensures FirstHuman(Rewritten(ms, text)).Some?
  {
    FirstsExact(ms);
    FirstsExact(Rewritten(ms, text));
    assert Rewritten(ms, text)[FirstHuman(ms).value].Human?;
  }

  lemma TaskCompacted(ms: seq<Msg>, c: Compaction)
    requires FirstHuman(ms).Some? && c.trailing == []
    ensures FirstHuman(Compact(ms, c)).Some?
  {
    CompactTrims(ms, c);
    HeadedFirsts(Compact(ms, c));
  }

  lemma RefreshKeepsTrimmed(ms: seq<Msg>, text: Option<int>, added: seq<int>, c: Compaction)
    requires Trimmed(ms, c) && (text.None? || c.task.None?) && (added == [] || KeepsTurn(ms, c))
    ensures Trimmed(Refreshed(ms, text, added), c)
  {
    HeadedRewritten(ms, text);
    if text.Some? {
      ReplaceKeepsShape(ms, text.value, c);
      RewriteKeepsTurns(ms, text);
      StartsOfTurns(ms, c.toolTurnsOnly);
      StartsOfTurns(Rewritten(ms, text), c.toolTurnsOnly);
    }
    ArrivalsKeepTrimmed(Rewritten(ms, text), added, c);
  }

  lemma RefreshOnce(s: State, inputs: seq<Msg>, c: Compaction)
    requires FirstHuman(s.messages).Some? && RefreshedQuietly(s, inputs, c)
    ensures FirstHuman(inputs).Some?
    ensures s.recoveries > 0 && Trimmed(s.messages, c) ==> Trimmed(inputs, c)
  {
    var text, added :|
      && inputs == Refreshed(s.messages, text, added)
      && (s.recoveries > 0 ==> (text.None? || c.task.None?) && (added == [] || KeepsTurn(s.messages, c)));
    TaskRewritten(s.messages, text);
    TaskStays(Rewritten(s.messages, text), Humans(added));
    if s.recoveries > 0 && Trimmed(s.messages, c) { RefreshKeepsTrimmed(s.messages, text, added, c); }
  }

  lemma CompactOnce(ms: seq<Msg>, c: Compaction)
    requires FirstHuman(ms).Some? && c.trailing == []
    ensures FirstHuman(Compact(ms, c)).Some? && (Trimmed(ms, c) ==> Trimmed(Compact(ms, c), c))
  {
    TaskCompacted(ms, c);
    CompactTrims(ms, c);
  }

  lemma PreparedIs(p: Policy, s: State, r: Refresh)
    ensures Prepared(p, s, r).messages in {s.messages, r.inputs, r.compacted}
  {
  }

  lemma PreparedOnce(p: Policy, s: State, r: Refresh, c: Compaction)
    requires FirstHuman(s.messages).Some? && c.trailing == []
    requires r.compacted == Compact(r.inputs, c) && RefreshedQuietly(s, r.inputs, c)
    ensures FirstHuman(Prepared(p, s, r).messages).Some?
    ensures s.recoveries > 0 && Trimmed(s.messages, c) ==> Trimmed(Prepared(p, s, r).messages, c)
  {
    RefreshOnce(s, r.inputs, c);
    CompactOnce(r.inputs, c);
    PreparedIs(p, s, r);
  }

  lemma RecoveredOnce(p: Policy, s: State, e: Env, notes: nat -> Compaction)
    requires Ready(p, s) && OnceInv(p, s, notes) && s.node.ModelAction? && e.model.OverCapacity?
    requires FirstHuman(e.model.compacted).Some? && Trimmed(e.model.compacted, notes(s.modelSteps))
    requires s.recoveries == 1 ==> e.model.compacted == s.messages
    ensures OnceInv(p, Step(p, s, e), notes)
  {
  }

  lemma AnswerKeepsTask(s: State, m: ModelRun)
    requires FirstHuman(s.messages).Some? && m.Answer?
    ensures FirstHuman(AfterAnswer(s, m).messages).Some?
  {
    TaskStays(s.messages, Spoken(m));
    TaskStays(s.messages + Spoken(m), [Human(NOT_DELIVERED)]);
  }

  lemma AnsweredCounted(p: Policy, s: State, e: Env)
    requires Ready(p, s) && Counted(p, s) && s.node.ModelAction? && !e.model.OverCapacity?
    ensures Counted(p, Step(p, s, e)) && !Resting(Step(p, s, e))
    ensures Step(p, s, e).messages == if e.model.Answer? then AfterAnswer(s, e.model).messages else s.messages
  {
  }

  lemma ModelOnce(p: Policy, s: State, e: Env, notes: nat -> Compaction)
    requires Ready(p, s) && OnceInv(p, s, notes) && SteadyVisit(s, e, notes) && s.node.ModelAction?
    ensures OnceInv(p, Step(p, s, e), notes)
  {
    if e.model.OverCapacity? {
      var c := notes(s.modelSteps);
      CompactTrims(s.messages, c);
      TaskCompacted(s.messages, c);
      if s.recoveries == 1 { TrimmedIsFixed(s.messages, c); }
      RecoveredOnce(p, s, e, notes);
    } else {
      AnsweredCounted(p, s, e);
      if e.model.Answer? { AnswerKeepsTask(s, e.model); }
    }
  }

  lemma PreparedCounted(p: Policy, s: State, e: Env)
    requires Ready(p, s) && Counted(p, s) && s.node in {PrepareInitial, PrepareNext}
    ensures var s1 := Step(p, s, e);
            && Counted(p, s1) && (Resting(s1) ==> Resting(s)) && s1.modelSteps == s.modelSteps
            && s1.messages == if s.terminal.Some? then s.messages else Prepared(p, s, e.refresh).messages
  {
  }

  lemma PrepareOnce(p: Policy, s: State, e: Env, notes: nat -> Compaction)
    requires Ready(p, s) && OnceInv(p, s, notes) && SteadyVisit(s, e, notes)
    requires s.node in {PrepareInitial, PrepareNext}
    ensures OnceInv(p, Step(p, s, e), notes)
  {
    PreparedCounted(p, s, e);
    PreparedOnce(p, s, e.refresh, notes(s.modelSteps));
  }

  lemma GuardOnce(p: Policy, s: State, e: Env, notes: nat -> Compaction)
    requires OnceInv(p, s, notes) && s.node.Guard?
    ensures OnceInv(p, Step(p, s, e), notes)
  {
    TaskStays(s.messages, [Human(LOOP_FEEDBACK)]);
  }

  lemma BatchOnce(p: Policy, s: State, e: Env, notes: nat -> Compaction)
    requires Ready(p, s) && OnceInv(p, s, notes) && s.node in {PlanBatch, ExecuteBatch, EvaluateBatch}
    ensures OnceInv(p, Step(p, s, e), notes)
  {
    if s.node.ExecuteBatch? {
      TaskStays(s.messages, Replies(ExecutionIds(Execute(p, s.planned, e.tools))));
    }
  }

  lemma StepOnce(p: Policy, s: State, e: Env, notes: nat -> Compaction)
    requires Ready(p, s) && OnceInv(p, s, notes) && SteadyVisit(s, e, notes)
    ensures OnceInv(p, Step(p, s, e), notes)
  {
    match s.node
    case PrepareInitial => PrepareOnce(p, s, e, notes);
    case PrepareNext => PrepareOnce(p, s, e, notes);
    case Guard => GuardOnce(p, s, e, notes);
    case ModelAction => ModelOnce(p, s, e, notes);
    case PlanBatch => BatchOnce(p, s, e, notes);
    case ExecuteBatch => BatchOnce(p, s, e, notes);
    case EvaluateBatch => BatchOnce(p, s, e, notes);
    case End =>
  }

  lemma SteadyPrefix(p: Policy, request: seq<Msg>, es: seq<Env>, n: nat, notes: nat -> Compaction)
    requires Steady(p, request, es, notes) && n <= |es|
    ensures Steady(p, request, es[..n], notes)
  {
    forall i | 0 <= i < n ensures SteadyVisit(Run(p, Initial(request), es[..n][..i]), es[..n][i], notes) {
      assert es[..n][..i] == es[..i];
    }
  }

  lemma InvIsReady(p: Policy, s: State)
    requires Inv(p, s)
    ensures Ready(p, s)
  {
  }

  lemma {:induction false} RunOnce(p: Policy, request: seq<Msg>, es: seq<Env>, notes: nat -> Compaction)
    requires Steady(p, request, es, notes)
    ensures OnceInv(p, Run(p, Initial(request), es), notes)
  {
    if es != [] {
      var n := |es| - 1;
      SteadyPrefix(p, request, es, n, notes);
      RunOnce(p, request, es[..n], notes);
      RunInv(p, request, es[..n]);
      InvIsReady(p, Run(p, Initial(request), es[..n]));
      StepOnce(p, Run(p, Initial(request), es[..n]), es[n], notes);
    }
  }

  /** With such a compactor a model step is turned away for capacity at most once; a run visits at most 9L + 2 nodes. */
  lemma SteadyVisitsBound(p: Policy, request: seq<Msg>, es: seq<Env>, notes: nat -> Compaction)
    requires p.stepLimit.Some? && Steady(p, request, es, notes)
    ensures var past, limit := Run(p, Initial(request), es).past, p.stepLimit.value;
            past.recovered <= limit && past.visits <= 9 * limit + 2
  {
    RunOnce(p, request, es, notes);
    VisitsBound(p, request, es);
  }
}
