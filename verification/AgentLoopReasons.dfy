/** Why a run of the agent loop stopped: every terminal status is accounted for by the visit that wrote it. */
module AgentLoopReasons {
  import opened Common
  import opened AgentTurns
  import opened AgentLoop
  import opened AgentLoopRuns

  predicate Prepares(node: Node) { node in {PrepareInitial, PrepareNext} }

  /** What the visit to `s.node` saw of the cancellation flag and the input revision, apart from the tools. */
  function SeenCheck(s: State, e: Env): Check {
    if s.node.Guard? then e.check
    else if Prepares(s.node) then e.refresh.check
    else if s.node.ModelAction? && e.model.OverCapacity? then e.model.check
    else if s.node.ModelAction? && e.model.Answer? then e.model.after
    else Clean
  }

  /** The clock was seen to have run out. */
  predicate SeenLate(s: State, e: Env) {
    || (s.node.Guard? && e.late)
    || (s.node.ModelAction? && (e.model.OutOfTime? || (e.model.Answer? && e.model.late)))
  }

  /** The prepared context measures more than the policy allows. */
  predicate SeenTooLong(p: Policy, s: State, r: Refresh) {
    && Prepares(s.node) && !p.managed && p.contextLimit.Some?
    && p.contextLimit.value < if r.charsBefore >= p.threshold && p.compacts then r.charsAfter else r.charsBefore
  }

  /** A request was turned away for capacity and no compaction can help any more. */
  predicate SeenHopeless(p: Policy, s: State, m: ModelRun) {
    && s.node.ModelAction? && m.OverCapacity?
    && (CapacityHopeless(p, s, m.estimate) || m.compacted == s.messages)
  }

  predicate SeenAccepted(p: Policy, s: State, waiting: bool) {
    s.node.EvaluateBatch? && exists i | 0 <= i < |s.executions| ::
      Accepts(p, s.executions[i]) && s.executions[i].receipt.value.waiting == waiting
  }

  /** The visit in state `s`, with what it saw, is reason enough for this ending, and the status fits the reason. */
  predicate Justified(p: Policy, s: State, e: Env, t: Terminal) {
    match t.reason
    case Halted(check) =>
      && check != Clean && SeenCheck(s, e) == check
      && t.status == (match check case CancelRequested => Cancelled case StaleRevision => Stale case _ => Failed)
    case WallDeadline => t.status == Blocked && SeenLate(s, e)
    case StepLimit =>
      t.status == Blocked && s.node.Guard? && p.stepLimit.Some? && s.modelSteps >= p.stepLimit.value
    case CallLimit => t.status == Blocked && s.node.Guard? && p.callLimit.Some? && s.toolCalls >= p.callLimit.value
    case ResultLimit => t.status == Blocked && s.node.Guard? && s.resultChars >= p.resultLimit
    case RepeatedCycle => t.status == Blocked && s.node.Guard? && s.warned && s.noProgress >= p.patience
    case ContextLimit =>
      if t.status == Failed then SeenTooLong(p, s, e.refresh) else t.status == Blocked && SeenHopeless(p, s, e.model)
    case ModelFault => s.node.ModelAction? && e.model.Broken? && t.status in {Cancelled, Stale, Blocked, Failed}
    case Success => t.status == Succeeded && SeenAccepted(p, s, false)
    case Submitted => t.status == Waiting && SeenAccepted(p, s, true)
  }

  /** A visit leaves the ending as it was or writes one it can account for. */
  ghost predicate AccountsFor(p: Policy, s: State, e: Env) {
    var t := Step(p, s, e).terminal;
    t == s.terminal || (t.Some? && !s.node.End? && Justified(p, s, e, t.value))
  }

  lemma GuardAccounts(p: Policy, s: State, e: Env)
    ensures s.node.Guard? ==> AccountsFor(p, s, e)
  {
  }

  lemma PrepareAccounts(p: Policy, s: State, e: Env)
    ensures Prepares(s.node) ==> AccountsFor(p, s, e)
  {
  }

  lemma ModelAccounts(p: Policy, s: State, e: Env)
    ensures s.node.ModelAction? ==> AccountsFor(p, s, e)
  {
  }

  lemma EvaluateAccounts(p: Policy, s: State, e: Env)
    ensures s.node.EvaluateBatch? ==> AccountsFor(p, s, e)
  {
    FirstAcceptedExact(p, s.executions);
    var x := FirstAccepted(p, s.executions);
    if x.Some? {
      var i :| 0 <= i < |s.executions| && s.executions[i] == x.value;
    }
  }

  lemma VisitAccounts(p: Policy, s: State, e: Env)
    ensures AccountsFor(p, s, e)
  {
    match s.node
    case Guard => GuardAccounts(p, s, e);
    case PrepareInitial => PrepareAccounts(p, s, e);
    case PrepareNext => PrepareAccounts(p, s, e);
    case ModelAction => ModelAccounts(p, s, e);
    case EvaluateBatch => EvaluateAccounts(p, s, e);
    case PlanBatch =>
    case ExecuteBatch =>
    case End =>
  }

  /**
   Whatever status and reason a run ends with, one of its visits wrote them, and what that visit saw justifies them:
   the limit was reached, the clock or the inputs had changed, the context was too long (failed), capacity could not
   be recovered (blocked), the model broke, or a submission was accepted.
  */
  lemma {:induction false} EndingsJustified(p: Policy, request: seq<Msg>, es: seq<Env>) returns (n: nat)
    requires Run(p, Initial(request), es).terminal.Some?
    ensures WrittenBy(p, request, es, n, Run(p, Initial(request), es).terminal)
  {
    var last := |es| - 1;
    if Run(p, Initial(request), es).terminal == Run(p, Initial(request), es[..last]).terminal {
      n := EndingsJustified(p, request, es[..last]);
      WrittenEarlier(p, request, es, n, Run(p, Initial(request), es).terminal);
    } else {
      n := last;
      WrittenLast(p, request, es);
    }
  }

  /** Visit n wrote this ending, with reason enough. */
  ghost predicate WrittenBy(p: Policy, request: seq<Msg>, es: seq<Env>, n: nat, t: Option<Terminal>) {
    && n < |es| && t.Some? && Run(p, Initial(request), es[..n + 1]).terminal == t
    && Justified(p, Run(p, Initial(request), es[..n]), es[n], t.value)
  }

  lemma WrittenEarlier(p: Policy, request: seq<Msg>, es: seq<Env>, n: nat, t: Option<Terminal>)
    requires es != [] && WrittenBy(p, request, es[..|es| - 1], n, t)
    ensures WrittenBy(p, request, es, n, t)
  {
    assert es[..|es| - 1][..n] == es[..n] && es[..|es| - 1][..n + 1] == es[..n + 1];
  }

  lemma WrittenLast(p: Policy, request: seq<Msg>, es: seq<Env>)
    requires es != [] && Run(p, Initial(request), es).terminal.Some?
    requires Run(p, Initial(request), es).terminal != Run(p, Initial(request), es[..|es| - 1]).terminal
    ensures WrittenBy(p, request, es, |es| - 1, Run(p, Initial(request), es).terminal)
  {
    VisitAccounts(p, Run(p, Initial(request), es[..|es| - 1]), es[|es| - 1]);
    assert es[..|es|] == es;
  }

  /** The two ways to run out of context end a run differently: failed by the context check, blocked by the provider. */
  lemma ContextLimitStatus(p: Policy, s: State, e: Env)
    ensures var t := Step(p, s, e).terminal;
            s.terminal.None? && t.Some? && t.value.reason.ContextLimit? ==>
              && (t.value.status == Failed <==> Prepares(s.node))
              && (t.value.status == Blocked <==> s.node.ModelAction?)
  {
    VisitAccounts(p, s, e);
  }

  // ---- and no run goes on that should have stopped -----------------------------------------------------------------

  /** What ends a run at this visit. */
  predicate Ends(p: Policy, s: State, e: Env) {
    match s.node
    case Guard =>
      || e.check != Clean || e.late
      || (p.stepLimit.Some? && s.modelSteps >= p.stepLimit.value)
      || (p.callLimit.Some? && s.toolCalls >= p.callLimit.value)
      || s.resultChars >= p.resultLimit
      || (s.noProgress >= p.patience && s.warned)
    case PrepareInitial => e.refresh.check != Clean || SeenTooLong(p, s, e.refresh)
    case PrepareNext => e.refresh.check != Clean || SeenTooLong(p, s, e.refresh)
    case ModelAction =>
      || e.model.OutOfTime? || e.model.Broken?
      || (e.model.Answer? && (e.model.late || e.model.after != Clean))
      || (e.model.OverCapacity? &&
            (!p.compacts || s.recoveries >= 2 || (s.estimate != 0 && e.model.estimate >= s.estimate)
             || e.model.check != Clean || e.model.compacted == s.messages))
    case EvaluateBatch => exists i | 0 <= i < |s.executions| :: Accepts(p, s.executions[i])
    case _ => false
  }

  lemma GuardEnds(p: Policy, s: State, e: Env)
    ensures s.node.Guard? && s.terminal.None? ==> (Step(p, s, e).terminal.Some? <==> Ends(p, s, e))
  {
  }

  lemma ModelEnds(p: Policy, s: State, e: Env)
    ensures s.node.ModelAction? && s.terminal.None? ==> (Step(p, s, e).terminal.Some? <==> Ends(p, s, e))
  {
  }

  /** A visit ends the run exactly when there is a reason to. */
  lemma EndsExactly(p: Policy, s: State, e: Env)
    ensures s.terminal.None? ==> (Step(p, s, e).terminal.Some? <==> Ends(p, s, e))
  {
    match s.node
    case Guard => GuardEnds(p, s, e);
    case ModelAction => ModelEnds(p, s, e);
    case EvaluateBatch => FirstAcceptedExact(p, s.executions);
    case _ =>
  }

  /** The guard reports the first of its reasons: the inputs, the clock, steps, calls, result size, repetition. */
  lemma GuardReportsFirst(p: Policy, s: State, e: Env)
    ensures var t := Step(p, s, e).terminal;
            s.node.Guard? && s.terminal.None? && t.Some? ==>
              var spent := p.stepLimit.Some? && s.modelSteps >= p.stepLimit.value;
              var called := p.callLimit.Some? && s.toolCalls >= p.callLimit.value;
              && (t.value.reason.Halted? <==> e.check != Clean)
              && (t.value.reason == WallDeadline <==> e.check == Clean && e.late)
              && (t.value.reason == StepLimit <==> e.check == Clean && !e.late && spent)
              && (t.value.reason == CallLimit <==> e.check == Clean && !e.late && !spent && called)
              && (t.value.reason == ResultLimit <==>
                    e.check == Clean && !e.late && !spent && !called && s.resultChars >= p.resultLimit)
  {
    GuardAccounts(p, s, e);
  }

  /** A model that breaks ends the run with its failure's status where that is an ending of its own, else as failed. */
  lemma BrokenEndsAs(p: Policy, s: State, e: Env)
    requires s.node.ModelAction? && e.model.Broken?
    ensures Step(p, s, e).node.End? && Step(p, s, e).modelSteps == s.modelSteps + 1
    ensures var t, status := Step(p, s, e).terminal, e.model.status;
            t == Some(Terminal(if status == Succeeded || status == Waiting then Status.Failed else status, ModelFault))
  {
  }

  /**
   A preparation that does not end the run takes over the refreshed history, or the compacted one when the model's own
   admission does not watch the size, that is at the threshold and there is a compactor; the first goes on to the guard
   in any case.
  */
  lemma PreparesExactly(p: Policy, s: State, e: Env)
    requires Prepares(s.node) && s.terminal.None?
    ensures var s1, r := Step(p, s, e), e.refresh;
            && (s1.terminal.None? ==>
                  s1.messages == if !p.managed && p.compacts && r.charsBefore >= p.threshold then r.compacted
                                 else r.inputs)
            && (s1.terminal.Some? ==> s1.messages == s.messages)
            && s1.node == (if s.node.PrepareNext? && s1.terminal.Some? then End else Guard)
            && (s1.terminal.Some? ==>
                  s1.terminal.value.reason == if r.check != Clean then Halted(r.check) else ContextLimit)
  {
  }

  /** Repetition is pointed out once: the streak starts anew, one message is added and the model is asked again. */
  lemma WarnsOnce(p: Policy, s: State, e: Env)
    requires s.node.Guard? && s.terminal.None? && !Ends(p, s, e)
    ensures var s1 := Step(p, s, e);
            if s.noProgress >= p.patience
            then s1.warned && s1.noProgress == 0 && s1.messages == s.messages + [Human(LOOP_FEEDBACK)]
                 && s1.node.ModelAction?
            else s1.warned == s.warned && s1.noProgress == s.noProgress && s1.messages == s.messages
                 && s1.node.ModelAction?
  {
  }
}
