/** The main results about runs of the agent loop. */
module AgentLoopTheorems {
  import opened Common
  import opened AgentTurns
  import opened AgentCompaction
  import opened AgentLoop
  import opened AgentLoopRuns

  // ---- one delivery channel ------------------------------------------------------------------------------------

  /**
   Whatever the model emits, a value comes back exactly with a delivering status, and only as the receipt of a
   submission that was alone in its batch, after a clean last look at the inputs.
  */
  lemma DeliveredOnlyBySubmission(p: Policy, request: seq<Msg>, es: seq<Env>, last: Check)
    ensures var s, o := Run(p, Initial(request), es), Result(Run(p, Initial(request), es), last);
            && (o.value.Some? <==> o.status in {Succeeded, Waiting})
            && (o.value.Some? ==> last == Clean && o.value == s.accepted && Sound(p, s))
  {
    RunInv(p, request, es);
  }

  /** An accepted submission ends the run two visits later, whatever happens then; without one it goes on. */
  lemma AcceptanceIsFinal(p: Policy, s: State, e: Env, e': Env)
    requires Inv(p, s) && s.node.EvaluateBatch?
    ensures var s2 := Step(p, Step(p, s, e), e');
            && (s2.accepted.Some? <==> exists i | 0 <= i < |s.executions| :: Accepts(p, s.executions[i]))
            && (s2.accepted.Some? ==> s2.node.End? && Sound(p, s2))
  {
    FirstAcceptedExact(p, s.executions);
    EvaluateKeepsDelivery(p, s);
  }

  // ---- budgets and termination ---------------------------------------------------------------------------------

  /** Model steps and tool calls stay within their limits, and the model is not asked once the steps are spent. */
  lemma WithinBudgets(p: Policy, request: seq<Msg>, es: seq<Env>)
    ensures var s := Run(p, Initial(request), es);
            && (p.stepLimit.Some? ==> s.modelSteps <= p.stepLimit.value)
            && (p.stepLimit.Some? && s.node.ModelAction? ==> s.modelSteps < p.stepLimit.value)
            && (p.callLimit.Some? ==> s.past.reached <= p.callLimit.value)
  {
    RunInv(p, request, es);
  }

  /**
   The model is asked only below every limit; a run that stops for a limit has reached it, and one halted for its
   inputs saw them change.
  */
  predicate Honest(p: Policy, s: State) {
    && (s.node.ModelAction? ==>
          (p.callLimit.Some? ==> s.toolCalls < p.callLimit.value) && s.resultChars < p.resultLimit)
    && (s.terminal.Some? ==>
          match s.terminal.value.reason
          case Halted(check) => check != Clean
          case StepLimit => p.stepLimit.Some? && s.modelSteps == p.stepLimit.value
          case CallLimit => p.callLimit.Some? && s.toolCalls >= p.callLimit.value
          case ResultLimit => s.resultChars >= p.resultLimit
          case Success => s.accepted.Some? && s.terminal.value.status == Succeeded
          case Submitted => s.accepted.Some? && s.terminal.value.status == Waiting
          case _ => true)
  }

  lemma GuardHonest(p: Policy, s: State, e: Env)
    requires s.node.Guard? && BudgetInv(p, s) && Honest(p, s)
    ensures Honest(p, Step(p, s, e))
  {
  }

  lemma ModelHonest(p: Policy, s: State, e: Env)
    requires s.node.ModelAction? && s.terminal.None?
    ensures Honest(p, Step(p, s, e))
  {
  }

  lemma StepKeepsHonest(p: Policy, s: State, e: Env)
    requires DeliveryInv(p, s) && BudgetInv(p, s) && Honest(p, s)
    ensures Honest(p, Step(p, s, e))
  {
    if s.node.Guard? {
      GuardHonest(p, s, e);
    } else if s.node.ModelAction? {
      ModelHonest(p, s, e);
    }
  }

  lemma {:induction false} ReasonsHonest(p: Policy, request: seq<Msg>, es: seq<Env>)
    ensures Honest(p, Run(p, Initial(request), es))
  {
    if es != [] {
      RunInv(p, request, es[..|es| - 1]);
      ReasonsHonest(p, request, es[..|es| - 1]);
      StepKeepsHonest(p, Run(p, Initial(request), es[..|es| - 1]), es[|es| - 1]);
    }
  }

  lemma StepCountsVisit(p: Policy, s: State, e: Env)
    ensures Step(p, s, e).past.visits == s.past.visits + if s.node.End? then 0 else 1
    ensures s.node.End? ==> Step(p, s, e) == s
  {
  }

  lemma {:induction false} VisitsOfRun(p: Policy, s: State, es: seq<Env>)
    ensures var r := Run(p, s, es);
            r.past.visits <= s.past.visits + |es| && (!r.node.End? ==> r.past.visits == s.past.visits + |es|)
  {
    if es != [] {
      VisitsOfRun(p, s, es[..|es| - 1]);
      StepCountsVisit(p, Run(p, s, es[..|es| - 1]), es[|es| - 1]);
    }
  }

  /** A run visits at most 6L + 2 nodes, and three more for each request turned away for capacity. */
  lemma VisitsBound(p: Policy, request: seq<Msg>, es: seq<Env>)
    requires p.stepLimit.Some?
    ensures var past, limit := Run(p, Initial(request), es).past, p.stepLimit.value;
            past.visits <= 6 * limit + 2 + 3 * past.recovered && past.recovered <= 2 * limit
  {
    RunInv(p, request, es);
  }

  /** With a step limit every run ends, and says why. */
  lemma Terminates(p: Policy, request: seq<Msg>, es: seq<Env>)
    requires p.stepLimit.Some? && |es| >= 12 * p.stepLimit.value + 2
    ensures Run(p, Initial(request), es).node.End? && Run(p, Initial(request), es).terminal.Some?
  {
    RunInv(p, request, es);
    VisitsOfRun(p, Initial(request), es);
  }

  // ---- patience ------------------------------------------------------------------------------------------------

  /** The model never works on after 2K unproductive turns in a row, and none are cut off for it before K. */
  lemma PatienceBounds(p: Policy, request: seq<Msg>, es: seq<Env>)
    requires p.patience >= 1
    ensures var s := Run(p, Initial(request), es);
            && s.past.streak <= 2 * p.patience
            && (s.node.ModelAction? ==> s.past.streak < 2 * p.patience)
            && (s.terminal.Some? && s.terminal.value.reason.RepeatedCycle? ==> s.past.streak >= p.patience)
  {
    RunInv(p, request, es);
  }

  /** With 2K unproductive turns behind it, the next guard ends the run whatever it sees. */
  lemma PatienceRunsOut(p: Policy, s: State, e: Env)
    requires p.patience >= 1 && Inv(p, s) && s.node.Guard? && s.past.streak >= 2 * p.patience
    ensures Step(p, s, e).node.End?
  {
  }

  // ---- the tool-call protocol ----------------------------------------------------------------------------------

  lemma {:induction false} ScanBroken(ms: seq<Msg>, more: seq<Msg>)
    requires Scan(ms).None?
    ensures Scan(ms + more).None?
  {
    if more == [] {
      assert ms + more == ms;
    } else {
      ScanBroken(ms, more[..|more| - 1]);
      assert ms + more == (ms + more[..|more| - 1]) + [more[|more| - 1]];
      ScanAppend(ms + more[..|more| - 1], more[|more| - 1]);
    }
  }

  /** Replies to calls no message announced break the history. */
  lemma OrphansBreak(ms: seq<Msg>, calls: seq<CallId>)
    requires Answered(ms) && calls != []
    ensures Scan(ms + Replies(calls)).None?
  {
    var first, rest := Reply(calls[0]), Replies(calls)[1..];
    ScanAppend(ms, first);
    ScanBroken(ms + [first], rest);
    assert ms + Replies(calls) == (ms + [first]) + rest;
  }

  /** The model answers tool calls only inside a message. */
  predicate InMessage(m: ModelRun) { m.Answer? && m.calls != [] ==> m.isMessage }

  ghost predicate Trims(before: seq<Msg>, after: seq<Msg>) { exists c: Compaction :: after == Compact(before, c) }

  ghost predicate Refreshes(before: seq<Msg>, after: seq<Msg>) {
    exists text, added :: after == Refreshed(before, text, added)
  }

  /** Calls come in a message, compactors trim, and the refresher appends inputs or rewrites the task. */
  ghost predicate Conforms(s: State, e: Env) {
    && (s.node.ModelAction? ==>
          InMessage(e.model) && (e.model.OverCapacity? ==> Trims(s.messages, e.model.compacted)))
    && (s.node in {PrepareInitial, PrepareNext} ==>
          Refreshes(s.messages, e.refresh.inputs) && Trims(e.refresh.inputs, e.refresh.compacted))
  }

  predicate ProtocolInv(s: State) {
    if s.node.PlanBatch? || s.node.ExecuteBatch? then Scan(s.messages) == Some(Ids(s.output)) else Answered(s.messages)
  }

  lemma TrimKeepsProtocol(before: seq<Msg>, after: seq<Msg>)
    requires Answered(before) && Trims(before, after)
    ensures Answered(after)
  {
    var c :| after == Compact(before, c);
    CompactKeepsProtocol(before, c);
  }

  lemma PreparedKeepsProtocol(p: Policy, s: State, r: Refresh)
    requires Answered(s.messages) && Refreshes(s.messages, r.inputs) && Trims(r.inputs, r.compacted)
    ensures Answered(Prepared(p, s, r).messages)
  {
    var text, added :| r.inputs == Refreshed(s.messages, text, added);
    RefreshKeepsProtocol(s.messages, text, added);
    TrimKeepsProtocol(r.inputs, r.compacted);
  }

  lemma OpenedBy(ms: seq<Msg>, m: ModelRun)
    requires Answered(ms) && m.Answer? && InMessage(m)
    ensures Scan(ms + Spoken(m)) == Some(Ids(m.calls))
  {
    if m.isMessage {
      ScanAppend(ms, Ai(Ids(m.calls), m.parsed, m.text));
    } else {
      assert ms + [] == ms && Ids(m.calls) == [];
    }
  }

  lemma AnswerKeepsProtocol(s: State, m: ModelRun)
    requires Answered(s.messages) && m.Answer? && InMessage(m) && s.terminal.None?
    ensures var s1 := AfterAnswer(s, m);
            && (s1.terminal.None? && m.calls != [] ==> Scan(s1.messages) == Some(Ids(m.calls)))
            && (s1.terminal.Some? || m.calls == [] ==> Answered(s1.messages))
  {
    OpenedBy(s.messages, m);
    assert m.calls == [] ==> Ids(m.calls) == [];
    ScanAppend(s.messages + Spoken(m), Human(NOT_DELIVERED));
  }

  lemma RecoveryKeepsProtocol(p: Policy, s: State, m: ModelRun)
    requires Answered(s.messages) && m.OverCapacity? && Trims(s.messages, m.compacted)
    ensures Answered(Recovered(p, s, m).messages)
    ensures Recovered(p, s, m).terminal.None? ==> Recovered(p, s, m).output == []
  {
    TrimKeepsProtocol(s.messages, m.compacted);
  }

  lemma ModelKeepsProtocol(p: Policy, s: State, e: Env)
    requires s.node.ModelAction? && Answered(s.messages) && Conforms(s, e) && s.terminal.None?
    ensures ProtocolInv(Step(p, s, e))
  {
    if e.model.OverCapacity? {
      RecoveryKeepsProtocol(p, s, e.model);
    } else if e.model.Answer? {
      AnswerKeepsProtocol(s, e.model);
    }
  }

  lemma ExecuteKeepsProtocol(p: Policy, s: State, e: Env)
    requires Inv(p, s) && s.node.ExecuteBatch? && Scan(s.messages) == Some(Ids(s.output))
    ensures ProtocolInv(Step(p, s, e))
  {
    PlanExact(p, s.output, s.toolCalls);
    assert ExecutionIds(Execute(p, s.planned, e.tools)) == Ids(s.output);
    RepliesClose(s.messages, Ids(s.output));
  }

  lemma StepKeepsProtocol(p: Policy, s: State, e: Env)
    requires Inv(p, s) && ProtocolInv(s) && Conforms(s, e)
    ensures ProtocolInv(Step(p, s, e))
  {
    match s.node
    case PrepareInitial => PreparedKeepsProtocol(p, s, e.refresh);
    case PrepareNext => PreparedKeepsProtocol(p, s, e.refresh);
    case Guard => ScanAppend(s.messages, Human(LOOP_FEEDBACK));
    case ModelAction => ModelKeepsProtocol(p, s, e);
    case ExecuteBatch => ExecuteKeepsProtocol(p, s, e);
    case PlanBatch =>
    case EvaluateBatch =>
    case End =>
  }

  ghost predicate Conforming(p: Policy, request: seq<Msg>, es: seq<Env>) {
    forall i | 0 <= i < |es| :: Conforms(Run(p, Initial(request), es[..i]), es[i])
  }

  lemma ConformingPrefix(p: Policy, request: seq<Msg>, es: seq<Env>, n: nat)
    requires Conforming(p, request, es) && n <= |es|
    ensures Conforming(p, request, es[..n])
  {
    forall i | 0 <= i < n ensures Conforms(Run(p, Initial(request), es[..n][..i]), es[..n][i]) {
      assert es[..n][..i] == es[..i];
    }
  }

  /** From a well-formed request, every batch is answered in full and in order before the next message. */
  lemma {:induction false} RunKeepsProtocol(p: Policy, request: seq<Msg>, es: seq<Env>)
    requires Answered(request) && Conforming(p, request, es)
    ensures ProtocolInv(Run(p, Initial(request), es))
  {
    if es != [] {
      var n := |es| - 1;
      ConformingPrefix(p, request, es, n);
      RunKeepsProtocol(p, request, es[..n]);
      RunInv(p, request, es[..n]);
      StepKeepsProtocol(p, Run(p, Initial(request), es[..n]), es[n]);
    }
  }

  /** Tool calls that do not come in a message leave replies nobody asked for: the proviso is exact. */
  lemma ProtocolExact(p: Policy, s: State, e: Env, e1: Env, e2: Env)
    requires Inv(p, s) && s.node.ModelAction? && Answered(s.messages)
    requires e.model.Answer? && e.model.calls != [] && !e.model.late && e.model.after == Clean
    ensures Answered(Step(p, Step(p, Step(p, s, e), e1), e2).messages) <==> e.model.isMessage
  {
    var s1 := Step(p, s, e);
    StepKeeps(p, s, e);
    StepKeeps(p, s1, e1);
    var s2 := Step(p, s1, e1);
    PlanExact(p, s1.output, s1.toolCalls);
    assert ExecutionIds(Execute(p, s2.planned, e2.tools)) == Ids(s1.output);
    if e.model.isMessage {
      ModelKeepsProtocol(p, s, e);
      ExecuteKeepsProtocol(p, s2, e2);
    } else {
      assert s.messages + [] == s.messages;
      OrphansBreak(s.messages, Ids(s1.output));
    }
  }
}
