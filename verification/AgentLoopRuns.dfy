/** What every run of the agent loop keeps: delivery, budgets, termination, patience and the tool-call protocol. */
module AgentLoopRuns {
  import opened Common
  import opened AgentTurns
  import opened AgentLoop

  // ---- the batch ---------------------------------------------------------------------------------------------

  lemma {:induction false} PlanShape(p: Policy, calls: seq<Call>, remaining: Option<nat>)
    ensures var planned := PlanFrom(p, calls, remaining);
            |planned| == |calls| && forall i | 0 <= i < |calls| ::
              && planned[i].id == calls[i].id && planned[i].name == calls[i].name
              && (planned[i].fault.None? ==>
                    calls[i].form.Object? && calls[i].name in p.tools && calls[i].name in p.permitted)
  {
    if calls != [] { PlanShape(p, calls[1..], Spend(remaining, FaultOf(p, calls[0], remaining))); }
  }

  /** Calls are planned one to one, in order; only declared, permitted calls pass, and a submission only alone. */
  lemma PlanExact(p: Policy, calls: seq<Call>, counted: nat)
    ensures var planned := Plan(p, calls, counted);
            |planned| == |calls| && forall i | 0 <= i < |calls| ::
              && planned[i].id == calls[i].id && planned[i].name == calls[i].name
              && (planned[i].fault.None? ==>
                    && calls[i].form.Object? && calls[i].name in p.tools && calls[i].name in p.permitted
                    && (|calls| > 1 ==> !Names(calls, p.submission)))
  {
    PlanShape(p, calls, Remaining(p, counted));
  }

  /** No more planned calls reach a tool than the budget has left. */
  lemma {:induction false} ReachedWithin(p: Policy, planned: seq<Planned>, tools: seq<ToolRun>, i: nat,
                                         calls: seq<Call>, left: nat)
    requires i <= |planned| && planned[i..] == PlanFrom(p, calls, Some(left))
    ensures ReachedFrom(p, planned, tools, i) <= left
    decreases |calls|
  {
    PlanShape(p, calls, Some(left));
    if calls != [] {
      var fault := FaultOf(p, calls[0], Some(left));
      assert planned[i] == planned[i..][0] && planned[i + 1..] == planned[i..][1..];
      ReachedWithin(p, planned, tools, i + 1, calls[1..], Spend(Some(left), fault).value);
    }
  }

  lemma {:induction false} NoneReached(p: Policy, planned: seq<Planned>, tools: seq<ToolRun>, i: nat)
    requires i <= |planned| && forall j | i <= j < |planned| :: planned[j].fault.Some?
    ensures ReachedFrom(p, planned, tools, i) == 0
    decreases |planned| - i
  {
    if i < |planned| { NoneReached(p, planned, tools, i + 1); }
  }

  lemma BatchWithinBudget(p: Policy, calls: seq<Call>, counted: nat, tools: seq<ToolRun>)
    requires p.callLimit.Some?
    ensures ReachedFrom(p, Plan(p, calls, counted), tools, 0) <= Remaining(p, counted).value
  {
    var planned := Plan(p, calls, counted);
    assert planned[0..] == planned;
    if |calls| > 1 && Names(calls, p.submission) {
      NoneReached(p, planned, tools, 0);
    } else {
      ReachedWithin(p, planned, tools, 0, calls, Remaining(p, counted).value);
    }
  }

  lemma TallyStep(t: Tally, xs: seq<Execution>, i: nat)
    requires i < |xs|
    ensures TallyAll(t, xs[..i + 1]) == TallyOne(TallyAll(t, xs[..i]), xs[i])
  {
    assert xs[..i + 1][..i] == xs[..i];
  }

  /** Every call that reaches a tool is counted against the budget. */
  lemma {:induction false} ReachedIsCounted(p: Policy, planned: seq<Planned>, tools: seq<ToolRun>, t: Tally, i: nat)
    requires i <= |planned|
    ensures var xs := Execute(p, planned, tools);
            ReachedFrom(p, planned, tools, i) + TallyAll(t, xs[..i]).counted <= TallyAll(t, xs).counted
    decreases |planned| - i
  {
    var xs := Execute(p, planned, tools);
    if i == |planned| {
      assert xs[..i] == xs;
    } else {
      TallyStep(t, xs, i);
      ReachedIsCounted(p, planned, tools, t, i + 1);
    }
  }

  lemma {:induction false} TallyGrows(t: Tally, xs: seq<Execution>)
    ensures t.counted <= TallyAll(t, xs).counted && t.seenCalls <= TallyAll(t, xs).seenCalls
    ensures t.seenKeys <= TallyAll(t, xs).seenKeys
  {
    if xs != [] { TallyGrows(t, xs[..|xs| - 1]); }
  }

  /** A batch counts as repeated exactly when all its results were seen in earlier batches. */
  lemma {:induction false} RepeatedExactly(t: Tally, xs: seq<Execution>)
    ensures TallyAll(t, xs).repeated <==> t.repeated && forall i | 0 <= i < |xs| :: xs[i].digest in t.seenCalls
    ensures forall d :: d in TallyAll(t, xs).seenCalls <==>
              d in t.seenCalls || exists i | 0 <= i < |xs| :: xs[i].digest == d
  {
    if xs != [] { RepeatedExactly(t, xs[..|xs| - 1]); }
  }

  /** A batch makes progress exactly when some result carries a key never seen before it. */
  lemma {:induction false} ProgressExactly(t: Tally, xs: seq<Execution>)
    ensures TallyAll(t, xs).made <==> t.made || exists i | 0 <= i < |xs| :: !(xs[i].keys <= t.seenKeys)
    ensures forall k :: k in TallyAll(t, xs).seenKeys <==>
              k in t.seenKeys || exists i | 0 <= i < |xs| :: k in xs[i].keys
  {
    if xs != [] {
      var n := |xs| - 1;
      ProgressExactly(t, xs[..n]);
      var before, x := TallyAll(t, xs[..n]), xs[n];
      assert forall i | 0 <= i < n :: xs[..n][i] == xs[i];
      if !before.made {
        assert before.seenKeys == t.seenKeys;
        if !(x.keys <= t.seenKeys) {
          var k :| k in x.keys && k !in t.seenKeys;
          assert k in x.keys - before.seenKeys;
        }
      } else {
        TallyGrows(t, xs[..n]);
      }
    }
  }

  lemma {:induction false} FirstAcceptedExact(p: Policy, xs: seq<Execution>)
    ensures FirstAccepted(p, xs).None? <==> forall i | 0 <= i < |xs| :: !Accepts(p, xs[i])
    ensures FirstAccepted(p, xs).Some? ==> FirstAccepted(p, xs).value in xs && Accepts(p, FirstAccepted(p, xs).value)
  {
    if xs != [] { FirstAcceptedExact(p, xs[..|xs| - 1]); }
  }

  // ---- delivery ----------------------------------------------------------------------------------------------

  predicate Delivered(t: Option<Terminal>) { t.Some? && t.value.status in {Succeeded, Waiting} }

  /** The value is the receipt of a permitted submission that was the only call of its batch. */
  predicate Sound(p: Policy, s: State) {
    && |s.output| == 1 == |s.executions| && s.output[0].name == p.submission == s.executions[0].tool
    && s.output[0].form.Object? && p.submission in p.permitted && Accepts(p, s.executions[0])
    && s.executions[0].id == s.output[0].id
    && var receipt := s.executions[0].receipt.value;
       && s.accepted == Some(receipt.value)
       && s.terminal == Some(if receipt.waiting then Terminal(Waiting, Submitted) else Terminal(Succeeded, Success))
  }

  predicate Executed(p: Policy, planned: seq<Planned>, xs: seq<Execution>) {
    |xs| == |planned| && forall i | 0 <= i < |xs| ::
      xs[i].tool == planned[i].name && xs[i].id == planned[i].id && (planned[i].fault.Some? ==> !Accepts(p, xs[i]))
  }

  predicate DeliveryInv(p: Policy, s: State) {
    && (s.accepted.Some? <==> Delivered(s.terminal))
    && (s.accepted.Some? ==> s.node in {PrepareNext, End} && Sound(p, s))
    && (s.node.End? ==> s.terminal.Some?)
    && (s.node in {ModelAction, PlanBatch, ExecuteBatch, EvaluateBatch, PrepareInitial} ==> s.terminal.None?)
    && (s.node in {PlanBatch, ExecuteBatch, EvaluateBatch} ==> s.output != [])
    && (s.node in {ExecuteBatch, EvaluateBatch} ==> s.planned == Plan(p, s.output, s.toolCalls))
    && (s.node.EvaluateBatch? ==> Executed(p, s.planned, s.executions))
  }

  lemma EvaluateKeepsDelivery(p: Policy, s: State)
    requires DeliveryInv(p, s) && s.node.EvaluateBatch?
    ensures DeliveryInv(p, AfterEvaluate(p, s))
  {
    FirstAcceptedExact(p, s.executions);
    var x := FirstAccepted(p, s.executions);
    if x.Some? {
      var i :| 0 <= i < |s.executions| && s.executions[i] == x.value;
      PlanExact(p, s.output, s.toolCalls);
      assert s.planned[i].name == p.submission && s.output[i].name == p.submission;
      assert |s.output| == 1;
    }
  }

  // ---- budgets -----------------------------------------------------------------------------------------------

  predicate BudgetInv(p: Policy, s: State) {
    && (p.stepLimit.Some? ==> s.modelSteps <= p.stepLimit.value)
    && (p.stepLimit.Some? && s.node.ModelAction? ==> s.modelSteps < p.stepLimit.value)
    && (p.callLimit.Some? ==> s.past.reached <= p.callLimit.value)
    && s.past.reached
       <= if s.node.EvaluateBatch? then TallyAll(StartTally(s), s.executions).counted else s.toolCalls
  }

  // ---- termination -------------------------------------------------------------------------------------------

  /** Visits still possible, when no request is turned away for capacity. */
  function ToGo(limit: nat, s: State): nat
    requires s.modelSteps <= limit
  {
    var turns := 6 * (limit - s.modelSteps);
    match s.node
    case PrepareInitial => turns + 2
    case Guard => turns + 1
    case ModelAction => turns
    case PlanBatch => turns + 5
    case ExecuteBatch => turns + 4
    case EvaluateBatch => turns + 3
    case PrepareNext => turns + 2
    case End => 0
  }

  predicate VisitInv(p: Policy, s: State) {
    && s.recoveries <= 2 && s.past.recovered <= 2 * s.modelSteps + s.recoveries
    && (p.stepLimit.Some? ==>
          && s.modelSteps <= p.stepLimit.value
          && (s.modelSteps == p.stepLimit.value ==> s.past.recovered <= 2 * s.modelSteps)
          && s.past.visits + ToGo(p.stepLimit.value, s) <= 6 * p.stepLimit.value + 2 + 3 * s.past.recovered)
  }

  // ---- patience ----------------------------------------------------------------------------------------------

  predicate PatienceInv(p: Policy, s: State) {
    && s.noProgress <= s.past.streak <= (if s.warned then p.patience else 0) + s.noProgress
    && s.noProgress <= p.patience
    && (s.node in {ModelAction, PlanBatch, ExecuteBatch, EvaluateBatch} ==> s.noProgress < p.patience)
    && (s.terminal.Some? && s.terminal.value.reason.RepeatedCycle? ==> s.past.streak >= p.patience)
  }

  // ---- every step keeps them ---------------------------------------------------------------------------------

  predicate Inv(p: Policy, s: State) {
    DeliveryInv(p, s) && BudgetInv(p, s) && VisitInv(p, s) && (p.patience >= 1 ==> PatienceInv(p, s))
  }

  lemma GuardKeeps(p: Policy, s: State, e: Env)
    requires Inv(p, s) && s.node.Guard?
    ensures Inv(p, Step(p, s, e))
  {
  }

  lemma InitialKeeps(p: Policy, s: State, e: Env)
    requires Inv(p, s) && s.node.PrepareInitial?
    ensures Inv(p, Step(p, s, e))
  {
  }

  lemma PrepareKeeps(p: Policy, s: State, e: Env)
    requires Inv(p, s) && s.node.PrepareNext?
    ensures Inv(p, Step(p, s, e))
  {
    var s1 := Step(p, s, e);
    assert DeliveryInv(p, s1);
    assert VisitInv(p, s1);
  }

  lemma RecoveryKeeps(p: Policy, s: State, e: Env)
    requires Inv(p, s) && s.node.ModelAction? && e.model.OverCapacity?
    ensures Inv(p, Step(p, s, e))
  {
    var s1 := Step(p, s, e);
    assert DeliveryInv(p, s1);
    assert VisitInv(p, s1);
  }

  lemma AnswerKeeps(p: Policy, s: State, e: Env)
    requires Inv(p, s) && s.node.ModelAction? && e.model.Answer?
    ensures Inv(p, Step(p, s, e))
  {
    var s1 := Step(p, s, e);
    assert DeliveryInv(p, s1);
    assert VisitInv(p, s1);
  }

  lemma NoAnswerKeeps(p: Policy, s: State, e: Env)
    requires Inv(p, s) && s.node.ModelAction? && (e.model.OutOfTime? || e.model.Broken?)
    ensures Inv(p, Step(p, s, e))
  {
  }

  lemma PlanKeeps(p: Policy, s: State, e: Env)
    requires Inv(p, s) && s.node.PlanBatch?
    ensures Inv(p, Step(p, s, e))
  {
  }

  lemma ExecuteKeepsBudget(p: Policy, s: State, e: Env)
    requires Inv(p, s) && s.node.ExecuteBatch?
    ensures BudgetInv(p, Step(p, s, e))
  {
    var s1, xs := Step(p, s, e), Execute(p, s.planned, e.tools);
    ReachedIsCounted(p, s.planned, e.tools, StartTally(s1), 0);
    assert xs[..0] == [] && s1.executions == xs;
    if p.callLimit.Some? { BatchWithinBudget(p, s.output, s.toolCalls, e.tools); }
  }

  lemma ExecuteKeeps(p: Policy, s: State, e: Env)
    requires Inv(p, s) && s.node.ExecuteBatch?
    ensures Inv(p, Step(p, s, e))
  {
    ExecuteKeepsBudget(p, s, e);
    var s1 := Step(p, s, e);
    assert DeliveryInv(p, s1);
    assert VisitInv(p, s1);
  }

  lemma EvaluateKeeps(p: Policy, s: State, e: Env)
    requires Inv(p, s) && s.node.EvaluateBatch?
    ensures Inv(p, Step(p, s, e))
  {
    EvaluateKeepsDelivery(p, s);
  }

  lemma StepKeeps(p: Policy, s: State, e: Env)
    requires Inv(p, s)
    ensures Inv(p, Step(p, s, e))
  {
    match s.node
    case PrepareInitial => InitialKeeps(p, s, e);
    case Guard => GuardKeeps(p, s, e);
    case ModelAction =>
      if e.model.OverCapacity? {
        RecoveryKeeps(p, s, e);
      } else if e.model.Answer? {
        AnswerKeeps(p, s, e);
      } else {
        NoAnswerKeeps(p, s, e);
      }
    case PlanBatch => PlanKeeps(p, s, e);
    case ExecuteBatch => ExecuteKeeps(p, s, e);
    case EvaluateBatch => EvaluateKeeps(p, s, e);
    case PrepareNext => PrepareKeeps(p, s, e);
    case End =>
  }

  lemma {:induction false} RunInv(p: Policy, request: seq<Msg>, es: seq<Env>)
    ensures Inv(p, Run(p, Initial(request), es))
  {
    if es != [] {
      RunInv(p, request, es[..|es| - 1]);
      StepKeeps(p, Run(p, Initial(request), es[..|es| - 1]), es[|es| - 1]);
    }
  }
}
