/** What becomes of a tool call: when it passes, what a refusal means, what its execution reports, when it delivers. */
module AgentLoopCalls {
  import opened Common
  import opened AgentTurns
  import opened AgentLoop
  import opened AgentLoopRuns

  // ---- which calls pass ------------------------------------------------------------------------------------------

  /** An object call of a declared, permitted tool. */
  predicate Proper(p: Policy, call: Call) { call.form.Object? && call.name in p.tools && call.name in p.permitted }

  /** Several calls, one of them to the submission tool. */
  predicate Mixed(p: Policy, calls: seq<Call>) {
    |calls| > 1 && exists i | 0 <= i < |calls| :: calls[i].name == p.submission
  }

  /** How many of the first i planned calls have passed. */
  function Passed(planned: seq<Planned>, i: nat): nat
    requires i <= |planned|
  {
    if i == 0 then 0 else Passed(planned, i - 1) + if planned[i - 1].fault.None? then 1 else 0
  }

  function LeftAfter(remaining: Option<nat>, passed: nat): Option<nat> {
    if remaining.None? then None else Some(if remaining.value > passed then remaining.value - passed else 0)
  }

  lemma {:induction false} PassedShift(first: Planned, rest: seq<Planned>, i: nat)
    requires i <= |rest|
    ensures Passed([first] + rest, i + 1) == (if first.fault.None? then 1 else 0) + Passed(rest, i)
  {
    if i == 0 {
      assert Passed([first] + rest, 0) == 0;
    } else {
      PassedShift(first, rest, i - 1);
    }
  }

  lemma {:induction false} PlannedAt(p: Policy, calls: seq<Call>, remaining: Option<nat>, i: nat)
    requires i < |calls|
    ensures var planned := PlanFrom(p, calls, remaining);
            && |planned| == |calls|
            && planned[i].fault == FaultOf(p, calls[i], LeftAfter(remaining, Passed(planned, i)))
  {
    var planned := PlanFrom(p, calls, remaining);
    PlanShape(p, calls, remaining);
    if i > 0 {
      var fault := FaultOf(p, calls[0], remaining);
      var rest := PlanFrom(p, calls[1..], Spend(remaining, fault));
      PlannedAt(p, calls[1..], Spend(remaining, fault), i - 1);
      PassedShift(planned[0], rest, i - 1);
      assert planned == [planned[0]] + rest;
    }
  }

  /**
   Outside a mixed batch a call passes exactly when it is proper and, with a call limit, fewer calls before it have
   passed than were left; and each refusal says which of these failed first. In a mixed batch nothing passes.
  */
  lemma PassesExactly(p: Policy, calls: seq<Call>, counted: nat, i: nat)
    requires i < |calls|
    ensures var planned := Plan(p, calls, counted);
            && |planned| == |calls| && planned[i].id == calls[i].id && planned[i].name == calls[i].name
            && (Mixed(p, calls) ==> planned[i].fault == Some(SubmissionNotAlone))
            && (!Mixed(p, calls) ==>
                  var spent := p.callLimit.Some? && counted + Passed(planned, i) >= p.callLimit.value;
                  && (planned[i].fault.None? <==> Proper(p, calls[i]) && !spent)
                  && (planned[i].fault == Some(InvalidArguments) <==> calls[i].form.Unparsed?)
                  && (planned[i].fault == Some(Undeclared) <==>
                        calls[i].form.NotObject? || (calls[i].form.Object? && calls[i].name !in p.tools))
                  && (planned[i].fault == Some(NotAuthorized) <==>
                        calls[i].form.Object? && calls[i].name in p.tools && calls[i].name !in p.permitted)
                  && (planned[i].fault == Some(CallBudgetSpent) <==> Proper(p, calls[i]) && spent))
  {
    if !Mixed(p, calls) {
      PlanShape(p, calls, Remaining(p, counted));
      PlannedAt(p, calls, Remaining(p, counted), i);
    }
  }

  // ---- what an execution reports ----------------------------------------------------------------------------------

  /** A planned call reaches its tool exactly when it passed, is declared and the inputs are still the same. */
  lemma ReachesExactly(p: Policy, calls: seq<Call>, counted: nat, i: nat, run: ToolRun)
    requires i < |calls|
    ensures var planned := Plan(p, calls, counted);
            |planned| == |calls| && (Reaches(p, planned[i], run) <==> planned[i].fault.None? && run.before == Clean)
  {
    PlanExact(p, calls, counted);
  }

  /**
   An execution is cut off when the inputs changed or the tool was cancelled, an error when the call was refused, the
   tool raised or a submission was turned down, and otherwise what the tool returned: done if it carries keys.
  */
  lemma ExecutionExactly(p: Policy, plan: Planned, run: ToolRun)
    requires plan.fault.None? ==> plan.name in p.tools
    ensures var x := ExecuteOne(p, plan, run);
            var answered := run.before == Clean && plan.fault.None? && run.effect.Returned? && run.after == Clean;
            && x.id == plan.id && x.tool == plan.name && x.digest == run.digest && x.chars == run.chars
            && (x.overLimit <==> plan.fault == Some(CallBudgetSpent) && run.before == Clean)
            && (x.ending == CutOff <==>
                  || run.before != Clean
                  || (plan.fault.None? && run.effect == Raised(true))
                  || (plan.fault.None? && run.effect.Returned? && run.after != Clean))
            && (x.ending == Errored <==>
                  || (run.before == Clean && (plan.fault.Some? || run.effect == Raised(false)))
                  || (answered && plan.name == p.submission && run.effect.rejected))
            && (x.ending == Done <==>
                  answered && !(plan.name == p.submission && run.effect.rejected) && run.effect.keys != {})
            && x.keys == (if answered then run.effect.keys else {})
            && x.receipt == (if answered && plan.name == p.submission then run.effect.receipt else None)
  {
  }

  // ---- when a batch delivers --------------------------------------------------------------------------------------

  /** The tool took the submission and gave a receipt, and the inputs stayed the same. */
  predicate Takes(run: ToolRun) {
    && run.before == Clean && run.after == Clean
    && run.effect.Returned? && !run.effect.rejected && run.effect.receipt.Some?
  }

  /** One call, to the submission tool, proper and within the call limit. */
  predicate LoneSubmission(p: Policy, s: State) {
    && |s.output| == 1 && s.output[0].name == p.submission && Proper(p, s.output[0])
    && (p.callLimit.Some? ==> s.toolCalls < p.callLimit.value)
  }

  lemma SinglePlan(p: Policy, calls: seq<Call>, counted: nat)
    requires |calls| == 1
    ensures var planned := Plan(p, calls, counted);
            && |planned| == 1 && planned[0].id == calls[0].id && planned[0].name == calls[0].name
            && (planned[0].fault.None? <==>
                  Proper(p, calls[0]) && (p.callLimit.Some? ==> counted < p.callLimit.value))
  {
    PassesExactly(p, calls, counted, 0);
    assert Passed(Plan(p, calls, counted), 0) == 0;
  }

  lemma AcceptsExactly(p: Policy, plan: Planned, run: ToolRun)
    requires plan.fault.None? ==> plan.name in p.tools
    ensures Accepts(p, ExecuteOne(p, plan, run)) <==> plan.fault.None? && plan.name == p.submission && Takes(run)
  {
  }

  lemma OnlyLoneAccepted(p: Policy, calls: seq<Call>, counted: nat, tools: seq<ToolRun>, i: nat)
    requires i < |calls|
    ensures var planned := Plan(p, calls, counted);
            && |planned| == |calls|
            && (Accepts(p, Execute(p, planned, tools)[i]) <==>
                  && |calls| == 1 && calls[0].name == p.submission && Proper(p, calls[0])
                  && (p.callLimit.Some? ==> counted < p.callLimit.value) && Takes(ToolAt(tools, 0)))
  {
    PlanExact(p, calls, counted);
    AcceptsExactly(p, Plan(p, calls, counted)[i], ToolAt(tools, i));
    PassesExactly(p, calls, counted, i);
    if |calls| == 1 {
      SinglePlan(p, calls, counted);
    } else if calls[i].name == p.submission {
      assert Mixed(p, calls);
    }
  }

  lemma FirstOfOne(p: Policy, xs: seq<Execution>)
    requires |xs| == 1
    ensures FirstAccepted(p, xs) == if Accepts(p, xs[0]) then Some(xs[0]) else None
  {
    assert xs[..0] == [];
  }

  /** What three visits make of the model's calls. */
  lemma BatchDelivers(p: Policy, s: State, e: Env, e1: Env, e2: Env)
    requires Inv(p, s) && s.node.PlanBatch?
    ensures var s3 := Step(p, Step(p, Step(p, s, e), e1), e2);
            && (s3.accepted.Some? <==> LoneSubmission(p, s) && Takes(ToolAt(e1.tools, 0)))
            && (s3.accepted.Some? ==>
                  var receipt := ToolAt(e1.tools, 0).effect.receipt.value;
                  && s3.accepted == Some(receipt.value)
                  && s3.terminal == Some(if receipt.waiting then Terminal(Waiting, Submitted)
                                         else Terminal(Succeeded, Success)))
  {
    var s1 := Step(p, s, e);
    var s2 := Step(p, s1, e1);
    var planned := Plan(p, s.output, s.toolCalls);
    var xs := Execute(p, planned, e1.tools);
    PlanExact(p, s.output, s.toolCalls);
    assert s1.planned == planned && s2.executions == xs && |xs| == |s.output|;
    FirstAcceptedExact(p, xs);
    forall i | 0 <= i < |xs|
      ensures Accepts(p, xs[i]) <==> LoneSubmission(p, s) && Takes(ToolAt(e1.tools, 0))
    {
      OnlyLoneAccepted(p, s.output, s.toolCalls, e1.tools, i);
    }
    if |xs| == 1 { FirstOfOne(p, xs); }
  }

  /** A delivery reaches the caller exactly when the last look at the inputs finds nothing. */
  lemma ResultExactly(p: Policy, request: seq<Msg>, es: seq<Env>, last: Check)
    ensures var s, o := Run(p, Initial(request), es), Result(Run(p, Initial(request), es), last);
            && o.value == (if last == Clean then s.accepted else None)
            && (last == Clean && s.terminal.Some? ==>
                  o.status == s.terminal.value.status && o.reason == Some(s.terminal.value.reason))
            && (last != Clean ==> o.reason == Some(Halted(last)))
            && (last == CancelRequested ==> o.status == Cancelled) && (last == StaleRevision ==> o.status == Stale)
            && (last == RevisionUnavailable ==> o.status == Failed)
            && (last == Clean && s.terminal.None? ==> o == Outcome(Failed, None, None))
  {
    RunInv(p, request, es);
  }

  // ---- what a turn adds to the counters ---------------------------------------------------------------------------

  function CharsOf(xs: seq<Execution>): nat { if xs == [] then 0 else xs[0].chars + CharsOf(xs[1..]) }

  /** Executions that were not refused for the call limit itself. */
  function Charged(xs: seq<Execution>): nat {
    if xs == [] then 0 else (if xs[0].overLimit then 0 else 1) + Charged(xs[1..])
  }

  lemma {:induction false} SumsAppend(xs: seq<Execution>, x: Execution)
    ensures CharsOf(xs + [x]) == CharsOf(xs) + x.chars
    ensures Charged(xs + [x]) == Charged(xs) + if x.overLimit then 0 else 1
  {
    if xs == [] {
      assert [] + [x] == [x] && [x][1..] == [];
    } else {
      assert (xs + [x])[1..] == xs[1..] + [x];
      SumsAppend(xs[1..], x);
    }
  }

  lemma {:induction false} TallySums(t: Tally, xs: seq<Execution>)
    ensures TallyAll(t, xs).chars == t.chars + CharsOf(xs) && TallyAll(t, xs).counted == t.counted + Charged(xs)
  {
    if xs != [] {
      TallySums(t, xs[..|xs| - 1]);
      SumsAppend(xs[..|xs| - 1], xs[|xs| - 1]);
      assert xs == xs[..|xs| - 1] + [xs[|xs| - 1]];
    }
  }

  /** All its results were seen in earlier batches, and none carries a key not seen before. */
  predicate Unproductive(s: State) {
    && s.executions != []
    && (forall i | 0 <= i < |s.executions| :: s.executions[i].digest in s.seenCalls)
    && (forall i | 0 <= i < |s.executions| :: s.executions[i].keys <= s.seenKeys)
  }

  /** A batch lengthens the streak exactly when it is unproductive, and ends it otherwise; its costs are added up. */
  lemma BatchCounts(p: Policy, s: State, e: Env)
    requires s.node.EvaluateBatch?
    ensures var s1 := Step(p, s, e);
            && s1.noProgress == (if Unproductive(s) then s.noProgress + 1 else 0)
            && s1.resultChars == s.resultChars + CharsOf(s.executions)
            && s1.toolCalls == s.toolCalls + Charged(s.executions)
            && (forall d :: d in s1.seenCalls <==>
                  d in s.seenCalls || exists i | 0 <= i < |s.executions| :: s.executions[i].digest == d)
            && (forall k :: k in s1.seenKeys <==>
                  k in s.seenKeys || exists i | 0 <= i < |s.executions| :: k in s.executions[i].keys)
  {
    RepeatedExactly(StartTally(s), s.executions);
    ProgressExactly(StartTally(s), s.executions);
    TallySums(StartTally(s), s.executions);
  }

  /** An answer uses a model step; one without calls lengthens the streak, one with calls leaves it to the batch. */
  lemma AnswerCounts(p: Policy, s: State, e: Env)
    requires s.node.ModelAction? && e.model.Answer? && !e.model.late && e.model.after == Clean && s.terminal.None?
    ensures var s1 := Step(p, s, e);
            && s1.terminal.None? && s1.modelSteps == s.modelSteps + 1 && s1.recoveries == 0
            && s1.output == e.model.calls
            && s1.noProgress == s.noProgress + (if e.model.calls == [] then 1 else 0)
            && s1.node == (if e.model.calls == [] then PrepareNext else PlanBatch)
  {
  }
}
