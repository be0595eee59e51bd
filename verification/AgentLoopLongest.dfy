/** The longest runs of the agent loop. */
module AgentLoopLongest {
  import opened Common
  import opened AgentTurns
  import opened AgentCompaction
  import opened AgentLoop
  import opened AgentLoopRuns
  import opened AgentLoopTheorems
  import opened AgentLoopSteady

  // Every message weighs one, the provider takes three of them, and no tool turn is ever completed. The compactor
  // trims as the runtime's does and writes the same note every time. With `arrivals`, one input comes in after each
  // first recovery of a model step.

  const WINDOW := 3
  const NEWS := 5
  const NOTES := Compaction(1, [7], true, None, [])
  const TRIMMED := [System(0), Human(0), Human(7)]
  const REQUEST := [System(0), Human(0), Human(1), Human(2), Human(3)]
  const GARBLED := Answer(true, [Call("c", "t", Unparsed)], false, 0, Clean, false)
  const TURN := [Ai(["c"], false, 0), Reply("c")]

  function Worst(limit: nat): Policy {
    Policy(Some(limit), None, 400 * limit + 1, 2, true, true, 0, None, "submit", {"submit"}, {"submit"})
  }

  function Arriving(arrivals: bool, s: State): seq<int> { if arrivals && s.recoveries == 1 then [NEWS] else [] }

  /** What the provider, the tools, the refresher and the compactor do in these runs. */
  function Respond(arrivals: bool, s: State): Env {
    Env(Clean, false, if |s.messages| > WINDOW then OverCapacity(|s.messages|, Clean, TRIMMED) else GARBLED,
        [ToolRun(Clean, Raised(false), Clean, s.modelSteps, 400)],
        Refresh(Clean, s.messages + Humans(Arriving(arrivals, s)), 0, TRIMMED, 0))
  }

  function Move(p: Policy, arrivals: bool, s: State): State { Step(p, s, Respond(arrivals, s)) }

  /** The provider turns away exactly what is too large, reports its size, and inputs are only appended. */
  ghost predicate Ordinary(s: State, e: Env) {
    && (s.node.ModelAction? ==>
          && InMessage(e.model)
          && if |s.messages| > WINDOW then e.model == OverCapacity(|s.messages|, Clean, Compact(s.messages, NOTES))
             else e.model.Answer?)
    && (s.node in {PrepareInitial, PrepareNext} ==>
          && e.refresh.compacted == Compact(e.refresh.inputs, NOTES)
          && exists added :: e.refresh.inputs == Refreshed(s.messages, None, added))
  }

  /** No tool turn in the history. */
  predicate Bare(ms: seq<Msg>) {
    |ms| >= 2 && ms[0] == System(0) && ms[1] == Human(0) && forall i | 0 <= i < |ms| :: !StartsTurn(ms[i], true)
  }

  /** The compactor then leaves the head and its note. */
  lemma Shortened(ms: seq<Msg>)
    requires Bare(ms)
    ensures Compact(ms, NOTES) == TRIMMED
  {
    NoStarts(ms, true);
    RetainWithoutTurns(ms, NOTES);
    assert ms[..2] + Humans([7]) == TRIMMED;
    HeadedRewritten(TRIMMED, None);
    NothingBehind(TRIMMED);
  }

  lemma RespondIsOrdinary(arrivals: bool, s: State)
    requires Bare(s.messages)
    ensures Ordinary(s, Respond(arrivals, s))
    ensures !arrivals ==> SteadyVisit(s, Respond(arrivals, s), (steps: nat) => NOTES)
  {
    var e := Respond(arrivals, s);
    Shortened(s.messages);
    Shortened(e.refresh.inputs);
    assert e.refresh.inputs == Refreshed(s.messages, None, Arriving(arrivals, s));
  }

  // ---- a model step: recoveries, then a turn ----------------------------------------------------------------------

  function Tries(arrivals: bool): nat { if arrivals then 2 else 1 }

  function HistoryAt(arrivals: bool, steps: nat, recoveries: nat): seq<Msg> {
    if recoveries == 0 then if steps == 0 then REQUEST else TRIMMED + TURN
    else if recoveries < Tries(arrivals) then TRIMMED + [Human(NEWS)]
    else TRIMMED
  }

  /** Nothing counts against patience, and the results so far fit. */
  predicate Quiet(s: State, steps: nat) {
    && s.terminal.None? && s.noProgress == 0 && s.resultChars == 400 * steps
    && forall d | d in s.seenCalls :: d <= steps
  }

  predicate Paused(arrivals: bool, s: State, steps: nat, recoveries: nat) {
    && s.node.Guard? && Quiet(s, steps) && s.modelSteps == steps && s.recoveries == recoveries <= Tries(arrivals)
    && s.messages == HistoryAt(arrivals, steps, recoveries)
    && s.estimate == if recoveries == 0 then 0 else 6 - recoveries
  }

  lemma HistoryShortens(arrivals: bool, steps: nat, recoveries: nat)
    requires recoveries < Tries(arrivals)
    ensures |HistoryAt(arrivals, steps, recoveries)| == 5 - recoveries
    ensures Compact(HistoryAt(arrivals, steps, recoveries), NOTES) == TRIMMED
  {
    Shortened(HistoryAt(arrivals, steps, recoveries));
  }

  lemma HistoryMoves(arrivals: bool, s: State, steps: nat)
    requires s.messages == TRIMMED && 1 <= s.recoveries <= Tries(arrivals)
    ensures s.messages + Humans(Arriving(arrivals, s)) == HistoryAt(arrivals, steps, s.recoveries)
  {
    assert Humans([NEWS]) == [Human(NEWS)] && TRIMMED + Humans([]) == TRIMMED;
  }

  lemma PassesGuard(arrivals: bool, limit: nat, s: State, steps: nat, recoveries: nat)
    requires Paused(arrivals, s, steps, recoveries) && steps < limit
    ensures var s1 := Move(Worst(limit), arrivals, s); s1 == s.(node := ModelAction, past := s1.past)
  {
  }

  lemma TurnedAway(arrivals: bool, p: Policy, s: State)
    requires s.node.ModelAction? && s.terminal.None? && p.compacts && s.recoveries < 2 && |s.messages| > WINDOW
    requires s.estimate == 0 || |s.messages| < s.estimate
    ensures var s2 := Move(p, arrivals, s);
            s2 == s.(node := PrepareNext, messages := TRIMMED, output := [], recoveries := s.recoveries + 1,
                     estimate := |s.messages|, past := s2.past)
  {
  }

  lemma PreparesAgain(arrivals: bool, p: Policy, s: State)
    requires s.node.PrepareNext? && s.terminal.None? && p.managed
    ensures var s3 := Move(p, arrivals, s);
            s3 == s.(node := Guard, messages := s.messages + Humans(Arriving(arrivals, s)), past := s3.past)
  {
  }

  /** Each recovery leaves a different and shorter history, and the next estimate is smaller. */
  lemma Refused(arrivals: bool, limit: nat, s: State, steps: nat, recoveries: nat)
    requires Paused(arrivals, s, steps, recoveries) && steps < limit && recoveries < Tries(arrivals)
    ensures |s.messages| == 5 - recoveries > WINDOW == |Compact(s.messages, NOTES)|
    ensures var p := Worst(limit);
            Paused(arrivals, Move(p, arrivals, Move(p, arrivals, Move(p, arrivals, s))), steps, recoveries + 1)
  {
    var p := Worst(limit);
    HistoryShortens(arrivals, steps, recoveries);
    PassesGuard(arrivals, limit, s, steps, recoveries);
    var s1 := Move(p, arrivals, s);
    TurnedAway(arrivals, p, s1);
    var s2 := Move(p, arrivals, s1);
    PreparesAgain(arrivals, p, s2);
    HistoryMoves(arrivals, s2, steps);
  }

  /** A turn in the middle of its batch. */
  predicate Working(s: State, node: Node, steps: nat) {
    && s.node == node && Quiet(s, steps) && s.modelSteps == steps + 1 && s.recoveries == 0 == s.estimate
    && s.output == GARBLED.calls
  }

  lemma Answers(arrivals: bool, p: Policy, s: State, steps: nat)
    requires s.node.ModelAction? && s.messages == TRIMMED && s.modelSteps == steps && Quiet(s, steps)
    ensures var s2 := Move(p, arrivals, s); Working(s2, PlanBatch, steps) && s2.messages == TRIMMED + TURN[..1]
  {
    assert Ids(GARBLED.calls) == ["c"] && TURN[..1] == [Ai(["c"], false, 0)];
  }

  const REFUSAL := Planned("c", "t", Some(InvalidArguments))

  lemma Plans(arrivals: bool, p: Policy, s: State, steps: nat)
    requires Working(s, PlanBatch, steps)
    ensures var s3 := Move(p, arrivals, s);
            Working(s3, ExecuteBatch, steps) && s3.messages == s.messages && s3.planned == [REFUSAL]
  {
    assert GARBLED.calls[1..] == [];
    assert PlanFrom(p, GARBLED.calls, Remaining(p, s.toolCalls)) == [REFUSAL] + [];
  }

  function Failed(steps: nat): Execution { Execution("c", "t", Errored, {}, false, steps + 1, 400, None) }

  lemma Executes(arrivals: bool, p: Policy, s: State, steps: nat)
    requires Working(s, ExecuteBatch, steps) && s.planned == [REFUSAL]
    ensures var s4 := Move(p, arrivals, s);
            && Working(s4, EvaluateBatch, steps) && s4.messages == s.messages + [Reply("c")]
            && s4.executions == [Failed(steps)]
  {
    assert Execute(p, s.planned, Respond(arrivals, s).tools) == [Failed(steps)];
    assert Replies(ExecutionIds([Failed(steps)])) == [Reply("c")];
  }

  /** The result is a new one, so the turn counts as productive. */
  lemma Evaluates(arrivals: bool, p: Policy, s: State, steps: nat)
    requires Working(s, EvaluateBatch, steps) && s.executions == [Failed(steps)]
    ensures var s5 := Move(p, arrivals, s);
            s5 == s.(node := PrepareNext, seenCalls := s.seenCalls + {steps + 1}, seenKeys := s5.seenKeys,
                     toolCalls := s5.toolCalls, resultChars := 400 * (steps + 1), past := s5.past)
  {
    FirstAcceptedExact(p, s.executions);
    TallyStep(StartTally(s), s.executions, 0);
    assert s.executions[..1] == s.executions && s.executions[..0] == [];
  }

  predicate Opened(s: State, steps: nat) {
    Working(s, ExecuteBatch, steps) && s.planned == [REFUSAL] && s.messages == TRIMMED + TURN[..1]
  }

  lemma Opens(arrivals: bool, limit: nat, s: State, steps: nat)
    requires Paused(arrivals, s, steps, Tries(arrivals)) && steps < limit
    ensures var p := Worst(limit); Opened(Move(p, arrivals, Move(p, arrivals, Move(p, arrivals, s))), steps)
  {
    var p := Worst(limit);
    PassesGuard(arrivals, limit, s, steps, Tries(arrivals));
    Answers(arrivals, p, Move(p, arrivals, s), steps);
    Plans(arrivals, p, Move(p, arrivals, Move(p, arrivals, s)), steps);
  }

  lemma Closes(arrivals: bool, limit: nat, s: State, steps: nat)
    requires Opened(s, steps)
    ensures var p := Worst(limit);
            Paused(arrivals, Move(p, arrivals, Move(p, arrivals, Move(p, arrivals, s))), steps + 1, 0)
  {
    var p := Worst(limit);
    Executes(arrivals, p, s, steps);
    var s4 := Move(p, arrivals, s);
    Evaluates(arrivals, p, s4, steps);
    var s5 := Move(p, arrivals, s4);
    PreparesAgain(arrivals, p, s5);
    assert s5.messages + Humans([]) == s5.messages == TRIMMED + TURN;
  }

  // ---- all steps, three visits at a time --------------------------------------------------------------------------

  function Iterate<S>(f: S -> S, s: S, n: nat): S { if n == 0 then s else f(Iterate(f, s, n - 1)) }

  /** Three visits lead from one stage of a model step to the next. */
  ghost predicate Stages<S(!new)>(f: S -> S, at: (S, nat, nat) -> bool, limit: nat, from: nat, to: nat) {
    forall s, i: nat, j: nat | at(s, i, j) && i < limit && from <= j < to :: at(f(f(f(s))), i, j + 1)
  }

  ghost predicate Wraps<S(!new)>(f: S -> S, at: (S, nat, nat) -> bool, last: nat) {
    forall s, i: nat | at(s, i, last) :: at(f(f(f(s))), i + 1, 0)
  }

  function Visited(last: nat, i: nat, j: nat): nat
    decreases i, j
  {
    if j > 0 then Visited(last, i, j - 1) + 3 else if i > 0 then Visited(last, i - 1, last) + 3 else 0
  }

  lemma {:induction false} Iterated<S(!new)>(f: S -> S, at: (S, nat, nat) -> bool, limit: nat, mid: nat, last: nat,
                                             s: S, i: nat, j: nat)
    requires mid <= last && Stages(f, at, limit, 0, mid) && Stages(f, at, limit, mid, last) && Wraps(f, at, last)
    requires at(s, 0, 0) && i <= limit && j <= last && (i == limit ==> j == 0)
    ensures at(Iterate(f, s, Visited(last, i, j)), i, j)
    decreases i, j
  {
    var n := Visited(last, i, j);
    if j > 0 {
      Iterated(f, at, limit, mid, last, s, i, j - 1);
      ThreeMore(f, s, n - 3);
    } else if i > 0 {
      Iterated(f, at, limit, mid, last, s, i - 1, last);
      ThreeMore(f, s, n - 3);
    }
  }

  lemma ThreeMore<S>(f: S -> S, s: S, n: nat)
    ensures Iterate(f, s, n + 3) == f(f(f(Iterate(f, s, n))))
  {
    assert Iterate(f, s, n + 1) == f(Iterate(f, s, n));
    assert Iterate(f, s, n + 2) == f(Iterate(f, s, n + 1));
  }

  lemma {:induction false} VisitedIs(last: nat, i: nat, j: nat)
    ensures Visited(last, i, j) == 3 * i * (last + 1) + 3 * j
    decreases i, j
  {
    if j > 0 {
      VisitedIs(last, i, j - 1);
    } else if i > 0 {
      VisitedIs(last, i - 1, last);
    }
  }

  /** The states the run is in after every third visit. */
  function At(arrivals: bool): (State, nat, nat) -> bool {
    (s: State, steps: nat, stage: nat) =>
      if stage <= Tries(arrivals) then Paused(arrivals, s, steps, stage) else Opened(s, steps)
  }

  function Next(p: Policy, arrivals: bool): State -> State { s => Move(p, arrivals, s) }

  lemma RefusedStages(arrivals: bool, limit: nat)
    ensures Stages(Next(Worst(limit), arrivals), At(arrivals), limit, 0, Tries(arrivals))
  {
    var f, at := Next(Worst(limit), arrivals), At(arrivals);
    forall s, i: nat, j: nat | at(s, i, j) && i < limit && j < Tries(arrivals) ensures at(f(f(f(s))), i, j + 1) {
      Refused(arrivals, limit, s, i, j);
    }
  }

  lemma OpensStage(arrivals: bool, limit: nat)
    ensures Stages(Next(Worst(limit), arrivals), At(arrivals), limit, Tries(arrivals), Tries(arrivals) + 1)
  {
    var f, at := Next(Worst(limit), arrivals), At(arrivals);
    forall s, i: nat | at(s, i, Tries(arrivals)) && i < limit ensures at(f(f(f(s))), i, Tries(arrivals) + 1) {
      Opens(arrivals, limit, s, i);
    }
  }

  lemma ClosesStage(arrivals: bool, limit: nat)
    ensures Wraps(Next(Worst(limit), arrivals), At(arrivals), Tries(arrivals) + 1)
  {
    var f, at := Next(Worst(limit), arrivals), At(arrivals);
    var last := Tries(arrivals) + 1;
    forall s, i: nat | at(s, i, last) ensures at(f(f(f(s))), i + 1, 0) {
      Closes(arrivals, limit, s, i);
    }
  }

  lemma Opening(arrivals: bool, limit: nat)
    ensures Paused(arrivals, Move(Worst(limit), arrivals, Initial(REQUEST)), 0, 0)
  {
    assert REQUEST + Humans([]) == REQUEST;
  }

  lemma Played(arrivals: bool, limit: nat)
    ensures var start, n := Move(Worst(limit), arrivals, Initial(REQUEST)), Visited(Tries(arrivals) + 1, limit, 0);
            At(arrivals)(Iterate(Next(Worst(limit), arrivals), start, n), limit, 0)
  {
    Opening(arrivals, limit);
    RefusedStages(arrivals, limit);
    OpensStage(arrivals, limit);
    ClosesStage(arrivals, limit);
    var start, last := Move(Worst(limit), arrivals, Initial(REQUEST)), Tries(arrivals) + 1;
    Iterated(Next(Worst(limit), arrivals), At(arrivals), limit, Tries(arrivals), last, start, limit, 0);
  }

  // ---- the run as a list of inputs --------------------------------------------------------------------------------

  ghost predicate Follows(p: Policy, arrivals: bool, es: seq<Env>) {
    forall i | 0 <= i < |es| :: es[i] == Respond(arrivals, Run(p, Initial(REQUEST), es[..i]))
  }

  lemma FollowsPrefix(p: Policy, arrivals: bool, es: seq<Env>, n: nat)
    requires Follows(p, arrivals, es) && n <= |es|
    ensures Follows(p, arrivals, es[..n])
  {
    forall i | 0 <= i < n ensures es[..n][i] == Respond(arrivals, Run(p, Initial(REQUEST), es[..n][..i])) {
      assert es[..n][..i] == es[..i];
    }
  }

  lemma FollowsOn(p: Policy, arrivals: bool, es: seq<Env>)
    requires Follows(p, arrivals, es)
    ensures var more := es + [Respond(arrivals, Run(p, Initial(REQUEST), es))];
            && Follows(p, arrivals, more)
            && Run(p, Initial(REQUEST), more) == Move(p, arrivals, Run(p, Initial(REQUEST), es))
  {
    var more := es + [Respond(arrivals, Run(p, Initial(REQUEST), es))];
    assert more[..|es|] == es;
    forall i | 0 <= i < |more| ensures more[i] == Respond(arrivals, Run(p, Initial(REQUEST), more[..i])) {
      assert i < |es| ==> more[..i] == es[..i];
    }
  }

  lemma {:induction false} Scripted(p: Policy, arrivals: bool, n: nat) returns (es: seq<Env>)
    ensures |es| == n + 1 && Follows(p, arrivals, es)
    ensures var start := Move(p, arrivals, Initial(REQUEST));
            Run(p, Initial(REQUEST), es) == Iterate(Next(p, arrivals), start, n)
  {
    if n == 0 {
      es := [];
    } else {
      es := Scripted(p, arrivals, n - 1);
    }
    FollowsOn(p, arrivals, es);
    es := es + [Respond(arrivals, Run(p, Initial(REQUEST), es))];
  }

  /** What a move makes of the history. */
  lemma MoveAppends(p: Policy, arrivals: bool, s: State) returns (more: seq<Msg>)
    ensures Move(p, arrivals, s).messages in {TRIMMED, s.messages + more}
    ensures forall i | 0 <= i < |more| :: !StartsTurn(more[i], true)
  {
    more :=
      match s.node
      case Guard => if Move(p, arrivals, s).messages == s.messages then [] else [Human(LOOP_FEEDBACK)]
      case ModelAction =>
        if |s.messages| > WINDOW then [] else [Ai(Ids(GARBLED.calls), GARBLED.parsed, GARBLED.text)]
      case ExecuteBatch => Replies(ExecutionIds(Execute(p, s.planned, Respond(arrivals, s).tools)))
      case PrepareInitial => Humans(Arriving(arrivals, s))
      case PrepareNext => if s.terminal.Some? then [] else Humans(Arriving(arrivals, s))
      case _ => [];
    assert s.messages + [] == s.messages;
  }

  lemma BareStays(p: Policy, arrivals: bool, s: State)
    requires Bare(s.messages)
    ensures Bare(Move(p, arrivals, s).messages)
  {
    var more := MoveAppends(p, arrivals, s);
  }

  lemma {:induction false} RunIsBare(p: Policy, arrivals: bool, es: seq<Env>)
    requires Follows(p, arrivals, es)
    ensures Bare(Run(p, Initial(REQUEST), es).messages)
  {
    if es != [] {
      FollowsPrefix(p, arrivals, es, |es| - 1);
      RunIsBare(p, arrivals, es[..|es| - 1]);
      BareStays(p, arrivals, Run(p, Initial(REQUEST), es[..|es| - 1]));
    }
  }

  lemma FollowingIsOrdinary(p: Policy, arrivals: bool, es: seq<Env>)
    requires Follows(p, arrivals, es)
    ensures forall i | 0 <= i < |es| :: Ordinary(Run(p, Initial(REQUEST), es[..i]), es[i])
    ensures !arrivals ==> Steady(p, REQUEST, es, (steps: nat) => NOTES)
  {
    FirstsAt(REQUEST, 1);
    forall i | 0 <= i < |es|
      ensures Ordinary(Run(p, Initial(REQUEST), es[..i]), es[i])
      ensures !arrivals ==> SteadyVisit(Run(p, Initial(REQUEST), es[..i]), es[i], (steps: nat) => NOTES)
    {
      FollowsPrefix(p, arrivals, es, i);
      RunIsBare(p, arrivals, es[..i]);
      RespondIsOrdinary(arrivals, Run(p, Initial(REQUEST), es[..i]));
    }
  }

  lemma Exhausting(limit: nat, arrivals: bool) returns (es: seq<Env>)
    ensures Follows(Worst(limit), arrivals, es) && |es| == Visited(Tries(arrivals) + 1, limit, 0) + 1
    ensures Run(Worst(limit), Initial(REQUEST), es).node.Guard?
  {
    Played(arrivals, limit);
    es := Scripted(Worst(limit), arrivals, Visited(Tries(arrivals) + 1, limit, 0));
  }

  lemma OneMoreVisit(p: Policy, arrivals: bool, es: seq<Env>) returns (more: seq<Env>)
    requires Follows(p, arrivals, es) && !Run(p, Initial(REQUEST), es).node.End?
    ensures Follows(p, arrivals, more) && Run(p, Initial(REQUEST), more).past.visits == |es| + 1
  {
    var e := Respond(arrivals, Run(p, Initial(REQUEST), es));
    FollowsOn(p, arrivals, es);
    VisitsOfRun(p, Initial(REQUEST), es);
    StepCountsVisit(p, Run(p, Initial(REQUEST), es), e);
    more := es + [e];
  }

  lemma StagesAdd(limit: nat, arrivals: bool)
    ensures Visited(Tries(arrivals) + 1, limit, 0) == (if arrivals then 12 else 9) * limit
  {
    VisitedIs(Tries(arrivals) + 1, limit, 0);
  }

  lemma LongRun(limit: nat, arrivals: bool) returns (es: seq<Env>)
    ensures Follows(Worst(limit), arrivals, es)
    ensures Run(Worst(limit), Initial(REQUEST), es).past.visits == (if arrivals then 12 else 9) * limit + 2
  {
    var before := Exhausting(limit, arrivals);
    es := OneMoreVisit(Worst(limit), arrivals, before);
    StagesAdd(limit, arrivals);
  }

  /** A run as the notes above describe it, as long as any of its kind. */
  ghost predicate Longest(limit: nat, arrivals: bool, es: seq<Env>) {
    var p := Worst(limit);
    && Run(p, Initial(REQUEST), es).past.visits == (if arrivals then 12 else 9) * limit + 2
    && (forall i | 0 <= i < |es| :: Ordinary(Run(p, Initial(REQUEST), es[..i]), es[i]))
    && (!arrivals ==> Steady(p, REQUEST, es, (steps: nat) => NOTES))
  }

  /**
   For every step limit there is a run of 12L + 2 visits when an input arrives between any two recoveries, and one of
   9L + 2 when none does, although the note never changes and every recovery shortens the history.
  */
  lemma LongestRun(limit: nat, arrivals: bool)
    ensures Declares(Worst(limit)) && exists es :: Longest(limit, arrivals, es)
  {
    var es := LongRun(limit, arrivals);
    FollowingIsOrdinary(Worst(limit), arrivals, es);
    assert Longest(limit, arrivals, es);
  }
}
