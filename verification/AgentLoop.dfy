/**
 The agent loop as a state machine: one step is one visit to a graph node. What the model, the tools, the clock, the
 cancellation checks, the input refresher and the compactor answer at each visit is an arbitrary input.
*/
module AgentLoop {
  import opened Common
  import opened AgentTurns

  /** What a look at the cancellation flag and the input revision finds. */
  datatype Check = Clean | CancelRequested | StaleRevision | RevisionUnavailable

  datatype Status = Succeeded | Waiting | Blocked | Cancelled | Stale | Failed

  datatype Reason =
    | Halted(check: Check) | WallDeadline | StepLimit | CallLimit | ResultLimit | RepeatedCycle | ContextLimit
    | ModelFault | Success | Submitted

  datatype Form = Object | NotObject | Unparsed
  datatype Call = Call(id: CallId, name: string, form: Form)

  datatype Fault = SubmissionNotAlone | InvalidArguments | Undeclared | NotAuthorized | CallBudgetSpent
  datatype Planned = Planned(id: CallId, name: string, fault: Option<Fault>)

  datatype Receipt = Receipt(value: int, waiting: bool)
  datatype Effect = Raised(cancelled: bool) | Returned(rejected: bool, keys: set<string>, receipt: Option<Receipt>)

  /** The length of a reply to the model: it is JSON text, so never empty. */
  type Chars = n: int | n > 0 witness 1

  /** One tool call as the environment plays it; `digest` stands for the canonical hash of call and result. */
  datatype ToolRun = ToolRun(before: Check, effect: Effect, after: Check, digest: int, chars: Chars)

  datatype Ending = Done | Empty | Errored | CutOff
  datatype Execution = Execution(id: CallId, tool: string, ending: Ending, keys: set<string>, overLimit: bool,
                                 digest: int, chars: Chars, receipt: Option<Receipt>)

  datatype ModelRun =
    | OutOfTime
    | OverCapacity(estimate: nat, check: Check, compacted: seq<Msg>)
    | Broken(status: Status)
    | Answer(isMessage: bool, calls: seq<Call>, parsed: bool, text: int, after: Check, late: bool)

  /** `inputs` is the history the refresher hands back, `compacted` what the compactor makes of that. */
  datatype Refresh = Refresh(check: Check, inputs: seq<Msg>, charsBefore: nat, compacted: seq<Msg>, charsAfter: nat)

  datatype Env = Env(check: Check, late: bool, model: ModelRun, tools: seq<ToolRun>, refresh: Refresh)

  datatype Policy = Policy(stepLimit: Option<nat>, callLimit: Option<nat>, resultLimit: nat, patience: nat,
                           compacts: bool, managed: bool, threshold: nat, contextLimit: Option<nat>,
                           submission: string, tools: set<string>, permitted: set<string>)

  datatype Node = PrepareInitial | Guard | ModelAction | PlanBatch | ExecuteBatch | EvaluateBatch | PrepareNext | End

  datatype Terminal = Terminal(status: Status, reason: Reason)

  /** Not kept by the program: what a run has done so far, for stating what every run keeps. */
  datatype History = History(visits: nat, reached: nat, streak: nat, recovered: nat)

  datatype State = State(
    node: Node, messages: seq<Msg>, output: seq<Call>, planned: seq<Planned>, executions: seq<Execution>,
    modelSteps: nat, toolCalls: nat, resultChars: nat, seenCalls: set<int>, seenKeys: set<string>,
    noProgress: nat, warned: bool, recoveries: nat, estimate: nat,
    terminal: Option<Terminal>, accepted: Option<int>, past: History)

  function Initial(request: seq<Msg>): State {
    State(PrepareInitial, request, [], [], [], 0, 0, 0, {}, {}, 0, false, 0, 0, None, None, History(0, 0, 0, 0))
  }

  /** A run starts only when the submission tool is declared. */
  predicate Declares(p: Policy) { p.submission in p.tools }

  // ---- ending a run ----------------------------------------------------------------------------------------

  function GuardStatus(reason: Reason): Status {
    match reason
    case Halted(StaleRevision) => Stale
    case Halted(CancelRequested) => Cancelled
    case WallDeadline => Blocked
    case StepLimit => Blocked
    case CallLimit => Blocked
    case ResultLimit => Blocked
    case RepeatedCycle => Blocked
    case _ => Failed
  }

  function Stop(s: State, reason: Reason): State { s.(terminal := Some(Terminal(GuardStatus(reason), reason))) }

  /** A model failure ends the run with the status of its failure class, and never as a delivery. */
  function Fail(s: State, status: Status, reason: Reason): State
    requires reason.ModelFault? || reason.ContextLimit?
  {
    s.(terminal := Some(Terminal(if status in {Cancelled, Stale, Blocked} then status else Failed, reason)))
  }

  // ---- guard -----------------------------------------------------------------------------------------------

  function GuardReason(p: Policy, s: State, e: Env): Option<Reason> {
    if e.check != Clean then Some(Halted(e.check))
    else if e.late then Some(WallDeadline)
    else if p.stepLimit.Some? && s.modelSteps >= p.stepLimit.value then Some(StepLimit)
    else if p.callLimit.Some? && s.toolCalls >= p.callLimit.value then Some(CallLimit)
    else if s.resultChars >= p.resultLimit then Some(ResultLimit)
    else if s.noProgress >= p.patience then Some(RepeatedCycle)
    else None
  }

  const LOOP_FEEDBACK := 1
  const NOT_DELIVERED := 2

  function AfterGuard(p: Policy, s: State, e: Env): State {
    var reason := GuardReason(p, s, e);
    var s1 :=
      if reason.None? then s
      else if reason.value != RepeatedCycle || s.warned then Stop(s, reason.value)
      else s.(warned := true, noProgress := 0, messages := s.messages + [Human(LOOP_FEEDBACK)]);
    s1.(node := if s1.terminal.Some? then End else ModelAction)
  }

  // ---- model -----------------------------------------------------------------------------------------------

  predicate CapacityHopeless(p: Policy, s: State, estimate: nat) {
    !p.compacts || s.recoveries >= 2 || (s.estimate != 0 && estimate >= s.estimate)
  }

  function Recovered(p: Policy, s: State, m: ModelRun): State
    requires m.OverCapacity?
  {
    if CapacityHopeless(p, s, m.estimate) then Fail(s, Blocked, ContextLimit)
    else if m.check != Clean then Stop(s, Halted(m.check))
    else if m.compacted == s.messages then Fail(s, Blocked, ContextLimit)
    else s.(messages := m.compacted, output := [], recoveries := s.recoveries + 1, estimate := m.estimate,
            past := s.past.(recovered := s.past.recovered + 1))
  }

  function Ids(calls: seq<Call>): seq<CallId> { seq(|calls|, i requires 0 <= i < |calls| => calls[i].id) }

  /** What the output adds to the history; an output that is not a message adds nothing. */
  function Spoken(m: ModelRun): seq<Msg>
    requires m.Answer?
  {
    if m.isMessage then [Ai(Ids(m.calls), m.parsed, m.text)] else []
  }

  function AfterAnswer(s: State, m: ModelRun): State
    requires m.Answer?
  {
    var s1 := s.(modelSteps := s.modelSteps + 1);
    if m.late then Stop(s1, WallDeadline)
    else if m.after != Clean then Stop(s1, Halted(m.after))
    else
      var messages := s.messages + Spoken(m);
      var s2 := s1.(recoveries := 0, estimate := 0, output := m.calls, messages := messages);
      if m.calls != [] then s2
      else s2.(noProgress := s.noProgress + 1, messages := messages + [Human(NOT_DELIVERED)],
               past := s.past.(streak := s.past.streak + 1))
  }

  function AfterModel(p: Policy, s: State, e: Env): State {
    var s1 :=
      match e.model
      case OutOfTime => Stop(s, WallDeadline)
      case OverCapacity(_, _, _) => Recovered(p, s, e.model)
      case Broken(status) => Fail(s.(modelSteps := s.modelSteps + 1), status, ModelFault)
      case Answer(_, _, _, _, _, _) => AfterAnswer(s, e.model);
    s1.(node := if s1.terminal.Some? then End else if s1.output != [] then PlanBatch else PrepareNext)
  }

  // ---- plan ------------------------------------------------------------------------------------------------

  function FaultOf(p: Policy, call: Call, remaining: Option<nat>): Option<Fault> {
    if call.form.Unparsed? then Some(InvalidArguments)
    else if call.form.NotObject? || call.name !in p.tools then Some(Undeclared)
    else if call.name !in p.permitted then Some(NotAuthorized)
    else if remaining == Some(0) then Some(CallBudgetSpent)
    else None
  }

  function Spend(remaining: Option<nat>, fault: Option<Fault>): Option<nat> {
    if fault.None? && remaining.Some? && remaining.value > 0 then Some(remaining.value - 1) else remaining
  }

  function PlanFrom(p: Policy, calls: seq<Call>, remaining: Option<nat>): seq<Planned> {
    if calls == [] then []
    else
      var fault := FaultOf(p, calls[0], remaining);
      [Planned(calls[0].id, calls[0].name, fault)] + PlanFrom(p, calls[1..], Spend(remaining, fault))
  }

  predicate Names(calls: seq<Call>, name: string) { exists i | 0 <= i < |calls| :: calls[i].name == name }

  function Remaining(p: Policy, counted: nat): Option<nat> {
    if p.callLimit.None? then None
    else Some(if p.callLimit.value > counted then p.callLimit.value - counted else 0)
  }

  function AllRefused(calls: seq<Call>): seq<Planned> {
    seq(|calls|, i requires 0 <= i < |calls| => Planned(calls[i].id, calls[i].name, Some(SubmissionNotAlone)))
  }

  function Plan(p: Policy, calls: seq<Call>, counted: nat): seq<Planned> {
    if |calls| > 1 && Names(calls, p.submission) then AllRefused(calls)
    else PlanFrom(p, calls, Remaining(p, counted))
  }

  function AfterPlan(p: Policy, s: State): State {
    s.(node := ExecuteBatch, planned := Plan(p, s.output, s.toolCalls))
  }

  // ---- execute ---------------------------------------------------------------------------------------------

  function ToolAt(tools: seq<ToolRun>, i: nat): ToolRun {
    if i < |tools| then tools[i] else ToolRun(Clean, Raised(false), Clean, 0, 2)
  }

  /** Whether the tool itself is called. */
  predicate Reaches(p: Policy, plan: Planned, run: ToolRun) {
    run.before == Clean && plan.fault.None? && plan.name in p.tools
  }

  function ExecuteOne(p: Policy, plan: Planned, run: ToolRun): Execution {
    var x := Execution(plan.id, plan.name, CutOff, {}, false, run.digest, run.chars, None);
    if run.before != Clean then x
    else if !Reaches(p, plan, run) then x.(ending := Errored, overLimit := plan.fault == Some(CallBudgetSpent))
    else
      match run.effect
      case Raised(cancelled) => x.(ending := if cancelled then CutOff else Errored)
      case Returned(rejected, keys, receipt) =>
        if run.after != Clean then x
        else
          var ending :=
            if plan.name == p.submission && rejected then Errored else if keys != {} then Done else Empty;
          x.(ending := ending, keys := keys, receipt := if plan.name == p.submission then receipt else None)
  }

  function Execute(p: Policy, planned: seq<Planned>, tools: seq<ToolRun>): seq<Execution> {
    seq(|planned|, i requires 0 <= i < |planned| => ExecuteOne(p, planned[i], ToolAt(tools, i)))
  }

  /** How many of the planned calls, from the i-th on, reach their tool. */
  function ReachedFrom(p: Policy, planned: seq<Planned>, tools: seq<ToolRun>, i: nat): nat
    requires i <= |planned|
    decreases |planned| - i
  {
    if i == |planned| then 0
    else (if Reaches(p, planned[i], ToolAt(tools, i)) then 1 else 0) + ReachedFrom(p, planned, tools, i + 1)
  }

  function ExecutionIds(xs: seq<Execution>): seq<CallId> { seq(|xs|, i requires 0 <= i < |xs| => xs[i].id) }

  function AfterExecute(p: Policy, s: State, e: Env): State {
    var xs := Execute(p, s.planned, e.tools);
    s.(node := EvaluateBatch, executions := xs, messages := s.messages + Replies(ExecutionIds(xs)),
       past := s.past.(reached := s.past.reached + ReachedFrom(p, s.planned, e.tools, 0)))
  }

  // ---- evaluate --------------------------------------------------------------------------------------------

  datatype Tally = Tally(seenCalls: set<int>, seenKeys: set<string>, repeated: bool, made: bool, counted: nat,
                         chars: nat)

  function TallyOne(t: Tally, x: Execution): Tally {
    Tally(t.seenCalls + {x.digest}, t.seenKeys + x.keys, t.repeated && x.digest in t.seenCalls,
          t.made || x.keys - t.seenKeys != {}, t.counted + if x.overLimit then 0 else 1, t.chars + x.chars)
  }

  function TallyAll(t: Tally, xs: seq<Execution>): Tally {
    if xs == [] then t else TallyOne(TallyAll(t, xs[..|xs| - 1]), xs[|xs| - 1])
  }

  predicate Accepts(p: Policy, x: Execution) {
    x.tool == p.submission && x.ending !in {Errored, CutOff} && x.receipt.Some?
  }

  function FirstAccepted(p: Policy, xs: seq<Execution>): Option<Execution> {
    if xs == [] then None
    else
      var before := FirstAccepted(p, xs[..|xs| - 1]);
      if before.Some? then before else if Accepts(p, xs[|xs| - 1]) then Some(xs[|xs| - 1]) else None
  }

  function StartTally(s: State): Tally {
    Tally(s.seenCalls, s.seenKeys, s.executions != [], false, s.toolCalls, s.resultChars)
  }

  function Deliver(p: Policy, s: State): State {
    var x := FirstAccepted(p, s.executions);
    if x.Some? && x.value.receipt.Some? then
      var r := x.value.receipt.value;
      s.(accepted := Some(r.value),
         terminal := Some(if r.waiting then Terminal(Waiting, Submitted) else Terminal(Succeeded, Success)))
    else s
  }

  function AfterEvaluate(p: Policy, s: State): State {
    var t := TallyAll(StartTally(s), s.executions);
    var stuck := t.repeated && !t.made;
    Deliver(p, s).(
      node := PrepareNext, seenCalls := t.seenCalls, seenKeys := t.seenKeys, toolCalls := t.counted,
      resultChars := t.chars, noProgress := if stuck then s.noProgress + 1 else 0,
      past := s.past.(streak := if stuck then s.past.streak + 1 else 0))
  }

  // ---- prepare ---------------------------------------------------------------------------------------------

  function Prepared(p: Policy, s: State, r: Refresh): State {
    if r.check != Clean then Stop(s, Halted(r.check))
    else
      var compacts := !p.managed && r.charsBefore >= p.threshold && p.compacts;
      var chars := if compacts then r.charsAfter else r.charsBefore;
      if !p.managed && p.contextLimit.Some? && chars > p.contextLimit.value then Stop(s, ContextLimit)
      else s.(messages := if compacts then r.compacted else r.inputs)
  }

  /** Unlike the later turns, the first preparation goes on to the guard even when it ended the run. */
  function AfterInitial(p: Policy, s: State, e: Env): State { Prepared(p, s, e.refresh).(node := Guard) }

  function AfterPrepare(p: Policy, s: State, e: Env): State {
    var s1 := if s.terminal.Some? then s else Prepared(p, s, e.refresh);
    s1.(node := if s1.terminal.Some? then End else Guard)
  }

  // ---- steps and runs --------------------------------------------------------------------------------------

  function Visit(p: Policy, s: State, e: Env): State {
    match s.node
    case PrepareInitial => AfterInitial(p, s, e)
    case Guard => AfterGuard(p, s, e)
    case ModelAction => AfterModel(p, s, e)
    case PlanBatch => AfterPlan(p, s)
    case ExecuteBatch => AfterExecute(p, s, e)
    case EvaluateBatch => AfterEvaluate(p, s)
    case PrepareNext => AfterPrepare(p, s, e)
    case End => s
  }

  function Step(p: Policy, s: State, e: Env): State {
    var s1 := Visit(p, s, e);
    if s.node.End? then s1 else s1.(past := s1.past.(visits := s1.past.visits + 1))
  }

  function Run(p: Policy, s: State, es: seq<Env>): State {
    if es == [] then s else Step(p, Run(p, s, es[..|es| - 1]), es[|es| - 1])
  }

  datatype Outcome = Outcome(status: Status, reason: Option<Reason>, value: Option<int>)

  /** What the caller gets: one last look at the inputs can still withdraw a delivery. */
  function Result(s: State, last: Check): Outcome {
    var s1 := if last == Clean then s else Stop(s, Halted(last)).(accepted := None);
    Outcome(if s1.terminal.Some? then s1.terminal.value.status else Failed,
            if s1.terminal.Some? then Some(s1.terminal.value.reason) else None, s1.accepted)
  }
}
