/** Where the answers of the scheduler come from, and that every accepted request can get one. */
module SchedulerAnswers {
  import opened Common
  import opened Scheduler
  import opened SchedulerRuns

  // ---- what an answer says -------------------------------------------------------------------------------------

  /** Step k of the run is the backend's answer in the inference of this request. */
  ghost predicate AnswersAt(steps: seq<Step>, k: nat, id: Id, result: InferResult)
    requires k < |steps|
  {
    var before := Run(Init(), steps[..k]);
    && before.Some? && steps[k].Worker? && steps[k].act == InferReturns(result)
    && steps[k].w < |before.value.workers|
    && before.value.workers[steps[k].w].Inferring? && before.value.workers[steps[k].w].item.id == id
  }

  /** In this run the backend answered the inference of this request so. */
  ghost predicate Said(steps: seq<Step>, id: Id, result: InferResult) {
    exists k: nat | k < |steps| :: AnswersAt(steps, k, id, result)
  }

  /** Step k finds, after this request's inference, that the request was flagged meanwhile. */
  ghost predicate FlaggedAt(steps: seq<Step>, k: nat, id: Id)
    requires k < |steps|
  {
    var before := Run(Init(), steps[..k]);
    && before.Some? && steps[k].Worker? && steps[k].act == PostCheck && steps[k].w < |before.value.workers|
    && before.value.workers[steps[k].w].Returned? && before.value.workers[steps[k].w].item.id == id
    && before.value.active.Some? && before.value.active.value.id == id && before.value.active.value.cancelled
  }

  ghost predicate Flagged(steps: seq<Step>, id: Id) { exists k: nat | k < |steps| :: FlaggedAt(steps, k, id) }

  /** Why a request may fail with this error. */
  ghost predicate Failed(steps: seq<Step>, id: Id, preempted: bool) {
    if preempted then Said(steps, id, Preempted) || Flagged(steps, id) else Said(steps, id, Raised)
  }

  ghost predicate WorkerTruthful(steps: seq<Step>, pc: Pc) {
    match pc
    case Returned(item, v) => Said(steps, item.id, Value(v))
    case Delivering(item, v) => Said(steps, item.id, Value(v))
    case Failing(item, preempted) => Failed(steps, item.id, preempted)
    case _ => true
  }

  ghost predicate FutureTruthful(steps: seq<Step>, id: Id, future: Future) {
    match future
    case Delivered(v) => Said(steps, id, Value(v))
    case Errored(preempted) => Failed(steps, id, preempted)
    case _ => true
  }

  ghost predicate Truthful(steps: seq<Step>, s: State) {
    && (forall w | 0 <= w < |s.workers| :: WorkerTruthful(steps, s.workers[w]))
    && (forall id | id in s.futures :: FutureTruthful(steps, id, s.futures[id]))
  }

  lemma SaidStays(front: seq<Step>, step: Step, id: Id, result: InferResult)
    requires Said(front, id, result)
    ensures Said(front + [step], id, result)
  {
    var k: nat :| k < |front| && AnswersAt(front, k, id, result);
    assert (front + [step])[..k] == front[..k];
    assert AnswersAt(front + [step], k, id, result);
  }

  lemma FailedStays(front: seq<Step>, step: Step, id: Id, preempted: bool)
    requires Failed(front, id, preempted)
    ensures Failed(front + [step], id, preempted)
  {
    if preempted && Flagged(front, id) {
      var k: nat :| k < |front| && FlaggedAt(front, k, id);
      assert (front + [step])[..k] == front[..k];
      assert FlaggedAt(front + [step], k, id);
    } else {
      SaidStays(front, step, id, if preempted then Preempted else Raised);
    }
  }

  lemma TruthStays(front: seq<Step>, step: Step, s: State)
    requires Truthful(front, s)
    ensures Truthful(front + [step], s)
  {
    forall w | 0 <= w < |s.workers| ensures WorkerTruthful(front + [step], s.workers[w]) {
      var pc := s.workers[w];
      assert WorkerTruthful(front, pc);
      if pc.Returned? || pc.Delivering? { SaidStays(front, step, pc.item.id, Value(pc.value)); }
      if pc.Failing? { FailedStays(front, step, pc.item.id, pc.preempted); }
    }
    forall id | id in s.futures ensures FutureTruthful(front + [step], id, s.futures[id]) {
      assert FutureTruthful(front, id, s.futures[id]);
      if s.futures[id].Delivered? { SaidStays(front, step, id, Value(s.futures[id].value)); }
      if s.futures[id].Errored? { FailedStays(front, step, id, s.futures[id].preempted); }
    }
  }

  lemma AnswerIsTruthful(front: seq<Step>, w: nat, result: InferResult, s: State)
    requires Run(Init(), front) == Some(s) && w < |s.workers| && s.workers[w].Inferring?
    ensures Said(front + [Worker(w, InferReturns(result))], s.workers[w].item.id, result)
  {
    var all := front + [Worker(w, InferReturns(result))];
    assert all[..|front|] == front;
    assert AnswersAt(all, |front|, s.workers[w].item.id, result);
  }

  lemma FlagIsTruthful(front: seq<Step>, w: nat, s: State)
    requires Run(Init(), front) == Some(s) && w < |s.workers| && s.workers[w].Returned?
    requires s.active.Some? && s.active.value.id == s.workers[w].item.id && s.active.value.cancelled
    ensures Flagged(front + [Worker(w, PostCheck)], s.workers[w].item.id)
  {
    var all := front + [Worker(w, PostCheck)];
    assert all[..|front|] == front;
    assert FlaggedAt(all, |front|, s.workers[w].item.id);
  }

  /** How a worker comes to hold an answer. */
  predicate Comes(s: State, pc: Pc, act: Act, next: Pc) {
    match next
    case Returned(item, v) => pc == Inferring(item) && act == InferReturns(Value(v))
    case Delivering(item, v) => pc == Returned(item, v)
    case Failing(item, preempted) =>
      || (pc == Inferring(item) && act == InferReturns(if preempted then Preempted else Raised))
      || (pc.Returned? && pc.item == item && preempted && act == PostCheck
          && s.active.Some? && s.active.value.cancelled)
    case _ => true
  }

  lemma NextPcComes(s: State, w: nat, act: Act)
    requires w < |s.workers| && WorkerStep(s, w, act).Some?
    ensures Comes(s, s.workers[w], act, WorkerStep(s, w, act).value.workers[w])
  {
  }

  lemma NextPcTruthful(front: seq<Step>, w: nat, act: Act, s: State, next: Pc)
    requires Run(Init(), front) == Some(s) && w < |s.workers| && Comes(s, s.workers[w], act, next)
    requires s.workers[w].Returned? ==> IsActive(s, s.workers[w].item.id)
    requires WorkerTruthful(front + [Worker(w, act)], s.workers[w])
    ensures WorkerTruthful(front + [Worker(w, act)], next)
  {
    if act.InferReturns? && s.workers[w].Inferring? { AnswerIsTruthful(front, w, act.result, s); }
    if next.Failing? && s.workers[w].Returned? { FlagIsTruthful(front, w, s); }
  }

  lemma OnlyItsOwnChanges(s: State, w: nat, act: Act)
    requires w < |s.workers| && WorkerStep(s, w, act).Some?
    ensures var s' := WorkerStep(s, w, act).value;
            && |s'.workers| == |s.workers|
            && (forall v | 0 <= v < |s.workers| && v != w :: s'.workers[v] == s.workers[v])
            && (forall id | id in s'.futures && !(id in s.futures && s.futures[id] == s'.futures[id]) ::
                  || s'.futures[id].Cancelled? || s'.futures[id].Running?
                  || (s.workers[w].Failing? && id == s.workers[w].item.id
                      && s'.futures[id] == Errored(s.workers[w].preempted))
                  || (s.workers[w].Delivering? && id == s.workers[w].item.id
                      && s'.futures[id] == Delivered(s.workers[w].value)))
  {
  }

  lemma WorkerStepTruthful(front: seq<Step>, w: nat, act: Act, s: State)
    requires Run(Init(), front) == Some(s) && Truthful(front, s) && w < |s.workers|
    requires s.workers[w].Returned? ==> IsActive(s, s.workers[w].item.id)
    requires WorkerStep(s, w, act).Some?
    ensures Truthful(front + [Worker(w, act)], WorkerStep(s, w, act).value)
  {
    var all, s' := front + [Worker(w, act)], WorkerStep(s, w, act).value;
    TruthStays(front, Worker(w, act), s);
    assert WorkerTruthful(all, s.workers[w]);
    NextPcComes(s, w, act);
    NextPcTruthful(front, w, act, s, s'.workers[w]);
    OnlyItsOwnChanges(s, w, act);
    forall v | 0 <= v < |s'.workers| ensures WorkerTruthful(all, s'.workers[v]) {
      if v != w { assert s'.workers[v] == s.workers[v]; }
    }
  }

  lemma OtherStepTruthful(front: seq<Step>, step: Step, s: State)
    requires Truthful(front, s) && !step.Worker? && Apply(s, step).Some?
    ensures Truthful(front + [step], Apply(s, step).value)
  {
    var s' := Apply(s, step).value;
    TruthStays(front, step, s);
    forall w | 0 <= w < |s'.workers| ensures WorkerTruthful(front + [step], s'.workers[w]) {
      assert w < |s.workers| ==> s'.workers[w] == s.workers[w];
    }
    forall id | id in s'.futures ensures FutureTruthful(front + [step], id, s'.futures[id]) {
      if id in s.futures { assert FutureTruthful(front + [step], id, s.futures[id]); }
    }
  }

  lemma StepTruthful(front: seq<Step>, step: Step, s: State)
    requires Run(Init(), front) == Some(s) && Truthful(front, s) && Inv(s) && Apply(s, step).Some?
    ensures Truthful(front + [step], Apply(s, step).value)
  {
    if step.Worker? {
      OnlyLastIfActing(s, step);
      WorkerStepTruthful(front, step.w, step.act, s);
    } else {
      OtherStepTruthful(front, step, s);
    }
  }

  lemma {:induction false} RunIsTruthful(steps: seq<Step>)
    requires Run(Init(), steps).Some?
    ensures Truthful(steps, Run(Init(), steps).value)
  {
    if steps != [] {
      var front := steps[..|steps| - 1];
      RunIsTruthful(front);
      InitInv();
      RunInv(Init(), front);
      StepTruthful(front, steps[|steps| - 1], Run(Init(), front).value);
      assert steps == front + [steps[|steps| - 1]];
    }
  }

  /**
   In every run from the start: a delivered value is the one the backend returned in this request's inference, an error
   is the one it raised there, and a preemption means that it gave up or that the request was flagged before its check.
  */
  lemma AnswersAreTruthful(steps: seq<Step>, id: Id)
    ensures var run := Run(Init(), steps);
            run.Some? && id in run.value.futures ==>
              var f := run.value.futures[id];
              && (f.Delivered? ==> Said(steps, id, Value(f.value)))
              && (f.Errored? && !f.preempted ==> Said(steps, id, Raised))
              && (f.Errored? && f.preempted ==> Said(steps, id, Preempted) || Flagged(steps, id))
  {
    if Run(Init(), steps).Some? {
      RunIsTruthful(steps);
      var s := Run(Init(), steps).value;
      if id in s.futures { assert FutureTruthful(steps, id, s.futures[id]); }
    }
  }

  // ---- what a submit touches -------------------------------------------------------------------------------------

  /**
   A submit changes the run in progress only when it is accepted and REALTIME and that run is PROACTIVE or OFFLINE, and
   then only by flagging it; an accepted request is pending and queued once, and nothing else changes.
  */
  lemma SubmitTouches(s: State, id: Id, priority: int)
    requires Inv(s) && id != SHUTDOWN && IsPriority(priority)
    ensures var s' := SubmitTo(s, id, priority);
            && (s'.active != s.active ==>
                  && s.running && id !in s.futures && priority == 0
                  && s.active.Some? && s.active.value.priority in {2, 3}
                  && s'.active == Some(Active(s.active.value.id, s.active.value.priority, true)))
            && (s.running && id !in s.futures ==>
                  && s'.futures == s.futures[id := Pending] && !Queued(s, id)
                  && (forall x | x in s'.queue :: x in s.queue || (x.id == id && x.priority == priority))
                  && s.queue < s'.queue && |s'.queue| == |s.queue| + 1)
            && (!(s.running && id !in s.futures) ==> s' == s)
            && s'.workers == s.workers && s'.running == s.running && s'.inferred == s.inferred
  {
    if s.running && id !in s.futures {
      assert forall a | a in s.queue :: a.id != id;
      assert Item(priority, s.sequence, id) !in s.queue;
    }
  }

  // ---- every pending request can be served ------------------------------------------------------------------------

  /** How far the worker is from being idle with nothing left to do. */
  function Ahead(s: State): nat
    requires s.workers != []
  {
    10 * |s.queue| + Rank(Last(s))
  }

  /** Still open, in a scheduler that runs. */
  predicate Open(s: State, id: Id) { s.workers != [] && s.running && id in s.futures && s.futures[id].Pending? }

  lemma FetchesNext(s: State, id: Id) returns (step: Step)
    requires Inv(s) && Open(s, id) && Last(s).Idle?
    ensures step.Worker? && Apply(s, step).Some?
    ensures Open(Apply(s, step).value, id) && Ahead(Apply(s, step).value) < Ahead(s)
  {
    assert Queued(s, id);
    var item := LeastExists(s.queue);
    step := Worker(|s.workers| - 1, Get(item));
    assert item.id != SHUTDOWN;
    assert |s.queue - {item}| == |s.queue| - 1;
  }

  lemma NextStepExists(s: State) returns (act: Act)
    requires Inv(s) && s.running && !Last(s).Idle?
    ensures WorkerStep(s, |s.workers| - 1, act).Some? && !act.Get?
  {
    act := if Last(s).Failing? then Settle else Towards(Last(s), 0).0;
  }

  lemma OthersStayOpen(s: State, act: Act, id: Id)
    requires s.workers != [] && Open(s, id) && WorkerStep(s, |s.workers| - 1, act).Some?
    requires !(Last(s).Holds() && Last(s).item.id == id)
    ensures Open(WorkerStep(s, |s.workers| - 1, act).value, id)
  {
  }

  lemma MovesOn(s: State, id: Id) returns (step: Step)
    requires Inv(s) && Open(s, id) && !Last(s).Idle? && !(Last(s).Holds() && Last(s).item.id == id)
    ensures step.Worker? && Apply(s, step).Some?
    ensures Open(Apply(s, step).value, id) && Ahead(Apply(s, step).value) < Ahead(s)
  {
    var act := NextStepExists(s);
    RankShrinks(s, act);
    OthersStayOpen(s, act, id);
    step := Worker(|s.workers| - 1, act);
  }

  /** The worker's next step when the request in question is not in its hand. */
  lemma ServesOthers(s: State, id: Id) returns (step: Step)
    requires Inv(s) && Open(s, id) && !(Last(s).Holds() && Last(s).item.id == id)
    ensures Apply(s, step).Some? && Inv(Apply(s, step).value)
    ensures Open(Apply(s, step).value, id) && Ahead(Apply(s, step).value) < Ahead(s)
  {
    if Last(s).Idle? { step := FetchesNext(s, id); } else { step := MovesOn(s, id); }
    StepKeeps(s, step);
  }

  /** From every state of a running scheduler, each pending request can still be answered with any value `v`. */
  lemma {:induction false} PendingIsServed(s: State, id: Id, v: int) returns (steps: seq<Step>)
    requires Inv(s) && Open(s, id)
    ensures Run(s, steps).Some? && id in Run(s, steps).value.futures
    ensures Run(s, steps).value.futures[id] == Delivered(v)
    decreases Ahead(s)
  {
    if Last(s).Holds() && Last(s).item.id == id {
      InHandIsUnhindered(s, id);
      steps := UnhinderedDelivers(s, v);
    } else {
      var step := ServesOthers(s, id);
      steps := PendingIsServed(Apply(s, step).value, id, v);
      RunCons(s, step, steps);
      steps := [step] + steps;
    }
  }

  lemma InHandIsUnhindered(s: State, id: Id)
    requires Inv(s) && Open(s, id) && Last(s).Holds() && Last(s).item.id == id
    ensures Unhindered(s) && Outcome(Last(s), 0) == 0 && !Last(s).Returned? && !Last(s).Delivering?
  {
  }

  /** So no accepted request is lost: after any run, what is accepted next can be answered with whatever comes back. */
  lemma AcceptedIsServed(steps: seq<Step>, id: Id, priority: int, v: int) returns (more: seq<Step>)
    requires Run(Init(), steps).Some? && Accepts(Run(Init(), steps).value, id) && id != SHUTDOWN && IsPriority(priority)
    ensures var run := Run(SubmitTo(Run(Init(), steps).value, id, priority), more);
            run.Some? && id in run.value.futures && run.value.futures[id] == Delivered(v)
  {
    InitInv();
    RunInv(Init(), steps);
    var s := Run(Init(), steps).value;
    SubmitKeeps(s, id, priority);
    SubmitTouches(s, id, priority);
    more := PendingIsServed(SubmitTo(s, id, priority), id, v);
  }

  // ---- what a shutdown and a deadline stop ------------------------------------------------------------------------

  /**
   When shutdown begins, an open request is kept from ever delivering exactly when the worker has not passed its final
   check: what is queued or waiting is cancelled, what is running is flagged.
  */
  lemma ShutdownBindsExactly(s: State, wait: bool, id: Id)
    requires Inv(s) && s.running && id in s.futures && !s.futures[id].Settled()
    ensures NeverDelivered(StopAccepting(s, wait), id) <==> !(Last(s).Delivering? && Last(s).item.id == id)
  {
    var s', pc := StopAccepting(s, wait), Last(s);
    StopKeeps(s, wait);
    if pc.Delivering? && pc.item.id == id {
      var steps := UnhinderedDelivers(s', 0);
      assert Run(s', steps).Some?;
    } else if pc.InRun() && pc.item.id == id {
      DoomedNeverDelivered(s', id);
    } else {
      forall steps | Run(s', steps).Some? ensures !HasResult(Run(s', steps).value, id) {
        StoppedStaysUnserved(s', steps, id);
      }
    }
  }

  /** Not running any more and neither delivered nor on its way to a delivery. */
  ghost predicate Unserved(s: State, id: Id)
    requires s.workers != []
  {
    id in s.futures && (s.futures[id].Cancelled? || (s.futures[id].Pending? && !s.running && OneStop(s)))
  }

  /** No restart is possible before the stopping call returns. */
  predicate OneStop(s: State) { s.stopper != NoStop || s.abandoned }

  lemma WorkerLeavesUnserved(s: State, act: Act, id: Id)
    requires Inv(s) && Unserved(s, id) && s.futures[id].Pending? && WorkerStep(s, |s.workers| - 1, act).Some?
    ensures var s' := WorkerStep(s, |s.workers| - 1, act).value; s'.workers != [] && Unserved(s', id)
  {
  }

  lemma StepStaysUnserved(s: State, step: Step, id: Id)
    requires Inv(s) && Unserved(s, id) && Apply(s, step).Some?
    ensures Apply(s, step).value.workers != [] && Unserved(Apply(s, step).value, id)
  {
    if s.futures[id].Cancelled? {
      SettledStays(s, step, id);
      StepKeeps(s, step);
    } else if step.Worker? {
      OnlyLastIfActing(s, step);
      WorkerLeavesUnserved(s, step.act, id);
    } else {
      OthersLeaveUnserved(s, step, id);
    }
  }

  lemma OthersLeaveUnserved(s: State, step: Step, id: Id)
    requires Inv(s) && Unserved(s, id) && s.futures[id].Pending? && Apply(s, step).Some? && !step.Worker?
    ensures Apply(s, step).value.workers != [] && Unserved(Apply(s, step).value, id)
  {
    if step.FinishShutdown? { DrainedIsSettled(s); assert false; }
  }

  lemma {:induction false} StoppedStaysUnserved(s: State, steps: seq<Step>, id: Id)
    requires Inv(s) && Unserved(s, id) && Run(s, steps).Some?
    ensures Run(s, steps).value.workers != [] && Unserved(Run(s, steps).value, id)
  {
    if steps != [] {
      var front := steps[..|steps| - 1];
      StoppedStaysUnserved(s, front, id);
      RunInv(s, front);
      StepStaysUnserved(Run(s, front).value, steps[|steps| - 1], id);
    }
  }

  /** A request that was cancelled while it waited is dropped on sight; any other goes on to its deadline. */
  lemma CancelledIsDropped(s: State, w: nat)
    requires Inv(s) && w < |s.workers| && s.workers[w].Popped? && s.workers[w].item.id != SHUTDOWN
    ensures var item, next := s.workers[w].item, Apply(s, Worker(w, CheckCancelled));
            && next.Some? && next.value == s.(workers := next.value.workers) && item.id in s.futures
            && Last(next.value) == if s.futures[item.id] == Cancelled then Idle else Live(item)
  {
    OnlyLastActs(s, w);
  }

  /** A request found past its deadline is cancelled and never reaches the backend. */
  lemma ExpiredNeverInferred(s: State, w: nat, steps: seq<Step>)
    requires Inv(s) && Apply(s, Worker(w, CheckDeadline(true))).Some?
    requires Run(Apply(s, Worker(w, CheckDeadline(true))).value, steps).Some?
    ensures var end := Run(Apply(s, Worker(w, CheckDeadline(true))).value, steps).value;
            var id := s.workers[w].item.id;
            id in end.futures && end.futures[id].Cancelled? && id !in end.inferred
  {
    var s', id := Apply(s, Worker(w, CheckDeadline(true))).value, s.workers[w].item.id;
    OnlyLastIfActing(s, Worker(w, CheckDeadline(true)));
    StepKeeps(s, Worker(w, CheckDeadline(true)));
    SettledForever(s', steps, id);
    RunInv(s', steps);
  }
}
