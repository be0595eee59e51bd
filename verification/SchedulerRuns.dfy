/** What every run of the scheduler keeps, and how a shutdown ends. */
module SchedulerRuns {
  import opened Common
  import opened Scheduler

  lemma {:induction false} RunInv(s: State, steps: seq<Step>)
    requires Inv(s) && Run(s, steps).Some?
    ensures Inv(Run(s, steps).value)
  {
    if steps != [] {
      RunInv(s, steps[..|steps| - 1]);
      StepKeeps(Run(s, steps[..|steps| - 1]).value, steps[|steps| - 1]);
    }
  }

  lemma {:induction false} RunCons(s: State, step: Step, rest: seq<Step>)
    requires Apply(s, step).Some?
    ensures Run(s, [step] + rest) == Run(Apply(s, step).value, rest)
  {
    var all := [step] + rest;
    if rest == [] {
      assert all == [step] && all[..0] == [];
      assert Run(s, all[..0]) == Some(s);
    } else {
      assert all[..|all| - 1] == [step] + rest[..|rest| - 1];
      RunCons(s, step, rest[..|rest| - 1]);
    }
  }

  // ---- one place, one settlement, one inference ------------------------------------------------------------

  function Count(b: bool): nat { if b then 1 else 0 }

  /** In every reachable state an accepted request is in exactly one of four places. */
  lemma OnePlace(steps: seq<Step>, id: Id)
    ensures var run := Run(Init(), steps);
            run.Some? && id in run.value.futures ==>
              var s := run.value;
              && s.workers != []
              && var pc := Last(s);
                 var open := !s.futures[id].Settled();
                 Count(open && Queued(s, id)) + Count(open && pc.Waiting() && pc.item.id == id) +
                 Count(pc.InRun() && pc.item.id == id) + Count(!open) == 1
  {
    InitInv();
    if Run(Init(), steps).Some? { RunInv(Init(), steps); }
  }

  /** In every reachable state at most one thread is between the start of an inference and its settlement. */
  lemma OneInference(steps: seq<Step>, v: nat, w: nat)
    ensures var run := Run(Init(), steps);
            run.Some? && v < w < |run.value.workers| ==> !(run.value.workers[v].InRun() && run.value.workers[w].InRun())
  {
    InitInv();
    if Run(Init(), steps).Some? { RunInv(Init(), steps); }
  }

  /** Each request reaches the backend at most once, and none that reached it was cancelled while it waited. */
  lemma InferredOnce(steps: seq<Step>)
    ensures var run := Run(Init(), steps);
            run.Some? ==>
              var s := run.value;
              && (forall i, j | 0 <= i < j < |s.inferred| :: s.inferred[i] != s.inferred[j])
              && (forall id | id in s.inferred ::
                    id in s.futures && !s.futures[id].Pending? && !s.futures[id].Cancelled?)
  {
    InitInv();
    if Run(Init(), steps).Some? { RunInv(Init(), steps); }
  }

  lemma SettledStays(s: State, step: Step, id: Id)
    requires Inv(s) && Apply(s, step).Some? && id in s.futures && s.futures[id].Settled()
    ensures id in Apply(s, step).value.futures && Apply(s, step).value.futures[id] == s.futures[id]
  {
    if step.Worker? { OnlyLastIfActing(s, step); }
  }

  lemma OnlyLastIfActing(s: State, step: Step)
    requires OneWorker(s) && step.Worker? && Apply(s, step).Some?
    ensures step.w == |s.workers| - 1 && s.workers[step.w] == Last(s)
  {
    OnlyLastActs(s, step.w);
  }

  /** A settled answer never changes again. */
  lemma {:induction false} SettledForever(s: State, steps: seq<Step>, id: Id)
    requires Inv(s) && Run(s, steps).Some? && id in s.futures && s.futures[id].Settled()
    ensures id in Run(s, steps).value.futures && Run(s, steps).value.futures[id] == s.futures[id]
  {
    if steps != [] {
      var front := steps[..|steps| - 1];
      SettledForever(s, front, id);
      RunInv(s, front);
      SettledStays(Run(s, front).value, steps[|steps| - 1], id);
    }
  }

  // ---- preemption and cancellation -------------------------------------------------------------------------

  /** The run of this request will end in an error: flagged before its check, failing, or failed already. */
  ghost predicate Doomed(s: State, id: Id)
    requires s.workers != []
  {
    var pc := Last(s);
    && id in s.futures
    && ((IsActive(s, id) && s.active.value.cancelled && (pc.Inferring? || pc.Returned?))
        || (pc.Failing? && pc.item.id == id) || s.futures[id].Errored?)
  }

  lemma DoomedStays(s: State, step: Step, id: Id)
    requires Inv(s) && Apply(s, step).Some? && Doomed(s, id)
    ensures Apply(s, step).value.workers != [] && Doomed(Apply(s, step).value, id)
  {
    assert DoomedOk(s, id);
    DoomedStep(s, step, id);
  }

  /** What the invariant says of a doomed request. */
  ghost predicate DoomedOk(s: State, id: Id) {
    && OneWorker(s) && WorkerOk(s, Last(s)) && SHUTDOWN !in s.futures && id in s.futures && !s.futures[id].Pending?
    && (!s.running ==> s.stopper != NoStop || s.abandoned || Last(s).Exited?)
  }

  lemma DoomedStep(s: State, step: Step, id: Id)
    requires DoomedOk(s, id) && Apply(s, step).Some? && Doomed(s, id)
    ensures Apply(s, step).value.workers != [] && Doomed(Apply(s, step).value, id)
  {
    if step.Worker? {
      OnlyLastIfActing(s, step);
      DoomedWorker(s, step.act, id);
    } else if step.Start? || step.Submit? || step.Cancel? {
      DoomedCaller(s, step, id);
    } else {
      DoomedStopper(s, step, id);
    }
  }

  lemma DoomedCaller(s: State, step: Step, id: Id)
    requires DoomedOk(s, id) && Apply(s, step).Some? && Doomed(s, id) && (step.Start? || step.Submit? || step.Cancel?)
    ensures Apply(s, step).value.workers != [] && Doomed(Apply(s, step).value, id)
  {
    match step
    case Start => DoomedRestart(s, id);
    case Submit(other, priority) => DoomedSubmit(s, other, priority, id);
    case Cancel(other) => DoomedCancel(s, other, id);
  }

  lemma DoomedStopper(s: State, step: Step, id: Id)
    requires DoomedOk(s, id) && Apply(s, step).Some? && Doomed(s, id)
    requires !step.Worker? && !step.Start? && !step.Submit? && !step.Cancel?
    ensures Apply(s, step).value.workers != [] && Doomed(Apply(s, step).value, id)
  {
  }

  lemma DoomedRestart(s: State, id: Id)
    requires s.workers != [] && Doomed(s, id) && (!s.running ==> Last(s).Exited?)
    ensures Restart(s).workers != [] && Doomed(Restart(s), id)
  {
  }

  lemma DoomedSubmit(s: State, other: Id, priority: int, id: Id)
    requires s.workers != [] && Doomed(s, id)
    ensures SubmitTo(s, other, priority).workers != [] && Doomed(SubmitTo(s, other, priority), id)
  {
  }

  lemma DoomedCancel(s: State, other: Id, id: Id)
    requires s.workers != [] && Doomed(s, id) && !s.futures[id].Pending?
    ensures CancelIn(s, other).workers != [] && Doomed(CancelIn(s, other), id)
  {
  }

  lemma DoomedWorker(s: State, act: Act, id: Id)
    requires OneWorker(s) && WorkerOk(s, Last(s)) && SHUTDOWN !in s.futures
    requires WorkerStep(s, |s.workers| - 1, act).Some? && Doomed(s, id)
    ensures Doomed(WorkerStep(s, |s.workers| - 1, act).value, id)
  {
    var pc := Last(s);
    if pc.Holds() && pc.item.id == id {
      assert !s.futures[id].Errored? || pc.Clearing?;
    }
  }

  lemma {:induction false} DoomedForever(s: State, steps: seq<Step>, id: Id)
    requires Inv(s) && Run(s, steps).Some? && Doomed(s, id)
    ensures Run(s, steps).value.workers != [] && Doomed(Run(s, steps).value, id)
  {
    if steps != [] {
      var front := steps[..|steps| - 1];
      DoomedForever(s, front, id);
      RunInv(s, front);
      DoomedStays(Run(s, front).value, steps[|steps| - 1], id);
    }
  }

  predicate HasResult(s: State, id: Id) { id in s.futures && s.futures[id].Delivered? }

  /** No continuation delivers a result for this request. */
  ghost predicate NeverDelivered(s: State, id: Id) {
    forall steps | Run(s, steps).Some? :: !HasResult(Run(s, steps).value, id)
  }

  lemma DoomedNeverDelivered(s: State, id: Id)
    requires Inv(s) && Doomed(s, id)
    ensures NeverDelivered(s, id)
  {
    forall steps | Run(s, steps).Some? ensures !HasResult(Run(s, steps).value, id) {
      DoomedForever(s, steps, id);
      RunInv(s, steps);
    }
  }

  /** Steps a worker has from here to being idle, at the longest. */
  function Rank(pc: Pc): nat {
    match pc
    case Popped(item) => if item.id == SHUTDOWN then 1 else 9
    case Live(_) => 8
    case Screened(_) => 7
    case Inferring(_) => 6
    case Returned(_, _) => 5
    case Failing(_, _) => 4
    case Delivering(_, _) => 4
    case Clearing(_) => 3
    case Idle => 2
    case Exited => 0
  }

  /** The next step towards an answer when the backend returns `v`, and where it leads. */
  function Towards(pc: Pc, v: int): (Act, Pc) {
    match pc
    case Popped(item) => (CheckCancelled, Live(item))
    case Live(item) => (CheckDeadline(false), Screened(item))
    case Screened(item) => (Admit, Inferring(item))
    case Inferring(item) => (InferReturns(Value(v)), Returned(item, v))
    case Returned(item, value) => (PostCheck, Delivering(item, value))
    case Delivering(item, _) => (Settle, Clearing(item))
    case _ => (ClearActive, Idle)
  }

  /** What the request in the worker's hand is answered when nothing stands in the way. */
  function Outcome(pc: Pc, v: int): int { if pc.Returned? || pc.Delivering? then pc.value else v }

  /** Nothing stands in the way of the request in the worker's hand. */
  ghost predicate Unhindered(s: State)
    requires s.workers != []
  {
    var pc := Last(s);
    && pc.Holds() && pc.item.id != SHUTDOWN
    && (pc.Waiting() ==> s.running && pc.item.id in s.futures && s.futures[pc.item.id].Pending?)
    && (pc.Inferring? || pc.Returned? ==> s.active.Some? && !s.active.value.cancelled)
    && !pc.Failing? && !pc.Clearing?
  }

  lemma UnhinderedStep(s: State, v: int)
    requires Inv(s) && Unhindered(s)
    ensures var pc := Last(s);
            var next := Apply(s, Worker(|s.workers| - 1, Towards(pc, v).0));
            && next.Some? && |next.value.workers| == |s.workers| && Last(next.value) == Towards(pc, v).1
            && (if pc.Delivering? then pc.item.id in next.value.futures &&
                                       next.value.futures[pc.item.id] == Delivered(pc.value)
                else Unhindered(next.value))
  {
  }

  lemma UnhinderedNext(s: State, v: int) returns (next: State)
    requires Inv(s) && Unhindered(s)
    ensures Apply(s, Worker(|s.workers| - 1, Towards(Last(s), v).0)) == Some(next) && Inv(next)
    ensures |next.workers| == |s.workers| && Last(next) == Towards(Last(s), v).1
    ensures if Last(s).Delivering? then Last(s).item.id in next.futures &&
                                        next.futures[Last(s).item.id] == Delivered(Last(s).value)
            else Unhindered(next)
  {
    var step := Worker(|s.workers| - 1, Towards(Last(s), v).0);
    UnhinderedStep(s, v);
    StepKeeps(s, step);
    next := Apply(s, step).value;
  }

  lemma TowardsAdvances(pc: Pc, v: int)
    requires pc.Holds() && !pc.Failing? && !pc.Clearing? && !pc.Delivering? && pc.item.id != SHUTDOWN
    ensures Towards(pc, v).1.Holds() && Towards(pc, v).1.item == pc.item && Rank(Towards(pc, v).1) < Rank(pc)
    ensures Outcome(Towards(pc, v).1, v) == Outcome(pc, v)
  {
  }

  lemma {:induction false} UnhinderedDelivers(s: State, v: int) returns (steps: seq<Step>)
    requires Inv(s) && Unhindered(s)
    ensures Run(s, steps).Some? && HasResult(Run(s, steps).value, Last(s).item.id)
    ensures Run(s, steps).value.futures[Last(s).item.id] == Delivered(Outcome(Last(s), v))
    decreases Rank(Last(s))
  {
    var next := UnhinderedNext(s, v);
    steps := [];
    if !Last(s).Delivering? {
      TowardsAdvances(Last(s), v);
      steps := UnhinderedDelivers(next, v);
    }
    RunCons(s, Worker(|s.workers| - 1, Towards(Last(s), v).0), steps);
    steps := [Worker(|s.workers| - 1, Towards(Last(s), v).0)] + steps;
  }

  /**
   A REALTIME submit keeps the low-priority request in the worker's hand from ever delivering exactly when that
   request's inference has begun and its final check is still ahead, or it is failing anyway. A request popped but
   not yet admitted is not preempted.
  */
  lemma PreemptionExact(s: State, id: Id)
    requires Inv(s) && Accepts(s, id) && id != SHUTDOWN && LowPriorityInHand(s)
    ensures var pc := Last(s);
            NeverDelivered(SubmitTo(s, id, REALTIME), pc.item.id) <==> pc.Inferring? || pc.Returned? || pc.Failing?
  {
    var s', pc := SubmitTo(s, id, REALTIME), Last(s);
    SubmitKeeps(s, id, REALTIME);
    if pc.Inferring? || pc.Returned? || pc.Failing? {
      DoomedNeverDelivered(s', pc.item.id);
    } else {
      var steps := UnhinderedDelivers(s', 0);
      assert Run(s', steps).Some?;
    }
  }

  /** A PROACTIVE or OFFLINE request is in the worker's hand and its answer is still open. */
  ghost predicate LowPriorityInHand(s: State)
    requires s.workers != []
  {
    var pc := Last(s);
    && pc.Holds() && pc.item.id != SHUTDOWN && pc.item.priority in {PROACTIVE, OFFLINE}
    && pc.item.id in s.futures && !s.futures[pc.item.id].Settled()
  }

  /**
   When cancel answers true, the request never delivers a result, unless the worker has already passed its final
   check: then the answer was true and the result comes all the same.
  */
  lemma CancelBindsExactly(s: State, id: Id)
    requires Inv(s) && CancelAnswer(s, id)
    ensures NeverDelivered(CancelIn(s, id), id) <==> !(Last(s).Delivering? && Last(s).item.id == id)
  {
    var s', pc := CancelIn(s, id), Last(s);
    StepKeeps(s, Cancel(id));
    if pc.Delivering? && pc.item.id == id {
      var steps := UnhinderedDelivers(s', 0);
      assert Run(s', steps).Some?;
    } else if s'.futures[id].Cancelled? {
      forall steps | Run(s', steps).Some? ensures !HasResult(Run(s', steps).value, id) {
        SettledForever(s', steps, id);
      }
    } else {
      assert pc.InRun() && pc.item.id == id;
      DoomedNeverDelivered(s', id);
    }
  }

  // ---- shutdown --------------------------------------------------------------------------------------------

  lemma StoppingAcceptsNobody(s: State, step: Step)
    requires Inv(s) && s.stopper != NoStop && step != FinishShutdown && Apply(s, step).Some?
    ensures Apply(s, step).value.futures.Keys == s.futures.Keys && Apply(s, step).value.stopper != NoStop
  {
    if step.Worker? {
      OnlyLastIfActing(s, step);
    }
  }

  lemma {:induction false} StoppingRun(s: State, steps: seq<Step>)
    requires Inv(s) && s.stopper != NoStop && FinishShutdown !in steps && Run(s, steps).Some?
    ensures var s' := Run(s, steps).value; Inv(s') && s'.futures.Keys == s.futures.Keys && s'.stopper != NoStop
  {
    if steps != [] {
      var front := steps[..|steps| - 1];
      assert steps[|steps| - 1] in steps && forall x | x in front :: x in steps;
      StoppingRun(s, front);
      StoppingAcceptsNobody(Run(s, front).value, steps[|steps| - 1]);
      StepKeeps(Run(s, front).value, steps[|steps| - 1]);
    }
  }

  lemma DrainedIsSettled(s: State)
    requires Inv(s) && s.stopper == Draining && s.queue == {}
    ensures !s.running && forall id | id in s.futures :: s.futures[id].Settled()
  {
  }

  /**
   From any running state that keeps the invariant, as all reachable ones do, and whatever happens while
   shutdown(wait=True) is at work: when it returns, every answer ever promised is settled, no request was accepted
   since it began, and none is accepted now.
  */
  lemma ShutdownSettlesAll(s: State, during: seq<Step>)
    requires Inv(s) && s.running && FinishShutdown !in during && Run(StopAccepting(s, true), during).Some?
    requires Apply(Run(StopAccepting(s, true), during).value, FinishShutdown).Some?
    ensures var end := Apply(Run(StopAccepting(s, true), during).value, FinishShutdown).value;
            && end.futures.Keys == s.futures.Keys && !end.running
            && (forall id | id in end.futures :: end.futures[id].Settled())
            && (forall id, p :: SubmitTo(end, id, p) == end)
  {
    StopKeeps(s, true);
    StoppingRun(StopAccepting(s, true), during);
    DrainedIsSettled(Run(StopAccepting(s, true), during).value);
  }

  /** How much a shutdown in progress still has to do. */
  function Left(s: State): nat
    requires s.workers != []
  {
    Rank(Last(s)) + |s.queue| + (if s.stopper == Joining then 1 else 0)
  }

  predicate MakesProgress(step: Step) { step.Worker? || step.Joined? || step.Drain? }

  /** While a shutdown is in progress the worker can only fetch the sentinel. */
  lemma OnlySentinelFetched(s: State, w: nat, item: Item)
    requires Inv(s) && !s.running && w < |s.workers| && s.workers[w].Idle? && Least(item, s.queue)
    ensures item.id == SHUTDOWN
  {
    OnlyLastActs(s, w);
    var a :| a in s.queue && a.id == SHUTDOWN;
  }

  lemma RankShrinks(s: State, act: Act)
    requires s.workers != [] && WorkerStep(s, |s.workers| - 1, act).Some? && !act.Get?
    ensures var s' := WorkerStep(s, |s.workers| - 1, act).value;
            && |s'.workers| == |s.workers| && s'.queue == s.queue && s'.stopper == s.stopper
            && Rank(Last(s')) < Rank(Last(s))
  {
  }

  lemma WorkerShrinksLeft(s: State, act: Act)
    requires s.workers != [] && WorkerStep(s, |s.workers| - 1, act).Some?
    requires act.Get? ==> act.item.id == SHUTDOWN
    ensures var s' := WorkerStep(s, |s.workers| - 1, act).value;
            s'.workers != [] && s'.stopper == s.stopper && Left(s') < Left(s)
  {
    if !act.Get? { RankShrinks(s, act); }
  }

  lemma StoppingState(s: State, step: Step)
    requires Inv(s) && s.stopper != NoStop && Apply(s, step).Some?
    ensures OneWorker(s) && !s.running
    ensures step.Worker? && step.act.Get? ==> step.act.item.id == SHUTDOWN
  {
    if step.Worker? && step.act.Get? { OnlySentinelFetched(s, step.w, step.act.item); }
  }

  lemma DrainShrinksLeft(s: State, item: Item)
    requires s.workers != [] && s.stopper == Draining && Least(item, s.queue)
    ensures Apply(s, Drain(item)).value.workers == s.workers && Left(Apply(s, Drain(item)).value) < Left(s)
  {
    assert |s.queue - {item}| < |s.queue|;
  }

  lemma OthersKeepLeft(s: State, step: Step)
    requires s.workers != [] && s.stopper != NoStop && !s.running && Apply(s, step).Some?
    requires !step.Worker? && !step.Drain?
    ensures var s' := Apply(s, step).value;
            s'.workers == s.workers && if step.Joined? then Left(s') < Left(s) else Left(s') <= Left(s)
  {
  }

  lemma StepKeepsLeft(s: State, step: Step)
    requires OneWorker(s) && s.stopper != NoStop && !s.running && Apply(s, step).Some?
    requires step.Worker? && step.act.Get? ==> step.act.item.id == SHUTDOWN
    ensures var s' := Apply(s, step).value;
            s'.workers != [] && if MakesProgress(step) then Left(s') < Left(s) else Left(s') <= Left(s)
  {
    if step.Worker? {
      OnlyLastIfActing(s, step);
      WorkerShrinksLeft(s, step.act);
    } else if step.Drain? {
      DrainShrinksLeft(s, step.item);
    } else {
      OthersKeepLeft(s, step);
    }
  }

  /** Each step of the worker or of the stopping call brings the shutdown nearer; nobody else can delay it. */
  lemma LeftShrinks(s: State, step: Step)
    requires Inv(s) && s.stopper != NoStop && Apply(s, step).Some?
    ensures var s' := Apply(s, step).value;
            s'.workers != [] && if MakesProgress(step) then Left(s') < Left(s) else Left(s') <= Left(s)
  {
    StoppingState(s, step);
    StepKeepsLeft(s, step);
  }

  lemma {:induction false} LeastExists(queue: set<Item>) returns (item: Item)
    requires queue != {} && forall a, b | a in queue && b in queue && a != b :: a.sequence != b.sequence
    ensures Least(item, queue)
  {
    item :| item in queue;
    if queue != {item} {
      var other := LeastExists(queue - {item});
      assert forall x | x in queue && x != item && x != other :: Before(other, x);
      if Before(other, item) { item := other; }
    }
  }

  // ---- the order of service --------------------------------------------------------------------------------

  lemma LeastIsOne(queue: set<Item>, a: Item, b: Item)
    requires Least(a, queue)
    ensures Least(b, queue) <==> b == a
  {
    assert b in queue && b != a ==> Before(a, b);
  }

  /** An idle worker with work waiting can fetch one request only, the least by priority and then by acceptance. */
  lemma FetchesTheLeast(s: State) returns (item: Item)
    requires Inv(s) && s.queue != {} && Last(s).Idle?
    ensures item in s.queue && forall x | x in s.queue && x != item :: Before(item, x)
    ensures forall x :: WorkerStep(s, |s.workers| - 1, Get(x)).Some? <==> x == item
  {
    item := LeastExists(s.queue);
    forall x ensures WorkerStep(s, |s.workers| - 1, Get(x)).Some? <==> x == item { LeastIsOne(s.queue, item, x); }
  }

  /** An accepted request waits behind everything of its priority or a more urgent one that is queued already. */
  lemma AcceptedGoesBehind(steps: seq<Step>, id: Id, priority: int)
    ensures var run := Run(Init(), steps);
            run.Some? && Accepts(run.value, id) ==>
              exists own | own in SubmitTo(run.value, id, priority).queue ::
                && own.id == id && own.priority == priority
                && forall x | x in run.value.queue && x.priority <= priority :: Before(x, own)
  {
    InitInv();
    if Run(Init(), steps).Some? {
      RunInv(Init(), steps);
      var s := Run(Init(), steps).value;
      if Accepts(s, id) { assert Item(priority, s.sequence, id) in SubmitTo(s, id, priority).queue; }
    }
  }

  /** A shutdown in progress is never stuck: a worker step, a stopping step or its return is possible. */
  lemma NeverStuck(s: State) returns (step: Step)
    requires Inv(s) && s.stopper != NoStop
    ensures Apply(s, step).Some? && (MakesProgress(step) || step == FinishShutdown)
  {
    var pc, w := Last(s), |s.workers| - 1;
    if s.stopper == Draining {
      if s.queue == {} { return FinishShutdown; }
      var item := LeastExists(s.queue);
      return Drain(item);
    }
    if pc.Exited? { return Joined; }
    if pc.Idle? {
      var item := LeastExists(s.queue);
      return Worker(w, Get(item));
    }
    step := Worker(w, if pc.Failing? then Settle else Towards(pc, 0).0);
  }

  /** How many of the steps are the worker's or the stopping call's. */
  function ProgressIn(steps: seq<Step>): nat {
    if steps == [] then 0 else ProgressIn(steps[..|steps| - 1]) + Count(MakesProgress(steps[|steps| - 1]))
  }

  lemma {:induction false} ProgressShrinksLeft(s: State, steps: seq<Step>)
    requires Inv(s) && s.stopper != NoStop && FinishShutdown !in steps && Run(s, steps).Some?
    ensures Run(s, steps).value.workers != [] && ProgressIn(steps) + Left(Run(s, steps).value) <= Left(s)
  {
    if steps != [] {
      var front := steps[..|steps| - 1];
      assert forall x | x in front :: x in steps;
      ProgressShrinksLeft(s, front);
      StoppingRun(s, front);
      LeftShrinks(Run(s, front).value, steps[|steps| - 1]);
    }
  }

  /** The next step on the shortest way out. */
  lemma Onward(s: State) returns (step: Step, s': State)
    requires Inv(s) && s.stopper != NoStop
    ensures Apply(s, step) == Some(s')
    ensures step != FinishShutdown ==> Inv(s') && s'.stopper != NoStop && Left(s') < Left(s)
  {
    step := NeverStuck(s);
    s' := Apply(s, step).value;
    if step != FinishShutdown {
      LeftShrinks(s, step);
      StoppingAcceptsNobody(s, step);
      StepKeeps(s, step);
    }
  }

  lemma FrontOf(step: Step, rest: seq<Step>)
    ensures rest == [] ==> ([step] + rest)[..|rest|] == []
    ensures rest != [] ==> ([step] + rest)[..|rest|] == [step] + rest[..|rest| - 1]
  {
  }

  lemma {:induction false} WayOut(s: State) returns (steps: seq<Step>)
    requires Inv(s) && s.stopper != NoStop
    ensures steps != [] && |steps| <= Left(s) + 1 && Run(s, steps).Some? && steps[|steps| - 1] == FinishShutdown
    ensures FinishShutdown !in steps[..|steps| - 1]
    decreases Left(s)
  {
    var step, s' := Onward(s);
    var rest := [];
    if step != FinishShutdown { rest := WayOut(s'); }
    RunCons(s, step, rest);
    steps := [step] + rest;
    FrontOf(step, rest);
  }

  /**
   From any state with a shutdown in progress, Left(s) + 1 steps are enough for the stopping call to return; and until
   it returns no run has more than Left(s) steps of the worker and of that call, whatever others do in between.
  */
  lemma ShutdownReturns(s: State) returns (steps: seq<Step>)
    requires Inv(s) && s.stopper != NoStop
    ensures steps != [] && |steps| <= Left(s) + 1 && Run(s, steps).Some? && steps[|steps| - 1] == FinishShutdown
    ensures forall other | FinishShutdown !in other && Run(s, other).Some? :: ProgressIn(other) <= Left(s)
  {
    steps := WayOut(s);
    forall other | FinishShutdown !in other && Run(s, other).Some? ensures ProgressIn(other) <= Left(s) {
      ProgressShrinksLeft(s, other);
    }
  }
}
