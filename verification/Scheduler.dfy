/**
 The single-worker inference scheduler as a state machine. Every step is one atomic action of the code: a section
 under the lock, one operation of a queue or of a future, or a return of the backend.
*/
module Scheduler {
  import opened Common

  type Id = string

  const SHUTDOWN: Id := "__shutdown__"

  const REALTIME := 0
  const PROACTIVE := 2
  const OFFLINE := 3

  predicate IsPriority(p: int) { REALTIME <= p <= OFFLINE }

  datatype Future = Pending | Running | Cancelled | Delivered(value: int) | Errored(preempted: bool)
  {
    predicate Settled() { Cancelled? || Delivered? || Errored? }
  }

  datatype Item = Item(priority: int, sequence: nat, id: Id)

  predicate Before(a: Item, b: Item) {
    a.priority < b.priority || (a.priority == b.priority && a.sequence < b.sequence)
  }

  datatype Active = Active(id: Id, priority: int, cancelled: bool)

  /** Where a worker thread stands between two atomic actions. */
  datatype Pc =
    | Idle
    | Popped(item: Item)
    | Live(item: Item)
    | Screened(item: Item)
    | Inferring(item: Item)
    | Returned(item: Item, value: int)
    | Failing(item: Item, preempted: bool)
    | Delivering(item: Item, value: int)
    | Clearing(item: Item)
    | Exited
  {
    predicate Holds() { !Idle? && !Exited? }
    predicate Waiting() { Popped? || Live? || Screened? }
    predicate InRun() { Inferring? || Returned? || Failing? || Delivering? }
  }

  /** The shutdown(wait=True) call in progress, if any. */
  datatype Stopper = NoStop | Joining | Draining

  datatype State = State(
    running: bool, futures: map<Id, Future>, queue: set<Item>, sequence: nat, active: Option<Active>,
    workers: seq<Pc>, stopper: Stopper, abandoned: bool, inferred: seq<Id>)

  datatype InferResult = Value(value: int) | Preempted | Raised

  datatype Act =
    | Get(item: Item)
    | CheckCancelled
    | CheckDeadline(expired: bool)
    | Admit
    | InferReturns(result: InferResult)
    | PostCheck
    | Settle
    | ClearActive

  datatype Step =
    | Start
    | Submit(id: Id, priority: int)
    | Cancel(id: Id)
    | HolderCancel(id: Id)
    | BeginShutdown(wait: bool)
    | Joined
    | Drain(item: Item)
    | FinishShutdown
    | Worker(w: nat, act: Act)

  function Init(): State { State(true, map[], {}, 0, None, [Idle], NoStop, false, []) }

  predicate Least(item: Item, queue: set<Item>) {
    item in queue && forall other | other in queue && other != item :: Before(item, other)
  }

  // ---- the steps -------------------------------------------------------------------------------------------

  function CancelFuture(futures: map<Id, Future>, id: Id): map<Id, Future> {
    if id in futures && futures[id].Pending? then futures[id := Cancelled] else futures
  }

  function Accepts(s: State, id: Id): bool { s.running && id !in s.futures }

  function FlagActive(active: Option<Active>): Option<Active> {
    if active.Some? then Some(active.value.(cancelled := true)) else None
  }

  function SubmitTo(s: State, id: Id, priority: int): State {
    if !Accepts(s, id) then s
    else
      var preempts := priority == REALTIME && s.active.Some? && s.active.value.priority in {PROACTIVE, OFFLINE};
      s.(futures := s.futures[id := Pending],
         queue := s.queue + {Item(priority, s.sequence, id)},
         sequence := s.sequence + 1,
         active := if preempts then FlagActive(s.active) else s.active)
  }

  /** What cancel answers. */
  predicate CancelAnswer(s: State, id: Id) {
    id in s.futures && !s.futures[id].Settled() && (IsActive(s, id) || s.futures[id].Pending?)
  }

  predicate IsActive(s: State, id: Id) { s.active.Some? && s.active.value.id == id }

  function CancelIn(s: State, id: Id): State {
    if id !in s.futures || s.futures[id].Settled() then s
    else if IsActive(s, id) then s.(active := FlagActive(s.active))
    else s.(futures := CancelFuture(s.futures, id))
  }

  function StopAccepting(s: State, wait: bool): State {
    if !s.running then s
    else s.(running := false,
            active := FlagActive(s.active),
            queue := s.queue + {Item(-1, s.sequence, SHUTDOWN)},
            sequence := s.sequence + 1,
            stopper := if wait then Joining else s.stopper,
            abandoned := !wait)
  }

  function Restart(s: State): State {
    if s.running then s else s.(running := true, queue := {}, workers := s.workers + [Idle])
  }

  function At(s: State, w: nat, pc: Pc): State
    requires w < |s.workers|
  {
    s.(workers := s.workers[w := pc])
  }

  function WorkerStep(s: State, w: nat, act: Act): Option<State>
    requires w < |s.workers|
  {
    var pc := s.workers[w];
    match act
    case Get(item) =>
      if pc.Idle? && Least(item, s.queue) then Some(At(s.(queue := s.queue - {item}), w, Popped(item))) else None
    case CheckCancelled =>
      if !pc.Popped? then None
      else if pc.item.id == SHUTDOWN then Some(At(s, w, Exited))
      else if pc.item.id in s.futures && s.futures[pc.item.id].Cancelled? then Some(At(s, w, Idle))
      else Some(At(s, w, Live(pc.item)))
    case CheckDeadline(expired) =>
      if !pc.Live? then None
      else if expired then Some(At(s.(futures := CancelFuture(s.futures, pc.item.id)), w, Idle))
      else Some(At(s, w, Screened(pc.item)))
    case Admit =>
      if !pc.Screened? || pc.item.id !in s.futures then None
      else if !s.running then Some(At(s.(futures := CancelFuture(s.futures, pc.item.id)), w, Idle))
      else if s.futures[pc.item.id].Cancelled? then Some(At(s, w, Idle))
      else
        Some(At(s.(futures := s.futures[pc.item.id := Running],
                   active := Some(Active(pc.item.id, pc.item.priority, false)),
                   inferred := s.inferred + [pc.item.id]), w, Inferring(pc.item)))
    case InferReturns(result) =>
      if !pc.Inferring? then None
      else
        (match result
         case Value(v) => Some(At(s, w, Returned(pc.item, v)))
         case Preempted => Some(At(s, w, Failing(pc.item, true)))
         case Raised => Some(At(s, w, Failing(pc.item, false))))
    case PostCheck =>
      if !pc.Returned? then None
      else if s.active.Some? && s.active.value.cancelled then Some(At(s, w, Failing(pc.item, true)))
      else Some(At(s, w, Delivering(pc.item, pc.value)))
    case Settle =>
      if pc.Failing? then Some(At(s.(futures := s.futures[pc.item.id := Errored(pc.preempted)]), w, Clearing(pc.item)))
      else if pc.Delivering? then
        Some(At(s.(futures := s.futures[pc.item.id := Delivered(pc.value)]), w, Clearing(pc.item)))
      else None
    case ClearActive =>
      if pc.Clearing? then Some(At(s.(active := None), w, Idle)) else None
  }

  /** The state after a step; None when the step cannot happen. A restart waits for a completed shutdown. */
  function Apply(s: State, step: Step): Option<State> {
    match step
    case Start => if !s.running && (s.stopper != NoStop || s.abandoned) then None else Some(Restart(s))
    case Submit(id, priority) =>
      if id == SHUTDOWN || !IsPriority(priority) then None else Some(SubmitTo(s, id, priority))
    case Cancel(id) => Some(CancelIn(s, id))
    case HolderCancel(id) => Some(s.(futures := CancelFuture(s.futures, id)))
    case BeginShutdown(wait) => Some(StopAccepting(s, wait))
    case Joined =>
      if s.stopper == Joining && s.workers != [] && s.workers[|s.workers| - 1].Exited?
      then Some(s.(stopper := Draining))
      else None
    case Drain(item) =>
      if s.stopper == Draining && Least(item, s.queue) then
        Some(s.(queue := s.queue - {item}, futures := CancelFuture(s.futures, item.id)))
      else None
    case FinishShutdown => if s.stopper == Draining && s.queue == {} then Some(s.(stopper := NoStop)) else None
    case Worker(w, act) => if w < |s.workers| then WorkerStep(s, w, act) else None
  }

  function Run(s: State, steps: seq<Step>): Option<State> {
    if steps == [] then Some(s)
    else
      var before := Run(s, steps[..|steps| - 1]);
      if before.None? then None else Apply(before.value, steps[|steps| - 1])
  }

  // ---- the invariant ---------------------------------------------------------------------------------------

  /** Only the last thread started can still be at work. */
  ghost predicate OneWorker(s: State) {
    s.workers != [] && forall w | 0 <= w < |s.workers| - 1 :: s.workers[w].Exited?
  }

  function Last(s: State): Pc
    requires s.workers != []
  {
    s.workers[|s.workers| - 1]
  }

  ghost predicate QueueOk(s: State) {
    && (forall a, b | a in s.queue && b in s.queue && a != b :: a.sequence != b.sequence && a.id != b.id)
    && (forall a | a in s.queue :: a.sequence < s.sequence && (a.id == SHUTDOWN <==> a.priority == -1))
    && (forall a | a in s.queue && a.id != SHUTDOWN ::
          IsPriority(a.priority) && a.id in s.futures && (s.futures[a.id].Pending? || s.futures[a.id].Cancelled?))
  }

  /** What the worker's position says about the request in its hand. */
  ghost predicate WorkerOk(s: State, pc: Pc) {
    && (s.active.None? <==> pc.Idle? || pc.Exited? || pc.Waiting())
    && (pc.Holds() ==> (forall a | a in s.queue :: a.id != pc.item.id) &&
                       (pc.item.id == SHUTDOWN <==> pc.item.priority == -1))
    && (pc.Holds() && pc.item.id == SHUTDOWN ==> pc.Popped?)
    && (pc.Holds() && pc.item.id != SHUTDOWN ==> pc.item.id in s.futures && IsPriority(pc.item.priority))
    && (pc.Waiting() && pc.item.id != SHUTDOWN ==>
          s.futures[pc.item.id].Pending? || s.futures[pc.item.id].Cancelled?)
    && (pc.InRun() ==> IsActive(s, pc.item.id) && s.futures[pc.item.id].Running?)
    && (pc.Clearing? ==> IsActive(s, pc.item.id) && s.futures[pc.item.id].Settled())
    && (pc.InRun() ==> s.active.value.priority == pc.item.priority)
  }

  /** Whoever waits for an answer is queued or in the worker's hand. */
  ghost predicate NobodyLost(s: State, pc: Pc) {
    forall id | id in s.futures && !s.futures[id].Settled() :: Queued(s, id) || (pc.Holds() && pc.item.id == id)
  }

  ghost predicate Queued(s: State, id: Id) { exists a :: a in s.queue && a.id == id }

  ghost predicate StopOk(s: State, pc: Pc) {
    && SHUTDOWN !in s.futures
    && (s.running ==> s.stopper == NoStop && !Queued(s, SHUTDOWN) && !pc.Exited?)
    && (s.running ==> !(pc.Holds() && pc.item.id == SHUTDOWN))
    && (!s.running ==> (Queued(s, SHUTDOWN) || (pc.Popped? && pc.item.id == SHUTDOWN) || pc.Exited?))
    && (s.stopper == Draining ==> pc.Exited?)
    && (!s.running && s.stopper == NoStop && !s.abandoned ==> pc.Exited? && s.queue == {})
  }

  ghost predicate InferredOk(s: State) {
    && (forall i, j | 0 <= i < j < |s.inferred| :: s.inferred[i] != s.inferred[j])
    && (forall id | id in s.inferred ::
          id in s.futures && (s.futures[id].Running? || s.futures[id].Delivered? || s.futures[id].Errored?))
  }

  ghost predicate Inv(s: State) {
    OneWorker(s) && QueueOk(s) && InferredOk(s) && WorkerOk(s, Last(s)) && NobodyLost(s, Last(s)) && StopOk(s, Last(s))
  }

  lemma InitInv()
    ensures Inv(Init())
  {
  }

  /** Queued requests stay queued when the queue only grows. */
  lemma NobodyLostGrowing(s: State, s': State, pc: Pc)
    requires NobodyLost(s, pc) && s.queue <= s'.queue
    requires forall x | x in s'.futures && !s'.futures[x].Settled() ::
               Queued(s', x) || (x in s.futures && !s.futures[x].Settled())
    ensures NobodyLost(s', pc)
  {
    forall x | x in s'.futures && !s'.futures[x].Settled() ensures Queued(s', x) || (pc.Holds() && pc.item.id == x) {
      if x in s.futures && !s.futures[x].Settled() && Queued(s, x) {
        var a :| a in s.queue && a.id == x;
        assert a in s'.queue;
      }
    }
  }

  lemma SubmitKeeps(s: State, id: Id, priority: int)
    requires Inv(s) && id != SHUTDOWN && IsPriority(priority)
    ensures Inv(SubmitTo(s, id, priority))
  {
    var s' := SubmitTo(s, id, priority);
    if Accepts(s, id) {
      assert Item(priority, s.sequence, id) in s'.queue && Queued(s', id);
      NobodyLostGrowing(s, s', Last(s));
    }
  }

  lemma CancelFutureKeeps(s: State, id: Id)
    requires Inv(s)
    ensures Inv(s.(futures := CancelFuture(s.futures, id)))
  {
    NobodyLostGrowing(s, s.(futures := CancelFuture(s.futures, id)), Last(s));
  }

  lemma FlagKeeps(s: State)
    requires Inv(s)
    ensures Inv(s.(active := FlagActive(s.active)))
  {
    NobodyLostGrowing(s, s.(active := FlagActive(s.active)), Last(s));
  }

  lemma StopKeeps(s: State, wait: bool)
    requires Inv(s)
    ensures Inv(StopAccepting(s, wait))
  {
    if s.running {
      var s' := StopAccepting(s, wait);
      assert Item(-1, s.sequence, SHUTDOWN) in s'.queue && Queued(s', SHUTDOWN);
      NobodyLostGrowing(s, s', Last(s));
    }
  }

  lemma RestartKeeps(s: State)
    requires Inv(s) && (s.running || (s.stopper == NoStop && !s.abandoned))
    ensures Inv(Restart(s))
  {
  }

  lemma DrainKeeps(s: State, item: Item)
    requires Inv(s) && s.stopper == Draining && Least(item, s.queue)
    ensures Inv(s.(queue := s.queue - {item}, futures := CancelFuture(s.futures, item.id)))
  {
    var s' := s.(queue := s.queue - {item}, futures := CancelFuture(s.futures, item.id));
    forall x | x in s'.futures && !s'.futures[x].Settled() ensures Queued(s', x) {
      var a :| a in s.queue && a.id == x;
      assert a in s'.queue;
    }
  }

  lemma OnlyLastActs(s: State, w: nat)
    requires OneWorker(s) && w < |s.workers| && !s.workers[w].Exited?
    ensures w == |s.workers| - 1 && s.workers[w] == Last(s)
    ensures forall pc :: OneWorker(At(s, w, pc)) && Last(At(s, w, pc)) == pc
  {
  }

  lemma GetKeeps(s: State, w: nat, item: Item)
    requires Inv(s) && w < |s.workers| && s.workers[w].Idle? && Least(item, s.queue)
    ensures Inv(At(s.(queue := s.queue - {item}), w, Popped(item)))
  {
    OnlyLastActs(s, w);
    var s' := At(s.(queue := s.queue - {item}), w, Popped(item));
    assert OneWorker(s') && QueueOk(s') && InferredOk(s');
    assert WorkerOk(s', Popped(item));
    forall x | x in s'.futures && !s'.futures[x].Settled() ensures Queued(s', x) || item.id == x {
      var a :| a in s.queue && a.id == x;
      if a != item { assert a in s'.queue; }
    }
    if Queued(s, SHUTDOWN) {
      var a :| a in s.queue && a.id == SHUTDOWN;
      assert item == a;
    }
  }

  lemma ExitKeeps(s: State, w: nat)
    requires Inv(s) && w < |s.workers| && s.workers[w].Popped? && s.workers[w].item.id == SHUTDOWN
    ensures Inv(At(s, w, Exited))
  {
    OnlyLastActs(s, w);
  }

  /** Same request, same stage of its life: before the run, or during it. */
  lemma AdvanceKeeps(s: State, w: nat, pc: Pc)
    requires Inv(s) && w < |s.workers| && pc.Holds() && s.workers[w].Holds()
    requires pc.item == s.workers[w].item && pc.item.id != SHUTDOWN
    requires (s.workers[w].Waiting() && pc.Waiting()) || (s.workers[w].InRun() && pc.InRun())
    ensures Inv(At(s, w, pc))
  {
    OnlyLastActs(s, w);
    assert NobodyLost(At(s, w, pc), pc);
  }

  /** The worker drops a request that is, or is now, cancelled. */
  lemma DropKeeps(s: State, w: nat)
    requires Inv(s) && w < |s.workers| && s.workers[w].Waiting() && s.workers[w].item.id != SHUTDOWN
    ensures Inv(At(s.(futures := CancelFuture(s.futures, s.workers[w].item.id)), w, Idle))
  {
    OnlyLastActs(s, w);
    var id := s.workers[w].item.id;
    CancelFutureKeeps(s, id);
    var s' := s.(futures := CancelFuture(s.futures, id));
    assert s'.futures[id].Settled();
    assert NobodyLost(At(s', w, Idle), Idle);
  }

  lemma AdmitKeeps(s: State, w: nat)
    requires Inv(s) && s.running && w < |s.workers| && s.workers[w].Screened?
    requires s.workers[w].item.id in s.futures && s.futures[s.workers[w].item.id].Pending?
    ensures Inv(WorkerStep(s, w, Admit).value)
  {
    OnlyLastActs(s, w);
    var s' := WorkerStep(s, w, Admit).value;
    var id := s.workers[w].item.id;
    assert id !in s.inferred;
    assert NobodyLost(s', Last(s'));
  }

  lemma SettleKeeps(s: State, w: nat)
    requires Inv(s) && w < |s.workers| && WorkerStep(s, w, Settle).Some?
    ensures Inv(WorkerStep(s, w, Settle).value)
  {
    var pc := s.workers[w];
    OnlyLastActs(s, w);
    SettledKeeps(s, w, if pc.Failing? then Errored(pc.preempted) else Delivered(pc.value));
  }

  lemma SettledKeeps(s: State, w: nat, answer: Future)
    requires Inv(s) && w == |s.workers| - 1 && (Last(s).Failing? || Last(s).Delivering?)
    requires answer.Errored? || answer.Delivered?
    ensures Inv(At(s.(futures := s.futures[Last(s).item.id := answer]), w, Clearing(Last(s).item)))
  {
    var id := Last(s).item.id;
    var s' := At(s.(futures := s.futures[id := answer]), w, Clearing(Last(s).item));
    assert Last(s') == Clearing(Last(s).item) && OneWorker(s');
    assert QueueOk(s');
    assert InferredOk(s');
    forall x | x in s'.futures && !s'.futures[x].Settled() ensures Queued(s', x) {
      assert x in s.futures && !s.futures[x].Settled() && Queued(s, x);
      var a :| a in s.queue && a.id == x;
      assert a in s'.queue;
    }
    assert Queued(s, SHUTDOWN) ==> Queued(s', SHUTDOWN);
  }

  lemma ClearKeeps(s: State, w: nat)
    requires Inv(s) && w < |s.workers| && s.workers[w].Clearing?
    ensures Inv(At(s.(active := None), w, Idle))
  {
    OnlyLastActs(s, w);
    assert NobodyLost(At(s.(active := None), w, Idle), Idle);
  }

  lemma BeforeRunKeeps(s: State, w: nat, act: Act)
    requires Inv(s) && w < |s.workers| && WorkerStep(s, w, act).Some?
    requires act.CheckCancelled? || act.CheckDeadline? || act.Admit?
    ensures Inv(WorkerStep(s, w, act).value)
  {
    var pc := s.workers[w];
    var s' := WorkerStep(s, w, act).value;
    OnlyLastActs(s, w);
    if pc.item.id == SHUTDOWN {
      ExitKeeps(s, w);
    } else if s'.workers[w].Idle? {
      DropKeeps(s, w);
      assert s' == At(s.(futures := CancelFuture(s.futures, pc.item.id)), w, Idle);
    } else if act.Admit? {
      AdmitKeeps(s, w);
    } else {
      AdvanceKeeps(s, w, s'.workers[w]);
    }
  }

  lemma WorkerKeeps(s: State, w: nat, act: Act)
    requires Inv(s) && w < |s.workers| && WorkerStep(s, w, act).Some?
    ensures Inv(WorkerStep(s, w, act).value)
  {
    match act
    case Get(item) => GetKeeps(s, w, item);
    case CheckCancelled => BeforeRunKeeps(s, w, act);
    case CheckDeadline(_) => BeforeRunKeeps(s, w, act);
    case Admit => BeforeRunKeeps(s, w, act);
    case InferReturns(_) => RunKeeps(s, w, act);
    case PostCheck => RunKeeps(s, w, act);
    case Settle => SettleKeeps(s, w);
    case ClearActive => ClearKeeps(s, w);
  }

  lemma RunKeeps(s: State, w: nat, act: Act)
    requires Inv(s) && w < |s.workers| && WorkerStep(s, w, act).Some? && (act.InferReturns? || act.PostCheck?)
    ensures Inv(WorkerStep(s, w, act).value)
  {
    OnlyLastActs(s, w);
    var pc := WorkerStep(s, w, act).value.workers[w];
    assert WorkerStep(s, w, act).value == At(s, w, pc);
    assert s.workers[w].InRun() && pc.InRun() && pc.item == s.workers[w].item && pc.item.id != SHUTDOWN;
    AdvanceKeeps(s, w, pc);
  }

  lemma CancelKeeps(s: State, id: Id)
    requires Inv(s)
    ensures Inv(CancelIn(s, id))
  {
    FlagKeeps(s);
    CancelFutureKeeps(s, id);
  }

  lemma StopperKeeps(s: State, step: Step)
    requires Inv(s) && (step.Joined? || step.FinishShutdown?) && Apply(s, step).Some?
    ensures Inv(Apply(s, step).value)
  {
  }

  lemma StepKeeps(s: State, step: Step)
    requires Inv(s) && Apply(s, step).Some?
    ensures Inv(Apply(s, step).value)
  {
    match step
    case Start => RestartKeeps(s);
    case Submit(id, priority) => SubmitKeeps(s, id, priority);
    case Cancel(id) => CancelKeeps(s, id);
    case HolderCancel(id) => CancelFutureKeeps(s, id);
    case BeginShutdown(wait) => StopKeeps(s, wait);
    case Joined => StopperKeeps(s, step);
    case Drain(item) => DrainKeeps(s, item);
    case FinishShutdown => StopperKeeps(s, step);
    case Worker(w, act) => WorkerKeeps(s, w, act);
  }
}
