/** The scheduler object: its fields, and the sections its methods run under the lock. */
module SchedulerObject {
  import opened Common
  import opened Scheduler
  import opened SchedulerRuns

  datatype SubmitResult = Accepted | Stopped | Duplicate

  class PersonaInferenceScheduler {
    var seenIds: set<Id>
    var futures: map<Id, Future>
    var sequence: nat
    var queue: set<Item>
    var workers: seq<Pc>
    var active: Option<Active>
    var running: bool
    /** History and pending shutdown calls, of which the object itself keeps no record. */
    ghost var stopper: Stopper
    ghost var abandoned: bool
    ghost var inferred: seq<Id>

    ghost function View(): State
      reads this
    {
      State(running, futures, queue, sequence, active, workers, stopper, abandoned, inferred)
    }

    /** The two id tables agree. The machine's own invariant is kept because every method is one of its steps. */
    ghost predicate Valid()
      reads this`seenIds, this`futures
    {
      seenIds == futures.Keys
    }

    constructor ()
      ensures Valid() && View() == Init()
    {
      seenIds, futures, sequence, queue, workers := {}, map[], 0, {}, [Idle];
      active, running := None, true;
      stopper, abandoned, inferred := NoStop, false, [];
    }

    /** Starts a worker on a fresh queue unless one is running already. */
    method Start()
      requires Valid() && (running || (stopper == NoStop && !abandoned))
      modifies this
      ensures Valid() && View() == Restart(old(View()))
    {
      if running { return; }
      queue := {};
      running := true;
      workers := workers + [Idle];
    }

    method Submit(id: Id, priority: int) returns (r: SubmitResult)
      requires Valid() && id != SHUTDOWN && IsPriority(priority)
      modifies this
      ensures Valid() && View() == SubmitTo(old(View()), id, priority)
      ensures r == if !old(running) then Stopped else if id in old(futures) then Duplicate else Accepted
    {
      if !running { return Stopped; }
      if id in seenIds { return Duplicate; }
      seenIds := seenIds + {id};
      futures := futures[id := Pending];
      queue := queue + {Item(priority, sequence, id)};
      sequence := sequence + 1;
      if priority == REALTIME && active.Some? && active.value.priority in {PROACTIVE, OFFLINE} {
        active := Some(active.value.(cancelled := true));
      }
      return Accepted;
    }

    method Cancel(id: Id) returns (answer: bool)
      requires Valid()
      modifies this`active, this`futures
      ensures Valid() && View() == CancelIn(old(View()), id) && answer == CancelAnswer(old(View()), id)
    {
      if id !in futures || futures[id].Settled() { return false; }
      if active.Some? && active.value.id == id {
        active := Some(active.value.(cancelled := true));
        return true;
      }
      answer := futures[id].Pending?;
      if answer { futures := futures[id := Cancelled]; }
    }

    /** The locked part of shutdown; the caller then joins the thread and drains the queue when it waits. */
    method BeginShutdown(wait: bool)
      requires Valid()
      modifies this
      ensures Valid() && View() == StopAccepting(old(View()), wait)
    {
      if !running { return; }
      running := false;
      if active.Some? { active := Some(active.value.(cancelled := true)); }
      queue := queue + {Item(-1, sequence, SHUTDOWN)};
      sequence := sequence + 1;
      stopper := if wait then Joining else stopper;
      abandoned := !wait;
    }

    /** The locked part of the worker's turn; true when the inference may start. */
    method Admit(w: nat) returns (go: bool)
      requires Valid() && w < |workers| && WorkerStep(View(), w, Act.Admit).Some?
      modifies this
      ensures Valid() && Some(View()) == WorkerStep(old(View()), w, Act.Admit)
      ensures go == workers[w].Inferring?
    {
      var item := workers[w].item;
      if !running {
        if futures[item.id].Pending? { futures := futures[item.id := Cancelled]; }
        workers := workers[w := Idle];
        return false;
      }
      if futures[item.id].Cancelled? {
        workers := workers[w := Idle];
        return false;
      }
      futures := futures[item.id := Running];
      active := Some(Active(item.id, item.priority, false));
      inferred := inferred + [item.id];
      workers := workers[w := Inferring(item)];
      return true;
    }

    /** The locked part after a settlement. */
    method ClearActive(w: nat)
      requires Valid() && w < |workers| && workers[w].Clearing?
      modifies this`active, this`workers
      ensures Valid() && Some(View()) == WorkerStep(old(View()), w, Act.ClearActive)
    {
      active := None;
      workers := workers[w := Idle];
    }

    /** The loop that cancels what is left once the worker has exited. */
    method CancelQueued()
      requires Valid() && Inv(View()) && stopper == Draining
      modifies this`queue, this`futures
      ensures Valid() && Inv(View()) && queue == {}
      ensures futures.Keys == old(futures.Keys) && forall id | id in futures :: futures[id].Settled()
      ensures forall id | id in futures :: futures[id] == old(futures)[id] || futures[id].Cancelled?
    {
      while queue != {}
        invariant Valid() && Inv(View()) && futures.Keys == old(futures.Keys)
        invariant forall id | id in futures :: futures[id] == old(futures)[id] || futures[id].Cancelled?
      {
        DrainOne();
      }
      DrainedIsSettled(View());
    }

    method DrainOne()
      requires Valid() && Inv(View()) && stopper == Draining && queue != {}
      modifies this`queue, this`futures
      ensures Valid() && Inv(View()) && futures.Keys == old(futures.Keys) && queue < old(queue)
      ensures forall id | id in futures :: futures[id] == old(futures)[id] || futures[id].Cancelled?
    {
      ghost var before := View();
      ghost var least := LeastExists(queue);
      var item :| Least(item, queue);
      DrainKeeps(before, item);
      queue := queue - {item};
      if item.id in futures && futures[item.id].Pending? { futures := futures[item.id := Cancelled]; }
      assert View() == before.(queue := before.queue - {item}, futures := CancelFuture(before.futures, item.id));
    }
  }
}
