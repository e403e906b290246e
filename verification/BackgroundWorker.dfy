/** The worker object itself: each method is one atomic segment, proved to be the step it implements. */
module BackgroundWorker {
  import opened Options
  import opened Worker
  import WorkerRuns

  lemma {:induction false} QueuedAreKnown(max: nat, s: State)
    requires Inv(max, s)
    ensures forall id :: id in s.queue ==> id in s.tasks
  {
    forall id | id in s.queue ensures id in s.tasks {
      assert id in multiset(s.queue) && IdOk(s, id);
    }
  }

  lemma {:induction false} CancelNone(tasks: map<Id, Task>)
    ensures CancelAll(tasks, []) == tasks
  {}

  lemma {:induction false} CancelOneMore(tasks: map<Id, Task>, ids: seq<Id>, id: Id)
    requires id in tasks
    ensures id in CancelAll(tasks, ids)
    ensures var t := CancelAll(tasks, ids);
            t[id := t[id].(status := Cancelled)] == CancelAll(tasks, ids + [id])
  {}

  class BackgroundWorker {
    const maxConcurrent: nat
    var queue: seq<Id>
    var tasks: map<Id, Task>
    var permits: int
    var running: bool
    var frames: map<Id, Phase>
    ghost var awaited: multiset<Id>
    ghost var closed: multiset<Id>

    ghost function View(): State
      reads this
    {
      State(queue, tasks, permits, running, frames, awaited, closed)
    }

    ghost predicate Valid()
      reads this
    {
      Inv(maxConcurrent, View())
    }

    /** A method did exactly `step`, and the invariant survived. */
    twostate predicate Did(step: Step)
      reads this
    {
      Enabled(old(View()), step) && View() == Apply(old(View()), step) && Valid()
    }

    constructor (max: nat)
      ensures Valid() && maxConcurrent == max && View() == Initial(max)
    {
      maxConcurrent := max;
      queue, tasks, permits, running, frames := [], map[], max, false, map[];
      awaited, closed := multiset{}, multiset{};
      new;
      WorkerRuns.InitialInv(max);
    }

    method Enqueue(id: Id, name: string)
      requires Valid() && id !in tasks
      modifies this
      ensures Did(Step.Enqueue(id, name))
      ensures queue == old(queue) + [id] && tasks == old(tasks)[id := Task(Pending, name, None)]
      ensures permits == old(permits) && running == old(running) && frames == old(frames)
    {
      StepInv(maxConcurrent, View(), Step.Enqueue(id, name));
      tasks := tasks[id := Task(Pending, name, None)];
      queue := queue + [id];
    }

    method Start()
      requires Valid()
      modifies this
      ensures Did(Step.Start)
      ensures running && queue == old(queue) && tasks == old(tasks) && permits == old(permits) && frames == old(frames)
    {
      StepInv(maxConcurrent, View(), Step.Start);
      if running {
        return;
      }
      running := true;
    }

    method Stop() returns (cancelled: nat)
      requires Valid()
      modifies this
      ensures Did(Step.Stop)
      ensures cancelled == old(|queue|)
      ensures !running && queue == [] && permits == old(permits) && frames == old(frames)
      ensures tasks.Keys == old(tasks).Keys && forall id :: id in tasks ==>
                && tasks[id].name == old(tasks)[id].name && tasks[id].error == old(tasks)[id].error
                && tasks[id].status == if id in old(queue) then Cancelled else old(tasks)[id].status
    {
      QueuedAreKnown(maxConcurrent, View());
      running := false;
      cancelled := DrainQueue();
      StepInv(maxConcurrent, old(View()), Step.Stop);
    }

    /** The drain loop: take from the head until empty, marking and closing each. */
    method DrainQueue() returns (cancelled: nat)
      requires forall id :: id in queue ==> id in tasks
      modifies this`queue, this`tasks, this`closed
      ensures queue == [] && cancelled == old(|queue|)
      ensures tasks == CancelAll(old(tasks), old(queue))
      ensures closed == old(closed) + multiset(old(queue))
    {
      ghost var drained: seq<Id> := [];
      cancelled := 0;
      CancelNone(tasks);
      while queue != []
        invariant old(queue) == drained + queue && cancelled == |drained|
        invariant tasks == CancelAll(old(tasks), drained)
        invariant closed == old(closed) + multiset(drained)
        decreases |queue|
      {
        var id := queue[0];
        assert id in old(queue);
        CancelOneMore(old(tasks), drained, id);
        queue := queue[1..];
        tasks := tasks[id := tasks[id].(status := Cancelled)];
        closed := closed + multiset{id};
        drained := drained + [id];
        cancelled := cancelled + 1;
      }
      assert drained == old(queue);
    }

    method Dispatch()
      requires Valid() && running && queue != []
      modifies this
      ensures Did(Step.Dispatch)
      ensures old(queue) == [old(queue)[0]] + queue && frames == old(frames)[old(queue)[0] := Waiting]
      ensures tasks == old(tasks) && permits == old(permits) && running == old(running)
    {
      StepInv(maxConcurrent, View(), Step.Dispatch);
      var id := queue[0];
      queue := queue[1..];
      frames := frames[id := Waiting];
    }

    method Acquire(id: Id)
      requires Valid() && At(View(), id, Waiting) && permits > 0
      modifies this
      ensures Did(Step.Acquire(id))
      ensures id in old(tasks) && permits == old(permits) - 1 && frames == old(frames)[id := Starting]
      ensures tasks == old(tasks)[id := Task(Running, old(tasks)[id].name, old(tasks)[id].error)]
      ensures queue == old(queue) && running == old(running)
    {
      assert IdOk(View(), id);
      StepInv(maxConcurrent, View(), Step.Acquire(id));
      permits := permits - 1;
      tasks := tasks[id := tasks[id].(status := Running)];
      frames := frames[id := Starting];
    }

    method Begin(id: Id)
      requires Valid() && At(View(), id, Starting)
      modifies this
      ensures Did(Step.Begin(id))
      ensures frames == old(frames)[id := Awaiting] && awaited == old(awaited) + multiset{id}
      ensures tasks == old(tasks) && queue == old(queue) && permits == old(permits) && running == old(running)
    {
      StepInv(maxConcurrent, View(), Step.Begin(id));
      awaited := awaited + multiset{id};
      frames := frames[id := Awaiting];
    }

    /** A return is recorded as COMPLETED, an exception as FAILED with its text. */
    method Finish(id: Id, error: Option<string>)
      requires Valid() && At(View(), id, Awaiting)
      modifies this
      ensures Did(Step.Finish(id, error))
      ensures id in old(tasks) && error.None? ==> tasks == old(tasks)[id := Task(Completed, old(tasks)[id].name, None)]
      ensures id in old(tasks) && error.Some? ==>
                tasks == old(tasks)[id := Task(Failed, old(tasks)[id].name, Some(error.value))]
      ensures id in old(tasks) && frames == old(frames)[id := Releasing]
      ensures queue == old(queue) && permits == old(permits) && running == old(running)
    {
      assert IdOk(View(), id);
      StepInv(maxConcurrent, View(), Step.Finish(id, error));
      match error {
        case None => tasks := tasks[id := tasks[id].(status := Completed)];
        case Some(_) =>
          tasks := tasks[id := tasks[id].(status := Failed)];
          tasks := tasks[id := tasks[id].(error := error)];
      }
      frames := frames[id := Releasing];
    }

    method Release(id: Id)
      requires Valid() && At(View(), id, Releasing)
      modifies this
      ensures Did(Step.Release(id))
      ensures frames == old(frames) - {id} && permits == old(permits) + 1
      ensures tasks == old(tasks) && queue == old(queue) && running == old(running)
    {
      StepInv(maxConcurrent, View(), Step.Release(id));
      frames := frames - {id};
      permits := permits + 1;
    }

    /** None is the source's "unknown" reply; a FAILED reply carries an error and no other does. */
    method GetStatus(id: Id) returns (reply: Option<Task>)
      requires Valid()
      ensures reply.Some? <==> id in tasks
      ensures reply.Some? ==> reply.value == tasks[id] && (reply.value.error.Some? <==> reply.value.status.Failed?)
    {
      assert IdOk(View(), id);
      reply := if id in tasks then Some(tasks[id]) else None;
    }
  }
}
