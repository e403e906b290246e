/**
 The in-process task queue of app/infrastructure/queue/worker.py as a state machine.

 Everything between two awaits is atomic, so a run of the worker is an interleaving of the steps
 below.  `Enqueue`, `Start` and `Stop` come from callers; `Dispatch` is one turn of the worker loop
 (get plus create_task); `Acquire`, `Begin`, `Finish` and `Release` are the segments of one
 _execute coroutine, cut at its awaits.
 */
module Worker {
  import opened Numbers
  import opened Options

  type Id = string

  datatype Status = Pending | Running | Completed | Failed | Cancelled {
    predicate Terminal() { Completed? || Failed? || Cancelled? }
  }

  datatype Task = Task(status: Status, name: string, error: Option<string>)

  /** Where a live _execute coroutine is suspended. */
  datatype Phase =
    | Waiting     // for the semaphore
    | Starting    // holds a permit, coroutine not yet awaited
    | Awaiting    // inside `await coro`
    | Releasing   // outcome recorded, permit still held

  /**
   `queue`, `tasks`, `permits` and `running` are the worker's fields, `frames` the live _execute
   coroutines, and `awaited` and `closed` count what has been done with each submitted coroutine.
   */
  datatype State = State(
    queue: seq<Id>,
    tasks: map<Id, Task>,
    permits: int,
    running: bool,
    frames: map<Id, Phase>,
    awaited: multiset<Id>,
    closed: multiset<Id>)

  datatype Step =
    | Enqueue(id: Id, name: string)
    | Start
    | Stop
    | Dispatch
    | Acquire(id: Id)
    | Begin(id: Id)
    | Finish(id: Id, error: Option<string>)
    | Release(id: Id)

  function Initial(max: nat): State {
    State([], map[], max, false, map[], multiset{}, multiset{})
  }

  predicate At(s: State, id: Id, p: Phase) {
    id in s.frames && s.frames[id] == p
  }

  predicate Enabled(s: State, step: Step) {
    match step
    case Enqueue(id, _) => id !in s.tasks
    case Start => true
    case Stop => true
    case Dispatch => s.running && s.queue != []
    case Acquire(id) => At(s, id, Waiting) && id in s.tasks && s.permits > 0
    case Begin(id) => At(s, id, Starting)
    case Finish(id, _) => At(s, id, Awaiting) && id in s.tasks
    case Release(id) => At(s, id, Releasing)
  }

  /** `stop` marks whatever it drained. */
  function CancelAll(tasks: map<Id, Task>, ids: seq<Id>): map<Id, Task> {
    map id | id in tasks :: if id in ids then tasks[id].(status := Cancelled) else tasks[id]
  }

  function Outcome(t: Task, error: Option<string>): Task {
    if error.None? then t.(status := Completed) else t.(status := Failed, error := error)
  }

  function Apply(s: State, step: Step): State
    requires Enabled(s, step)
  {
    match step
    case Enqueue(id, name) =>
      s.(queue := s.queue + [id], tasks := s.tasks[id := Task(Pending, name, None)])
    case Start => s.(running := true)
    case Stop =>
      s.(running := false, queue := [], tasks := CancelAll(s.tasks, s.queue),
      closed := s.closed + multiset(s.queue))
    case Dispatch => s.(queue := s.queue[1..], frames := s.frames[s.queue[0] := Waiting])
    case Acquire(id) =>
      s.(permits := s.permits - 1, tasks := s.tasks[id := s.tasks[id].(status := Running)],
      frames := s.frames[id := Starting])
    case Begin(id) => s.(frames := s.frames[id := Awaiting], awaited := s.awaited + multiset{id})
    case Finish(id, error) =>
      s.(tasks := s.tasks[id := Outcome(s.tasks[id], error)], frames := s.frames[id := Releasing])
    case Release(id) => s.(frames := s.frames - {id}, permits := s.permits + 1)
  }

  // ---------------------------------------------------------------- the invariant

  /** Everything the state says about one id, in each of the places it can be. */
  ghost predicate IdOk(s: State, id: Id) {
    var queued, awaited, closed := multiset(s.queue)[id], s.awaited[id], s.closed[id];
    if id !in s.tasks then
      queued == awaited == closed == 0 && id !in s.frames
    else
      var t := s.tasks[id];
      && (t.error.Some? <==> t.status.Failed?)
      && if id in s.frames then
           && queued == closed == 0
           && match s.frames[id] {
                case Waiting => t.status.Pending? && awaited == 0
                case Starting => t.status.Running? && awaited == 0
                case Awaiting => t.status.Running? && awaited == 1
                case Releasing => (t.status.Completed? || t.status.Failed?) && awaited == 1
              }
         else if queued > 0 then
           queued == 1 && t.status.Pending? && awaited == closed == 0
         else
           if t.status.Cancelled? then awaited == 0 && closed == 1
           else (t.status.Completed? || t.status.Failed?) && awaited == 1 && closed == 0
  }

  function Holders(s: State): set<Id> {
    set id | id in s.frames && s.frames[id] != Waiting
  }

  ghost predicate Inv(max: nat, s: State) {
    && (forall id: Id :: IdOk(s, id))
    && s.permits >= 0
    && s.permits + |Holders(s)| == max
  }

  lemma {:induction false} HeadOfQueue(q: seq<Id>)
    requires q != []
    ensures multiset(q) == multiset{q[0]} + multiset(q[1..])
  {
    assert q == [q[0]] + q[1..];
  }

  /** The id a step acts on, if it acts on one. */
  function Subject(s: State, step: Step): Option<Id>
    requires Enabled(s, step)
  {
    match step
    case Start => None
    case Stop => None
    case Dispatch => Some(s.queue[0])
    case _ => Some(step.id)
  }

  /** A step leaves every other id alone. */
  lemma {:induction false} OthersUntouched(s: State, step: Step, id: Id)
    requires Enabled(s, step) && !step.Stop? && Subject(s, step) != Some(id)
    ensures var s' := Apply(s, step);
            && (id in s'.tasks <==> id in s.tasks) && (id in s.tasks ==> s'.tasks[id] == s.tasks[id])
            && (id in s'.frames <==> id in s.frames) && (id in s.frames ==> s'.frames[id] == s.frames[id])
            && multiset(s'.queue)[id] == multiset(s.queue)[id]
            && s'.awaited[id] == s.awaited[id] && s'.closed[id] == s.closed[id]
  {
    if step.Dispatch? {
      HeadOfQueue(s.queue);
    }
  }

  lemma {:induction false} SubjectOk(s: State, step: Step, id: Id)
    requires Enabled(s, step) && Subject(s, step) == Some(id) && IdOk(s, id)
    ensures IdOk(Apply(s, step), id)
  {
    if step.Dispatch? {
      HeadOfQueue(s.queue);
      assert multiset(s.queue)[id] > 0;
    }
  }

  lemma {:induction false} StopOk(s: State, id: Id)
    requires IdOk(s, id)
    ensures IdOk(Apply(s, Stop), id)
  {
    assert id in s.queue <==> multiset(s.queue)[id] > 0;
  }

  lemma {:induction false} StepIdOk(s: State, step: Step, id: Id)
    requires Enabled(s, step) && IdOk(s, id)
    ensures IdOk(Apply(s, step), id)
  {
    if step.Stop? {
      StopOk(s, id);
    } else if Subject(s, step) == Some(id) {
      SubjectOk(s, step, id);
    } else {
      OthersUntouched(s, step, id);
    }
  }

  lemma {:induction false} StepPermits(max: nat, s: State, step: Step)
    requires Enabled(s, step) && Inv(max, s)
    ensures Apply(s, step).permits + |Holders(Apply(s, step))| == max
  {
    var s' := Apply(s, step);
    match step {
      case Dispatch =>
        HeadOfQueue(s.queue);
        assert IdOk(s, s.queue[0]);
        assert Holders(s') == Holders(s);
      case Acquire(id) => assert Holders(s') == Holders(s) + {id};
      case Release(id) => assert Holders(s') == Holders(s) - {id};
      case _ => assert Holders(s') == Holders(s);
    }
  }

  lemma {:induction false} StepInv(max: nat, s: State, step: Step)
    requires Enabled(s, step) && Inv(max, s)
    ensures Inv(max, Apply(s, step))
  {
    forall id: Id ensures IdOk(Apply(s, step), id) {
      assert IdOk(s, id);
      StepIdOk(s, step, id);
    }
    StepPermits(max, s, step);
  }

  // ---------------------------------------------------------------- places

  function Queued(s: State): set<Id> { set id | id in s.queue }

  function InPhase(s: State, p: Phase): set<Id> { set id | id in s.frames && s.frames[id] == p }

  function WithStatus(s: State, st: Status): set<Id> { set id | id in s.tasks && s.tasks[id].status == st }

  /** Seven places, by where the id is and not by what its record says; no id is in two, none in none. */
  lemma {:induction false} PlacesPartition(max: nat, s: State)
    requires Inv(max, s)
    ensures WithStatus(s, Pending) == Queued(s) + InPhase(s, Waiting)
    ensures Queued(s) !! InPhase(s, Waiting)
    ensures WithStatus(s, Running) == InPhase(s, Starting) + InPhase(s, Awaiting)
    ensures InPhase(s, Releasing) <= WithStatus(s, Completed) + WithStatus(s, Failed)
    ensures WithStatus(s, Cancelled) !! s.frames.Keys + Queued(s)
  {
    forall id: Id
      ensures id in WithStatus(s, Pending) <==> id in Queued(s) || id in InPhase(s, Waiting)
      ensures !(id in Queued(s) && id in InPhase(s, Waiting))
      ensures id in WithStatus(s, Running) <==> id in InPhase(s, Starting) || id in InPhase(s, Awaiting)
      ensures id in InPhase(s, Releasing) ==> id in WithStatus(s, Completed) || id in WithStatus(s, Failed)
      ensures id in WithStatus(s, Cancelled) ==> id !in s.frames && id !in Queued(s)
    {
      assert IdOk(s, id);
      OnePlace(s, id);
    }
  }

  /** ... and none is queued twice. */
  lemma {:induction false} QueuedOnce(s: State)
    requires forall id: Id :: IdOk(s, id)
    ensures |s.queue| == |Queued(s)|
  {
    forall id: Id ensures multiset(s.queue)[id] <= 1 {
      OnePlace(s, id);
    }
    QueueIsSet(s.queue);
  }

  lemma {:induction false} OnePlace(s: State, id: Id)
    requires IdOk(s, id)
    ensures id in WithStatus(s, Pending) <==> id in Queued(s) || id in InPhase(s, Waiting)
    ensures !(id in Queued(s) && id in InPhase(s, Waiting))
    ensures id in WithStatus(s, Running) <==> id in InPhase(s, Starting) || id in InPhase(s, Awaiting)
    ensures id in InPhase(s, Releasing) ==> id in WithStatus(s, Completed) || id in WithStatus(s, Failed)
    ensures id in WithStatus(s, Cancelled) ==> id !in s.frames && id !in Queued(s)
    ensures multiset(s.queue)[id] <= 1
  {
    assert id in s.queue <==> multiset(s.queue)[id] > 0;
  }

  lemma {:induction false} QueueIsSet(q: seq<Id>)
    requires forall id: Id :: multiset(q)[id] <= 1
    ensures |q| == |(set id | id in q)|
  {
    if q != [] {
      HeadOfQueue(q);
      assert multiset(q)[q[0]] <= 1;
      assert q[0] !in multiset(q[1..]);
      assert q[0] !in q[1..];
      forall id: Id ensures multiset(q[1..])[id] <= 1 {
        assert multiset(q)[id] <= 1;
      }
      QueueIsSet(q[1..]);
      assert (set id | id in q) == {q[0]} + (set id | id in q[1..]);
    }
  }

  lemma {:induction false} ByStatus(s: State)
    ensures |WithStatus(s, Pending)| + |WithStatus(s, Running)| + |WithStatus(s, Completed)| +
            |WithStatus(s, Failed)| + |WithStatus(s, Cancelled)| == |s.tasks|
  {
    var none: set<Status> := {};
    var one := none + {Pending};
    var two := one + {Running};
    var three := two + {Completed};
    var four := three + {Failed};
    OneMoreStatus(s, none, Pending);
    OneMoreStatus(s, one, Running);
    OneMoreStatus(s, two, Completed);
    OneMoreStatus(s, three, Failed);
    OneMoreStatus(s, four, Cancelled);
    NoStatus(s);
    AllStatuses(s, four + {Cancelled});
  }

  lemma {:induction false} NoStatus(s: State)
    ensures WithStatusIn(s, {}) == {}
  {}

  lemma {:induction false} AllStatuses(s: State, some: set<Status>)
    requires Pending in some && Running in some && Completed in some && Failed in some && Cancelled in some
    ensures WithStatusIn(s, some) == s.tasks.Keys
  {
    forall id | id in s.tasks ensures s.tasks[id].status in some {
      match s.tasks[id].status {
        case Pending => case Running => case Completed => case Failed => case Cancelled =>
      }
    }
  }

  function WithStatusIn(s: State, some: set<Status>): set<Id> { set id | id in s.tasks && s.tasks[id].status in some }

  lemma {:induction false} OneMoreStatus(s: State, some: set<Status>, st: Status)
    requires st !in some
    ensures |WithStatusIn(s, some + {st})| == |WithStatusIn(s, some)| + |WithStatus(s, st)|
  {
    assert WithStatusIn(s, some + {st}) == WithStatusIn(s, some) + WithStatus(s, st);
  }

  /** The counts add up to the number of tasks, and at most `max` are RUNNING. */
  lemma {:induction false} CountsAddUp(max: nat, s: State)
    requires Inv(max, s)
    ensures |s.queue| + |InPhase(s, Waiting)| + |WithStatus(s, Running)| + |WithStatus(s, Completed)| +
            |WithStatus(s, Failed)| + |WithStatus(s, Cancelled)| == |s.tasks|
    ensures |WithStatus(s, Running)| <= max
  {
    ByStatus(s);
    assert |WithStatus(s, Pending)| == |s.queue| + |InPhase(s, Waiting)| by {
      PlacesPartition(max, s);
      QueuedOnce(s);
    }
    RunningHoldPermits(s);
    SubsetSize(WithStatus(s, Running), Holders(s));
  }

  lemma {:induction false} RunningHoldPermits(s: State)
    requires forall id: Id :: IdOk(s, id)
    ensures WithStatus(s, Running) <= Holders(s)
  {
    forall id | id in WithStatus(s, Running) ensures id in Holders(s) {
      assert IdOk(s, id);
    }
  }

  // ---------------------------------------------------------------- one step, seen from outside

  predicate Edge(a: Status, b: Status) {
    || (a.Pending? && (b.Running? || b.Cancelled?))
    || (a.Running? && (b.Completed? || b.Failed?))
  }

  /** Records are never dropped, names never change, and a status moves along one edge or not at all. */
  lemma {:induction false} StepMovesAlongEdges(max: nat, s: State, step: Step, id: Id)
    requires Enabled(s, step) && Inv(max, s) && id in s.tasks
    ensures id in Apply(s, step).tasks
    ensures Apply(s, step).tasks[id].name == s.tasks[id].name
    ensures var before, after := s.tasks[id].status, Apply(s, step).tasks[id].status;
            after == before || Edge(before, after)
  {
    assert IdOk(s, id);
    if step.Stop? {
      assert id in s.queue <==> multiset(s.queue)[id] > 0;
    }
  }

  /**
   `stop` cancels exactly what is still queued, closing each such coroutine once; everything already
   dispatched keeps its record, its frame and its place in line for the semaphore.  In particular,
   running tasks are left running: it waits for the loop, not for them.
   */
  lemma {:induction false} StopCancelsExactlyTheQueue(max: nat, s: State)
    requires Inv(max, s)
    ensures var s' := Apply(s, Stop);
            && WithStatus(s', Cancelled) == WithStatus(s, Cancelled) + Queued(s)
            && WithStatus(s', Running) == WithStatus(s, Running)
            && s'.frames == s.frames && s'.permits == s.permits && s'.awaited == s.awaited
            && (forall id :: id in s.tasks && id !in s.queue ==> s'.tasks[id] == s.tasks[id])
            && s'.closed == s.closed + multiset(Queued(s))
  {
    var s' := Apply(s, Stop);
    forall id: Id
      ensures id in WithStatus(s', Cancelled) <==> id in WithStatus(s, Cancelled) + Queued(s)
      ensures id in WithStatus(s', Running) <==> id in WithStatus(s, Running)
      ensures multiset(s.queue)[id] <= 1
    {
      StopOne(s, id);
    }
    QueueIsMultiset(s.queue);
  }

  lemma {:induction false} StopOne(s: State, id: Id)
    requires IdOk(s, id)
    ensures id in WithStatus(Apply(s, Stop), Cancelled) <==> id in WithStatus(s, Cancelled) + Queued(s)
    ensures id in WithStatus(Apply(s, Stop), Running) <==> id in WithStatus(s, Running)
    ensures multiset(s.queue)[id] <= 1
  {
    assert id in s.queue <==> multiset(s.queue)[id] > 0;
  }

  lemma {:induction false} QueueIsMultiset(q: seq<Id>)
    requires forall id: Id :: multiset(q)[id] <= 1
    ensures multiset(q) == multiset(set id | id in q)
  {
    forall id: Id ensures multiset(q)[id] == multiset(set i | i in q)[id] {
      assert id in q <==> multiset(q)[id] > 0;
    }
  }
}
