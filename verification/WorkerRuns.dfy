/** What every interleaving of the background worker keeps, over whole runs. */
module WorkerRuns {
  import opened Options
  import opened Worker

  /** A run: any sequence of enabled steps from a new worker, stops and restarts included. */
  ghost predicate IsRun(max: nat, states: seq<State>, steps: seq<Step>) {
    && |states| == |steps| + 1
    && states[0] == Initial(max)
    && forall i :: 0 <= i < |steps| ==> Moves(states[i], steps[i], states[i + 1])
  }

  ghost predicate Moves(s: State, step: Step, s': State) {
    Enabled(s, step) && s' == Apply(s, step)
  }

  lemma {:induction false} InitialInv(max: nat)
    ensures Inv(max, Initial(max))
  {
    assert Holders(Initial(max)) == {};
  }

  /** Every reachable state satisfies the invariant. */
  lemma {:induction false} RunInv(max: nat, states: seq<State>, steps: seq<Step>, i: nat)
    requires IsRun(max, states, steps) && i < |states|
    ensures Inv(max, states[i])
  {
    if i == 0 {
      InitialInv(max);
    } else {
      RunInv(max, states, steps, i - 1);
      assert Moves(states[i - 1], steps[i - 1], states[i]);
      StepInv(max, states[i - 1], steps[i - 1]);
    }
  }

  function Enqueues(steps: seq<Step>): nat {
    if steps == [] then 0 else Enqueues(steps[..|steps| - 1]) + if steps[|steps| - 1].Enqueue? then 1 else 0
  }

  /** Conservation: what was submitted is what is in the six places, none lost and none doubled. */
  lemma {:induction false} NothingLost(max: nat, states: seq<State>, steps: seq<Step>, i: nat)
    requires IsRun(max, states, steps) && i < |states|
    ensures var s := states[i];
            |s.queue| + |InPhase(s, Waiting)| + |WithStatus(s, Running)| + |WithStatus(s, Completed)| +
            |WithStatus(s, Failed)| + |WithStatus(s, Cancelled)| == Enqueues(steps[..i])
  {
    RunInv(max, states, steps, i);
    CountsAddUp(max, states[i]);
    TasksAreEnqueues(max, states, steps, i);
  }

  lemma {:induction false} TasksAreEnqueues(max: nat, states: seq<State>, steps: seq<Step>, i: nat)
    requires IsRun(max, states, steps) && i < |states|
    ensures |states[i].tasks| == Enqueues(steps[..i])
  {
    if i > 0 {
      var s, step := states[i - 1], steps[i - 1];
      TasksAreEnqueues(max, states, steps, i - 1);
      assert Moves(s, step, states[i]);
      assert steps[..i][..i - 1] == steps[..i - 1];
      RunInv(max, states, steps, i - 1);
      StepTasks(max, s, step);
    }
  }

  lemma {:induction false} SameKeys(s: State, step: Step)
    requires Enabled(s, step) && !step.Enqueue?
    ensures Apply(s, step).tasks.Keys == s.tasks.Keys
  {}

  lemma {:induction false} StepTasks(max: nat, s: State, step: Step)
    requires Enabled(s, step) && Inv(max, s)
    ensures |Apply(s, step).tasks| == |s.tasks| + if step.Enqueue? then 1 else 0
  {
    var tasks' := Apply(s, step).tasks;
    if step.Enqueue? {
      assert tasks'.Keys == s.tasks.Keys + {step.id};
    } else {
      SameKeys(s, step);
      assert |tasks'.Keys| == |s.tasks.Keys|;
    }
  }

  // ---------------------------------------------------------------- histories

  /** Statuses that can follow one another over any number of steps. */
  predicate Reaches(a: Status, b: Status) {
    || a == b
    || (a.Pending? && !b.Pending?)
    || (a.Running? && (b.Completed? || b.Failed?))
  }

  /** A record never vanishes and its status only moves forward; a terminal status is final. */
  lemma {:induction false} StatusOnlyMovesForward(
    max: nat, states: seq<State>, steps: seq<Step>, i: nat, j: nat, id: Id)
    requires IsRun(max, states, steps) && i <= j < |states| && id in states[i].tasks
    ensures id in states[j].tasks
    ensures Reaches(states[i].tasks[id].status, states[j].tasks[id].status)
    ensures states[i].tasks[id].status.Terminal() ==> states[j].tasks[id].status == states[i].tasks[id].status
    decreases j
  {
    if i < j {
      StatusOnlyMovesForward(max, states, steps, i, j - 1, id);
      RunInv(max, states, steps, j - 1);
      assert Moves(states[j - 1], steps[j - 1], states[j]);
      StepMovesAlongEdges(max, states[j - 1], steps[j - 1], id);
    }
  }

  /** No coroutine is awaited twice, closed twice, or both awaited and closed. */
  lemma {:induction false} CoroutineUsedOnce(max: nat, states: seq<State>, steps: seq<Step>, i: nat, id: Id)
    requires IsRun(max, states, steps) && i < |states|
    ensures states[i].awaited[id] + states[i].closed[id] <= 1
    ensures id in states[i].tasks && states[i].tasks[id].status.Terminal() ==>
              && (states[i].closed[id] == 1 <==> states[i].tasks[id].status.Cancelled?)
              && (states[i].awaited[id] == 1 <==> !states[i].tasks[id].status.Cancelled?)
  {
    RunInv(max, states, steps, i);
    assert IdOk(states[i], id);
  }

  ghost predicate StoppedWhileQueued(states: seq<State>, steps: seq<Step>, k: nat, id: Id)
    requires |states| == |steps| + 1
  {
    k < |steps| && steps[k].Stop? && id in states[k].queue
  }

  /** Over a whole run, the cancelled ids are exactly those some `stop` found in the queue. */
  lemma {:induction false} CancelledMeansStopped(
    max: nat, states: seq<State>, steps: seq<Step>, i: nat, id: Id)
    requires IsRun(max, states, steps) && i < |states|
    ensures id in WithStatus(states[i], Cancelled) <==>
            exists k: nat :: k < i && StoppedWhileQueued(states, steps, k, id)
  {
    if i == 0 {
      assert id !in states[0].tasks;
    } else {
      CancelledMeansStopped(max, states, steps, i - 1, id);
      RunInv(max, states, steps, i - 1);
      assert Moves(states[i - 1], steps[i - 1], states[i]);
      CancelStep(max, states[i - 1], steps[i - 1], id);
      if id in WithStatus(states[i], Cancelled) && id !in WithStatus(states[i - 1], Cancelled) {
        assert StoppedWhileQueued(states, steps, i - 1, id);
      }
    }
  }

  lemma {:induction false} CancelStep(max: nat, s: State, step: Step, id: Id)
    requires Enabled(s, step) && Inv(max, s)
    ensures id in WithStatus(Apply(s, step), Cancelled) <==>
            id in WithStatus(s, Cancelled) || (step.Stop? && id in s.queue)
  {
    assert IdOk(s, id);
    if step.Stop? {
      assert id in s.queue ==> multiset(s.queue)[id] > 0;
    }
  }

  ghost predicate IsCompleted(s: State, id: Id) {
    id in s.tasks && s.tasks[id].status == Completed
  }

  ghost predicate IsFailed(s: State, id: Id, error: string) {
    id in s.tasks && s.tasks[id].status == Failed && s.tasks[id].error == Some(error)
  }

  lemma {:induction false} FinishStep(max: nat, s: State, step: Step, id: Id, error: string)
    requires Enabled(s, step) && Inv(max, s)
    ensures IsCompleted(Apply(s, step), id) <==> IsCompleted(s, id) || step == Finish(id, None)
    ensures IsFailed(Apply(s, step), id, error) <==> IsFailed(s, id, error) || step == Finish(id, Some(error))
  {
    assert IdOk(s, id);
    if step.Stop? {
      assert id in s.queue ==> multiset(s.queue)[id] > 0;
    } else if Subject(s, step) != Some(id) {
      OthersUntouched(s, step, id);
    }
  }

  /**
   Over a whole run a task is COMPLETED exactly when its coroutine has returned, and FAILED with a text
   exactly when it has raised with that text.
   */
  lemma {:induction false} OutcomeIsRecorded(
    max: nat, states: seq<State>, steps: seq<Step>, i: nat, id: Id, error: string)
    requires IsRun(max, states, steps) && i < |states|
    ensures id in states[i].tasks && states[i].tasks[id].status == Completed <==>
            exists k: nat :: k < i && steps[k] == Finish(id, None)
    ensures id in states[i].tasks && states[i].tasks[id].status == Failed && states[i].tasks[id].error == Some(error)
            <==> exists k: nat :: k < i && steps[k] == Finish(id, Some(error))
  {
    if i == 0 {
      assert id !in states[0].tasks;
    } else {
      OutcomeIsRecorded(max, states, steps, i - 1, id, error);
      RunInv(max, states, steps, i - 1);
      assert Moves(states[i - 1], steps[i - 1], states[i]);
      FinishStep(max, states[i - 1], steps[i - 1], id, error);
    }
  }

  predicate Dispatched(s: State, id: Id) {
    id in s.tasks && (id in s.frames || s.tasks[id].status.Completed? || s.tasks[id].status.Failed?)
  }

  /** Once dispatched, always accounted for: never cancelled, never closed, never lost. */
  lemma {:induction false} DispatchedIsNeverLost(
    max: nat, states: seq<State>, steps: seq<Step>, i: nat, j: nat, id: Id)
    requires IsRun(max, states, steps) && i <= j < |states| && Dispatched(states[i], id)
    ensures Dispatched(states[j], id) && !states[j].tasks[id].status.Cancelled? && states[j].closed[id] == 0
    decreases j
  {
    RunInv(max, states, steps, j);
    assert IdOk(states[j], id);
    if i < j {
      DispatchedIsNeverLost(max, states, steps, i, j - 1, id);
      assert Moves(states[j - 1], steps[j - 1], states[j]);
      RunInv(max, states, steps, j - 1);
      DispatchedStep(max, states[j - 1], steps[j - 1], id);
    }
  }

  lemma {:induction false} DispatchedStep(max: nat, s: State, step: Step, id: Id)
    requires Enabled(s, step) && Inv(max, s) && Dispatched(s, id)
    ensures Dispatched(Apply(s, step), id)
  {
    assert IdOk(s, id);
    if step.Stop? {
      assert id in s.queue ==> multiset(s.queue)[id] > 0;
    } else if Subject(s, step) != Some(id) {
      OthersUntouched(s, step, id);
    }
  }

  // ---------------------------------------------------------------- order

  function Submitted(steps: seq<Step>): seq<Id> {
    if steps == [] then []
    else
      var before, last := Submitted(steps[..|steps| - 1]), steps[|steps| - 1];
      if last.Enqueue? then before + [last.id] else before
  }

  /** The ids in the order in which the loop took them off the queue. */
  function DispatchOrder(states: seq<State>, steps: seq<Step>, i: nat): seq<Id>
    requires i <= |steps| <= |states|
  {
    if i == 0 then []
    else
      var before, s := DispatchOrder(states, steps, i - 1), states[i - 1];
      if steps[i - 1].Dispatch? && s.queue != [] then before + [s.queue[0]] else before
  }

  function Without(ids: seq<Id>, out: set<Id>): seq<Id> {
    if ids == [] then []
    else
      var before, id := Without(ids[..|ids| - 1], out), ids[|ids| - 1];
      if id in out then before else before + [id]
  }

  lemma {:induction false} WithoutAppend(ids: seq<Id>, id: Id, out: set<Id>)
    ensures Without(ids + [id], out) == if id in out then Without(ids, out) else Without(ids, out) + [id]
  {
    assert (ids + [id])[..|ids|] == ids;
  }

  lemma {:induction false} WithoutMore(ids: seq<Id>, out: set<Id>, more: set<Id>)
    ensures Without(ids, out + more) == Without(Without(ids, out), more)
  {
    if ids != [] {
      var front, id := ids[..|ids| - 1], ids[|ids| - 1];
      WithoutMore(front, out, more);
      assert front + [id] == ids;
      WithoutAppend(front, id, out + more);
      WithoutAppend(front, id, out);
      WithoutAppend(Without(front, out), id, more);
    }
  }

  lemma {:induction false} WithoutTail(kept: seq<Id>, dropped: seq<Id>, out: set<Id>)
    requires forall id :: id in kept ==> id !in out
    requires forall id :: id in dropped ==> id in out
    ensures Without(kept + dropped, out) == kept
  {
    if dropped != [] {
      var front, id := dropped[..|dropped| - 1], dropped[|dropped| - 1];
      WithoutTail(kept, front, out);
      assert kept + dropped == (kept + front) + [id];
      WithoutAppend(kept + front, id, out);
    } else if kept != [] {
      var front, id := kept[..|kept| - 1], kept[|kept| - 1];
      WithoutTail(front, [], out);
      assert front + [] == front && kept + dropped == front + [id];
      WithoutAppend(front, id, out);
    }
  }

  lemma {:induction false} OrderIsDispatched(max: nat, states: seq<State>, steps: seq<Step>, i: nat, id: Id)
    requires IsRun(max, states, steps) && i <= |steps| && id in DispatchOrder(states, steps, i)
    ensures Dispatched(states[i], id)
  {
    RunInv(max, states, steps, i - 1);
    assert Moves(states[i - 1], steps[i - 1], states[i]);
    if id in DispatchOrder(states, steps, i - 1) {
      OrderIsDispatched(max, states, steps, i - 1, id);
      DispatchedStep(max, states[i - 1], steps[i - 1], id);
    } else {
      DispatchDispatches(max, states[i - 1]);
    }
  }

  lemma {:induction false} DispatchDispatches(max: nat, s: State)
    requires Inv(max, s) && Enabled(s, Dispatch)
    ensures Dispatched(Apply(s, Dispatch), s.queue[0])
  {
    assert s.queue[0] in multiset(s.queue) && IdOk(s, s.queue[0]);
  }

  lemma {:induction false} DispatchedNotQueued(s: State, id: Id)
    requires IdOk(s, id) && Dispatched(s, id)
    ensures id !in Queued(s)
  {
    assert id in s.queue ==> multiset(s.queue)[id] > 0;
  }

  /** The relation that `FirstInFirstOut` carries along a run. */
  ghost predicate InOrder(dispatched: seq<Id>, s: State, submitted: seq<Id>) {
    dispatched + s.queue == Without(submitted, WithStatus(s, Cancelled))
  }

  lemma {:induction false} StopInOrder(max: nat, dispatched: seq<Id>, s: State, submitted: seq<Id>)
    requires Inv(max, s) && InOrder(dispatched, s, submitted)
    requires forall id :: id in dispatched ==> id !in Queued(s)
    ensures InOrder(dispatched, Apply(s, Stop), submitted)
  {
    StopCancelsExactlyTheQueue(max, s);
    WithoutMore(submitted, WithStatus(s, Cancelled), Queued(s));
    WithoutTail(dispatched, s.queue, Queued(s));
    assert Apply(s, Stop).queue == [] && dispatched + [] == dispatched;
  }

  lemma {:induction false} EnqueueInOrder(max: nat, dispatched: seq<Id>, s: State, submitted: seq<Id>, step: Step)
    requires Inv(max, s) && InOrder(dispatched, s, submitted) && step.Enqueue? && Enabled(s, step)
    ensures InOrder(dispatched, Apply(s, step), submitted + [step.id])
  {
    SameCancelled(max, s, step);
    WithoutAppend(submitted, step.id, WithStatus(s, Cancelled));
    assert dispatched + (s.queue + [step.id]) == (dispatched + s.queue) + [step.id];
  }

  lemma {:induction false} DispatchInOrder(max: nat, dispatched: seq<Id>, s: State, submitted: seq<Id>)
    requires Inv(max, s) && InOrder(dispatched, s, submitted) && Enabled(s, Dispatch)
    ensures InOrder(dispatched + [s.queue[0]], Apply(s, Dispatch), submitted)
  {
    SameCancelled(max, s, Dispatch);
    assert (dispatched + [s.queue[0]]) + s.queue[1..] == dispatched + s.queue;
  }

  lemma {:induction false} OtherInOrder(max: nat, dispatched: seq<Id>, s: State, submitted: seq<Id>, step: Step)
    requires Inv(max, s) && InOrder(dispatched, s, submitted) && Enabled(s, step)
    requires !step.Stop? && !step.Enqueue? && !step.Dispatch?
    ensures InOrder(dispatched, Apply(s, step), submitted)
  {
    SameCancelled(max, s, step);
  }

  /** One step carries the relation along, if what was dispatched is no longer queued. */
  lemma {:induction false} StepInOrder(max: nat, dispatched: seq<Id>, s: State, submitted: seq<Id>, step: Step)
    requires Inv(max, s) && InOrder(dispatched, s, submitted) && Enabled(s, step)
    requires forall id :: id in dispatched ==> id !in Queued(s)
    ensures InOrder(if step.Dispatch? then dispatched + [s.queue[0]] else dispatched, Apply(s, step),
                    if step.Enqueue? then submitted + [step.id] else submitted)
  {
    match step {
      case Stop => StopInOrder(max, dispatched, s, submitted);
      case Enqueue(_, _) => EnqueueInOrder(max, dispatched, s, submitted, step);
      case Dispatch => DispatchInOrder(max, dispatched, s, submitted);
      case _ => OtherInOrder(max, dispatched, s, submitted, step);
    }
  }

  /**
   First in, first out, across any number of stops: what has been dispatched, followed by what is still
   queued, is what was submitted, in that order, less what has been cancelled.
   */
  lemma {:induction false} FirstInFirstOut(max: nat, states: seq<State>, steps: seq<Step>, i: nat)
    requires IsRun(max, states, steps) && i <= |steps|
    ensures InOrder(DispatchOrder(states, steps, i), states[i], Submitted(steps[..i]))
  {
    if i > 0 {
      var s, step, before := states[i - 1], steps[i - 1], DispatchOrder(states, steps, i - 1);
      FirstInFirstOut(max, states, steps, i - 1);
      RunInv(max, states, steps, i - 1);
      assert Moves(s, step, states[i]);
      assert steps[..i][..i - 1] == steps[..i - 1];
      forall id | id in before ensures id !in Queued(s) {
        OrderIsDispatched(max, states, steps, i - 1, id);
        assert IdOk(s, id);
        DispatchedNotQueued(s, id);
      }
      StepInOrder(max, before, s, Submitted(steps[..i - 1]), step);
    }
  }

  lemma {:induction false} SameCancelled(max: nat, s: State, step: Step)
    requires Enabled(s, step) && Inv(max, s) && !step.Stop?
    ensures WithStatus(Apply(s, step), Cancelled) == WithStatus(s, Cancelled)
  {
    forall id: Id ensures id in WithStatus(Apply(s, step), Cancelled) <==> id in WithStatus(s, Cancelled) {
      CancelStep(max, s, step, id);
    }
  }

  // ---------------------------------------------------------------- what stop leaves behind

  /** A frame that waits for the semaphore when `stop` is called gets its turn afterwards all the same. */
  lemma {:induction false} WaitingStillRuns(max: nat, s: State, id: Id)
    requires Inv(max, s) && At(s, id, Waiting) && s.permits > 0
    ensures var s' := Apply(s, Stop);
            && !s'.running && Enabled(s', Acquire(id))
            && Apply(s', Acquire(id)).tasks[id].status == Running
  {
    assert IdOk(s, id);
    assert id in s.queue ==> multiset(s.queue)[id] > 0;
  }

  lemma {:induction false} OneMoreStep(max: nat, states: seq<State>, steps: seq<Step>, step: Step, s: State)
    requires IsRun(max, states, steps) && Moves(states[|steps|], step, s)
    ensures IsRun(max, states + [s], steps + [step])
  {
    var all, taken := states + [s], steps + [step];
    forall i | 0 <= i < |taken| ensures Moves(all[i], taken[i], all[i + 1]) {
      if i < |steps| {
        assert Moves(states[i], steps[i], states[i + 1]);
      }
    }
  }

  const NEW := Task(Pending, "", None)

  const STARTED := Task(Running, "", None)

  /** Two tasks enqueued, the first of them taken up. */
  lemma {:induction false} FirstTaskStarts(a: Id, b: Id) returns (states: seq<State>, steps: seq<Step>)
    requires a != b
    ensures IsRun(2, states, steps)
    ensures states[|steps|] ==
            State([b], map[a := STARTED, b := NEW], 1, true, map[a := Starting], multiset{}, multiset{})
  {
    var s1 := State([a], map[a := NEW], 2, false, map[], multiset{}, multiset{});
    var s2 := s1.(queue := [a, b], tasks := map[a := NEW, b := NEW]);
    var s4 := s2.(running := true, queue := [b], frames := map[a := Waiting]);
    OneMoreStep(2, [Initial(2)], [], Enqueue(a, ""), s1);
    OneMoreStep(2, [Initial(2), s1], [Enqueue(a, "")], Enqueue(b, ""), s2);
    states, steps := [Initial(2), s1, s2], [Enqueue(a, ""), Enqueue(b, "")];
    OneMoreStep(2, states, steps, Start, s2.(running := true));
    states, steps := states + [s2.(running := true)], steps + [Start];
    OneMoreStep(2, states, steps, Dispatch, s4);
    states, steps := states + [s4], steps + [Dispatch];
    var s5 := s4.(permits := 1, tasks := map[a := STARTED, b := NEW], frames := map[a := Starting]);
    OneMoreStep(2, states, steps, Acquire(a), s5);
    states, steps := states + [s5], steps + [Acquire(a)];
  }

  /** A witness: after `stop` one task is still RUNNING, and another, dispatched and waiting, turns RUNNING. */
  lemma {:induction false} StopDoesNotWait(a: Id, b: Id) returns (states: seq<State>, steps: seq<Step>)
    requires a != b
    ensures IsRun(2, states, steps) && |steps| >= 2 && steps[|steps| - 2] == Stop
    ensures a in WithStatus(states[|steps| - 1], Running) && b in WithStatus(states[|steps| - 1], Pending)
    ensures !states[|steps|].running && b in WithStatus(states[|steps|], Running)
  {
    states, steps := FirstTaskStarts(a, b);
    var s5 := states[|steps|];
    var s6 := s5.(queue := [], frames := map[a := Starting, b := Waiting]);
    OneMoreStep(2, states, steps, Dispatch, s6);
    states, steps := states + [s6], steps + [Dispatch];
    var s7 := s6.(running := false);
    assert CancelAll(s6.tasks, []) == s6.tasks;
    OneMoreStep(2, states, steps, Stop, s7);
    states, steps := states + [s7], steps + [Stop];
    var s8 := s7.(permits := 0, tasks := map[a := STARTED, b := STARTED], frames := map[a := Starting, b := Starting]);
    OneMoreStep(2, states, steps, Acquire(b), s8);
    states, steps := states + [s8], steps + [Acquire(b)];
  }

  // ---------------------------------------------------------------- progress

  /** The steps the worker takes by itself. */
  predicate Internal(step: Step) {
    step.Dispatch? || step.Acquire? || step.Begin? || step.Finish? || step.Release?
  }

  ghost predicate Quiescent(s: State) {
    forall step: Step :: Internal(step) ==> !Enabled(s, step)
  }

  /** How much is left to do for what has been submitted. */
  function Work(s: State): nat {
    5 * |s.queue| + 4 * |InPhase(s, Waiting)| + 3 * |InPhase(s, Starting)| + 2 * |InPhase(s, Awaiting)| +
    |InPhase(s, Releasing)|
  }

  lemma {:induction false} PhaseMove(s: State, s': State, id: Id, p: Phase, q: Phase, r: Phase)
    requires At(s, id, p) && p != q && s'.frames == s.frames[id := q]
    ensures |InPhase(s', r)| == |InPhase(s, r)| + (if r == q then 1 else 0) - (if r == p then 1 else 0)
  {
    if r == q {
      assert InPhase(s', r) == InPhase(s, r) + {id};
    } else if r == p {
      assert InPhase(s', r) == InPhase(s, r) - {id};
    } else {
      assert InPhase(s', r) == InPhase(s, r);
    }
  }

  lemma {:induction false} PhaseMoves(s: State, s': State, id: Id, p: Phase, q: Phase)
    requires At(s, id, p) && p != q && s'.frames == s.frames[id := q]
    ensures forall r: Phase :: |InPhase(s', r)| ==
              |InPhase(s, r)| + (if r == q then 1 else 0) - (if r == p then 1 else 0)
  {
    forall r: Phase { PhaseMove(s, s', id, p, q, r); }
  }

  lemma {:induction false} DispatchAddsWaiting(s: State, s': State, id: Id)
    requires id !in s.frames && s'.frames == s.frames[id := Waiting]
    ensures |InPhase(s', Waiting)| == |InPhase(s, Waiting)| + 1
    ensures forall r: Phase :: r != Waiting ==> InPhase(s', r) == InPhase(s, r)
  {
    assert InPhase(s', Waiting) == InPhase(s, Waiting) + {id};
  }

  lemma {:induction false} ReleaseDropsOne(s: State, s': State, id: Id)
    requires At(s, id, Releasing) && s'.frames == s.frames - {id}
    ensures |InPhase(s', Releasing)| == |InPhase(s, Releasing)| - 1
    ensures forall r: Phase :: r != Releasing ==> InPhase(s', r) == InPhase(s, r)
  {
    assert InPhase(s', Releasing) == InPhase(s, Releasing) - {id};
  }

  /** Every internal step makes progress, so no run takes infinitely many without a new submission. */
  lemma {:induction false} InternalStepsDoWork(max: nat, s: State, step: Step)
    requires Inv(max, s) && Enabled(s, step) && Internal(step)
    ensures Work(Apply(s, step)) == Work(s) - 1
  {
    var s' := Apply(s, step);
    match step {
      case Dispatch =>
        HeadOfQueue(s.queue);
        assert IdOk(s, s.queue[0]);
        DispatchAddsWaiting(s, s', s.queue[0]);
      case Acquire(id) => PhaseMoves(s, s', id, Waiting, Starting);
      case Begin(id) => PhaseMoves(s, s', id, Starting, Awaiting);
      case Finish(id, _) => PhaseMoves(s, s', id, Awaiting, Releasing);
      case Release(id) => ReleaseDropsOne(s, s', id);
    }
  }

  /** With no caller steps, a run is no longer than the work it started with. */
  lemma {:induction false} InternalRunsAreShort(
    max: nat, states: seq<State>, steps: seq<Step>, i: nat, j: nat)
    requires IsRun(max, states, steps) && i <= j < |states|
    requires forall k :: i <= k < j ==> Internal(steps[k])
    ensures Work(states[j]) == Work(states[i]) - (j - i)
    decreases j
  {
    if i < j {
      InternalRunsAreShort(max, states, steps, i, j - 1);
      RunInv(max, states, steps, j - 1);
      assert Moves(states[j - 1], steps[j - 1], states[j]);
      InternalStepsDoWork(max, states[j - 1], steps[j - 1]);
    }
  }

  /** No deadlock: with at least one permit, anything dispatched and unfinished can move something. */
  lemma {:induction false} FramesCanMove(max: nat, s: State, id: Id)
    requires Inv(max, s) && max >= 1 && id in s.frames
    ensures exists step: Step :: Internal(step) && Enabled(s, step)
  {
    assert IdOk(s, id);
    if s.frames[id] != Waiting {
      HolderCanMove(s, id);
    } else if s.permits > 0 {
      assert Internal(Acquire(id)) && Enabled(s, Acquire(id));
    } else {
      assert Holders(s) != {};
      var h :| h in Holders(s);
      assert IdOk(s, h);
      HolderCanMove(s, h);
    }
  }

  lemma {:induction false} HolderCanMove(s: State, id: Id)
    requires IdOk(s, id) && id in Holders(s)
    ensures exists step: Step :: Internal(step) && Enabled(s, step)
  {
    var step := match s.frames[id]
      case Starting => Begin(id)
      case Awaiting => Finish(id, None)
      case _ => Release(id);
    assert Internal(step) && Enabled(s, step);
  }

  /**
   When nothing more can happen by itself, everything dispatched has finished, and the queue is
   non-empty only if the worker is stopped.  One permit is needed: see ZeroPermitsStall.
   */
  lemma {:induction false} QuiescentMeansDone(max: nat, s: State)
    requires Inv(max, s) && Quiescent(s) && max >= 1
    ensures s.frames == map[] && s.permits == max
    ensures forall id :: id in s.tasks ==> s.tasks[id].status.Terminal() || (id in s.queue && !s.running)
  {
    forall id: Id ensures id !in s.frames {
      if id in s.frames {
        FramesCanMove(max, s, id);
      }
    }
    assert Holders(s) == {};
    assert !Enabled(s, Dispatch);
    forall id | id in s.tasks ensures s.tasks[id].status.Terminal() || (id in s.queue && !s.running) {
      assert IdOk(s, id);
      assert id in s.queue <==> multiset(s.queue)[id] > 0;
    }
  }

  predicate NotStarted(s: State, id: Id) {
    && s.awaited[id] == 0
    && (id in s.tasks ==> s.tasks[id].status.Pending? || s.tasks[id].status.Cancelled?)
  }

  lemma {:induction false} ZeroPermitsStep(s: State, step: Step, id: Id)
    requires Inv(0, s) && Enabled(s, step) && NotStarted(s, id)
    ensures NotStarted(Apply(s, step), id)
  {
    if step.Acquire? || step.Begin? || step.Finish? || step.Release? {
      assert Holders(s) == {};
      assert step.id !in Holders(s);
    }
  }

  /** With max_concurrent = 0 nothing is ever RUNNING or finished, in any run. */
  lemma {:induction false} ZeroPermitsStall(states: seq<State>, steps: seq<Step>, i: nat, id: Id)
    requires IsRun(0, states, steps) && i < |states|
    ensures NotStarted(states[i], id)
  {
    if i > 0 {
      ZeroPermitsStall(states, steps, i - 1, id);
      RunInv(0, states, steps, i - 1);
      assert Moves(states[i - 1], steps[i - 1], states[i]);
      ZeroPermitsStep(states[i - 1], steps[i - 1], id);
    }
  }
}
