/**
 Tenant lookup by API key hash: app/infrastructure/repositories/postgres_tenant_repo.py, as an
 interleaving of readers, writers and expiry on one row and its one cache key.

 `versions` is everything the row has ever been.  Entries and flights carry, besides the row the code
 holds, which version it is and when it was read; no step looks at those.
 */
module TenantCache {
  import opened Options

  const TTL: real := 300.0

  datatype Row = Row(active: bool, data: string)

  datatype Version = Version(at: real, row: Option<Row>)

  /** A row on its way from the database to a caller or to the cache. */
  datatype Read = Read(row: Row, version: nat, at: real)

  datatype Entry = Entry(read: Read, expires: real)

  /** A lookup that missed the cache: before its SELECT, and after. */
  datatype Flight = Missed | Holding(read: Read)

  /** `updates` are the calls of `update` between their two statements, with the version each wrote. */
  datatype State = State(
    clock: real,
    versions: seq<Version>,
    cache: Option<Entry>,
    flights: map<nat, Flight>,
    updates: map<nat, nat>)

  datatype Step =
    | Tick(to: real)
    | Hit                                  // a lookup served from the cache
    | Miss(id: nat)                        // a lookup that finds nothing usable there
    | Select(id: nat)                      // its database read
    | WriteBack(id: nat, ok: bool)         // its cache write, which may fail, and its return
    | Insert(row: Row)                     // save: ON CONFLICT DO NOTHING
    | Update(id: nat, row: Row)            // first half of update
    | Invalidate(id: nat, ok: bool)        // second half, which may fail
    | SoftDelete                           // delete: is_active = FALSE, no invalidation
    | Evict                                // expiry, or memory pressure at any time

  function Current(s: State): Option<Row>
    requires s.versions != []
  {
    s.versions[|s.versions| - 1].row
  }

  function Write(s: State, row: Row): State {
    s.(versions := s.versions + [Version(s.clock, Some(row))])
  }

  predicate Usable(s: State) { s.cache.Some? && s.clock < s.cache.value.expires }

  predicate Enabled(s: State, step: Step) {
    && s.versions != []
    && match step
       case Tick(to) => s.clock <= to
       case Hit => Usable(s)
       case Miss(id) => id !in s.flights
       case Select(id) => id in s.flights && s.flights[id].Missed?
       case WriteBack(id, _) => id in s.flights && s.flights[id].Holding?
       case Update(id, _) => id !in s.updates
       case Invalidate(id, _) => id in s.updates
       case _ => true
  }

  function Apply(s: State, step: Step): State
    requires Enabled(s, step)
  {
    match step
    case Tick(to) => s.(clock := to)
    case Hit => s
    case Miss(id) => s.(flights := s.flights[id := Missed])
    case Select(id) =>
      (match Current(s)
       case None => s.(flights := s.flights - {id})
       case Some(row) => s.(flights := s.flights[id := Holding(Read(row, |s.versions| - 1, s.clock))]))
    case WriteBack(id, ok) =>
      var s' := s.(flights := s.flights - {id});
      if ok then s'.(cache := Some(Entry(s.flights[id].read, s.clock + TTL))) else s'
    case Insert(row) => if Current(s).None? then Write(s, row) else s
    case Update(id, row) =>
      var s' := if Current(s).Some? then Write(s, row) else s;
      s'.(updates := s.updates[id := |s'.versions| - 1])
    case Invalidate(id, ok) =>
      var s' := s.(updates := s.updates - {id});
      if ok then s'.(cache := None) else s'
    case SoftDelete => if Current(s).Some? then Write(s, Current(s).value.(active := false)) else s
    case Evict => s.(cache := None)
  }

  /** What a step hands back to a lookup's caller: a row, the version it is and when that was read. */
  datatype Answer = Answer(row: Option<Row>, version: nat, at: real)

  function Returned(s: State, step: Step): Option<Answer>
    requires Enabled(s, step)
  {
    match step
    case Hit => var r := s.cache.value.read; Some(Answer(Some(r.row), r.version, r.at))
    case Select(_) => if Current(s).None? then Some(Answer(None, |s.versions| - 1, s.clock)) else None
    case WriteBack(id, _) => var r := s.flights[id].read; Some(Answer(Some(r.row), r.version, r.at))
    case _ => None
  }

  function Initial(t0: real): State { State(t0, [Version(t0, None)], None, map[], map[]) }

  /** A run in which no lookup takes longer than `gap` from its SELECT to its cache write. */
  ghost predicate IsRun(t0: real, gap: real, states: seq<State>, steps: seq<Step>) {
    && |states| == |steps| + 1
    && states[0] == Initial(t0)
    && forall i :: 0 <= i < |steps| ==> Moves(gap, states[i], steps[i], states[i + 1])
  }

  ghost predicate Moves(gap: real, s: State, step: Step, s': State) {
    && Enabled(s, step) && s' == Apply(s, step)
    && (step.WriteBack? ==> s.clock - s.flights[step.id].read.at <= gap)
  }

  // ---------------------------------------------------------------- bounded staleness

  /** Version v was the row at instant t. */
  ghost predicate CurrentAt(versions: seq<Version>, v: nat, t: real) {
    v < |versions| && versions[v].at <= t && (v + 1 < |versions| ==> t <= versions[v + 1].at)
  }

  ghost predicate Genuine(s: State, r: Read) {
    r.at <= s.clock && CurrentAt(s.versions, r.version, r.at) && s.versions[r.version].row == Some(r.row)
  }

  ghost predicate Inv(gap: real, s: State) {
    && s.versions != []
    && (forall i, j :: 0 <= i < j < |s.versions| ==> s.versions[i].at <= s.versions[j].at)
    && s.versions[|s.versions| - 1].at <= s.clock
    && (s.cache.Some? ==> Genuine(s, s.cache.value.read) && s.cache.value.expires <= s.cache.value.read.at + gap + TTL)
    && (forall id :: id in s.flights && s.flights[id].Holding? ==> Genuine(s, s.flights[id].read))
  }

  lemma {:induction false} WriteKeepsGenuine(s: State, row: Row, r: Read)
    requires s.versions != [] && s.versions[|s.versions| - 1].at <= s.clock && Genuine(s, r)
    ensures Genuine(Write(s, row), r)
  {}

  lemma {:induction false} WriteInv(gap: real, s: State, row: Row)
    requires Inv(gap, s)
    ensures Inv(gap, Write(s, row))
  {
    if s.cache.Some? {
      WriteKeepsGenuine(s, row, s.cache.value.read);
    }
    forall id | id in s.flights && s.flights[id].Holding? ensures Genuine(Write(s, row), s.flights[id].read) {
      WriteKeepsGenuine(s, row, s.flights[id].read);
    }
  }

  lemma {:induction false} LookupInv(gap: real, s: State, step: Step)
    requires Inv(gap, s) && Enabled(s, step) && Moves(gap, s, step, Apply(s, step))
    requires step.Select? || step.WriteBack?
    ensures Inv(gap, Apply(s, step))
  {}

  lemma {:induction false} StepInv(gap: real, s: State, step: Step)
    requires Inv(gap, s) && Enabled(s, step) && Moves(gap, s, step, Apply(s, step))
    ensures Inv(gap, Apply(s, step))
  {
    match step {
      case Select(_) => LookupInv(gap, s, step);
      case WriteBack(_, _) => LookupInv(gap, s, step);
      case Insert(row) => WriteInv(gap, s, row);
      case Update(_, row) => WriteInv(gap, s, row);
      case SoftDelete => if Current(s).Some? { WriteInv(gap, s, Current(s).value.(active := false)); }
      case _ =>
    }
  }

  lemma {:induction false} RunInv(t0: real, gap: real, states: seq<State>, steps: seq<Step>, i: nat)
    requires IsRun(t0, gap, states, steps) && i < |states|
    ensures Inv(gap, states[i])
  {
    if i > 0 {
      RunInv(t0, gap, states, steps, i - 1);
      assert Moves(gap, states[i - 1], steps[i - 1], states[i]);
      StepInv(gap, states[i - 1], steps[i - 1]);
    }
  }

  lemma {:induction false} AnswerIsGenuine(gap: real, s: State, step: Step)
    requires gap >= 0.0 && Inv(gap, s) && Enabled(s, step) && Moves(gap, s, step, Apply(s, step))
    requires Returned(s, step).Some?
    ensures var a := Returned(s, step).value;
            && a.at <= s.clock <= a.at + TTL + gap
            && CurrentAt(s.versions, a.version, a.at) && s.versions[a.version].row == a.row
  {}

  /**
   Bounded staleness: whatever a lookup returns was the row's value at some instant at most 300 s plus
   the longest read-to-write gap ago, in every interleaving.
   */
  lemma {:induction false} BoundedStaleness(t0: real, gap: real, states: seq<State>, steps: seq<Step>, i: nat)
    requires IsRun(t0, gap, states, steps) && gap >= 0.0 && i < |steps|
    requires Enabled(states[i], steps[i]) && Returned(states[i], steps[i]).Some?
    ensures var a := Returned(states[i], steps[i]).value;
            && a.at <= states[i].clock <= a.at + 300.0 + gap
            && CurrentAt(states[i].versions, a.version, a.at) && states[i].versions[a.version].row == a.row
  {
    RunInv(t0, gap, states, steps, i);
    assert Moves(gap, states[i], steps[i], states[i + 1]);
    AnswerIsGenuine(gap, states[i], steps[i]);
  }

  lemma {:induction false} OlderWasReplaced(versions: seq<Version>, u: nat, v: nat, t: real)
    requires forall i, j :: 0 <= i < j < |versions| ==> versions[i].at <= versions[j].at
    requires CurrentAt(versions, u, t) && v < |versions|
    ensures u >= v || t <= versions[v].at
  {
    if u + 1 < v {
      assert versions[u + 1].at <= versions[v].at;
    }
  }

  /**
   So every write, invalidated or not, is seen by every lookup that returns more than 300 s + gap later.
   */
  lemma {:induction false} EveryWriteBecomesVisible(
    t0: real, gap: real, states: seq<State>, steps: seq<Step>, i: nat, v: nat)
    requires IsRun(t0, gap, states, steps) && gap >= 0.0 && i < |steps|
    requires Enabled(states[i], steps[i]) && Returned(states[i], steps[i]).Some?
    requires v < |states[i].versions| && states[i].clock > states[i].versions[v].at + 300.0 + gap
    ensures Returned(states[i], steps[i]).value.version >= v
  {
    BoundedStaleness(t0, gap, states, steps, i);
    RunInv(t0, gap, states, steps, i);
    var a := Returned(states[i], steps[i]).value;
    OlderWasReplaced(states[i].versions, a.version, v, a.at);
  }

  // ---------------------------------------------------------------- read your writes

  /** Nothing older than version v can be served from the cache or is on its way there. */
  ghost predicate FreshFrom(s: State, v: nat) {
    && v < |s.versions|
    && (Usable(s) ==> s.cache.value.read.version >= v)
    && (forall id :: id in s.flights && s.flights[id].Holding? ==> s.flights[id].read.version >= v)
  }

  /** A continuation: any steps from a given state on. */
  ghost predicate Continues(states: seq<State>, steps: seq<Step>) {
    && |states| == |steps| + 1
    && forall i :: 0 <= i < |steps| ==> Enabled(states[i], steps[i]) && states[i + 1] == Apply(states[i], steps[i])
  }

  lemma {:induction false} StepFresh(s: State, step: Step, v: nat)
    requires Enabled(s, step) && FreshFrom(s, v)
    ensures FreshFrom(Apply(s, step), v)
    ensures Returned(s, step).Some? ==> Returned(s, step).value.version >= v
  {}

  lemma {:induction false} ContinuationFresh(states: seq<State>, steps: seq<Step>, v: nat, i: nat)
    requires Continues(states, steps) && FreshFrom(states[0], v) && i < |states|
    ensures FreshFrom(states[i], v)
    ensures i < |steps| && Returned(states[i], steps[i]).Some? ==> Returned(states[i], steps[i]).value.version >= v
  {
    if i > 0 {
      ContinuationFresh(states, steps, v, i - 1);
      StepFresh(states[i - 1], steps[i - 1], v);
    }
    if i < |steps| {
      StepFresh(states[i], steps[i], v);
    }
  }

  /** No lookup holds a row older than the update when the update invalidates. */
  ghost predicate NoneInFlightAcross(s: State, update: nat)
    requires update in s.updates
  {
    forall id :: id in s.flights && s.flights[id].Holding? ==> s.flights[id].read.version >= s.updates[update]
  }

  /** The promise: from here on, every lookup returns version v or newer, whatever happens. */
  ghost predicate AlwaysFrom(s: State, v: nat) {
    forall states: seq<State>, steps: seq<Step>, i: nat ::
      Continues(states, steps) && states[0] == s && i < |steps| && Returned(states[i], steps[i]).Some? ==>
        Returned(states[i], steps[i]).value.version >= v
  }

  lemma {:induction false} FreshMeansAlways(s: State, v: nat)
    requires FreshFrom(s, v)
    ensures AlwaysFrom(s, v)
  {
    forall states: seq<State>, steps: seq<Step>, i: nat
      | Continues(states, steps) && states[0] == s && i < |steps| && Returned(states[i], steps[i]).Some?
      ensures Returned(states[i], steps[i]).value.version >= v
    {
      ContinuationFresh(states, steps, v, i);
    }
  }

  /**
   Exactly when `update` is read back: after its invalidation every lookup, in every continuation, sees
   that update or something newer if and only if no lookup was in flight across it with an older row.
   */
  lemma {:induction false} UpdateIsReadBackExactly(s: State, update: nat)
    requires s.versions != [] && update in s.updates && s.updates[update] < |s.versions|
    ensures AlwaysFrom(Apply(s, Invalidate(update, true)), s.updates[update]) <==> NoneInFlightAcross(s, update)
  {
    var s', v := Apply(s, Invalidate(update, true)), s.updates[update];
    if NoneInFlightAcross(s, update) {
      FreshMeansAlways(s', v);
    } else {
      var id :| id in s.flights && s.flights[id].Holding? && s.flights[id].read.version < v;
      LateWriteBackIsStale(s', id, v);
    }
  }

  /** A write-back that comes after the invalidation poisons the cache for the next lookup. */
  lemma {:induction false} LateWriteBackIsStale(s: State, id: nat, v: nat)
    requires s.versions != [] && id in s.flights && s.flights[id].Holding? && s.flights[id].read.version < v
    ensures !AlwaysFrom(s, v)
  {
    var s1 := Apply(s, WriteBack(id, true));
    var states, steps := [s, s1, s1], [WriteBack(id, true), Hit];
    assert Enabled(s1, Hit) && Apply(s1, Hit) == s1;
    assert Continues(states, steps);
    assert Returned(states[1], steps[1]).value.version < v;
  }

  // ---------------------------------------------------------------- soft deletes

  /** A cached row of an older version is what the next lookup returns. */
  lemma {:induction false} UsableIsServed(s: State, v: nat)
    requires s.versions != [] && Usable(s) && s.cache.value.read.version < v
    ensures !AlwaysFrom(s, v)
  {
    var states, steps := [s, s], [Hit];
    assert Enabled(s, Hit) && Apply(s, Hit) == s;
    assert Continues(states, steps);
    assert Returned(states[0], steps[0]).value.version < v;
  }

  /**
   Exactly when a soft delete is seen.  It does not touch the cache, so from then on every lookup, in
   every continuation, sees the deleted row or something newer if and only if the cache has nothing
   usable at that moment and no lookup stands between its SELECT and its cache write.
   */
  lemma {:induction false} SoftDeleteIsSeenExactly(gap: real, s: State)
    requires Inv(gap, s) && Current(s).Some?
    ensures AlwaysFrom(Apply(s, SoftDelete), |s.versions|) <==>
            !Usable(s) && forall id :: id in s.flights ==> s.flights[id].Missed?
  {
    var s', v := Apply(s, SoftDelete), |s.versions|;
    assert s'.cache == s.cache && s'.flights == s.flights && s'.clock == s.clock;
    if Usable(s) {
      assert Genuine(s, s.cache.value.read);
      UsableIsServed(s', v);
    } else if id :| id in s.flights && s.flights[id].Holding? {
      assert Genuine(s, s.flights[id].read);
      LateWriteBackIsStale(s', id, v);
    } else {
      FreshMeansAlways(s', v);
    }
  }

  /** A witness: a run in which a lookup 299 s after the soft delete still returns the active tenant. */
  lemma {:induction false} DeletedTenantIsServed(row: Row) returns (states: seq<State>, steps: seq<Step>)
    requires row.active
    ensures IsRun(0.0, 0.0, states, steps) && |steps| == 7
    ensures steps[4] == SoftDelete && steps[5] == Tick(299.0) && states[5].clock == 0.0
    ensures states[6].versions[|states[6].versions| - 1].row == Some(row.(active := false))
    ensures steps[6] == Hit && Enabled(states[6], Hit) && Returned(states[6], Hit).value.row == Some(row)
  {
    var s0 := Initial(0.0);
    var s1 := Write(s0, row);
    var s2 := s1.(flights := map[0 := Missed]);
    var read := Read(row, 1, 0.0);
    var s3 := s2.(flights := map[0 := Holding(read)]);
    var s4 := s1.(flights := map[], cache := Some(Entry(read, TTL)));
    var s5 := Write(s4, row.(active := false));
    var s6 := s5.(clock := 299.0);
    states := [s0, s1, s2, s3, s4, s5, s6, s6];
    steps := [Insert(row), Miss(0), Select(0), WriteBack(0, true), SoftDelete, Tick(299.0), Hit];
    FirstLookup(row, s1, s2, s3, s4);
    assert Moves(0.0, s0, Insert(row), s1);
    assert Moves(0.0, s4, SoftDelete, s5);
    assert Moves(0.0, s5, Tick(299.0), s6);
    assert Moves(0.0, s6, Hit, s6);
  }

  lemma {:induction false} FirstLookup(row: Row, s1: State, s2: State, s3: State, s4: State)
    requires s1 == Write(Initial(0.0), row) && s2 == s1.(flights := map[0 := Missed])
    requires s3 == s2.(flights := map[0 := Holding(Read(row, 1, 0.0))])
    requires s4 == s1.(flights := map[], cache := Some(Entry(Read(row, 1, 0.0), TTL)))
    ensures Moves(0.0, s1, Miss(0), s2) && Moves(0.0, s2, Select(0), s3) && Moves(0.0, s3, WriteBack(0, true), s4)
  {
    assert Apply(s2, Select(0)).flights == s3.flights;
    assert Apply(s3, WriteBack(0, true)).flights == s4.flights;
  }

  // ---------------------------------------------------------------- what is written, by content

  /** The row in the database. */
  ghost predicate Stored(s: State, row: Option<Row>) {
    s.versions != [] && s.versions[|s.versions| - 1].row == row
  }

  /** `update` stores the row it is given, where there is one. */
  lemma {:induction false} UpdateStores(s: State, id: nat, row: Row, before: Option<Row>)
    requires Enabled(s, Update(id, row)) && Stored(s, before)
    ensures var s' := Apply(s, Update(id, row));
            && Stored(s', if before.Some? then Some(row) else None)
            && id in s'.updates && s'.updates[id] == |s'.versions| - 1
            && |s'.versions| == |s.versions| + if before.Some? then 1 else 0
  {}

  /** `save` stores its row exactly when there is none. */
  lemma {:induction false} InsertStores(s: State, row: Row, before: Option<Row>)
    requires Enabled(s, Insert(row)) && Stored(s, before)
    ensures Stored(Apply(s, Insert(row)), if before.Some? then before else Some(row))
  {}

  /** `delete` makes the stored row inactive and keeps the rest of it. */
  lemma {:induction false} SoftDeleteStores(s: State, before: Option<Row>)
    requires Enabled(s, SoftDelete) && Stored(s, before)
    ensures Stored(Apply(s, SoftDelete), if before.Some? then Some(Row(false, before.value.data)) else None)
  {}

  /** A successful cache write serves its row for 300 s from then on, and no longer. */
  lemma {:induction false} WriteBackServes(s: State, id: nat, now: real)
    requires Enabled(s, WriteBack(id, true)) && s.clock <= now
    ensures var s' := Apply(Apply(s, WriteBack(id, true)), Tick(now));
            && (Enabled(s', Hit) <==> now < s.clock + 300.0)
            && (Enabled(s', Hit) ==> Returned(s', Hit).value.row == Some(s.flights[id].read.row))
  {}

  /** What is cached or held by a lookup is the content of the version it claims to be. */
  ghost predicate Attached(s: State) {
    && s.versions != []
    && (s.cache.Some? ==> IsVersion(s, s.cache.value.read))
    && (forall id :: id in s.flights && s.flights[id].Holding? ==> IsVersion(s, s.flights[id].read))
  }

  ghost predicate IsVersion(s: State, r: Read) {
    r.version < |s.versions| && s.versions[r.version].row == Some(r.row)
  }

  lemma {:induction false} StepAttached(s: State, step: Step)
    requires Enabled(s, step) && Attached(s)
    ensures Attached(Apply(s, step)) && s.versions <= Apply(s, step).versions
    ensures match Returned(s, step)
            case Some(a) => a.version < |s.versions| && s.versions[a.version].row == a.row
            case None => true
  {}

  lemma {:induction false} RunAttached(t0: real, gap: real, states: seq<State>, steps: seq<Step>, i: nat)
    requires IsRun(t0, gap, states, steps) && i < |states|
    ensures Attached(states[i])
  {
    if i > 0 {
      RunAttached(t0, gap, states, steps, i - 1);
      assert Moves(gap, states[i - 1], steps[i - 1], states[i]);
      StepAttached(states[i - 1], steps[i - 1]);
    }
  }

  /** From here on nobody inserts, updates or deletes. */
  ghost predicate NoMoreWrites(steps: seq<Step>) {
    forall k :: 0 <= k < |steps| ==> !steps[k].Insert? && !steps[k].Update? && !steps[k].SoftDelete?
  }

  /** A lookup that has answered is over, and so is an update that has invalidated; others go on. */
  lemma {:induction false} CallsEnd(s: State, step: Step, id: nat)
    requires Enabled(s, step)
    ensures step.Select? && step.id == id && Stored(s, None) ==> id !in Apply(s, step).flights
    ensures step.WriteBack? && step.id == id ==> id !in Apply(s, step).flights
    ensures step.Invalidate? && step.id == id ==> id !in Apply(s, step).updates
    ensures (step.Select? || step.WriteBack?) && step.id != id ==>
              (id in Apply(s, step).flights <==> id in s.flights)
              && (id in s.flights ==> Apply(s, step).flights[id] == s.flights[id])
    ensures step.Evict? ==> Apply(s, step) == s.(cache := None)
  {}

  /** With nothing older than the last version about, and no further write, every lookup returns the stored row. */
  lemma {:induction false} OnlyTheStoredRow(states: seq<State>, steps: seq<Step>, row: Row, i: nat)
    requires Continues(states, steps) && i < |steps| && NoMoreWrites(steps)
    requires Attached(states[0]) && Stored(states[0], Some(row)) && FreshFrom(states[0], |states[0].versions| - 1)
    ensures Attached(states[i]) && states[i].versions == states[0].versions
    ensures Enabled(states[i], steps[i])
    ensures Returned(states[i], steps[i]).Some? ==> Returned(states[i], steps[i]).value.row == Some(row)
  {
    if i > 0 {
      OnlyTheStoredRow(states, steps, row, i - 1);
      StepAttached(states[i - 1], steps[i - 1]);
    }
    StepAttached(states[i], steps[i]);
    ContinuationFresh(states, steps, |states[0].versions| - 1, i);
  }

  /**
   Read your update, by content: once it is the last write and has invalidated with no older row in flight,
   every lookup in every continuation without another write returns exactly the row it was given.
   */
  lemma {:induction false} UpdateIsReadBackByContent(
    s: State, update: nat, row: Row, states: seq<State>, steps: seq<Step>, i: nat)
    requires Attached(s) && Stored(s, Some(row)) && update in s.updates && s.updates[update] == |s.versions| - 1
    requires forall id :: id in s.flights && s.flights[id].Holding? ==> s.flights[id].read.version >= s.updates[update]
    requires Continues(states, steps) && states[0] == Apply(s, Invalidate(update, true))
    requires i < |steps| && NoMoreWrites(steps)
    ensures Enabled(states[i], steps[i])
    ensures Returned(states[i], steps[i]).Some? ==> Returned(states[i], steps[i]).value.row == Some(row)
  {
    OnlyTheStoredRow(states, steps, row, i);
  }

  /** Likewise a soft delete that finds nothing usable cached and no lookup holding a row. */
  lemma {:induction false} SoftDeleteIsSeenByContent(
    s: State, row: Row, states: seq<State>, steps: seq<Step>, i: nat)
    requires Attached(s) && Stored(s, Some(row)) && !Usable(s) && forall id :: id in s.flights ==> s.flights[id].Missed?
    requires Continues(states, steps) && states[0] == Apply(s, SoftDelete)
    requires i < |steps| && NoMoreWrites(steps)
    ensures Enabled(states[i], steps[i])
    ensures Returned(states[i], steps[i]).Some? ==>
              Returned(states[i], steps[i]).value.row == Some(Row(false, row.data))
  {
    StepAttached(s, SoftDelete);
    SoftDeleteStores(s, Some(row));
    OnlyTheStoredRow(states, steps, Row(false, row.data), i);
  }

  /** Version v holds what the step wrote: the row it was given, or the one before made inactive. */
  ghost predicate WrittenBy(versions: seq<Version>, v: nat, step: Step)
    requires 0 < v < |versions|
  {
    match step
    case Insert(row) => versions[v].row == Some(row) && versions[v - 1].row == None
    case Update(_, row) => versions[v].row == Some(row) && versions[v - 1].row.Some?
    case SoftDelete =>
      versions[v - 1].row.Some? && versions[v].row == Some(Row(false, versions[v - 1].row.value.data))
    case _ => false
  }

  /** In every run the row begins absent, and each later version is what some step wrote. */
  lemma {:induction false} EveryVersionWasWritten(
    t0: real, gap: real, states: seq<State>, steps: seq<Step>, i: nat, v: nat)
    requires IsRun(t0, gap, states, steps) && i < |states| && v < |states[i].versions|
    ensures v == 0 ==> states[i].versions[0].row == None
    ensures v > 0 ==> exists k :: 0 <= k < i && WrittenBy(states[i].versions, v, steps[k])
  {
    if i > 0 {
      var s := states[i - 1];
      assert Moves(gap, s, steps[i - 1], states[i]);
      RunAttached(t0, gap, states, steps, i - 1);
      StepAttached(s, steps[i - 1]);
      if v < |s.versions| {
        EveryVersionWasWritten(t0, gap, states, steps, i - 1, v);
      } else {
        assert WrittenBy(states[i].versions, v, steps[i - 1]);
      }
    }
  }
}
