/**
 Calls that land out of order.  The source reads its clock before it awaits the script, so a reading may
 reach Redis after a later one.  If no reading is more than `d` late, every window of 60 - d seconds
 holds at most `limit` admissions, and no longer window is safe.
 */
module RateLimiterSkew {
  import opened Numbers
  import opened RateLimiter

  /** What reaches Redis at time `land`, with the clock reading `at` it carries. */
  datatype Step =
    | Call(land: real, at: real, member: string)
    | Look(land: real, at: real)
    | Expire(land: real)

  function Land(limit: int, s: Sys, step: Step): Sys {
    match step
    case Call(land, at, member) =>
      var z := Trim(s.key.zset, at - WINDOW);
      if |z| < limit then Sys(KeyState(z[member := at], land + WINDOW), s.log + [Admission(member, at)], land)
      else Sys(KeyState(z, s.key.deadline), s.log, land)
    case Look(land, at) => Sys(s.key.(zset := Trim(s.key.zset, at - WINDOW)), s.log, land)
    case Expire(land) => Sys(ABSENT, s.log, land)
  }

  /** Landings are in order, calls are at most `d` late and draw fresh members, and keys expire no sooner than due. */
  predicate Timely(d: real, s: Sys, step: Step) {
    && s.clock <= step.land
    && match step
       case Call(land, at, member) => at <= land <= at + d && member !in Trim(s.key.zset, at - WINDOW)
       case Look(land, at) => at <= land
       case Expire(land) => s.key.deadline <= land
  }

  function Landed(limit: int, t0: real, steps: seq<Step>): Sys {
    if steps == [] then Sys(ABSENT, [], t0)
    else Land(limit, Landed(limit, t0, steps[..|steps| - 1]), steps[|steps| - 1])
  }

  ghost predicate TimelyRun(limit: int, d: real, t0: real, steps: seq<Step>) {
    forall i :: 0 <= i < |steps| ==> Timely(d, Landed(limit, t0, steps[..i]), steps[i])
  }

  /** Every window of the given length holds at most `limit` admissions. */
  ghost predicate SafeWithin(limit: int, length: real, log: seq<Admission>) {
    forall t: real :: InLast(log, length, t) <= Max(0, limit)
  }

  function InLast(log: seq<Admission>, length: real, t: real): nat { Count(log, t - length, t) }

  // ---------------------------------------------------------------- what is still in the set

  /** Admission i is young enough that no reading so far can have trimmed it, and no expiry removed it. */
  predicate Young(log: seq<Admission>, i: int, cut: real)
    requires 0 <= i < |log|
  {
    log[i].at > cut
  }

  ghost predicate Holds(z: ZSet, log: seq<Admission>, cut: real) {
    && (forall i :: 0 <= i < |log| && Young(log, i, cut) ==> log[i].member in z && z[log[i].member] == log[i].at)
    && (forall i, j :: 0 <= i < j < |log| && Young(log, i, cut) && Young(log, j, cut) ==>
          log[i].member != log[j].member)
  }

  ghost predicate Inv(s: Sys) {
    && Holds(s.key.zset, s.log, s.clock - WINDOW)
    && (forall m :: m in s.key.zset ==> s.key.zset[m] + WINDOW <= s.key.deadline && s.key.zset[m] <= s.clock)
  }

  lemma {:induction false} HoldsLater(z: ZSet, log: seq<Admission>, cut: real, later: real)
    requires Holds(z, log, cut) && cut <= later
    ensures Holds(z, log, later)
  {
    forall i | 0 <= i < |log| && Young(log, i, later) ensures Young(log, i, cut) {}
  }

  /** A trim with a reading from before the landing leaves the young alone. */
  lemma {:induction false} HoldsTrimmed(z: ZSet, log: seq<Admission>, cut: real, at: real)
    requires Holds(z, log, cut) && at <= cut
    ensures Holds(Trim(z, at), log, cut)
  {}

  lemma {:induction false} HoldsAppend(z: ZSet, log: seq<Admission>, cut: real, a: Admission)
    requires Holds(z, log, cut) && a.member !in z
    ensures Holds(z[a.member := a.at], log + [a], cut)
  {
    var all := log + [a];
    forall i | 0 <= i < |log| && Young(all, i, cut) ensures Young(log, i, cut) {}
  }

  lemma {:induction false} NothingYoung(s: Sys, land: real)
    requires Inv(s) && s.clock <= land && s.key.deadline <= land
    ensures Holds(map[], s.log, land - WINDOW)
  {
    var cut, now := land - WINDOW, s.clock - WINDOW;
    forall i | 0 <= i < |s.log| ensures !Young(s.log, i, cut) {
      if Young(s.log, i, now) {
        assert s.log[i].member in s.key.zset;
      }
    }
  }

  lemma {:induction false} StepInv(limit: int, d: real, s: Sys, step: Step)
    requires Inv(s) && Timely(d, s, step)
    ensures Inv(Land(limit, s, step))
  {
    var cut := step.land - WINDOW;
    match step {
      case Expire(land) => NothingYoung(s, land);
      case Look(land, at) =>
        HoldsLater(s.key.zset, s.log, s.clock - WINDOW, cut);
        HoldsTrimmed(s.key.zset, s.log, cut, at - WINDOW);
      case Call(land, at, member) =>
        HoldsLater(s.key.zset, s.log, s.clock - WINDOW, cut);
        HoldsTrimmed(s.key.zset, s.log, cut, at - WINDOW);
        HoldsAppend(Trim(s.key.zset, at - WINDOW), s.log, cut, Admission(member, at));
    }
  }

  // ---------------------------------------------------------------- counting

  function YoungMembers(log: seq<Admission>, cut: real): set<string> {
    if log == [] then {}
    else
      var n := |log| - 1;
      if log[n].at > cut then YoungMembers(log[..n], cut) + {log[n].member} else YoungMembers(log[..n], cut)
  }

  lemma {:induction false} YoungMember(log: seq<Admission>, cut: real, m: string) returns (i: nat)
    requires m in YoungMembers(log, cut)
    ensures i < |log| && Young(log, i, cut) && log[i].member == m
  {
    var n := |log| - 1;
    if log[n].at > cut && log[n].member == m {
      i := n;
    } else {
      i := YoungMember(log[..n], cut, m);
    }
  }

  lemma {:induction false} HoldsFront(z: ZSet, log: seq<Admission>, cut: real)
    requires Holds(z, log, cut) && log != []
    ensures Holds(z, log[..|log| - 1], cut)
    ensures Young(log, |log| - 1, cut) ==> log[|log| - 1].member !in YoungMembers(log[..|log| - 1], cut)
  {
    var n := |log| - 1;
    var front := log[..n];
    forall i | 0 <= i < n && Young(front, i, cut) ensures Young(log, i, cut) {}
    if Young(log, n, cut) && log[n].member in YoungMembers(front, cut) {
      var i := YoungMember(front, cut, log[n].member);
    }
  }

  lemma {:induction false} CountYoung(log: seq<Admission>, z: ZSet, cut: real, lo: real, hi: real)
    requires Holds(z, log, cut) && cut <= lo
    ensures Count(log, lo, hi) <= |YoungMembers(log, cut)|
  {
    if log != [] {
      HoldsFront(z, log, cut);
      CountYoung(log[..|log| - 1], z, cut, lo, hi);
    }
  }

  /** The set has at least as many members as any window of the young has admissions. */
  lemma {:induction false} SetCountsYoung(log: seq<Admission>, z: ZSet, cut: real, lo: real, hi: real)
    requires Holds(z, log, cut) && cut <= lo
    ensures Count(log, lo, hi) <= |z|
  {
    CountYoung(log, z, cut, lo, hi);
    forall m | m in YoungMembers(log, cut) ensures m in z.Keys {
      var i := YoungMember(log, cut, m);
    }
    SubsetSize(YoungMembers(log, cut), z.Keys);
    assert |z.Keys| == |z|;
  }

  lemma {:induction false} StepSafe(limit: int, d: real, s: Sys, step: Step)
    requires Inv(s) && Timely(d, s, step) && SafeWithin(limit, WINDOW - d, s.log)
    ensures SafeWithin(limit, WINDOW - d, Land(limit, s, step).log)
  {
    var s' := Land(limit, s, step);
    if s'.log != s.log {
      var a, z, cut := Admission(step.member, step.at), Trim(s.key.zset, step.at - WINDOW), step.land - WINDOW;
      HoldsLater(s.key.zset, s.log, s.clock - WINDOW, cut);
      HoldsTrimmed(s.key.zset, s.log, cut, step.at - WINDOW);
      var length := WINDOW - d;
      forall t: real ensures InLast(s'.log, length, t) <= Max(0, limit) {
        assert InLast(s.log, length, t) <= Max(0, limit);
        WindowAfter(limit, d, s.log, z, a, step.land, t);
      }
    }
  }

  /** One window, before and after an admission that landed at `land`. */
  lemma {:induction false} WindowAfter(
    limit: int, d: real, log: seq<Admission>, z: ZSet, a: Admission, land: real, t: real)
    requires Holds(z, log, land - WINDOW) && |z| < limit && land <= a.at + d
    requires InLast(log, WINDOW - d, t) <= Max(0, limit)
    ensures InLast(log + [a], WINDOW - d, t) <= Max(0, limit)
  {
    var lo := t - (WINDOW - d);
    CountAppend(log, a, lo, t);
    if lo < a.at <= t {
      SetCountsYoung(log, z, land - WINDOW, lo, t);
    }
  }

  /**
   Over every run, in any order of readings: if none lands more than `d` after it was taken, every window
   (t - (60 - d), t] of readings holds at most `limit` admissions.
   */
  lemma {:induction false} LateRunSafe(limit: int, d: real, t0: real, steps: seq<Step>)
    requires TimelyRun(limit, d, t0, steps)
    ensures Inv(Landed(limit, t0, steps)) && SafeWithin(limit, WINDOW - d, Landed(limit, t0, steps).log)
  {
    if steps == [] {
      var length := WINDOW - d;
      assert forall t: real :: InLast([], length, t) == 0;
    } else {
      var front, last := steps[..|steps| - 1], steps[|steps| - 1];
      forall i | 0 <= i < |front| ensures Timely(d, Landed(limit, t0, front[..i]), front[i]) {
        assert front[..i] == steps[..i];
      }
      LateRunSafe(limit, d, t0, front);
      StepInv(limit, d, Landed(limit, t0, front), last);
      StepSafe(limit, d, Landed(limit, t0, front), last);
    }
  }

  // ---------------------------------------------------------------- and no longer window

  /** The calls that fill a window, all read at 0. */
  function Fill(members: seq<string>, n: nat): seq<Step>
    requires n <= |members|
  {
    if n == 0 then [] else Fill(members, n - 1) + [Call(0.0, 0.0, members[n - 1])]
  }

  /** n admissions, all read at 0 and all still in the set. */
  ghost predicate Filled(s: Sys, members: seq<string>, n: nat)
    requires n <= |members|
  {
    && s.clock == 0.0 && s.key.deadline <= WINDOW && |s.key.zset| == n && |s.log| == n
    && (forall m :: m in s.key.zset ==> s.key.zset[m] == 0.0 && m in members[..n])
    && (forall i :: 0 <= i < n ==> s.log[i].at == 0.0)
  }

  lemma {:induction false} FillStep(limit: int, d: real, s: Sys, members: seq<string>, n: nat)
    requires n < |members| && n < limit && AllNew(map[], members) && d >= 0.0 && Filled(s, members, n)
    ensures Timely(d, s, Call(0.0, 0.0, members[n]))
    ensures Filled(Land(limit, s, Call(0.0, 0.0, members[n])), members, n + 1)
  {
    assert Trim(s.key.zset, 0.0 - WINDOW) == s.key.zset;
    UpdateSize(s.key.zset, members[n], 0.0);
    assert members[..n + 1] == members[..n] + [members[n]];
  }

  lemma {:induction false} FillFills(limit: int, d: real, members: seq<string>, n: nat)
    requires n <= |members| && n <= limit && AllNew(map[], members) && d >= 0.0
    ensures TimelyRun(limit, d, 0.0, Fill(members, n)) && Filled(Landed(limit, 0.0, Fill(members, n)), members, n)
  {
    var steps := Fill(members, n);
    if n == 0 {
      assert steps == [];
    } else {
      var front, call := Fill(members, n - 1), Call(0.0, 0.0, members[n - 1]);
      assert steps == front + [call];
      FillFills(limit, d, members, n - 1);
      var s := Landed(limit, 0.0, front);
      assert Timely(d, s, call) && Filled(Land(limit, s, call), members, n) by {
        FillStep(limit, d, s, members, n - 1);
      }
      OneMore(limit, d, front, call);
    }
  }

  /** A header read at 60 trims the full set away. */
  lemma {:induction false} NextMinute(limit: int, d: real, s: Sys, members: seq<string>, n: nat)
    requires n <= |members| && Filled(s, members, n)
    ensures Timely(d, s, Look(WINDOW, WINDOW))
    ensures Land(limit, s, Look(WINDOW, WINDOW)) == Sys(KeyState(map[], s.key.deadline), s.log, WINDOW)
  {
    assert Trim(s.key.zset, WINDOW - WINDOW) == map[];
  }

  /** A call read before that and landing after it does not find what it should have counted. */
  lemma {:induction false} LateCall(limit: int, d: real, s: Sys, m: string)
    requires limit >= 1 && 0.0 < d <= WINDOW && s.clock == WINDOW && s.key.zset == map[]
    ensures var call := Call(WINDOW, WINDOW - d, m);
            Timely(d, s, call) && Land(limit, s, call).log == s.log + [Admission(m, WINDOW - d)]
  {
    assert Trim(s.key.zset, WINDOW - d - WINDOW) == map[];
  }

  lemma {:induction false} OneTooMany(log: seq<Admission>, d: real, length: real, m: string)
    requires 0.0 < d <= WINDOW && length > WINDOW - d && forall i :: 0 <= i < |log| ==> log[i].at == 0.0
    ensures InLast(log + [Admission(m, WINDOW - d)], length, WINDOW - d) == |log| + 1
  {
    var t, lo := WINDOW - d, WINDOW - d - length;
    CountAll(log, 0.0, lo, t);
    CountAppend(log, Admission(m, WINDOW - d), lo, t);
  }

  lemma {:induction false} OneMore(limit: int, d: real, steps: seq<Step>, last: Step)
    requires TimelyRun(limit, d, 0.0, steps) && Timely(d, Landed(limit, 0.0, steps), last)
    ensures TimelyRun(limit, d, 0.0, steps + [last])
    ensures Landed(limit, 0.0, steps + [last]) == Land(limit, Landed(limit, 0.0, steps), last)
  {
    var all := steps + [last];
    assert all[..|steps|] == steps;
    forall i | 0 <= i < |all| ensures Timely(d, Landed(limit, 0.0, all[..i]), all[i]) {
      if i < |steps| {
        assert all[..i] == steps[..i];
      }
    }
  }

  lemma {:induction false} CountAll(log: seq<Admission>, at: real, lo: real, hi: real)
    requires lo < at <= hi && forall i :: 0 <= i < |log| ==> log[i].at == at
    ensures Count(log, lo, hi) == |log|
  {
    if log != [] {
      CountAll(log[..|log| - 1], at, lo, hi);
    }
  }

  lemma {:induction false} LongerWindowBreaks(limit: int, d: real, length: real) returns (steps: seq<Step>)
    requires limit >= 1 && 0.0 < d <= WINDOW && length > WINDOW - d
    ensures TimelyRun(limit, d, 0.0, steps) && !SafeWithin(limit, length, Landed(limit, 0.0, steps).log)
  {
    var members := NewMembers(map[], limit + 1);
    var fill, m := Fill(members, limit), members[limit];
    FillFills(limit, d, members, limit);
    var s := Landed(limit, 0.0, fill);
    var look, late := Look(WINDOW, WINDOW), Call(WINDOW, WINDOW - d, m);
    NextMinute(limit, d, s, members, limit);
    OneMore(limit, d, fill, look);
    LateCall(limit, d, Land(limit, s, look), m);
    OneMore(limit, d, fill + [look], late);
    steps := fill + [look] + [late];
    OneTooMany(s.log, d, length, m);
    assert InLast(Landed(limit, 0.0, steps).log, length, WINDOW - d) > Max(0, limit);
  }

  /** Exactly the windows of up to 60 - d seconds are safe in every run with readings up to `d` late. */
  lemma {:induction false} SafeLengthExactly(limit: int, d: real, length: real)
    requires limit >= 1 && 0.0 < d <= WINDOW
    ensures (forall t0: real, steps: seq<Step> :: TimelyRun(limit, d, t0, steps) ==>
               SafeWithin(limit, length, Landed(limit, t0, steps).log))
            <==> length <= WINDOW - d
  {
    if length <= WINDOW - d {
      forall t0: real, steps: seq<Step> | TimelyRun(limit, d, t0, steps)
        ensures SafeWithin(limit, length, Landed(limit, t0, steps).log)
      {
        LateRunSafe(limit, d, t0, steps);
        ShorterIsSafe(limit, WINDOW - d, length, Landed(limit, t0, steps).log);
      }
    } else {
      var steps := LongerWindowBreaks(limit, d, length);
    }
  }

  lemma {:induction false} ShorterIsSafe(limit: int, length: real, shorter: real, log: seq<Admission>)
    requires SafeWithin(limit, length, log) && shorter <= length
    ensures SafeWithin(limit, shorter, log)
  {
    forall t: real ensures InLast(log, shorter, t) <= Max(0, limit) {
      CountInside(log, t - length, t - shorter, t);
      assert InLast(log, length, t) <= Max(0, limit);
    }
  }

  lemma {:induction false} CountInside(log: seq<Admission>, lo: real, lo': real, hi: real)
    requires lo <= lo'
    ensures Count(log, lo', hi) <= Count(log, lo, hi)
  {
    if log != [] {
      CountInside(log[..|log| - 1], lo, lo', hi);
    }
  }
}
