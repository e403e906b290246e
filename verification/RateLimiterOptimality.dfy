/**
 The script is greedy: it admits whenever the window has room.  Greedy is also optimal here.
 Among all ways of admitting some of the arrivals with at most `limit` in every 60 s window, none
 admits more, and none has its i-th admission earlier than the script's i-th.
 */
module RateLimiterOptimality {
  import opened RateLimiter
  import opened Numbers

  /** Arrivals in time order, each with the member the script would draw, all different. */
  ghost predicate Arrive(t0: real, times: seq<real>, members: seq<string>) {
    && |times| == |members|
    && (forall i :: 0 <= i < |times| ==> t0 <= times[i])
    && (forall i, j :: 0 <= i < j < |times| ==> times[i] <= times[j])
    && (forall i, j :: 0 <= i < j < |members| ==> members[i] != members[j])
  }

  /** The script, called once per arrival. */
  function Greedy(limit: int, t0: real, times: seq<real>, members: seq<string>): Sys
    requires |times| == |members|
  {
    if times == [] then Sys(ABSENT, [], t0)
    else
      var n := |times| - 1;
      Apply(limit, Greedy(limit, t0, times[..n], members[..n]), Allow(times[n], members[n], NoFault))
  }

  /** A schedule says of each arrival whether it is admitted. */
  function Picked(pick: seq<bool>): nat {
    if pick == [] then 0 else Picked(pick[..|pick| - 1]) + if pick[|pick| - 1] then 1 else 0
  }

  function PickedIn(times: seq<real>, pick: seq<bool>, lo: real, hi: real): nat
    requires |times| == |pick|
  {
    if pick == [] then 0
    else
      var n := |pick| - 1;
      PickedIn(times[..n], pick[..n], lo, hi) + if pick[n] && lo < times[n] <= hi then 1 else 0
  }

  /** The admission times of a schedule, in order. */
  function PickTimes(times: seq<real>, pick: seq<bool>): seq<real>
    requires |times| == |pick|
  {
    if pick == [] then []
    else
      var n := |pick| - 1;
      PickTimes(times[..n], pick[..n]) + if pick[n] then [times[n]] else []
  }

  function PickedInWindow(times: seq<real>, pick: seq<bool>, t: real): nat
    requires |times| == |pick|
  {
    PickedIn(times, pick, t - WINDOW, t)
  }

  ghost predicate LegalSchedule(limit: int, times: seq<real>, pick: seq<bool>) {
    && |times| == |pick|
    && forall t: real :: PickedInWindow(times, pick, t) <= limit
  }

  // ---------------------------------------------------------------- what the script does

  ghost predicate Tracks(limit: int, s: Sys, t0: real, times: seq<real>, members: seq<string>) {
    && Good(limit, s)
    && s.clock == (if times == [] then t0 else times[|times| - 1])
    && (forall a :: a in s.log ==> a.member in members)
  }

  lemma {:induction false} GreedyTracks(limit: int, t0: real, times: seq<real>, members: seq<string>)
    requires Arrive(t0, times, members)
    ensures Tracks(limit, Greedy(limit, t0, times, members), t0, times, members)
  {
    if times == [] {
      NothingLive([], t0 - WINDOW, t0);
      EmptyRefines(Sys(ABSENT, [], t0));
      assert forall t: real :: InWindow([], t) == 0;
    } else {
      var n := |times| - 1;
      GreedyTracks(limit, t0, times[..n], members[..n]);
      var s := Greedy(limit, t0, times[..n], members[..n]);
      DrawIsFresh(s, times[n], members[n], members[..n]);
      StepGood(limit, s, Allow(times[n], members[n], NoFault));
    }
  }

  lemma {:induction false} DrawIsFresh(s: Sys, now: real, m: string, used: seq<string>)
    requires Refines(s) && s.clock <= now && m !in used
    requires forall a :: a in s.log ==> a.member in used
    ensures m !in Trim(s.key.zset, now - WINDOW)
  {
    RefinesLater(s, now);
    LiveIsUntrimmed(s.log, m, now - WINDOW, s.clock);
  }

  /** One arrival: admitted exactly when the log has room in the window. */
  lemma {:induction false} GreedyStep(limit: int, t0: real, times: seq<real>, members: seq<string>)
    requires Arrive(t0, times, members) && times != []
    ensures var n := |times| - 1;
            var before := Greedy(limit, t0, times[..n], members[..n]).log;
            Greedy(limit, t0, times, members).log ==
            before + if InWindow(before, times[n]) < limit then [Admission(members[n], times[n])] else []
  {
    var n := |times| - 1;
    GreedyTracks(limit, t0, times[..n], members[..n]);
    DeniedExactly(limit, Greedy(limit, t0, times[..n], members[..n]), times[n], members[n]);
  }

  /** The log only grows, and never runs ahead of the last arrival. */
  lemma {:induction false} GreedyExtends(limit: int, t0: real, times: seq<real>, members: seq<string>)
    requires Arrive(t0, times, members) && times != []
    ensures var n := |times| - 1;
            Greedy(limit, t0, times[..n], members[..n]).log <= Greedy(limit, t0, times, members).log
    ensures forall i :: 0 <= i < |Greedy(limit, t0, times, members).log| ==>
              Greedy(limit, t0, times, members).log[i].at <= times[|times| - 1]
  {
    GreedyStep(limit, t0, times, members);
    GreedyTracks(limit, t0, times, members);
  }

  lemma {:induction false} ArrivePrefix(t0: real, times: seq<real>, members: seq<string>, n: nat)
    requires Arrive(t0, times, members) && n <= |times|
    ensures Arrive(t0, times[..n], members[..n])
  {}

  lemma {:induction false} NothingInWindow(
    limit: int, t0: real, times: seq<real>, members: seq<string>, cut: real, hi: real)
    requires Arrive(t0, times, members)
    requires forall i :: 0 <= i < |times| ==> times[i] <= cut
    ensures Count(Greedy(limit, t0, times, members).log, cut, hi) == 0
  {
    GreedyTracks(limit, t0, times, members);
    if times != [] {
      NothingLive(Greedy(limit, t0, times, members).log, cut, hi);
    }
  }

  /** What the script admitted after the first `m` arrivals is what it has in the window now. */
  lemma {:induction false} WindowIsTail(limit: int, t0: real, times: seq<real>, members: seq<string>,
                                        m: nat, cut: real, hi: real)
    requires Arrive(t0, times, members) && m <= |times|
    requires forall i :: 0 <= i < m ==> times[i] <= cut
    requires forall i :: m <= i < |times| ==> cut < times[i] <= hi
    ensures Count(Greedy(limit, t0, times, members).log, cut, hi) ==
            |Greedy(limit, t0, times, members).log| - |Greedy(limit, t0, times[..m], members[..m]).log|
    decreases |times|
  {
    if m == |times| {
      assert times[..m] == times && members[..m] == members;
      NothingInWindow(limit, t0, times, members, cut, hi);
    } else {
      var n := |times| - 1;
      var log := Greedy(limit, t0, times[..n], members[..n]).log;
      assert Count(log, cut, hi) == |log| - |Greedy(limit, t0, times[..m], members[..m]).log| by {
        ArrivePrefix(t0, times, members, n);
        WindowIsTail(limit, t0, times[..n], members[..n], m, cut, hi);
        assert times[..n][..m] == times[..m] && members[..n][..m] == members[..m];
      }
      GreedyStep(limit, t0, times, members);
      CountAppend(log, Admission(members[n], times[n]), cut, hi);
    }
  }

  /** The window the last arrival finds, in terms of two earlier logs. */
  lemma {:induction false} WindowBefore(limit: int, t0: real, times: seq<real>, members: seq<string>, m: nat)
    requires Arrive(t0, times, members) && m < |times|
    requires forall i :: 0 <= i < m ==> times[i] <= times[|times| - 1] - WINDOW
    requires forall i :: m <= i < |times| ==> times[|times| - 1] - WINDOW < times[i]
    ensures var n := |times| - 1;
            var log := Greedy(limit, t0, times[..n], members[..n]).log;
            InWindow(log, times[n]) == |log| - |Greedy(limit, t0, times[..m], members[..m]).log|
  {
    var n := |times| - 1;
    ArrivePrefix(t0, times, members, n);
    assert times[..n][..m] == times[..m] && members[..n][..m] == members[..m];
    WindowIsTail(limit, t0, times[..n], members[..n], m, times[n] - WINDOW, times[n]);
  }

  // ---------------------------------------------------------------- schedules

  lemma {:induction false} PickedSplit(times: seq<real>, pick: seq<bool>, m: nat, cut: real, hi: real)
    requires |times| == |pick| && m <= |times|
    requires forall i :: 0 <= i < m ==> times[i] <= cut
    requires forall i :: m <= i < |times| ==> cut < times[i] <= hi
    ensures Picked(pick) == Picked(pick[..m]) + PickedIn(times, pick, cut, hi)
    decreases |times|
  {
    var n := |times| - 1;
    if m == |times| {
      assert pick[..m] == pick;
      PickedNone(times, pick, cut, hi);
    } else {
      PickedSplit(times[..n], pick[..n], m, cut, hi);
      assert pick[..n][..m] == pick[..m];
    }
  }

  lemma {:induction false} PickedNone(times: seq<real>, pick: seq<bool>, cut: real, hi: real)
    requires |times| == |pick| && forall i :: 0 <= i < |times| ==> times[i] <= cut
    ensures PickedIn(times, pick, cut, hi) == 0
  {
    if pick != [] {
      PickedNone(times[..|pick| - 1], pick[..|pick| - 1], cut, hi);
    }
  }

  lemma {:induction false} PickedPrefix(times: seq<real>, pick: seq<bool>, n: nat, lo: real, hi: real)
    requires |times| == |pick| && n <= |times|
    ensures PickedIn(times[..n], pick[..n], lo, hi) <= PickedIn(times, pick, lo, hi)
    decreases |times|
  {
    if n == |times| {
      assert times[..n] == times && pick[..n] == pick;
    } else {
      var k := |times| - 1;
      PickedPrefix(times[..k], pick[..k], n, lo, hi);
      assert times[..k][..n] == times[..n] && pick[..k][..n] == pick[..n];
    }
  }

  lemma {:induction false} LegalPrefix(limit: int, times: seq<real>, pick: seq<bool>, n: nat)
    requires LegalSchedule(limit, times, pick) && n <= |times|
    ensures LegalSchedule(limit, times[..n], pick[..n])
  {
    forall t: real ensures PickedInWindow(times[..n], pick[..n], t) <= limit {
      PickedPrefix(times, pick, n, t - WINDOW, t);
      assert PickedInWindow(times, pick, t) <= limit;
    }
  }

  /** How many of the time-ordered arrivals are no later than `cut`. */
  lemma {:induction false} CutPoint(times: seq<real>, cut: real) returns (m: nat)
    requires forall i, j :: 0 <= i < j < |times| ==> times[i] <= times[j]
    ensures m <= |times|
    ensures forall i :: 0 <= i < m ==> times[i] <= cut
    ensures forall i :: m <= i < |times| ==> cut < times[i]
  {
    if times == [] || times[|times| - 1] <= cut {
      m := |times|;
    } else {
      m := CutPoint(times[..|times| - 1], cut);
    }
  }

  // ---------------------------------------------------------------- optimality

  /** After any number of arrivals, no legal schedule has admitted more than the script. */
  lemma {:induction false} GreedyIsLargest(limit: int, t0: real, times: seq<real>, members: seq<string>,
                                           pick: seq<bool>)
    requires Arrive(t0, times, members) && LegalSchedule(limit, times, pick)
    ensures Picked(pick) <= |Greedy(limit, t0, times, members).log|
    decreases |times|
  {
    if times != [] {
      var n := |times| - 1;
      ArrivePrefix(t0, times, members, n);
      LegalPrefix(limit, times, pick, n);
      GreedyIsLargest(limit, t0, times[..n], members[..n], pick[..n]);
      GreedyStep(limit, t0, times, members);
      var log := Greedy(limit, t0, times[..n], members[..n]).log;
      if InWindow(log, times[n]) >= limit {
        FullWindow(limit, t0, times, members, pick);
      }
    }
  }

  /** The window is full: what the schedule picked before it is matched, and it fits no more in it. */
  lemma {:induction false} FullWindow(limit: int, t0: real, times: seq<real>, members: seq<string>, pick: seq<bool>)
    requires Arrive(t0, times, members) && LegalSchedule(limit, times, pick) && times != []
    requires var n := |times| - 1; InWindow(Greedy(limit, t0, times[..n], members[..n]).log, times[n]) >= limit
    ensures var n := |times| - 1; Picked(pick) <= |Greedy(limit, t0, times[..n], members[..n]).log|
    decreases |times|, 0
  {
    var n := |times| - 1;
    var cut, hi := times[n] - WINDOW, times[n];
    var m := CutPoint(times, cut);
    var earlier := |Greedy(limit, t0, times[..m], members[..m]).log|;
    assert Picked(pick[..m]) <= earlier by {
      ArrivePrefix(t0, times, members, m);
      LegalPrefix(limit, times, pick, m);
      GreedyIsLargest(limit, t0, times[..m], members[..m], pick[..m]);
    }
    var log := Greedy(limit, t0, times[..n], members[..n]).log;
    WindowBefore(limit, t0, times, members, m);
    assert Picked(pick) <= Picked(pick[..m]) + limit by {
      PickedSplit(times, pick, m, cut, hi);
      assert PickedInWindow(times, pick, hi) <= limit;
    }
  }

  /** Greedy optimality: at least as many admissions, and the i-th never later. */
  lemma {:induction false} GreedyIsOptimal(limit: int, t0: real, times: seq<real>, members: seq<string>,
                                           pick: seq<bool>)
    requires Arrive(t0, times, members) && LegalSchedule(limit, times, pick)
    ensures |PickTimes(times, pick)| == Picked(pick) <= |Greedy(limit, t0, times, members).log|
    ensures forall i :: 0 <= i < Picked(pick) ==>
              Greedy(limit, t0, times, members).log[i].at <= PickTimes(times, pick)[i]
    decreases |times|
  {
    GreedyIsLargest(limit, t0, times, members, pick);
    if times != [] {
      var n := |times| - 1;
      ArrivePrefix(t0, times, members, n);
      LegalPrefix(limit, times, pick, n);
      GreedyIsOptimal(limit, t0, times[..n], members[..n], pick[..n]);
      GreedyExtends(limit, t0, times, members);
      var before, log := Greedy(limit, t0, times[..n], members[..n]).log, Greedy(limit, t0, times, members).log;
      var head := PickTimes(times[..n], pick[..n]);
      forall i | 0 <= i < Picked(pick) ensures log[i].at <= PickTimes(times, pick)[i] {
        if i < |head| {
          assert log[i] == before[i] && PickTimes(times, pick)[i] == head[i];
        } else {
          assert PickTimes(times, pick)[i] == times[n];
        }
      }
    }
  }

  /** The script's own answers, as a schedule. */
  function Answers(limit: int, t0: real, times: seq<real>, members: seq<string>): (pick: seq<bool>)
    requires |times| == |members|
    ensures |pick| == |times|
  {
    if times == [] then []
    else
      var n := |times| - 1;
      Answers(limit, t0, times[..n], members[..n]) +
      [Script(limit, Greedy(limit, t0, times[..n], members[..n]).key, times[n], members[n]).1]
  }

  lemma {:induction false} AnswersAreTheLog(limit: int, t0: real, times: seq<real>, members: seq<string>,
                                            lo: real, hi: real)
    requires Arrive(t0, times, members)
    ensures PickedIn(times, Answers(limit, t0, times, members), lo, hi) ==
            Count(Greedy(limit, t0, times, members).log, lo, hi)
    ensures Picked(Answers(limit, t0, times, members)) == |Greedy(limit, t0, times, members).log|
  {
    if times != [] {
      var n := |times| - 1;
      ArrivePrefix(t0, times, members, n);
      AnswersAreTheLog(limit, t0, times[..n], members[..n], lo, hi);
      var s := Greedy(limit, t0, times[..n], members[..n]);
      CountAppend(s.log, Admission(members[n], times[n]), lo, hi);
      var pick := Answers(limit, t0, times, members);
      assert pick[..n] == Answers(limit, t0, times[..n], members[..n]);
    }
  }

  /** The optimum is attained: the script's answers are themselves a legal schedule. */
  lemma {:induction false} GreedyIsLegal(limit: int, t0: real, times: seq<real>, members: seq<string>)
    requires Arrive(t0, times, members) && limit >= 0
    ensures LegalSchedule(limit, times, Answers(limit, t0, times, members))
    ensures Picked(Answers(limit, t0, times, members)) == |Greedy(limit, t0, times, members).log|
  {
    var pick := Answers(limit, t0, times, members);
    GreedyTracks(limit, t0, times, members);
    forall t: real ensures PickedInWindow(times, pick, t) <= limit {
      AnswersAreTheLog(limit, t0, times, members, t - WINDOW, t);
      assert InWindow(Greedy(limit, t0, times, members).log, t) <= Max(0, limit);
    }
    AnswersAreTheLog(limit, t0, times, members, 0.0, 0.0);
  }
}
