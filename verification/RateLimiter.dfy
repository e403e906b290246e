/**
 The sliding-window rate limiter of app/infrastructure/cache/rate_limiter.py.

 One Redis key holds a sorted set (member -> score) and a time to live.  The set is trimmed
 by every call and the whole key expires, so it forgets; the model keeps beside it the log of
 every admission ever made and shows that forgetting never changes a decision.
 */
module RateLimiter {
  import opened Numbers

  const WINDOW: real := 60.0

  /** A sorted set: member text to score. */
  type ZSet = map<string, real>

  /** One Redis key: its sorted set and the instant its TTL runs out. */
  datatype KeyState = KeyState(zset: ZSet, deadline: real)

  const ABSENT := KeyState(map[], 0.0)

  /** One admission: the sorted-set member written for it and the time it was made. */
  datatype Admission = Admission(member: string, at: real)

  /** What a Redis call does to its caller: nothing, is lost on the way, or loses the reply. */
  datatype Fault = NoFault | Lost | ReplyLost

  // ---------------------------------------------------------------- the script

  /** ZREMRANGEBYSCORE key -inf cut. */
  function Trim(z: ZSet, cut: real): ZSet {
    map m | m in z && z[m] > cut :: z[m]
  }

  /** The Lua script: trim, count, and either add with a fresh TTL or refuse. */
  function Script(limit: int, k: KeyState, now: real, member: string): (KeyState, bool) {
    var z := Trim(k.zset, now - WINDOW);
    if |z| < limit then (KeyState(z[member := now], now + WINDOW), true)
    else (KeyState(z, k.deadline), false)
  }

  type Store = map<string, KeyState>

  function Lookup(keys: Store, key: string): KeyState {
    if key in keys then keys[key] else ABSENT
  }

  function Trimmed(keys: Store, key: string, now: real): Store {
    var k := Lookup(keys, key);
    keys[key := k.(zset := Trim(k.zset, now - WINDOW))]
  }

  /** What the store holds for one key is good for that key's log: see `Good`. */
  ghost predicate KeyAgrees(limit: int, keys: Store, logs: map<string, seq<Admission>>, clock: real, key: string) {
    Good(limit, Sys(if key in keys then keys[key] else KeyState(map[], 0.0),
                    if key in logs then logs[key] else [], clock))
  }

  ghost predicate StoreAgrees(limit: int, keys: Store, logs: map<string, seq<Admission>>, clock: real) {
    forall key: string :: KeyAgrees(limit, keys, logs, clock, key)
  }

  /** No admission of the last 60 s drew this member. */
  ghost predicate NewMember(log: seq<Admission>, now: real, member: string) {
    forall i :: 0 <= i < |log| && log[i].at > now - 60.0 ==> log[i].member != member
  }

  /**
   The limiter object.  `logs` holds, for each key, every admission since its last reset, and `clock` the
   latest reading; `Valid` ties the store to them.
   */
  class RedisRateLimiter {
    const limit: int
    var keys: Store
    ghost var logs: map<string, seq<Admission>>
    ghost var clock: real

    ghost predicate Valid()
      reads this
    {
      StoreAgrees(limit, keys, logs, clock)
    }

    ghost function LogOf(key: string): seq<Admission>
      reads this
    {
      if key in logs then logs[key] else []
    }

    constructor (requestsPerMinute: int)
      ensures limit == requestsPerMinute && keys == map[]
      ensures Valid() && clock == 0.0 && forall key :: LogOf(key) == []
    {
      limit, keys, logs, clock := requestsPerMinute, map[], map[], 0.0;
      new;
      forall key: string ensures KeyAgrees(limit, keys, logs, clock, key) {
        NothingIsGood(limit, clock);
      }
    }

    /**
     From a valid state, with a reading that is not late and a new member: an undisturbed call is allowed
     exactly when the key's log has fewer than `limit` admissions in the last 60 s, that log grows by exactly
     that admission, and no other key's does.
     */
    method IsAllowed(key: string, now: real, member: string, fault: Fault) returns (allowed: bool)
      modifies this
      ensures keys == if fault.Lost? then old(keys)
                      else old(keys)[key := Script(limit, Lookup(old(keys), key), now, member).0]
      ensures allowed <==> fault != NoFault || Script(limit, Lookup(old(keys), key), now, member).1
      ensures forall other :: other != key ==> LogOf(other) == old(LogOf(other))
      ensures fault.Lost? ==> LogOf(key) == old(LogOf(key))
      ensures old(Valid()) && old(clock) <= now && NewMember(old(LogOf(key)), now, member) ==>
                && Valid() && clock == now
                && (fault.NoFault? ==> (allowed <==> Count(old(LogOf(key)), now - 60.0, now) < limit))
                && (!fault.Lost? ==>
                      LogOf(key) == old(LogOf(key)) +
                                    if Count(old(LogOf(key)), now - 60.0, now) < limit
                                    then [Admission(member, now)] else [])
    {
      clock := now;
      if fault.Lost? {
        if old(Valid()) && old(clock) <= now {
          StoreAgreesLater(limit, keys, logs, old(clock), now);
        }
        return true;
      }
      var k := Lookup(keys, key);
      k := k.(zset := Trim(k.zset, now - WINDOW));
      var count := |k.zset|;
      allowed := false;
      if count < limit {
        k := k.(zset := k.zset[member := now]);
        k := k.(deadline := now + WINDOW);
        allowed := true;
      }
      keys := keys[key := k];
      if allowed {
        logs := logs[key := LogOf(key) + [Admission(member, now)]];
      }
      if old(Valid()) && old(clock) <= now && NewMember(old(LogOf(key)), now, member) {
        CallAgrees(limit, old(keys), old(logs), old(clock), key, now, member);
      }
      if fault.ReplyLost? {
        allowed := true;
      }
    }

    /**
     Trim, then count: two calls, with `meanwhile` for whatever others do to the store in between.  If that is
     nothing and neither fails, the answer is what the limit leaves over the key's log of the last 60 s.
     */
    method GetRemaining(key: string, now: real, trim: Fault, meanwhile: Store -> Store, count: Fault)
      returns (remaining: int)
      modifies this`keys, this`clock
      ensures trim.Lost? ==> remaining == limit && keys == old(keys)
      ensures trim.ReplyLost? ==> remaining == limit && keys == Trimmed(old(keys), key, now)
      ensures trim.NoFault? ==>
                && keys == meanwhile(Trimmed(old(keys), key, now))
                && remaining == if count.NoFault? then Max(0, limit - |Lookup(keys, key).zset|) else limit
      ensures old(Valid()) && old(clock) <= now && (forall store: Store :: meanwhile(store) == store) ==>
                && Valid() && clock == now
                && (trim.NoFault? && count.NoFault? ==>
                      var used := Count(LogOf(key), now - 60.0, now);
                      remaining == if used < limit then limit - used else 0)
    {
      clock := now;
      if old(Valid()) && old(clock) <= now {
        StoreAgreesLater(limit, keys, logs, old(clock), now);
        SweepAgrees(limit, keys, logs, now, key);
      }
      if trim.Lost? {
        return limit;
      }
      var k := Lookup(keys, key);
      keys := keys[key := k.(zset := Trim(k.zset, now - WINDOW))];
      if trim.ReplyLost? {
        return limit;
      }
      keys := meanwhile(keys);
      if count != NoFault {
        return limit;
      }
      var currentCount := |Lookup(keys, key).zset|;
      remaining := Max(0, limit - currentCount);
    }

    /** Redis drops the key when its time to live has run out; nobody's log notices. */
    method Expire(key: string, now: real)
      requires Valid() && clock <= now && key in keys && keys[key].deadline <= now
      modifies this`keys, this`clock
      ensures Valid() && clock == now && key !in keys
    {
      StoreAgreesLater(limit, keys, logs, clock, now);
      ExpiryAgrees(limit, keys, logs, now, key);
      keys, clock := keys - {key}, now;
    }

    /** Unlike the other two calls this one lets a Redis error out. */
    method Reset(key: string, fault: Fault) returns (raised: bool)
      modifies this`keys, this`logs
      ensures raised <==> fault != NoFault
      ensures keys == if fault.Lost? then old(keys) else old(keys) - {key}
      ensures old(Valid()) ==> Valid()
      ensures !fault.Lost? ==> key !in keys && LogOf(key) == []
      ensures forall other :: other != key || fault.Lost? ==> LogOf(other) == old(LogOf(other))
    {
      if !fault.Lost? {
        keys, logs := keys - {key}, logs - {key};
        if old(Valid()) {
          ResetAgrees(limit, old(keys), old(logs), clock, key);
        }
      }
      raised := fault != NoFault;
    }
  }

  // ---------------------------------------------------------------- runs on one key

  /**
   One atomic step that can reach a key.  `Allow` is the script; `Swept` is the first half of
   get_remaining, whose clock reading `at` may be older than the moment the trim lands; `Expired`
   is the key's TTL firing, at any moment from the deadline on.  `now` is when a step lands, and for a
   script call also its clock reading, which is thus no older than any landing before it.
   */
  datatype Op =
    | Allow(now: real, member: string, fault: Fault)
    | Swept(now: real, at: real)
    | Expired(now: real)
    | Reset(now: real)

  /** A key, the full log of admissions since the last reset, and the clock. */
  datatype Sys = Sys(key: KeyState, log: seq<Admission>, clock: real)

  predicate Enabled(s: Sys, op: Op) {
    && s.clock <= op.now
    && (op.Swept? ==> op.at <= op.now)
    && (op.Expired? ==> s.key.deadline <= op.now)
  }

  function Apply(limit: int, s: Sys, op: Op): Sys {
    match op
    case Allow(now, member, fault) =>
      if fault.Lost? then s.(clock := now)
      else
        var (k, admitted) := Script(limit, s.key, now, member);
        Sys(k, if admitted then s.log + [Admission(member, now)] else s.log, now)
    case Swept(now, at) => s.(key := s.key.(zset := Trim(s.key.zset, at - WINDOW)), clock := now)
    case Expired(now) => s.(key := ABSENT, clock := now)
    case Reset(now) => Sys(ABSENT, [], now)
  }

  /** The state after a run, newest step last. */
  function Run(limit: int, t0: real, ops: seq<Op>): Sys {
    if ops == [] then Sys(ABSENT, [], t0)
    else Apply(limit, Run(limit, t0, ops[..|ops| - 1]), ops[|ops| - 1])
  }

  ghost predicate Possible(limit: int, t0: real, ops: seq<Op>) {
    forall i :: 0 <= i < |ops| ==> Enabled(Run(limit, t0, ops[..i]), ops[i])
  }

  /** The random suffix does its job: a script call never draws a member that is still live. */
  predicate FreshOp(s: Sys, op: Op) {
    op.Allow? ==> op.member !in Trim(s.key.zset, op.now - WINDOW)
  }

  ghost predicate FreshRun(limit: int, t0: real, ops: seq<Op>) {
    forall i :: 0 <= i < |ops| ==> FreshOp(Run(limit, t0, ops[..i]), ops[i])
  }

  // ---------------------------------------------------------------- the log as the reference

  /** What the sorted set would be had nothing ever been trimmed or expired. */
  function Latest(log: seq<Admission>): ZSet {
    if log == [] then map[]
    else Latest(log[..|log| - 1])[log[|log| - 1].member := log[|log| - 1].at]
  }

  /** Admissions made in the half-open window (lo, hi]. */
  function Count(log: seq<Admission>, lo: real, hi: real): nat {
    if log == [] then 0
    else Count(log[..|log| - 1], lo, hi) + if lo < log[|log| - 1].at <= hi then 1 else 0
  }

  /** Admissions made in the window that ends at `t`. */
  function InWindow(log: seq<Admission>, t: real): nat {
    Count(log, t - WINDOW, t)
  }

  ghost predicate Ordered(log: seq<Admission>, clock: real) {
    && (forall i, j :: 0 <= i < j < |log| ==> log[i].at <= log[j].at)
    && (forall i :: 0 <= i < |log| ==> log[i].at <= clock)
  }

  /** No two admissions newer than `cut` share a member. */
  ghost predicate LiveDistinct(log: seq<Admission>, cut: real) {
    forall i, j :: 0 <= i < j < |log| && log[i].at > cut ==> log[i].member != log[j].member
  }

  lemma {:induction false} LatestIsLogged(log: seq<Admission>, m: string)
    requires m in Latest(log)
    ensures Admission(m, Latest(log)[m]) in log
  {
    if m != log[|log| - 1].member {
      LatestIsLogged(log[..|log| - 1], m);
    }
  }

  lemma {:induction false} LatestIsNoEarlier(log: seq<Admission>, i: nat, clock: real)
    requires Ordered(log, clock) && i < |log|
    ensures log[i].member in Latest(log) && log[i].at <= Latest(log)[log[i].member]
  {
    if i < |log| - 1 && log[i].member != log[|log| - 1].member {
      LatestIsNoEarlier(log[..|log| - 1], i, clock);
    }
  }

  /** `m` was written by an admission newer than `cut`. */
  ghost predicate Live(log: seq<Admission>, m: string, cut: real) {
    exists i :: 0 <= i < |log| && log[i].at > cut && log[i].member == m
  }

  lemma {:induction false} LiveIsUntrimmed(log: seq<Admission>, m: string, cut: real, clock: real)
    requires Ordered(log, clock)
    ensures m in Trim(Latest(log), cut) <==> Live(log, m, cut)
  {
    if m in Trim(Latest(log), cut) {
      LatestIsLogged(log, m);
      var i :| 0 <= i < |log| && log[i] == Admission(m, Latest(log)[m]);
    }
    if Live(log, m, cut) {
      var i :| 0 <= i < |log| && log[i].at > cut && log[i].member == m;
      LatestIsNoEarlier(log, i, clock);
    }
  }

  lemma {:induction false} LiveDistinctAppend(log: seq<Admission>, a: Admission, cut: real)
    ensures LiveDistinct(log + [a], cut) <==> LiveDistinct(log, cut) && !Live(log, a.member, cut)
  {
    var l := log + [a];
    assert l[|log|] == a && forall i :: 0 <= i < |log| ==> l[i] == log[i];
  }

  lemma {:induction false} UpdateSize(z: ZSet, m: string, v: real)
    ensures |z[m := v]| == |z| + if m in z then 0 else 1
  {
    assert z[m := v].Keys == z.Keys + {m};
  }

  /** A newer entry is simply added to what a trim leaves. */
  lemma {:induction false} TrimUpdate(z: ZSet, m: string, v: real, cut: real)
    requires v > cut
    ensures Trim(z[m := v], cut) == Trim(z, cut)[m := v]
  {}

  lemma {:induction false} NothingLive(log: seq<Admission>, cut: real, hi: real)
    requires Ordered(log, cut)
    ensures Trim(Latest(log), cut) == map[] && Count(log, cut, hi) == 0 && LiveDistinct(log, cut)
  {
    forall m | m in Latest(log) ensures Latest(log)[m] <= cut {
      LatestIsLogged(log, m);
    }
    if log != [] {
      NothingLive(log[..|log| - 1], cut, hi);
    }
  }

  /**
   The script counts members; the promise is about admissions.  The two numbers agree exactly
   when no two live admissions share a member, and otherwise the script counts too few.
   */
  lemma {:induction false} MembersCountAdmissions(log: seq<Admission>, cut: real, hi: real)
    requires Ordered(log, hi)
    ensures |Trim(Latest(log), cut)| <= Count(log, cut, hi)
    ensures |Trim(Latest(log), cut)| == Count(log, cut, hi) <==> LiveDistinct(log, cut)
  {
    if log == [] {
      assert Trim(Latest(log), cut) == map[];
    } else {
      var n := |log| - 1;
      var p, a := log[..n], log[n];
      assert log == p + [a];
      if a.at > cut {
        MembersCountAdmissions(p, cut, hi);
        TrimUpdate(Latest(p), a.member, a.at, cut);
        UpdateSize(Trim(Latest(p), cut), a.member, a.at);
        LiveIsUntrimmed(p, a.member, cut, hi);
        LiveDistinctAppend(p, a, cut);
      } else {
        NothingLive(log, cut, hi);
      }
    }
  }

  lemma {:induction false} CountAppend(log: seq<Admission>, a: Admission, lo: real, hi: real)
    ensures Count(log + [a], lo, hi) == Count(log, lo, hi) + if lo < a.at <= hi then 1 else 0
  {
    assert (log + [a])[..|log + [a]| - 1] == log;
  }

  /** Of admissions no later than `hi`, a window that starts and ends later holds no more. */
  lemma {:induction false} CountLaterWindow(log: seq<Admission>, lo: real, hi: real, lo': real, hi': real)
    requires Ordered(log, hi) && lo <= lo'
    ensures Count(log, lo', hi') <= Count(log, lo, hi)
  {
    if log != [] {
      CountLaterWindow(log[..|log| - 1], lo, hi, lo', hi');
    }
  }

  // ---------------------------------------------------------------- refinement

  /** The trimmed, expiring set agrees with the full log on everything still in the window. */
  ghost predicate Refines(s: Sys) {
    && Ordered(s.log, s.clock)
    && Trim(s.key.zset, s.clock - WINDOW) == Trim(Latest(s.log), s.clock - WINDOW)
    && (forall m :: m in s.key.zset ==> s.key.zset[m] + WINDOW <= s.key.deadline)
  }

  lemma {:induction false} TrimTwice(z: ZSet, a: real, b: real)
    requires a <= b
    ensures Trim(Trim(z, a), b) == Trim(z, b)
  {}

  lemma {:induction false} RefinesLater(s: Sys, now: real)
    requires Refines(s) && s.clock <= now
    ensures Trim(s.key.zset, now - WINDOW) == Trim(Latest(s.log), now - WINDOW)
    ensures Refines(s.(clock := now))
  {
    TrimTwice(s.key.zset, s.clock - WINDOW, now - WINDOW);
    TrimTwice(Latest(s.log), s.clock - WINDOW, now - WINDOW);
  }

  /** When the TTL fires, nothing in the set is still inside the window. */
  lemma {:induction false} ExpiryRemovesNothingLive(s: Sys, now: real)
    requires Refines(s) && s.clock <= now && s.key.deadline <= now
    ensures Trim(s.key.zset, now - WINDOW) == map[]
    ensures Trim(Latest(s.log), now - WINDOW) == map[]
  {
    RefinesLater(s, now);
  }

  lemma {:induction false} AdmissionRefines(s: Sys, member: string)
    requires Refines(s)
    ensures var z := Trim(s.key.zset, s.clock - WINDOW);
            Refines(Sys(KeyState(z[member := s.clock], s.clock + WINDOW),
                        s.log + [Admission(member, s.clock)], s.clock))
  {
    var log := s.log + [Admission(member, s.clock)];
    assert log[..|log| - 1] == s.log;
    var cut := s.clock - WINDOW;
    var z := Trim(s.key.zset, cut);
    TrimUpdate(Latest(s.log), member, s.clock, cut);
    TrimUpdate(z, member, s.clock, cut);
    TrimTwice(s.key.zset, cut, cut);
    forall m | m in z ensures z[m] <= s.clock {
      assert m in Trim(Latest(s.log), cut);
      LatestIsLogged(s.log, m);
    }
  }

  /** A trim with a clock reading no later than now takes nothing live. */
  lemma {:induction false} TrimRefines(s: Sys, at: real)
    requires Refines(s) && at <= s.clock
    ensures Refines(s.(key := s.key.(zset := Trim(s.key.zset, at - WINDOW))))
  {
    TrimTwice(s.key.zset, at - WINDOW, s.clock - WINDOW);
  }

  lemma {:induction false} EmptyRefines(s: Sys)
    requires Ordered(s.log, s.clock) && Trim(Latest(s.log), s.clock - WINDOW) == map[]
    ensures Refines(s.(key := ABSENT))
  {
    assert Trim(map[], s.clock - WINDOW) == map[];
  }

  lemma {:induction false} AllowRefines(limit: int, s: Sys, op: Op)
    requires Refines(s) && op.Allow? && op.now == s.clock
    ensures Refines(Apply(limit, s, op))
  {
    var z := Trim(s.key.zset, s.clock - WINDOW);
    var a := Admission(op.member, s.clock);
    if op.fault.Lost? {
      assert Apply(limit, s, op) == s;
    } else if |z| < limit {
      assert Apply(limit, s, op) == Sys(KeyState(z[op.member := s.clock], s.clock + WINDOW), s.log + [a], s.clock);
      AdmissionRefines(s, op.member);
    } else {
      assert Apply(limit, s, op) == s.(key := s.key.(zset := z));
      TrimRefines(s, s.clock);
    }
  }

  lemma {:induction false} ForgettingRefines(limit: int, s: Sys, op: Op)
    requires Refines(s) && op.now == s.clock && Enabled(s, op) && !op.Allow?
    ensures Refines(Apply(limit, s, op))
  {
    if op.Swept? {
      TrimRefines(s, op.at);
    } else if op.Expired? {
      ExpiryRemovesNothingLive(s, op.now);
      EmptyRefines(s);
    } else {
      NothingLive([], op.now - WINDOW, op.now);
      EmptyRefines(Sys(ABSENT, [], op.now));
    }
  }

  lemma {:induction false} StepRefines(limit: int, s: Sys, op: Op)
    requires Refines(s) && Enabled(s, op)
    ensures Refines(Apply(limit, s, op))
  {
    var t := s.(clock := op.now);
    assert Apply(limit, s, op) == Apply(limit, t, op);
    assert Refines(t) by { RefinesLater(s, op.now); }
    if op.Allow? {
      AllowRefines(limit, t, op);
    } else {
      ForgettingRefines(limit, t, op);
    }
  }

  /** Every reachable set refines the log: at any later instant both have the same live entries. */
  lemma {:induction false} RunRefines(limit: int, t0: real, ops: seq<Op>)
    requires Possible(limit, t0, ops)
    ensures Refines(Run(limit, t0, ops))
  {
    if ops != [] {
      var p := ops[..|ops| - 1];
      forall i | 0 <= i < |p| ensures Enabled(Run(limit, t0, p[..i]), p[i]) {
        assert p[..i] == ops[..i];
      }
      RunRefines(limit, t0, p);
      StepRefines(limit, Run(limit, t0, p), ops[|ops| - 1]);
    }
  }

  // ---------------------------------------------------------------- the promises

  /** Every window holds at most `limit` admissions. */
  ghost predicate Safe(limit: int, log: seq<Admission>) {
    forall t: real :: InWindow(log, t) <= Max(0, limit)
  }

  ghost predicate Good(limit: int, s: Sys) {
    Refines(s) && LiveDistinct(s.log, s.clock - WINDOW) && Safe(limit, s.log)
  }

  /** A call is denied exactly when the full log already has `limit` admissions in the window. */
  lemma {:induction false} DeniedExactly(limit: int, s: Sys, now: real, member: string)
    requires Good(limit, s) && s.clock <= now
    ensures Script(limit, s.key, now, member).1 <==> InWindow(s.log, now) < limit
    ensures |Trim(s.key.zset, now - WINDOW)| == InWindow(s.log, now)
  {
    RefinesLater(s, now);
    MembersCountAdmissions(s.log, now - WINDOW, now);
  }

  lemma {:induction false} AdmissionKeepsSafe(limit: int, log: seq<Admission>, a: Admission)
    requires Safe(limit, log) && Ordered(log, a.at)
    requires InWindow(log, a.at) < limit
    ensures Safe(limit, log + [a])
  {
    forall t: real ensures InWindow(log + [a], t) <= Max(0, limit) {
      CountAppend(log, a, t - WINDOW, t);
      assert InWindow(log, t) <= Max(0, limit);
      if t - WINDOW < a.at <= t {
        CountLaterWindow(log, a.at - WINDOW, a.at, t - WINDOW, t);
      }
    }
  }

  lemma {:induction false} AdmissionStaysDistinct(s: Sys, member: string)
    requires Refines(s) && LiveDistinct(s.log, s.clock - WINDOW)
    requires member !in Trim(s.key.zset, s.clock - WINDOW)
    ensures LiveDistinct(s.log + [Admission(member, s.clock)], s.clock - WINDOW)
  {
    LiveIsUntrimmed(s.log, member, s.clock - WINDOW, s.clock);
    LiveDistinctAppend(s.log, Admission(member, s.clock), s.clock - WINDOW);
  }

  lemma {:induction false} StepGood(limit: int, s: Sys, op: Op)
    requires Good(limit, s) && Enabled(s, op) && FreshOp(s, op)
    ensures Good(limit, Apply(limit, s, op))
  {
    StepRefines(limit, s, op);
    var s' := Apply(limit, s, op);
    if s'.log == s.log {
      assert LiveDistinct(s'.log, s'.clock - WINDOW);
    } else if s'.log == [] {
      assert forall t: real :: InWindow([], t) == 0;
    } else {
      AdmissionGood(limit, s, op);
    }
  }

  lemma {:induction false} AdmissionGood(limit: int, s: Sys, op: Op)
    requires Good(limit, s) && Enabled(s, op) && FreshOp(s, op)
    requires op.Allow? && Apply(limit, s, op).log == s.log + [Admission(op.member, op.now)]
    ensures var s' := Apply(limit, s, op); LiveDistinct(s'.log, s'.clock - WINDOW) && Safe(limit, s'.log)
  {
    DeniedExactly(limit, s, op.now, op.member);
    AdmissionKeepsSafe(limit, s.log, Admission(op.member, op.now));
    RefinesLater(s, op.now);
    AdmissionStaysDistinct(s.(clock := op.now), op.member);
  }

  /**
   Window safety: in every interleaving of calls, lost replies, header reads, expiries and resets in which
   no script reading is older than the landing of a step before it, header reads included, every window
   (t-60, t] holds at most `limit` admissions since the last reset, and a call is denied exactly when the
   untrimmed log is full.  RateLimiterSkew treats readings that are older.
   */
  lemma {:induction false} RunSafe(limit: int, t0: real, ops: seq<Op>)
    requires Possible(limit, t0, ops) && FreshRun(limit, t0, ops)
    ensures Good(limit, Run(limit, t0, ops))
  {
    if ops != [] {
      var p := ops[..|ops| - 1];
      forall i | 0 <= i < |p|
        ensures Enabled(Run(limit, t0, p[..i]), p[i]) && FreshOp(Run(limit, t0, p[..i]), p[i])
      {
        assert p[..i] == ops[..i];
      }
      RunSafe(limit, t0, p);
      StepGood(limit, Run(limit, t0, p), ops[|ops| - 1]);
    }
  }

  // ---------------------------------------------------------------- the object and its logs

  lemma {:induction false} NothingIsGood(limit: int, clock: real)
    ensures Good(limit, Sys(KeyState(map[], 0.0), [], clock))
  {
    NothingLive([], clock - WINDOW, clock);
    EmptyRefines(Sys(ABSENT, [], clock));
    assert forall t: real :: InWindow([], t) == 0;
  }

  lemma {:induction false} GoodLater(limit: int, s: Sys, now: real)
    requires Good(limit, s) && s.clock <= now
    ensures Good(limit, s.(clock := now))
  {
    RefinesLater(s, now);
  }

  lemma {:induction false} StoreAgreesLater(
    limit: int, keys: Store, logs: map<string, seq<Admission>>, clock: real, now: real)
    requires StoreAgrees(limit, keys, logs, clock) && clock <= now
    ensures StoreAgrees(limit, keys, logs, now)
  {
    forall key: string ensures KeyAgrees(limit, keys, logs, now, key) {
      assert KeyAgrees(limit, keys, logs, clock, key);
      GoodLater(limit, Sys(if key in keys then keys[key] else KeyState(map[], 0.0),
                           if key in logs then logs[key] else [], clock), now);
    }
  }

  /** A member that no admission of the last minute drew is not in what the trim leaves. */
  lemma {:induction false} NewIsFresh(s: Sys, now: real, member: string)
    requires Refines(s) && s.clock <= now && NewMember(s.log, now, member)
    ensures member !in Trim(s.key.zset, now - WINDOW)
  {
    RefinesLater(s, now);
    LiveIsUntrimmed(s.log, member, now - WINDOW, s.clock);
  }

  lemma {:induction false} CallAgrees(limit: int, keys: Store, logs: map<string, seq<Admission>>, clock: real,
                                      key: string, now: real, member: string)
    requires StoreAgrees(limit, keys, logs, clock) && clock <= now
    requires NewMember(if key in logs then logs[key] else [], now, member)
    ensures var log := if key in logs then logs[key] else [];
            var (k, admitted) := Script(limit, Lookup(keys, key), now, member);
            var logs' := if admitted then logs[key := log + [Admission(member, now)]] else logs;
            && (admitted <==> Count(log, now - 60.0, now) < limit)
            && StoreAgrees(limit, keys[key := k], logs', now)
  {
    var log := if key in logs then logs[key] else [];
    assert KeyAgrees(limit, keys, logs, clock, key);
    CallOnKey(limit, Sys(Lookup(keys, key), log, clock), now, member);
    var (k, admitted) := Script(limit, Lookup(keys, key), now, member);
    var keys' := keys[key := k];
    var logs' := if admitted then logs[key := log + [Admission(member, now)]] else logs;
    StoreAgreesLater(limit, keys, logs, clock, now);
    forall other: string ensures KeyAgrees(limit, keys', logs', now, other) {
      assert KeyAgrees(limit, keys, logs, now, other);
    }
  }

  lemma {:induction false} CallOnKey(limit: int, s: Sys, now: real, member: string)
    requires Good(limit, s) && s.clock <= now && NewMember(s.log, now, member)
    ensures var (k, admitted) := Script(limit, s.key, now, member);
            && (admitted <==> Count(s.log, now - 60.0, now) < limit)
            && Good(limit, Sys(k, if admitted then s.log + [Admission(member, now)] else s.log, now))
  {
    NewIsFresh(s, now, member);
    DeniedExactly(limit, s, now, member);
    StepGood(limit, s, Allow(now, member, NoFault));
  }

  /** So in a valid state, whatever calls led to it, no window of 60 s of any key's log holds more than `limit`. */
  lemma {:induction false} EveryKeyIsSafe(limiter: RedisRateLimiter, key: string, t: real)
    requires limiter.Valid()
    ensures Count(limiter.LogOf(key), t - 60.0, t) <= if limiter.limit > 0 then limiter.limit else 0
  {
    assert KeyAgrees(limiter.limit, limiter.keys, limiter.logs, limiter.clock, key);
    assert InWindow(limiter.LogOf(key), t) <= Max(0, limiter.limit);
  }

  lemma {:induction false} SweepAgrees(
    limit: int, keys: Store, logs: map<string, seq<Admission>>, now: real, key: string)
    requires StoreAgrees(limit, keys, logs, now)
    ensures StoreAgrees(limit, Trimmed(keys, key, now), logs, now)
    ensures |Lookup(Trimmed(keys, key, now), key).zset| ==
            Count(if key in logs then logs[key] else [], now - 60.0, now)
  {
    var s := Sys(if key in keys then keys[key] else KeyState(map[], 0.0), if key in logs then logs[key] else [], now);
    assert KeyAgrees(limit, keys, logs, now, key);
    assert s.key == Lookup(keys, key);
    TrimRefines(s, now);
    DeniedExactly(limit, s, now, "");
    forall other: string ensures KeyAgrees(limit, Trimmed(keys, key, now), logs, now, other) {
      assert KeyAgrees(limit, keys, logs, now, other);
    }
  }

  lemma {:induction false} ExpiryAgrees(
    limit: int, keys: Store, logs: map<string, seq<Admission>>, now: real, key: string)
    requires StoreAgrees(limit, keys, logs, now) && key in keys && keys[key].deadline <= now
    ensures StoreAgrees(limit, keys - {key}, logs, now)
  {
    var s := Sys(keys[key], if key in logs then logs[key] else [], now);
    assert KeyAgrees(limit, keys, logs, now, key);
    ExpiryRemovesNothingLive(s, now);
    EmptyRefines(s);
    forall other: string ensures KeyAgrees(limit, keys - {key}, logs, now, other) {
      assert KeyAgrees(limit, keys, logs, now, other);
    }
  }

  lemma {:induction false} ResetAgrees(
    limit: int, keys: Store, logs: map<string, seq<Admission>>, clock: real, key: string)
    requires StoreAgrees(limit, keys, logs, clock)
    ensures StoreAgrees(limit, keys - {key}, logs - {key}, clock)
  {
    NothingIsGood(limit, clock);
    forall other: string ensures KeyAgrees(limit, keys - {key}, logs - {key}, clock, other) {
      assert KeyAgrees(limit, keys, logs, clock, other);
    }
  }

  // ---------------------------------------------------------------- requests let through

  /** Step i was a call in (lo, hi] on which Redis failed. */
  ghost predicate Failed(ops: seq<Op>, i: int, lo: real, hi: real)
    requires 0 <= i < |ops|
  {
    ops[i].Allow? && ops[i].fault != NoFault && lo < ops[i].now <= hi
  }

  /** Step i was a call in (lo, hi] whose request was let through: it was admitted to the log, or Redis failed. */
  ghost predicate LetThrough(limit: int, t0: real, ops: seq<Op>, i: int, lo: real, hi: real)
    requires 0 <= i < |ops|
  {
    && ops[i].Allow? && lo < ops[i].now <= hi
    && (ops[i].fault != NoFault || |Run(limit, t0, ops[..i + 1]).log| > |Run(limit, t0, ops[..i]).log|)
  }

  ghost function AllFailed(ops: seq<Op>, lo: real, hi: real): set<int> {
    set i | 0 <= i < |ops| && Failed(ops, i, lo, hi)
  }

  ghost function AllThrough(limit: int, t0: real, ops: seq<Op>, lo: real, hi: real): set<int> {
    set i | 0 <= i < |ops| && LetThrough(limit, t0, ops, i, lo, hi)
  }

  /** A call answers true exactly when its request is let through. */
  lemma {:induction false} AllowedIsLetThrough(limit: int, t0: real, ops: seq<Op>, op: Op)
    requires op.Allow?
    ensures LetThrough(limit, t0, ops + [op], |ops|, op.now - 1.0, op.now) <==>
            op.fault != NoFault || Script(limit, Run(limit, t0, ops).key, op.now, op.member).1
  {
    var all := ops + [op];
    assert all[..|ops|] == ops && all[..|ops| + 1] == all;
  }

  lemma {:induction false} SetsOfPrefix(limit: int, t0: real, ops: seq<Op>, lo: real, hi: real)
    requires ops != []
    ensures var n := |ops| - 1;
            && AllFailed(ops, lo, hi) == AllFailed(ops[..n], lo, hi) + (if Failed(ops, n, lo, hi) then {n} else {})
            && AllThrough(limit, t0, ops, lo, hi) ==
               AllThrough(limit, t0, ops[..n], lo, hi) + (if LetThrough(limit, t0, ops, n, lo, hi) then {n} else {})
  {
    var n := |ops| - 1;
    forall i | 0 <= i < n
      ensures Failed(ops, i, lo, hi) <==> Failed(ops[..n], i, lo, hi)
      ensures LetThrough(limit, t0, ops, i, lo, hi) <==> LetThrough(limit, t0, ops[..n], i, lo, hi)
    {
      assert ops[..n][..i] == ops[..i] && ops[..n][..i + 1] == ops[..i + 1];
    }
  }

  lemma {:induction false} PassStep(limit: int, s: Sys, op: Op, lo: real, hi: real)
    requires !op.Reset?
    ensures var s' := Apply(limit, s, op);
            Count(s'.log, lo, hi) >=
            Count(s.log, lo, hi) + if op.Allow? && |s'.log| > |s.log| && lo < op.now <= hi then 1 else 0
  {
    if op.Allow? {
      CountAppend(s.log, Admission(op.member, op.now), lo, hi);
    }
  }

  lemma {:induction false} PassesAreAccountedFor(limit: int, t0: real, ops: seq<Op>, lo: real, hi: real)
    requires forall i :: 0 <= i < |ops| ==> !ops[i].Reset?
    ensures |AllThrough(limit, t0, ops, lo, hi)| <= Count(Run(limit, t0, ops).log, lo, hi) + |AllFailed(ops, lo, hi)|
  {
    if ops != [] {
      var n := |ops| - 1;
      PassesAreAccountedFor(limit, t0, ops[..n], lo, hi);
      PassStep(limit, Run(limit, t0, ops[..n]), ops[n], lo, hi);
      SetsOfPrefix(limit, t0, ops, lo, hi);
      assert ops[..n + 1] == ops;
    }
  }

  /** Failing open costs no more than the failures: at most `limit` requests per window plus the failed calls in it. */
  lemma {:induction false} FailingOpenIsBounded(limit: int, t0: real, ops: seq<Op>, t: real)
    requires Possible(limit, t0, ops) && FreshRun(limit, t0, ops) && forall i :: 0 <= i < |ops| ==> !ops[i].Reset?
    ensures |AllThrough(limit, t0, ops, t - 60.0, t)| <=
            (if limit > 0 then limit else 0) + |AllFailed(ops, t - 60.0, t)|
  {
    RunSafe(limit, t0, ops);
    assert InWindow(Run(limit, t0, ops).log, t) <= Max(0, limit);
    PassesAreAccountedFor(limit, t0, ops, t - 60.0, t);
  }

  /** The steps that are not calls: a sweep drops what is a minute older than its reading, expiry and reset drop all. */
  lemma {:induction false} OtherStepsOutright(limit: int, s: Sys, now: real, at: real)
    requires at <= now && s.clock <= now
    ensures var s' := Apply(limit, s, Swept(now, at));
            && Enabled(s, Swept(now, at)) && s'.log == s.log && s'.clock == now
            && forall m :: m in s'.key.zset <==> m in s.key.zset && s.key.zset[m] > at - 60.0
    ensures s.key.deadline <= now ==>
              Enabled(s, Expired(now)) && Apply(limit, s, Expired(now)) == Sys(KeyState(map[], 0.0), s.log, now)
    ensures Enabled(s, Op.Reset(now)) && Apply(limit, s, Op.Reset(now)) == Sys(KeyState(map[], 0.0), [], now)
  {}

  // ---------------------------------------------------------------- repeated members

  /** The same call, with the same member, n times at one instant. */
  function Repeated(n: nat): (ops: seq<Op>)
    ensures |ops| == n
  {
    if n == 0 then [] else Repeated(n - 1) + [Allow(1.0, "m", NoFault)]
  }

  /** Without fresh members the promise breaks: any number of calls passes a limit of 2. */
  lemma {:induction false} CollisionOverAdmits(n: nat)
    requires n >= 1
    ensures var s := Run(2, 0.0, Repeated(n));
            && s.key == KeyState(map["m" := 1.0], 1.0 + WINDOW)
            && |s.log| == n && InWindow(s.log, 1.0) == n
  {
    assert Repeated(n)[..n - 1] == Repeated(n - 1);
    var s := Run(2, 0.0, Repeated(n - 1));
    if n == 1 {
      assert Trim(s.key.zset, 1.0 - WINDOW) == map[];
    } else {
      CollisionOverAdmits(n - 1);
      assert Trim(s.key.zset, 1.0 - WINDOW) == map["m" := 1.0];
    }
    CountAppend(s.log, Admission("m", 1.0), 1.0 - WINDOW, 1.0);
  }

  // ---------------------------------------------------------------- get_remaining and Retry-After

  /** `n` script calls in a row at the same instant. */
  function Burst(limit: int, k: KeyState, now: real, members: seq<string>): (KeyState, seq<bool>)
    decreases |members|
  {
    if members == [] then (k, [])
    else
      var (k1, ok) := Script(limit, k, now, members[0]);
      var (k2, oks) := Burst(limit, k1, now, members[1..]);
      (k2, [ok] + oks)
  }

  ghost predicate AllNew(z: ZSet, members: seq<string>) {
    && (forall i :: 0 <= i < |members| ==> members[i] !in z)
    && (forall i, j :: 0 <= i < j < |members| ==> members[i] != members[j])
  }

  lemma {:induction false} BurstStep(limit: int, k: KeyState, now: real, members: seq<string>)
    requires AllNew(Trim(k.zset, now - WINDOW), members) && members != []
    ensures var z := Trim(k.zset, now - WINDOW);
            var (k1, ok) := Script(limit, k, now, members[0]);
            var z1 := Trim(k1.zset, now - WINDOW);
            && AllNew(z1, members[1..])
            && ok == (|z| < limit) && |z1| == |z| + if ok then 1 else 0
  {
    var z := Trim(k.zset, now - WINDOW);
    TrimTwice(k.zset, now - WINDOW, now - WINDOW);
    TrimUpdate(z, members[0], now, now - WINDOW);
    UpdateSize(z, members[0], now);
  }

  /**
   The number get_remaining reports is exact: of any burst of calls at that instant, exactly the
   first `r` are admitted and every later one is denied.
   */
  lemma {:induction false} RemainingIsExact(limit: int, k: KeyState, now: real, members: seq<string>)
    requires AllNew(Trim(k.zset, now - WINDOW), members)
    ensures |Burst(limit, k, now, members).1| == |members|
    ensures forall i :: 0 <= i < |members| ==>
              (Burst(limit, k, now, members).1[i] <==> i < Max(0, limit - |Trim(k.zset, now - WINDOW)|))
    decreases |members|
  {
    if members != [] {
      var (k1, _) := Script(limit, k, now, members[0]);
      BurstStep(limit, k, now, members);
      RemainingIsExact(limit, k1, now, members[1..]);
    }
  }

  lemma {:induction false} TrimSize(z: ZSet, cut: real)
    ensures |Trim(z, cut)| <= |z|
    ensures |Trim(z, cut)| == |z| <==> Trim(z, cut) == z
  {
    var t := Trim(z, cut);
    SubsetSize(t.Keys, z.Keys);
    if |t| == |z| {
      assert z.Keys == t.Keys + (z.Keys - t.Keys);
      assert |z.Keys - t.Keys| == 0;
    }
  }

  /**
   The count comes after the trim, at some later instant: what it reports never overstates what a burst at
   that instant gets, and is exact if and only if nothing counted has left the window since, or it is full.
   */
  lemma {:induction false} ReportedExactly(limit: int, k: KeyState, now: real)
    ensures var reported, room := Max(0, limit - |k.zset|), Max(0, limit - |Trim(k.zset, now - WINDOW)|);
            && reported <= room
            && (reported == room <==> Trim(k.zset, now - WINDOW) == k.zset || |Trim(k.zset, now - WINDOW)| >= limit)
  {
    TrimSize(k.zset, now - WINDOW);
  }

  // ---------------------------------------------------------------- why members must be fresh

  /** What further steps make of a state. */
  function Follow(limit: int, s: Sys, ops: seq<Op>): Sys
    decreases |ops|
  {
    if ops == [] then s else Follow(limit, Apply(limit, s, ops[0]), ops[1..])
  }

  /** Steps that can come next, script calls among them with fresh members. */
  ghost predicate FreshPath(limit: int, s: Sys, ops: seq<Op>)
    decreases |ops|
  {
    ops != [] ==>
      && Enabled(s, ops[0]) && FreshOp(s, ops[0])
      && FreshPath(limit, Apply(limit, s, ops[0]), ops[1..])
  }

  lemma {:induction false} PathStaysGood(limit: int, s: Sys, ops: seq<Op>)
    requires Good(limit, s) && FreshPath(limit, s, ops)
    ensures Good(limit, Follow(limit, s, ops))
    decreases |ops|
  {
    if ops != [] {
      StepGood(limit, s, ops[0]);
      PathStaysGood(limit, Apply(limit, s, ops[0]), ops[1..]);
    }
  }

  /** Script calls one after the other at one instant. */
  function Calls(now: real, members: seq<string>): (ops: seq<Op>)
    ensures |ops| == |members|
  {
    if members == [] then [] else [Allow(now, members[0], NoFault)] + Calls(now, members[1..])
  }

  /** Calls with new members are a fresh path, and fill whatever room the set has. */
  lemma {:induction false} RoomIsFilled(limit: int, s: Sys, now: real, members: seq<string>)
    requires s.clock <= now && AllNew(Trim(s.key.zset, now - WINDOW), members)
    requires |Trim(s.key.zset, now - WINDOW)| + |members| <= limit
    ensures FreshPath(limit, s, Calls(now, members))
    ensures InWindow(Follow(limit, s, Calls(now, members)).log, now) == InWindow(s.log, now) + |members|
    decreases |members|
  {
    if members != [] {
      var op := Allow(now, members[0], NoFault);
      var s1 := Apply(limit, s, op);
      assert Calls(now, members)[0] == op && Calls(now, members)[1..] == Calls(now, members[1..]);
      BurstStep(limit, s.key, now, members);
      CountAppend(s.log, Admission(members[0], now), now - WINDOW, now);
      RoomIsFilled(limit, s1, now, members[1..]);
    }
  }

  lemma {:induction false} LongerThanAll(s: set<string>) returns (n: nat)
    ensures forall m :: m in s ==> |m| < n
    decreases |s|
  {
    if s == {} {
      return 0;
    }
    var m :| m in s;
    var rest := LongerThanAll(s - {m});
    n := rest + |m| + 1;
  }

  /** There are always as many new members as one likes. */
  lemma {:induction false} NewMembers(z: ZSet, n: nat) returns (members: seq<string>)
    ensures |members| == n && AllNew(z, members)
  {
    var longer := LongerThanAll(z.Keys);
    assert forall m :: m in z ==> |m| < longer;
    members := seq(n, i requires 0 <= i < n => seq(longer + i, _ => '*'));
    forall i, j | 0 <= i < j < n ensures members[i] != members[j] {
      assert |members[i]| == longer + i && |members[j]| == longer + j;
    }
    forall i | 0 <= i < n ensures members[i] !in z {
      assert |members[i]| == longer + i;
    }
  }

  /** The set does not grow, the log does: the room that is left over lets one admission too many in. */
  lemma {:induction false} RepeatedDrawBreaks(limit: int, s: Sys, now: real, member: string) returns (ops: seq<Op>)
    requires Good(limit, s) && s.clock <= now && |Trim(s.key.zset, now - WINDOW)| < limit
    requires member in Trim(s.key.zset, now - WINDOW)
    ensures var s1 := Apply(limit, s, Allow(now, member, NoFault));
            FreshPath(limit, s1, ops) && !Safe(limit, Follow(limit, s1, ops).log)
  {
    var z := Trim(s.key.zset, now - WINDOW);
    var s1 := Apply(limit, s, Allow(now, member, NoFault));
    DeniedExactly(limit, s, now, member);
    TrimTwice(s.key.zset, now - WINDOW, now - WINDOW);
    TrimUpdate(z, member, now, now - WINDOW);
    UpdateSize(z, member, now);
    CountAppend(s.log, Admission(member, now), now - WINDOW, now);
    var members := NewMembers(Trim(s1.key.zset, now - WINDOW), limit - |z|);
    ops := Calls(now, members);
    RoomIsFilled(limit, s1, now, members);
    assert InWindow(Follow(limit, s1, ops).log, now) == limit + 1;
  }

  /**
   Freshness is exactly what is needed: from any good state, an admitted draw leaves every fresh
   continuation, of any length and over any time, safe if and only if it is itself fresh.
   */
  lemma {:induction false} FreshnessIsNeededExactly(limit: int, s: Sys, now: real, member: string)
    requires Good(limit, s) && s.clock <= now && |Trim(s.key.zset, now - WINDOW)| < limit
    ensures var s1 := Apply(limit, s, Allow(now, member, NoFault));
            (forall ops :: FreshPath(limit, s1, ops) ==> Safe(limit, Follow(limit, s1, ops).log))
            <==> member !in Trim(s.key.zset, now - WINDOW)
  {
    var s1 := Apply(limit, s, Allow(now, member, NoFault));
    if member in Trim(s.key.zset, now - WINDOW) {
      var ops := RepeatedDrawBreaks(limit, s, now, member);
    } else {
      StepGood(limit, s, Allow(now, member, NoFault));
      forall ops | FreshPath(limit, s1, ops) ensures Safe(limit, Follow(limit, s1, ops).log) {
        PathStaysGood(limit, s1, ops);
      }
    }
  }

  /**
   Retry-After: 60 s after any instant, on a key left alone since, the window is empty and the
   retry is admitted, exactly when the configured limit admits anything at all.
   */
  lemma {:induction false} RetryAfterIsKept(limit: int, s: Sys, now: real, member: string)
    requires Refines(s) && s.clock + WINDOW <= now
    ensures Script(limit, s.key, now, member).1 <==> limit >= 1
  {
    RefinesLater(s, now);
    NothingLive(s.log, now - WINDOW, now);
  }
}
