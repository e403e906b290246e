/**
 Chat history in Redis lists: app/infrastructure/repositories/redis_chat_repo.py.

 The stored, trimmed and expiring lists are proved to show exactly what an unbounded log of every save
 and clear would show.  JSON is an arbitrary pair of functions.
 */
module ChatHistory {
  import opened Options

  const MAX_HISTORY: int := 100
  const WEEK: int := 86400 * 7

  datatype Role = System | User | Assistant

  datatype Message = Message(role: Role, content: string, metadata: string)

  type Raw = string

  datatype Codec = Codec(encode: Message -> Raw, decode: Raw -> Option<Message>)

  ghost predicate RoundTrips(codec: Codec) { forall m :: codec.decode(codec.encode(m)) == Some(m) }

  // ---------------------------------------------------------------- Redis lists

  /** LRANGE, and what LTRIM keeps: inclusive ends, negative ones counted from the end of the list. */
  function Range(list: seq<Raw>, start: int, stop: int): seq<Raw> {
    var n := |list|;
    var from := if start >= 0 then start else if start + n >= 0 then start + n else 0;
    var upto := if stop < 0 then stop + n else if stop >= n then n - 1 else stop;
    if from > upto then [] else list[from..upto + 1]
  }

  function LastOf<T>(s: seq<T>, k: nat): seq<T> { if |s| <= k then s else s[|s| - k..] }

  /** RPUSH then LTRIM -100 -1 keeps the last 100 of everything pushed. */
  lemma {:induction false} PushTrim(s: seq<Raw>, x: Raw)
    ensures Range(LastOf(s, MAX_HISTORY) + [x], -MAX_HISTORY, -1) == LastOf(s + [x], MAX_HISTORY)
  {}

  // ---------------------------------------------------------------- the unbounded log

  datatype Event = Saved(at: int, user: string, message: Message) | Cleared(user: string)

  /** The messages of one conversation, and the instant from which it counts as abandoned. */
  datatype Session = Session(messages: seq<Message>, until: int)

  /** A user's messages since their last clear and their last week of silence. */
  function SessionOf(events: seq<Event>, user: string): Session {
    if events == [] then Session([], 0)
    else
      var before := SessionOf(events[..|events| - 1], user);
      match events[|events| - 1]
      case Saved(at, u, m) =>
        if u != user then before
        else if at < before.until then Session(before.messages + [m], at + WEEK)
        else Session([m], at + WEEK)
      case Cleared(u) => if u == user then Session([], 0) else before
  }

  function Live(events: seq<Event>, user: string, now: int): seq<Message> {
    var s := SessionOf(events, user);
    if now < s.until then s.messages else []
  }

  function SavedBy(events: seq<Event>, user: string): seq<Message> {
    if events == [] then []
    else
      var e := events[|events| - 1];
      SavedBy(events[..|events| - 1], user) + (if e.Saved? && e.user == user then [e.message] else [])
  }

  lemma {:induction false} SessionAppend(events: seq<Event>, e: Event, user: string)
    ensures SessionOf(events + [e], user) ==
            var before := SessionOf(events, user);
            match e
            case Saved(at, u, m) =>
              if u != user then before
              else if at < before.until then Session(before.messages + [m], at + WEEK)
              else Session([m], at + WEEK)
            case Cleared(u) => if u == user then Session([], 0) else before
  {
    assert (events + [e])[..|events|] == events;
  }

  /** When the user last saved a message. */
  function LastSave(events: seq<Event>, user: string): Option<int> {
    if events == [] then None
    else
      var e := events[|events| - 1];
      if e.Saved? && e.user == user then Some(e.at) else LastSave(events[..|events| - 1], user)
  }

  /** No clear by the user, and never a week from one save of theirs to the next. */
  ghost predicate Uninterrupted(events: seq<Event>, user: string) {
    events != [] ==>
      var front, e := events[..|events| - 1], events[|events| - 1];
      && Uninterrupted(front, user)
      && (e.Cleared? ==> e.user != user)
      && (e.Saved? && e.user == user ==> Recent(front, user, e.at))
  }

  ghost predicate Recent(events: seq<Event>, user: string, now: int) {
    var last := LastSave(events, user);
    last.Some? ==> now < last.value + 604800
  }

  lemma {:induction false} UninterruptedIsEverything(events: seq<Event>, user: string)
    requires Uninterrupted(events, user)
    ensures SessionOf(events, user).messages == SavedBy(events, user)
    ensures match LastSave(events, user)
            case Some(at) => SessionOf(events, user).until == at + 604800
            case None => SavedBy(events, user) == []
  {
    if events != [] {
      UninterruptedIsEverything(events[..|events| - 1], user);
    }
  }

  /** The last save decides: a conversation is forgotten a week after it, and lives until then. */
  lemma {:induction false} ForgottenAfterAWeek(events: seq<Event>, user: string, now: int)
    requires forall i :: 0 <= i < |events| ==> !(events[i].Cleared? && events[i].user == user)
    ensures match LastSave(events, user)
            case Some(at) => (now < at + 604800 <==> Live(events, user, now) != [])
            case None => Live(events, user, now) == []
    ensures match LastSave(events, user)
            case Some(at) => SessionOf(events, user).until == at + 604800 && SessionOf(events, user).messages != []
            case None => SessionOf(events, user) == Session([], 0)
  {
    if events != [] {
      ForgottenAfterAWeek(events[..|events| - 1], user, now);
    }
  }

  // ---------------------------------------------------------------- what a query shows

  /** What `get_history` shows of a conversation, for every integer limit. */
  function Shown(live: seq<Message>, limit: int): seq<Message> {
    var kept := LastOf(live, MAX_HISTORY);
    if limit >= 1 then LastOf(kept, limit)
    else if -limit <= |kept| then kept[-limit..] else []
  }

  /**
   The promise "the last `limit` messages" is kept for every limit from 1 to 100 and otherwise only by
   accident: limit 0 returns everything kept, and above 100 older messages are gone.
   */
  lemma {:induction false} LastMessagesExactly(live: seq<Message>, limit: nat)
    ensures Shown(live, limit) == LastOf(live, limit)
       <==> (1 <= limit <= 100 || (limit == 0 && live == []) || (limit > 100 && |live| <= 100))
  {
    if limit == 0 {
      assert Shown(live, 0) == LastOf(live, MAX_HISTORY);
      assert LastOf(live, 0) == [];
    } else if limit <= MAX_HISTORY {
      assert Shown(live, limit) == LastOf(live, limit);
    } else {
      assert Shown(live, limit) == LastOf(live, MAX_HISTORY);
    }
  }

  /** With no clear and no silent week, that is the last `limit` of everything the user ever saved. */
  lemma {:induction false} LastOfEverything(events: seq<Event>, user: string, now: int, limit: nat)
    requires Uninterrupted(events, user) && Recent(events, user, now) && 1 <= limit <= 100
    ensures Shown(Live(events, user, now), limit) == LastOf(SavedBy(events, user), limit)
  {
    UninterruptedIsEverything(events, user);
    LastMessagesExactly(Live(events, user, now), limit);
  }

  function Encoded(codec: Codec, ms: seq<Message>): (rs: seq<Raw>)
    ensures |rs| == |ms|
  {
    seq(|ms|, i requires 0 <= i < |ms| => codec.encode(ms[i]))
  }

  lemma {:induction false} EncodedLast(codec: Codec, ms: seq<Message>, k: nat)
    ensures Encoded(codec, LastOf(ms, k)) == LastOf(Encoded(codec, ms), k)
  {}

  lemma {:induction false} EncodedShown(codec: Codec, live: seq<Message>, limit: int)
    ensures Range(LastOf(Encoded(codec, live), MAX_HISTORY), -limit, -1) == Encoded(codec, Shown(live, limit))
  {
    EncodedLast(codec, live, MAX_HISTORY);
    var kept := LastOf(live, MAX_HISTORY);
    if limit >= 1 {
      EncodedLast(codec, kept, limit);
    }
  }

  function Readable(codec: Codec, raws: seq<Raw>): seq<Message> {
    if raws == [] then []
    else
      Readable(codec, raws[..|raws| - 1])
      + (match codec.decode(raws[|raws| - 1]) case Some(m) => [m] case None => [])
  }

  /** An entry that does not decode is left out, and only it. */
  lemma {:induction false} ReadableAppend(codec: Codec, raws: seq<Raw>, raw: Raw)
    ensures Readable(codec, raws + [raw]) ==
            match codec.decode(raw)
            case Some(m) => Readable(codec, raws) + [m]
            case None => Readable(codec, raws)
  {
    assert (raws + [raw])[..|raws|] == raws;
  }

  lemma {:induction false} ReadableEncoded(codec: Codec, ms: seq<Message>)
    requires RoundTrips(codec)
    ensures Readable(codec, Encoded(codec, ms)) == ms
  {
    if ms != [] {
      var front, m := ms[..|ms| - 1], ms[|ms| - 1];
      ReadableEncoded(codec, front);
      assert Encoded(codec, ms)[..|ms| - 1] == Encoded(codec, front);
      assert codec.decode(codec.encode(m)) == Some(m);
    }
  }

  // ---------------------------------------------------------------- the repository

  datatype Stored = Stored(entries: seq<Raw>, expires: int)

  function Key(user: string): string { "chat:" + user }

  lemma {:induction false} KeysDiffer(u: string, v: string)
    requires Key(u) == Key(v)
    ensures u == v
  {
    assert Key(u)[5..] == u && Key(v)[5..] == v;
  }

  /** The stored list of a user is the last 100 of their conversation in the log, with its deadline. */
  ghost predicate Agrees(codec: Codec, store: map<string, Stored>, events: seq<Event>, user: string, now: int) {
    var s := SessionOf(events, user);
    if Key(user) in store
    then store[Key(user)] == Stored(LastOf(Encoded(codec, s.messages), MAX_HISTORY), s.until)
    else s.messages == [] || s.until <= now
  }

  function EntriesAt(store: map<string, Stored>, key: string, now: int): seq<Raw> {
    if key in store && now < store[key].expires then store[key].entries else []
  }

  lemma {:induction false} LiveEntries(
    codec: Codec, store: map<string, Stored>, events: seq<Event>, user: string, now: int)
    requires Agrees(codec, store, events, user, now)
    ensures EntriesAt(store, Key(user), now) == LastOf(Encoded(codec, Live(events, user, now)), MAX_HISTORY)
  {}

  lemma {:induction false} SaveAgrees(codec: Codec, store: map<string, Stored>, events: seq<Event>, now: int,
                   user: string, m: Message, v: string)
    requires Agrees(codec, store, events, user, now) && Agrees(codec, store, events, v, now)
    ensures var list := Range(EntriesAt(store, Key(user), now) + [codec.encode(m)], -MAX_HISTORY, -1);
            Agrees(codec, store[Key(user) := Stored(list, now + WEEK)], events + [Saved(now, user, m)], v, now)
  {
    SessionAppend(events, Saved(now, user, m), v);
    if Key(v) == Key(user) {
      KeysDiffer(v, user);
      var live := Live(events, user, now);
      LiveEntries(codec, store, events, user, now);
      PushTrim(Encoded(codec, live), codec.encode(m));
      assert Encoded(codec, live + [m]) == Encoded(codec, live) + [codec.encode(m)];
      assert SessionOf(events + [Saved(now, user, m)], user) == Session(live + [m], now + WEEK);
    }
  }

  lemma {:induction false} ClearAgrees(
    codec: Codec, store: map<string, Stored>, events: seq<Event>, now: int, user: string, v: string)
    requires Agrees(codec, store, events, v, now)
    ensures Agrees(codec, store - {Key(user)}, events + [Cleared(user)], v, now)
  {
    SessionAppend(events, Cleared(user), v);
    if Key(v) == Key(user) {
      KeysDiffer(v, user);
    }
  }

  class RedisChatHistoryRepository {
    const codec: Codec
    var store: map<string, Stored>
    var clock: int
    ghost var events: seq<Event>

    ghost predicate Valid()
      reads this
    {
      forall u :: Agrees(codec, store, events, u, clock)
    }

    constructor (codec: Codec, now: int)
      ensures Valid() && events == [] && this.codec == codec && clock == now
    {
      this.codec, store, clock, events := codec, map[], now, [];
    }

    /** Time passes. */
    method Wait(seconds: nat)
      requires Valid()
      modifies this
      ensures Valid() && events == old(events) && clock == old(clock) + seconds
    {
      var later := clock + seconds;
      forall u ensures Agrees(codec, store, events, u, later) {
        assert Agrees(codec, store, events, u, clock);
      }
      clock := later;
    }

    /** Redis removes a key whose time has come. */
    method Purge(key: string)
      requires Valid()
      modifies this
      ensures Valid() && events == old(events) && clock == old(clock)
    {
      if key in store && store[key].expires <= clock {
        forall u ensures Agrees(codec, store - {key}, events, u, clock) {
          assert Agrees(codec, store, events, u, clock);
        }
        store := store - {key};
      }
    }

    /** One transaction: RPUSH, LTRIM, EXPIRE. */
    method SaveMessage(user: string, m: Message)
      requires Valid()
      modifies this
      ensures Valid() && clock == old(clock)
      ensures events == old(events) + [Saved(clock, user, m)]
      ensures Live(events, user, clock) == Live(old(events), user, clock) + [m]
      ensures forall other :: other != user ==> Live(events, other, clock) == Live(old(events), other, clock)
    {
      var key := Key(user);
      var list := EntriesAt(store, key, clock);
      list := list + [codec.encode(m)];
      list := Range(list, -MAX_HISTORY, -1);
      var stored := store[key := Stored(list, clock + WEEK)];
      forall v ensures Agrees(codec, stored, events + [Saved(clock, user, m)], v, clock) {
        SaveAgrees(codec, store, events, clock, user, m, v);
      }
      store := stored;
      events := events + [Saved(clock, user, m)];
    }

    method GetHistory(user: string, limit: int) returns (messages: seq<Message>)
      requires Valid()
      ensures messages == Readable(codec, Encoded(codec, Shown(Live(events, user, clock), limit)))
      ensures RoundTrips(codec) ==> messages == Shown(Live(events, user, clock), limit)
    {
      var raws := Range(EntriesAt(store, Key(user), clock), -limit, -1);
      assert raws == Encoded(codec, Shown(Live(events, user, clock), limit)) by {
        LiveEntries(codec, store, events, user, clock);
        EncodedShown(codec, Live(events, user, clock), limit);
      }
      messages := [];
      for i := 0 to |raws|
        invariant messages == Readable(codec, raws[..i])
      {
        assert raws[..i + 1][..i] == raws[..i];
        match codec.decode(raws[i])
        case Some(m) => messages := messages + [m];
        case None =>
      }
      assert raws[..|raws|] == raws;
      if RoundTrips(codec) {
        ReadableEncoded(codec, Shown(Live(events, user, clock), limit));
      }
    }

    method ClearHistory(user: string)
      requires Valid()
      modifies this
      ensures Valid() && clock == old(clock)
      ensures events == old(events) + [Cleared(user)]
      ensures Live(events, user, clock) == []
      ensures forall other :: other != user ==> Live(events, other, clock) == Live(old(events), other, clock)
    {
      forall v ensures Agrees(codec, store - {Key(user)}, events + [Cleared(user)], v, clock) {
        ClearAgrees(codec, store, events, clock, user, v);
      }
      store := store - {Key(user)};
      events := events + [Cleared(user)];
    }
  }
}
