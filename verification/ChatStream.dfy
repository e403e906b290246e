/**
 Answering and remembering: `stream` and the history writes of `execute` in
 app/application/use_cases/rag_chat.py, and the consumer of the stream in app/api/routers/chat.py.

 The generator is an object with a `Next`; a consumer may stop after any pull.  A `Plan` holds what the
 world decides: which calls raise, which deltas arrive, which results the context used.
 */
module ChatStream {
  import opened Options
  import opened ChatHistory
  import Context

  datatype Request = Request(message: string, user: Option<string>)

  /** `user_id` is used only when it is neither absent nor empty. */
  predicate HasUser(request: Request) { request.user.Some? && request.user.value != "" }

  datatype StreamChunk = StreamChunk(
    content: string,
    done: bool,
    sources: Option<seq<Context.Source>>,
    promptTokens: Option<nat>,
    completionTokens: Option<nat>,
    totalTokens: Option<nat>)

  datatype Plan = Plan(
    setup: bool,                            // search, context, history read and prompt succeed
    prompt: string,
    used: seq<Context.SearchResult>,
    deltas: seq<string>,                    // what the model sends before it ends or raises
    raises: bool,
    count: string -> nat,
    firstSave: bool,                        // the two history writes succeed
    secondSave: bool)

  function Concat(deltas: seq<string>): string {
    if deltas == [] then "" else Concat(deltas[..|deltas| - 1]) + deltas[|deltas| - 1]
  }

  function DeltaChunk(delta: string): StreamChunk { StreamChunk(delta, false, None, None, None, None) }

  /** The assistant message the stream makes of its deltas. */
  function Answer(content: string): Message { Message(Assistant, content, "{}") }

  /** The messages one answered request leaves behind. */
  function Exchange(request: Request, answer: Message): seq<Message> {
    [Message(User, request.message, "{}"), answer]
  }

  /** The chunks are the first n deltas, in order. */
  ghost predicate AreDeltas(chunks: seq<StreamChunk>, deltas: seq<string>) {
    |chunks| == |deltas| && forall i :: 0 <= i < |chunks| ==> chunks[i] == DeltaChunk(deltas[i])
  }

  ghost predicate IsFinal(c: StreamChunk, plan: Plan) {
    && c.done && c.content == "" && c.sources.Some?
    && |c.sources.value| == |plan.used|
    && (forall i :: 0 <= i < |plan.used| ==>
          c.sources.value[i].index == i + 1 && Context.Cites(c.sources.value[i], plan.used[i]))
    && c.promptTokens == Some(plan.count(plan.prompt))
    && c.completionTokens == Some(plan.count(Concat(plan.deltas)))
    && c.totalTokens == Some(plan.count(plan.prompt) + plan.count(Concat(plan.deltas)))
  }

  /** Every delta in order, then exactly one done chunk. */
  ghost predicate IsWholeAnswer(chunks: seq<StreamChunk>, plan: Plan) {
    && |chunks| == |plan.deltas| + 1
    && AreDeltas(chunks[..|plan.deltas|], plan.deltas)
    && IsFinal(chunks[|plan.deltas|], plan)
  }

  function SaveEvents(at: int, user: string, ms: seq<Message>): seq<Event> {
    seq(|ms|, i requires 0 <= i < |ms| => Saved(at, user, ms[i]))
  }

  /** What the two writes leave behind, given which of them raise. */
  function Remembered(request: Request, answer: Message, first: bool, second: bool): seq<Message> {
    if !HasUser(request) || !first then []
    else if second then Exchange(request, answer)
    else Exchange(request, answer)[..1]
  }

  function RememberedEvents(at: int, request: Request, saved: seq<Message>): seq<Event> {
    if HasUser(request) then SaveEvents(at, request.user.value, saved) else []
  }

  /** What one answered request adds to the log: question and answer, the question alone, or nothing. */
  ghost predicate Adds(before: seq<Event>, after: seq<Event>, at: int, request: Request, answer: Message,
                       first: bool, second: bool)
  {
    match request.user
    case None => after == before
    case Some(user) =>
      if user == "" || !first then after == before
      else
        var asked := Saved(at, user, Message(User, request.message, "{}"));
        after == before + if second then [asked, Saved(at, user, answer)] else [asked]
  }

  method SaveExchange(repo: RedisChatHistoryRepository, request: Request, answer: Message, first: bool, second: bool)
    returns (ok: bool)
    requires repo.Valid()
    modifies repo
    ensures repo.Valid() && repo.clock == old(repo.clock)
    ensures ok == (HasUser(request) ==> first && second)
    ensures repo.events == old(repo.events)
              + RememberedEvents(repo.clock, request, Remembered(request, answer, first, second))
    ensures Adds(old(repo.events), repo.events, repo.clock, request, answer, first, second)
  {
    if !HasUser(request) {
      return true;
    }
    var user := request.user.value;
    var asked := Message(User, request.message, "{}");
    if !first {
      return false;
    }
    repo.SaveMessage(user, asked);
    if !second {
      return false;
    }
    repo.SaveMessage(user, answer);
    return true;
  }

  /** The non-streaming path: the same two writes, of the provider's own message, only after it has answered. */
  method Execute(repo: RedisChatHistoryRepository, request: Request, plan: Plan, reply: Option<Message>)
    returns (ok: bool)
    requires repo.Valid()
    modifies repo
    ensures repo.Valid() && repo.clock == old(repo.clock)
    ensures ok == (plan.setup && reply.Some? && (HasUser(request) ==> plan.firstSave && plan.secondSave))
    ensures repo.events == old(repo.events)
              + if plan.setup && reply.Some?
                then RememberedEvents(repo.clock, request,
                                      Remembered(request, reply.value, plan.firstSave, plan.secondSave))
                else []
    ensures if plan.setup && reply.Some?
            then Adds(old(repo.events), repo.events, repo.clock, request, reply.value, plan.firstSave, plan.secondSave)
            else repo.events == old(repo.events)
  {
    if !plan.setup || reply.None? {
      return false;
    }
    ok := SaveExchange(repo, request, reply.value, plan.firstSave, plan.secondSave);
  }

  datatype Phase = Fresh | Streaming | AtDone | Ended | Broken

  datatype Pull = Yields(chunk: StreamChunk) | Stops | Raises

  class AnswerStream {
    const request: Request
    const plan: Plan
    const repo: RedisChatHistoryRepository
    var phase: Phase
    var position: nat
    var fullContent: string
    ghost var emitted: seq<StreamChunk>
    ghost var saved: seq<Message>

    ghost predicate Complete()
      reads this
    {
      plan.setup && !plan.raises && position == |plan.deltas| && IsWholeAnswer(emitted, plan)
    }

    /** Agreement between what was emitted and what was saved, whatever the consumer does. */
    ghost predicate Valid()
      reads this
    {
      && position <= |plan.deltas|
      && fullContent == Concat(plan.deltas[..position])
      && match phase
         case Fresh => position == 0 && emitted == [] && saved == []
         case Streaming => plan.setup && AreDeltas(emitted, plan.deltas[..position]) && saved == []
         case AtDone => Complete() && saved == []
         case Ended =>
           && Complete()
           && saved == Remembered(request, Answer(Concat(plan.deltas)), true, true)
           && (HasUser(request) ==> plan.firstSave && plan.secondSave)
         case Broken =>
           || (saved == [] && (!plan.setup || plan.raises) && AreDeltas(emitted, plan.deltas[..position]))
           || (&& Complete() && HasUser(request) && !(plan.firstSave && plan.secondSave)
               && saved == Remembered(request, Answer(Concat(plan.deltas)), plan.firstSave, plan.secondSave))
    }

    constructor (repo: RedisChatHistoryRepository, request: Request, plan: Plan)
      ensures Valid() && this.repo == repo && this.request == request && this.plan == plan
      ensures phase == Fresh && emitted == [] && saved == []
    {
      this.repo, this.request, this.plan := repo, request, plan;
      phase, position, fullContent, emitted, saved := Fresh, 0, "", [], [];
    }

    method YieldDelta() returns (chunk: StreamChunk)
      requires Valid() && phase == Streaming && position < |plan.deltas|
      modifies this
      ensures Valid() && phase == Streaming && position == old(position) + 1
      ensures emitted == old(emitted) + [chunk] && saved == old(saved)
    {
      var delta := plan.deltas[position];
      assert plan.deltas[..position + 1][..position] == plan.deltas[..position];
      position := position + 1;
      fullContent := fullContent + delta;
      chunk := StreamChunk(delta, false, None, None, None, None);
      emitted := emitted + [chunk];
    }

    method YieldFinal() returns (chunk: StreamChunk)
      requires Valid() && phase == Streaming && position == |plan.deltas| && !plan.raises
      modifies this
      ensures Valid() && phase == AtDone
      ensures emitted == old(emitted) + [chunk] && saved == old(saved)
    {
      assert plan.deltas[..position] == plan.deltas;
      var sources := Context.BuildSources(plan.used);
      var promptTokens := plan.count(plan.prompt);
      var completionTokens := plan.count(fullContent);
      chunk := StreamChunk("", true, Some(sources), Some(promptTokens), Some(completionTokens),
                           Some(promptTokens + completionTokens));
      phase := AtDone;
      emitted := emitted + [chunk];
      assert emitted[..|plan.deltas|] == old(emitted);
    }

    method SaveAndEnd() returns (r: Pull)
      requires Valid() && repo.Valid() && phase == AtDone
      modifies this, repo
      ensures Valid() && repo.Valid() && repo.clock == old(repo.clock)
      ensures phase == (if HasUser(request) && !(plan.firstSave && plan.secondSave) then Broken else Ended)
      ensures emitted == old(emitted) && !r.Yields?
      ensures repo.events == old(repo.events)
                + RememberedEvents(repo.clock, request, saved)
    {
      assert plan.deltas[..position] == plan.deltas;
      var ok := SaveExchange(repo, request, Answer(fullContent), plan.firstSave, plan.secondSave);
      saved := Remembered(request, Answer(fullContent), plan.firstSave, plan.secondSave);
      phase, r := if ok then Ended else Broken, if ok then Stops else Raises;
    }

    /** Resume the generator until it yields, ends or raises. */
    method Next() returns (r: Pull)
      requires Valid() && repo.Valid()
      modifies this, repo
      ensures Valid() && repo.Valid() && repo.clock == old(repo.clock)
      ensures r.Yields? ==>
                && (phase == Streaming || phase == AtDone)
                && emitted == old(emitted) + [r.chunk] && repo.events == old(repo.events)
      ensures !r.Yields? ==> (phase == Ended || phase == Broken) && emitted == old(emitted)
      ensures old(saved) <= saved
      ensures repo.events == old(repo.events)
                + RememberedEvents(repo.clock, request, saved[|old(saved)|..])
    {
      if phase == Ended || phase == Broken {
        return Stops;
      }
      if phase == AtDone {
        r := SaveAndEnd();
        return;
      }
      if phase == Fresh && !plan.setup {
        phase := Broken;
        return Raises;
      }
      phase := Streaming;
      if position < |plan.deltas| {
        var chunk := YieldDelta();
        return Yields(chunk);
      }
      if plan.raises {
        phase := Broken;
        return Raises;
      }
      var chunk := YieldFinal();
      return Yields(chunk);
    }
  }

  // ---------------------------------------------------------------- the consumer

  /** On each chunk the client is still there, is found gone before it is sent, or leaves on receiving it. */
  datatype Client = Stays | Gone | Leaves

  /** The generator is resumed after its done chunk. */
  ghost predicate Followed(plan: Plan, client: nat -> Client) {
    plan.setup && !plan.raises && forall k: nat :: k <= |plan.deltas| ==> client(k) == Stays
  }

  ghost predicate Settled(stream: AnswerStream, client: nat -> Client, sent: seq<StreamChunk>)
    reads stream
  {
    var plan := stream.plan;
    && stream.saved == (if Followed(plan, client)
                        then Remembered(stream.request, Answer(Concat(plan.deltas)), plan.firstSave, plan.secondSave)
                        else [])
    && (stream.saved != [] ==> sent == stream.emitted)
  }

  lemma {:induction false} EndIsSettled(stream: AnswerStream, client: nat -> Client, sent: seq<StreamChunk>)
    requires stream.Valid() && (stream.phase == Ended || stream.phase == Broken)
    requires sent == stream.emitted && forall k: nat :: k < |sent| ==> client(k) == Stays
    ensures Settled(stream, client, sent)
  {}

  lemma {:induction false} LeavingIsSettled(stream: AnswerStream, client: nat -> Client, sent: seq<StreamChunk>, k: nat)
    requires stream.Valid() && (stream.phase == Streaming || stream.phase == AtDone)
    requires k <= |stream.plan.deltas| && client(k) != Stays
    ensures Settled(stream, client, sent)
  {
    assert !Followed(stream.plan, client);
  }

  /** The loop's state: all clear so far, or over with its account settled. */
  ghost predicate InStep(stream: AnswerStream, client: nat -> Client, sent: seq<StreamChunk>, over: bool)
    reads stream
  {
    && sent <= stream.emitted
    && if over then Settled(stream, client, sent)
       else
         && sent == stream.emitted && |sent| <= |stream.plan.deltas| + 1
         && stream.phase != Ended && stream.phase != Broken && stream.saved == []
         && forall k: nat :: k < |sent| ==> client(k) == Stays
  }

  /** One round of the loop: pull, look for the client, forward. */
  method Relay(stream: AnswerStream, client: nat -> Client, sent: seq<StreamChunk>)
    returns (sent': seq<StreamChunk>, over: bool)
    requires stream.Valid() && stream.repo.Valid() && InStep(stream, client, sent, false)
    modifies stream, stream.repo
    ensures stream.Valid() && stream.repo.Valid() && stream.repo.clock == old(stream.repo.clock)
    ensures InStep(stream, client, sent', over)
    ensures over || |sent'| > |sent|
    ensures stream.repo.events == old(stream.repo.events)
              + RememberedEvents(stream.repo.clock, stream.request, stream.saved)
  {
    sent' := sent;
    var r := stream.Next();
    if r.Yields? {
      EmittedInOrder(stream, stream.emitted);
      if client(|sent|) != Gone {
        sent' := sent + [r.chunk];
      }
      over := client(|sent|) != Stays;
      if over {
        LeavingIsSettled(stream, client, sent', |sent|);
      }
    } else {
      EndIsSettled(stream, client, sent);
      over := true;
    }
  }

  /** What was emitted so far is deltas in order, then at most one done chunk. */
  lemma {:induction false} EmittedInOrder(stream: AnswerStream, sent: seq<StreamChunk>)
    requires stream.Valid() && sent <= stream.emitted
    ensures var plan := stream.plan;
            || IsWholeAnswer(sent, plan)
            || (|sent| <= |plan.deltas| && AreDeltas(sent, plan.deltas[..|sent|]))
    ensures stream.saved != [] ==> IsWholeAnswer(stream.emitted, stream.plan)
    ensures stream.phase == Streaming || stream.phase == AtDone ==> stream.saved == []
  {}

  /** Sent chunks carry the deltas, in order, and at most one done chunk follows. */
  ghost predicate SentInOrder(sent: seq<StreamChunk>, deltas: seq<string>) {
    && |sent| <= |deltas| + 1
    && (forall k :: 0 <= k < |sent| && k < |deltas| ==> sent[k].content == deltas[k] && !sent[k].done)
    && (|sent| == |deltas| + 1 ==> sent[|deltas|].done && sent[|deltas|].content == "")
  }

  /** `text` is the contents of the chunks before the last, laid end to end: chunk k ends where k + 1 begins. */
  ghost predicate LaidEndToEnd(text: string, sent: seq<StreamChunk>) {
    exists cuts: seq<nat> :: CutsInto(text, sent, cuts)
  }

  ghost predicate CutsInto(text: string, sent: seq<StreamChunk>, cuts: seq<nat>) {
    && |cuts| == |sent| > 0 && cuts[0] == 0 && cuts[|sent| - 1] == |text|
    && forall k :: 0 <= k < |sent| - 1 ==> IsPiece(text, cuts, k, sent[k].content)
  }

  predicate IsPiece(text: string, cuts: seq<nat>, k: nat, piece: string) {
    k + 1 < |cuts| && cuts[k] <= cuts[k + 1] <= |text| && text[cuts[k]..cuts[k + 1]] == piece
  }

  lemma {:induction false} PieceStays(front: string, more: string, before: seq<nat>, cut: nat, k: nat, piece: string)
    requires IsPiece(front, before, k, piece)
    ensures IsPiece(front + more, before + [cut], k, piece)
  {
    assert (front + more)[before[k]..before[k + 1]] == front[before[k]..before[k + 1]];
  }

  lemma {:induction false} LastPiece(front: string, more: string, before: seq<nat>)
    requires before != [] && before[|before| - 1] == |front|
    ensures IsPiece(front + more, before + [|front| + |more|], |before| - 1, more)
  {}

  lemma {:induction false} ConcatCuts(deltas: seq<string>, sent: seq<StreamChunk>) returns (cuts: seq<nat>)
    requires |sent| == |deltas| + 1 && forall k :: 0 <= k < |deltas| ==> sent[k].content == deltas[k]
    ensures CutsInto(Concat(deltas), sent, cuts)
  {
    if deltas == [] {
      return [0];
    }
    var n := |deltas| - 1;
    var before := ConcatCuts(deltas[..n], sent[..n + 1]);
    var front := Concat(deltas[..n]);
    cuts := before + [|front| + |deltas[n]|];
    forall k | 0 <= k < |sent| - 1 ensures IsPiece(Concat(deltas), cuts, k, sent[k].content) {
      if k < n {
        assert IsPiece(front, before, k, sent[..n + 1][k].content);
        PieceStays(front, deltas[n], before, |front| + |deltas[n]|, k, sent[k].content);
      } else {
        LastPiece(front, deltas[n], before);
      }
    }
  }

  lemma {:induction false} WholeAnswerLaidOut(plan: Plan, sent: seq<StreamChunk>)
    requires IsWholeAnswer(sent, plan)
    ensures LaidEndToEnd(Answer(Concat(plan.deltas)).content, sent)
  {
    forall k | 0 <= k < |plan.deltas| ensures sent[k].content == plan.deltas[k] {
      assert sent[..|plan.deltas|][k] == DeltaChunk(plan.deltas[k]);
    }
    var cuts := ConcatCuts(plan.deltas, sent);
  }

  /**
   What is saved, said of the chunks that were sent: with a named user, a stream followed past its done
   chunk and a first write that works, the question; with a second write that works also the answer, whose
   content is that of the sent deltas end to end; otherwise nothing.
   */
  ghost predicate Recorded(request: Request, plan: Plan, client: nat -> Client, sent: seq<StreamChunk>,
                           saved: seq<Message>)
  {
    && (saved != [] <==>
          && request.user.Some? && request.user.value != "" && plan.firstSave
          && plan.setup && !plan.raises && forall k: nat :: k <= |plan.deltas| ==> client(k) == Stays)
    && (saved != [] ==> saved[0].role == User && saved[0].content == request.message)
    && (saved != [] ==> |saved| == if plan.secondSave then 2 else 1)
    && (|saved| == 2 ==> saved[1].role == Assistant && LaidEndToEnd(saved[1].content, sent))
  }

  lemma {:induction false} RecordedAsSent(
    request: Request, plan: Plan, client: nat -> Client, sent: seq<StreamChunk>, saved: seq<Message>)
    requires saved == if Followed(plan, client)
                      then Remembered(request, Answer(Concat(plan.deltas)), plan.firstSave, plan.secondSave) else []
    requires IsWholeAnswer(sent, plan) || (|sent| <= |plan.deltas| && AreDeltas(sent, plan.deltas[..|sent|]))
    requires saved != [] ==> IsWholeAnswer(sent, plan)
    ensures SentInOrder(sent, plan.deltas) && Recorded(request, plan, client, sent, saved)
  {
    forall k | 0 <= k < |sent| && k < |plan.deltas| ensures sent[k] == DeltaChunk(plan.deltas[k]) {
      if IsWholeAnswer(sent, plan) {
        assert sent[..|plan.deltas|][k] == DeltaChunk(plan.deltas[k]);
      }
    }
    if saved != [] {
      WholeAnswerLaidOut(plan, sent);
    }
  }

  /**
   The router's loop.  For every delta sequence, every failure and every point where the client goes:
   the history is extended by the whole exchange exactly when the answer was followed to its end and
   both writes succeed, by the question alone exactly when only the second write fails, and otherwise
   not at all; and whatever was remembered, the client has been sent the whole answer it belongs to.
   */
  method Forward(repo: RedisChatHistoryRepository, request: Request, plan: Plan, client: nat -> Client)
    returns (sent: seq<StreamChunk>, ghost saved: seq<Message>)
    requires repo.Valid()
    modifies repo
    ensures repo.Valid() && repo.clock == old(repo.clock)
    ensures saved == if Followed(plan, client)
                     then Remembered(request, Answer(Concat(plan.deltas)), plan.firstSave, plan.secondSave) else []
    ensures repo.events == old(repo.events)
              + RememberedEvents(repo.clock, request, saved)
    ensures IsWholeAnswer(sent, plan) || (|sent| <= |plan.deltas| && AreDeltas(sent, plan.deltas[..|sent|]))
    ensures saved != [] ==> IsWholeAnswer(sent, plan)
    ensures SentInOrder(sent, plan.deltas) && Recorded(request, plan, client, sent, saved)
    ensures |repo.events| == |old(repo.events)| + |saved| && old(repo.events) <= repo.events
    ensures forall j :: 0 <= j < |saved| ==>
              && request.user.Some?
              && repo.events[|old(repo.events)| + j] == Saved(repo.clock, request.user.value, saved[j])
  {
    var stream := new AnswerStream(repo, request, plan);
    sent := [];
    var over := false;
    while !over
      invariant fresh(stream) && stream.repo == repo && stream.plan == plan && stream.request == request
      invariant stream.Valid() && repo.Valid() && repo.clock == old(repo.clock)
      invariant InStep(stream, client, sent, over)
      invariant repo.events == old(repo.events)
                  + RememberedEvents(repo.clock, request, stream.saved)
      decreases if over then 0 else |plan.deltas| + 3 - |sent|
    {
      sent, over := Relay(stream, client, sent);
    }
    EmittedInOrder(stream, sent);
    saved := stream.saved;
    RecordedAsSent(request, plan, client, sent, saved);
  }

  // ---------------------------------------------------------------- read back

  lemma {:induction false} LastTwo(before: seq<Message>, pair: seq<Message>)
    requires |pair| == 2
    ensures Shown(before + pair, 2) == pair
  {
    LastMessagesExactly(before + pair, 2);
  }

  lemma {:induction false} RememberedIsReadBack(
    events: seq<Event>, user: string, now: int, request: Request, answer: Message)
    ensures var pair := Exchange(request, answer);
            Shown(Live(events + SaveEvents(now, user, pair), user, now), 2) == pair
  {
    var pair := Exchange(request, answer);
    var first := events + [Saved(now, user, pair[0])];
    assert events + SaveEvents(now, user, pair) == first + [Saved(now, user, pair[1])];
    SessionAppend(events, Saved(now, user, pair[0]), user);
    SessionAppend(first, Saved(now, user, pair[1]), user);
    var before := Live(events, user, now);
    assert Live(first, user, now) == before + [pair[0]];
    assert Live(first + [Saved(now, user, pair[1])], user, now) == before + pair;
    LastTwo(before, pair);
  }
}
