/**
 The staged pipeline of app/application/use_cases/process_document.py under fault injection: every
 call that leaves the process may raise, before or after it took effect, in any combination.
 */
module Ingestion {
  import opened Options
  import opened Numbers
  import opened Text
  import opened Chunks
  import opened IngestionEntities

  const BATCH := 50

  type Vector = seq<real>

  /** Fresh on every run. */
  datatype ChunkId = ChunkId(run: int, index: nat)

  datatype Chunk = Chunk(chunkId: ChunkId, content: string, index: int, tokenCount: nat, embedding: Option<Vector>)

  /** What upsert_many receives for one chunk. */
  datatype Entry = Entry(chunkId: ChunkId, vector: Vector, document: string, collection: string,
                         content: string, index: int, title: string)

  /** An outside call either works or raises, and if it raises it may still have taken effect. */
  datatype Call = Ok | Raises(applied: bool)

  /** What embed_batch gives back: a list that may have empty slots, or an exception. */
  datatype Reply = Vectors(slots: seq<Option<Vector>>) | NoReply

  datatype LogPoint = LogExtracting | LogChunked | LogEmbedded | LogStored | LogCompleted

  /** Everything the outside world decides about one run. */
  datatype Env = Env(
    run: int,
    lookupRaises: bool,
    failureUpdate: Call,                // storing the "empty content" verdict
    chunked: Option<seq<ChunkData>>,    // None: the chunker raises
    counts: seq<nat>,                   // token counts, chunk by chunk
    constructs: bool,                   // the Chunk(...) comprehension
    save: Call,
    replies: seq<Reply>,                // batch by batch; past the end: raises
    upsert: Call,
    update: Call,
    logFails: set<LogPoint>,
    handlerLookupRaises: bool,
    handlerUpdate: Call,
    handlerLogRaises: bool)

  /** What reached the outside, in order. */
  datatype Event = Upserted(entries: seq<Entry>) | DocStored(doc: DocRecord)

  // ---------------------------------------------------------------- what the run should do

  function Build(env: Env, data: seq<ChunkData>): seq<Chunk> {
    seq(|data|, i requires 0 <= i < |data| =>
      Chunk(ChunkId(env.run, i), data[i].content, data[i].chunkIndex,
            if i < |env.counts| then env.counts[i] else 0, None))
  }

  function SumTokens(chunks: seq<Chunk>): nat {
    if chunks == [] then 0 else SumTokens(chunks[..|chunks| - 1]) + chunks[|chunks| - 1].tokenCount
  }

  /** `sums` adds the counts up one by one; a chunk without a count counts 0. */
  ghost predicate RunningTotal(sums: seq<nat>, counts: seq<nat>, n: nat) {
    && |sums| == n + 1 && sums[0] == 0
    && forall i :: 0 <= i < n ==> sums[i + 1] == sums[i] + if i < |counts| then counts[i] else 0
  }

  lemma {:induction false} BuiltTotal(env: Env, data: seq<ChunkData>, n: nat) returns (sums: seq<nat>)
    requires n <= |data|
    ensures RunningTotal(sums, env.counts, n) && SumTokens(Build(env, data)[..n]) == sums[n]
  {
    if n == 0 {
      return [0];
    }
    var before := BuiltTotal(env, data, n - 1);
    assert Build(env, data)[..n][..n - 1] == Build(env, data)[..n - 1];
    sums := before + [before[n - 1] + if n - 1 < |env.counts| then env.counts[n - 1] else 0];
  }

  /** The token total of a run's chunks is that of their counts. */
  lemma {:induction false} TotalIsOfCounts(env: Env, data: seq<ChunkData>)
    ensures exists sums :: RunningTotal(sums, env.counts, |data|) && SumTokens(Build(env, data)) == sums[|data|]
  {
    var sums := BuiltTotal(env, data, |data|);
    assert Build(env, data)[..|data|] == Build(env, data);
  }

  /** Such totals move by exactly as much as one count does, and are 0 if all counts are. */
  lemma {:induction false} TotalFollowsCounts(
    sums: seq<nat>, sums': seq<nat>, counts: seq<nat>, counts': seq<nat>, i: nat, n: nat)
    requires |counts| == |counts'| && i < |counts| && RunningTotal(sums, counts, n) && RunningTotal(sums', counts', n)
    requires forall j :: 0 <= j < |counts| && j != i ==> counts[j] == counts'[j]
    ensures if i < n then sums'[n] + counts[i] == sums[n] + counts'[i] else sums'[n] == sums[n]
    ensures (forall j :: 0 <= j < |counts| ==> counts[j] == 0) ==> sums[n] == 0
    decreases n
  {
    if n > 0 {
      TotalFollowsCounts(sums[..n], sums'[..n], counts, counts', i, n - 1);
    }
  }

  function BatchLength(n: nat, k: nat): int { Min(BATCH, n - BATCH * k) }

  predicate ReplyFits(replies: seq<Reply>, n: nat, k: nat) {
    k < |replies| && replies[k].Vectors? && |replies[k].slots| == BatchLength(n, k)
  }

  /** One full-length reply for each batch of 50 chunks. */
  ghost predicate RepliesFit(replies: seq<Reply>, n: nat) {
    forall k: nat :: BATCH * k < n ==> ReplyFits(replies, n, k)
  }

  predicate FirstFit(replies: seq<Reply>, n: nat, k: nat) {
    k == 0 || (FirstFit(replies, n, k - 1) && ReplyFits(replies, n, k - 1))
  }

  lemma {:induction false} FirstFitAt(replies: seq<Reply>, n: nat, k: nat, j: nat)
    requires FirstFit(replies, n, k) && j < k
    ensures ReplyFits(replies, n, j)
  {
    if j < k - 1 {
      FirstFitAt(replies, n, k - 1, j);
    }
  }

  lemma {:induction false} AllFit(replies: seq<Reply>, n: nat, k: nat)
    requires FirstFit(replies, n, k) && BATCH * k >= n
    ensures RepliesFit(replies, n)
  {
    forall j: nat | BATCH * j < n ensures ReplyFits(replies, n, j) {
      FirstFitAt(replies, n, k, j);
    }
  }

  predicate HasReply(replies: seq<Reply>, i: nat) {
    i / BATCH < |replies| && replies[i / BATCH].Vectors? && i % BATCH < |replies[i / BATCH].slots|
  }

  /** What came back for chunk i. */
  function SlotFor(replies: seq<Reply>, i: nat): Option<Vector> {
    if HasReply(replies, i) then replies[i / BATCH].slots[i % BATCH] else None
  }

  /** All slots of the run, batch after batch. */
  function Slots(replies: seq<Reply>, n: nat): (slots: seq<Option<Vector>>)
    ensures |slots| == n && forall i :: 0 <= i < n ==> slots[i] == SlotFor(replies, i)
  {
    seq(n, i requires 0 <= i < n => SlotFor(replies, i))
  }

  ghost predicate NoneEmpty(slots: seq<Option<Vector>>) {
    forall i :: 0 <= i < |slots| ==> slots[i].Some?
  }

  /** The slots that something came back for, in order. */
  function Filled(slots: seq<Option<Vector>>): (r: seq<nat>)
    ensures |r| <= |slots| && forall j :: 0 <= j < |r| ==> r[j] < |slots| && slots[r[j]].Some?
  {
    if slots == [] then []
    else
      var n := |slots| - 1;
      if slots[n].Some? then Filled(slots[..n]) + [n] else Filled(slots[..n])
  }

  /** Each once, and all of them exactly when no slot is empty. */
  lemma {:induction false} FilledExactly(slots: seq<Option<Vector>>)
    ensures forall i, j :: 0 <= i < j < |Filled(slots)| ==> Filled(slots)[i] < Filled(slots)[j]
    ensures forall i :: 0 <= i < |slots| && slots[i].Some? ==> i in Filled(slots)
    ensures |Filled(slots)| == |slots| <==> NoneEmpty(slots)
  {
    if slots != [] {
      FilledExactly(slots[..|slots| - 1]);
    }
  }

  /** The texts sent for batch k. */
  function Request(chunks: seq<Chunk>, k: nat): seq<string> {
    var first := BATCH * k;
    var length := Max(0, BatchLength(|chunks|, k));
    seq(length, i requires 0 <= i < length => chunks[first + i].content)
  }

  function FirstRequests(chunks: seq<Chunk>, n: nat): (rs: seq<seq<string>>)
    ensures |rs| == n
  {
    if n == 0 then [] else FirstRequests(chunks, n - 1) + [Request(chunks, n - 1)]
  }

  /** Request k is the contents of chunks 50 * k and on, 50 of them or what is left. */
  ghost predicate RequestsInOrder(requests: seq<seq<string>>, chunks: seq<Chunk>) {
    forall k :: 0 <= k < |requests| && 50 * k < |chunks| ==> IsBatch(requests[k], chunks, 50 * k)
  }

  predicate IsBatch(texts: seq<string>, chunks: seq<Chunk>, first: nat)
    requires first < |chunks|
  {
    && |texts| == (if first + 50 <= |chunks| then 50 else |chunks| - first)
    && forall i :: 0 <= i < |texts| ==> texts[i] == chunks[first + i].content
  }

  lemma {:induction false} FirstRequestsInOrder(chunks: seq<Chunk>, n: nat)
    ensures RequestsInOrder(FirstRequests(chunks, n), chunks)
  {
    if n > 0 {
      FirstRequestsInOrder(chunks, n - 1);
      if 50 * (n - 1) < |chunks| {
        assert IsBatch(Request(chunks, n - 1), chunks, 50 * (n - 1));
      }
    }
  }

  /** Chunk i's content is text i % 50 of request i / 50. */
  lemma {:induction false} RequestAt(chunks: seq<Chunk>, i: nat)
    requires i < |chunks|
    ensures BATCH * (i / BATCH) < |chunks| && i % BATCH < |Request(chunks, i / BATCH)|
    ensures Request(chunks, i / BATCH)[i % BATCH] == chunks[i].content
  {
    assert i == BATCH * (i / BATCH) + i % BATCH;
  }

  /** Every chunk with what its batch brought back for it. */
  ghost predicate Embedded(chunks: seq<Chunk>, before: seq<Chunk>, replies: seq<Reply>, n: nat)
    requires n <= |before|
  {
    && |chunks| == |before|
    && (forall i :: n <= i < |before| ==> chunks[i] == before[i])
    && (forall i :: 0 <= i < n ==> HasSlot(chunks[i], before[i], replies, i))
  }

  predicate HasSlot(c: Chunk, before: Chunk, replies: seq<Reply>, i: nat) {
    && HasReply(replies, i)
    && c == before.(embedding := SlotFor(replies, i))
  }

  lemma {:induction false} SumSplit(a: seq<Chunk>, b: seq<Chunk>)
    ensures SumTokens(a + b) == SumTokens(a) + SumTokens(b)
  {
    if b == [] {
      assert a + b == a;
    } else {
      SumSplit(a, b[..|b| - 1]);
      assert (a + b)[..|a + b| - 1] == a + b[..|b| - 1];
    }
  }

  lemma {:induction false} SumPrefix(s: seq<Chunk>, a: nat, b: nat)
    requires a <= b <= |s|
    ensures SumTokens(s[..b]) == SumTokens(s[..a]) + SumTokens(s[a..b])
  {
    SumSplit(s[..a], s[a..b]);
    assert s[..a] + s[a..b] == s[..b];
  }

  // ---------------------------------------------------------------- the embedding loop

  /** zip(batch, embeddings, strict=True): attach pairwise, empty slots too, then raise if one side was longer. */
  method Attach(chunks: seq<Chunk>, first: nat, length: nat, slots: seq<Option<Vector>>)
    returns (ok: bool, after: seq<Chunk>)
    requires first + length <= |chunks|
    ensures ok <==> |slots| == length
    ensures |after| == |chunks|
    ensures forall i :: 0 <= i < |chunks| ==>
              after[i] == if first <= i < first + length && i - first < |slots|
                          then chunks[i].(embedding := slots[i - first]) else chunks[i]
  {
    after := chunks;
    var j := 0;
    while j < length && j < |slots|
      invariant 0 <= j <= length && j <= |slots| && |after| == |chunks|
      invariant forall i :: 0 <= i < |chunks| ==>
                  after[i] == if first <= i < first + j
                              then chunks[i].(embedding := slots[i - first]) else chunks[i]
    {
      after := after[first + j := after[first + j].(embedding := slots[j])];
      j := j + 1;
    }
    ok := |slots| == length;
  }

  lemma {:induction false} FittingBatch(
    chunks: seq<Chunk>, after: seq<Chunk>, before: seq<Chunk>, replies: seq<Reply>, k: nat, length: nat)
    requires BATCH * k + length <= |before| && Embedded(chunks, before, replies, BATCH * k)
    requires ReplyFits(replies, |before|, k) && length == BatchLength(|before|, k)
    requires |after| == |chunks|
    requires forall i :: 0 <= i < |chunks| ==>
               after[i] == if BATCH * k <= i < BATCH * k + length && i - BATCH * k < |replies[k].slots|
                           then chunks[i].(embedding := replies[k].slots[i - BATCH * k]) else chunks[i]
    ensures Embedded(after, before, replies, BATCH * k + length)
  {
    forall i | 0 <= i < BATCH * k + length ensures HasSlot(after[i], before[i], replies, i) {
      if i >= BATCH * k {
        assert i / BATCH == k && i % BATCH == i - BATCH * k;
      } else {
        assert HasSlot(chunks[i], before[i], replies, i);
      }
    }
  }

  /** What k turns of the loop have done. */
  ghost predicate Turns(chunks: seq<Chunk>, before: seq<Chunk>, replies: seq<Reply>, tokens: nat,
                        requests: seq<seq<string>>, k: nat)
  {
    var n := Min(BATCH * k, |before|);
    && Embedded(chunks, before, replies, n) && tokens == SumTokens(before[..n])
    && FirstFit(replies, |before|, k) && requests == FirstRequests(before, k)
  }

  /** One turn: ask for a batch, attach what comes back. */
  method EmbedBatch(chunks: seq<Chunk>, before: seq<Chunk>, replies: seq<Reply>, k: nat,
                    tokens: nat, sent: seq<seq<string>>)
    returns (ok: bool, after: seq<Chunk>, total: nat, requests: seq<seq<string>>)
    requires BATCH * k < |before| && Turns(chunks, before, replies, tokens, sent, k)
    ensures requests == FirstRequests(before, k + 1)
    ensures ok <==> ReplyFits(replies, |before|, k)
    ensures ok ==> Turns(after, before, replies, total, requests, k + 1)
  {
    var start, end := BATCH * k, Min(BATCH * (k + 1), |before|);
    var length, batch := end - start, before[start..end];
    total := tokens + SumTokens(batch);
    var texts := seq(|batch|, i requires 0 <= i < |batch| => batch[i].content);
    assert texts == Request(before, k);
    requests := sent + [texts];
    if k >= |replies| || replies[k].NoReply? {
      return false, chunks, total, requests;
    }
    ok, after := Attach(chunks, start, length, replies[k].slots);
    if ok {
      FittingBatch(chunks, after, before, replies, k, length);
      SumPrefix(before, start, end);
    }
  }

  method ReportBatch(job: IngestionJob, processed: int, total: int)
    requires Tracked(job.reports, job.processedChunks, total) && job.processedChunks <= processed <= total
    modifies job`processedChunks, job`totalChunks, job`reports
    ensures job.processedChunks == processed && job.totalChunks == total
    ensures Tracked(job.reports, processed, total) && old(job.reports) <= job.reports
  {
    TrackedAppend(job.reports, job.processedChunks, processed, total);
    job.RecordProgress(processed, total);
  }

  lemma {:induction false} LoopEnds(chunks: seq<Chunk>, before: seq<Chunk>, replies: seq<Reply>, tokens: nat,
                                    requests: seq<seq<string>>, k: nat)
    requires Turns(chunks, before, replies, tokens, requests, k) && BATCH * (k - 1) < |before| <= BATCH * k
    ensures RepliesFit(replies, |before|) && Embedded(chunks, before, replies, |before|)
    ensures tokens == SumTokens(before) && requests == FirstRequests(before, |requests|)
    ensures 50 * (|requests| - 1) < |before| <= 50 * |requests|
  {
    AllFit(replies, |before|, k);
    assert before[..|before|] == before;
  }

  method EmbedAll(before: seq<Chunk>, job: IngestionJob, replies: seq<Reply>)
    returns (ok: bool, chunks: seq<Chunk>, totalTokens: nat, requests: seq<seq<string>>)
    requires Tracked(job.reports, job.processedChunks, |before|)
    requires job.processedChunks == 0 && job.totalChunks == |before|
    modifies job`processedChunks, job`totalChunks, job`reports
    ensures ok <==> RepliesFit(replies, |before|)
    ensures Tracked(job.reports, job.processedChunks, |before|) && job.totalChunks == |before|
    ensures old(job.reports) <= job.reports
    ensures ok ==> job.processedChunks == |before|
    ensures ok ==> Embedded(chunks, before, replies, |before|) && totalTokens == SumTokens(before)
    ensures requests == FirstRequests(before, |requests|)
    ensures ok ==> 50 * (|requests| - 1) < |before| <= 50 * |requests|
  {
    chunks, totalTokens, ok, requests := before, 0, true, [];
    var k := 0;
    while BATCH * k < |before|
      invariant 0 <= k && BATCH * (k - 1) < |before|
      invariant Turns(chunks, before, replies, totalTokens, requests, k)
      invariant job.processedChunks == Min(BATCH * k, |before|) && job.totalChunks == |before|
      invariant Tracked(job.reports, job.processedChunks, |before|)
      invariant old(job.reports) <= job.reports
      decreases |before| - BATCH * k
    {
      var fits, after, total;
      fits, after, total, requests := EmbedBatch(chunks, before, replies, k, totalTokens, requests);
      if !fits {
        return false, after, totalTokens, requests;
      }
      chunks := after;
      ReportBatch(job, Min(BATCH * (k + 1), |before|), |before|);
      totalTokens := total;
      k := k + 1;
    }
    LoopEnds(chunks, before, replies, totalTokens, requests, k);
  }
}
