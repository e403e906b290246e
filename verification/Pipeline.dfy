/** ProcessDocumentUseCase.execute: five stages in a try, and the handler behind them. */
module Pipeline {
  import opened Options
  import opened Text
  import opened Chunks
  import opened IngestionEntities
  import opened Ingestion
  import TokenChunking
  import EmbeddingCache

  // ---------------------------------------------------------------- when each stage gets through

  predicate Extracts(env: Env, docs: map<string, DocRecord>, id: string, status: JobStatus) {
    && status.Queued? && !env.lookupRaises
    && id in docs && !Blank(docs[id].content)
    && LogExtracting !in env.logFails
  }

  predicate ChunksUp(env: Env) {
    env.chunked.Some? && env.constructs && env.save.Ok? && LogChunked !in env.logFails
  }

  ghost predicate Embeds(env: Env)
    requires env.chunked.Some?
  {
    RepliesFit(env.replies, |env.chunked.value|) && LogEmbedded !in env.logFails
  }

  predicate Stores(env: Env) { env.upsert.Ok? && LogStored !in env.logFails }

  predicate Finishes(env: Env) { env.update.Ok? && LogCompleted !in env.logFails }

  /** Everything before `job.complete()` gets through. */
  ghost predicate ReachesCompletion(env: Env, docs: map<string, DocRecord>, id: string, status: JobStatus) {
    Extracts(env, docs, id, status) && ChunksUp(env) && Embeds(env) && Stores(env)
  }

  ghost predicate Succeeds(env: Env, docs: map<string, DocRecord>, id: string, status: JobStatus) {
    ReachesCompletion(env, docs, id, status) && Finishes(env)
  }

  /** Everything that has to go right for a run to complete, in one place. */
  lemma {:induction false} SucceedsOutright(env: Env, docs: map<string, DocRecord>, id: string, status: JobStatus)
    ensures Succeeds(env, docs, id, status) <==>
            && status == Queued && !env.lookupRaises && id in docs && !Blank(docs[id].content)
            && env.chunked.Some? && env.constructs && env.save == Ok
            && RepliesFit(env.replies, |env.chunked.value|)
            && env.upsert == Ok && env.update == Ok && env.logFails == {}
  {
    if env.logFails != {} {
      var point :| point in env.logFails;
      match point {
        case LogExtracting => case LogChunked => case LogEmbedded => case LogStored => case LogCompleted =>
      }
    }
  }

  predicate Applied(c: Call) { c.Ok? || c.applied }

  // ---------------------------------------------------------------- what is written

  function EntryOf(c: Chunk, id: string, doc: DocRecord): Entry
    requires c.embedding.Some?
  {
    Entry(c.chunkId, c.embedding.value, id, doc.collection, c.content, c.index, doc.title)
  }

  /** The comprehension: one entry for each chunk that has an embedding. */
  function Entries(chunks: seq<Chunk>, id: string, doc: DocRecord): seq<Entry> {
    if chunks == [] then []
    else
      var c := chunks[|chunks| - 1];
      Entries(chunks[..|chunks| - 1], id, doc) + if c.embedding.Some? then [EntryOf(c, id, doc)] else []
  }

  /** What is to be stored for chunk i. */
  function EntryFor(env: Env, id: string, doc: DocRecord, i: nat): Entry
    requires env.chunked.Some? && i < |env.chunked.value| && SlotFor(env.replies, i).Some?
  {
    var data := env.chunked.value[i];
    Entry(ChunkId(env.run, i), SlotFor(env.replies, i).value, id, doc.collection,
          data.content, data.chunkIndex, doc.title)
  }

  /** One entry, in order, for each chunk that its own batch brought a vector back for. */
  ghost predicate Ingested(entries: seq<Entry>, env: Env, id: string, doc: DocRecord)
    requires env.chunked.Some?
  {
    var filled := Filled(Slots(env.replies, |env.chunked.value|));
    |entries| == |filled| && forall j :: 0 <= j < |filled| ==> entries[j] == EntryFor(env, id, doc, filled[j])
  }

  function Embeddings(chunks: seq<Chunk>): (slots: seq<Option<Vector>>)
    ensures |slots| == |chunks| && forall i :: 0 <= i < |chunks| ==> slots[i] == chunks[i].embedding
  {
    seq(|chunks|, i requires 0 <= i < |chunks| => chunks[i].embedding)
  }

  /** The comprehension lists the chunks with an embedding, in order. */
  lemma {:induction false} EntriesAreTheFilled(chunks: seq<Chunk>, id: string, doc: DocRecord)
    ensures var filled := Filled(Embeddings(chunks));
            && |Entries(chunks, id, doc)| == |filled|
            && forall j :: 0 <= j < |filled| ==> Entries(chunks, id, doc)[j] == EntryOf(chunks[filled[j]], id, doc)
  {
    if chunks != [] {
      var n := |chunks| - 1;
      EntriesAreTheFilled(chunks[..n], id, doc);
      assert Embeddings(chunks)[..n] == Embeddings(chunks[..n]);
    }
  }

  lemma {:induction false} EmbeddedSlot(chunks: seq<Chunk>, env: Env, id: string, doc: DocRecord, i: nat)
    requires env.chunked.Some? && i < |env.chunked.value|
    requires Embedded(chunks, Build(env, env.chunked.value), env.replies, |env.chunked.value|)
    ensures i < |chunks| && chunks[i].embedding == SlotFor(env.replies, i)
    ensures chunks[i].embedding.Some? ==> EntryOf(chunks[i], id, doc) == EntryFor(env, id, doc, i)
  {
    assert HasSlot(chunks[i], Build(env, env.chunked.value)[i], env.replies, i);
  }

  lemma {:induction false} EntriesAreIngested(chunks: seq<Chunk>, env: Env, id: string, doc: DocRecord)
    requires env.chunked.Some?
    requires Embedded(chunks, Build(env, env.chunked.value), env.replies, |env.chunked.value|)
    ensures Ingested(Entries(chunks, id, doc), env, id, doc)
  {
    var slots := Slots(env.replies, |env.chunked.value|);
    forall i | 0 <= i < |slots| ensures chunks[i].embedding == slots[i] {
      EmbeddedSlot(chunks, env, id, doc, i);
    }
    assert Embeddings(chunks) == slots;
    EntriesAreTheFilled(chunks, id, doc);
    forall j | 0 <= j < |Filled(slots)|
      ensures Entries(chunks, id, doc)[j] == EntryFor(env, id, doc, Filled(slots)[j])
    {
      EmbeddedSlot(chunks, env, id, doc, Filled(slots)[j]);
    }
  }

  /**
   Nothing checks that a vector came back.  There is one stored vector per chunk if and only if no slot of
   any reply was empty; otherwise there are fewer, while the document's chunk count is that of all chunks.
   */
  lemma {:induction false} FullyStoredExactly(entries: seq<Entry>, env: Env, id: string, doc: DocRecord)
    requires env.chunked.Some? && Ingested(entries, env, id, doc)
    ensures |entries| <= FinalDoc(env, doc).chunkCount
    ensures |entries| == FinalDoc(env, doc).chunkCount <==> NoneEmpty(Slots(env.replies, |env.chunked.value|))
  {
    FilledExactly(Slots(env.replies, |env.chunked.value|));
  }

  /** Each reply holds, slot by slot, the embedding of the text sent, or nothing. */
  ghost predicate AnswersMatch(replies: seq<Reply>, chunks: seq<Chunk>, E: string -> Vector) {
    forall k: nat :: BATCH * k < |chunks| && k < |replies| && replies[k].Vectors? ==>
      EmbeddingCache.RightOrEmpty(replies[k].slots, Request(chunks, k), E)
  }

  lemma {:induction false} SlotMatches(replies: seq<Reply>, chunks: seq<Chunk>, E: string -> Vector, i: nat)
    requires AnswersMatch(replies, chunks, E) && i < |chunks| && SlotFor(replies, i).Some?
    ensures SlotFor(replies, i).value == E(chunks[i].content)
  {
    RequestAt(chunks, i);
    var texts, slots := Request(chunks, i / BATCH), replies[i / BATCH].slots;
    assert EmbeddingCache.RightOrEmpty(slots, texts, E);
  }

  /** Then every stored vector is the embedding of the text stored with it. */
  lemma {:induction false} StoredVectorsMatchTheirText(
    entries: seq<Entry>, env: Env, id: string, doc: DocRecord, E: string -> Vector, j: nat)
    requires env.chunked.Some? && Ingested(entries, env, id, doc) && j < |entries|
    requires AnswersMatch(env.replies, Build(env, env.chunked.value), E)
    ensures entries[j].vector == E(entries[j].content)
  {
    var i := Filled(Slots(env.replies, |env.chunked.value|))[j];
    SlotMatches(env.replies, Build(env, env.chunked.value), E, i);
  }

  /** A document is never stored as COMPLETED before its vectors have been. */
  ghost predicate UpsertFirst(events: seq<Event>) {
    forall i :: 0 <= i < |events| && events[i].DocStored? && events[i].doc.status.DocCompleted? ==>
      exists j :: 0 <= j < i && events[j].Upserted?
  }

  lemma {:induction false} FailureKeepsOrder(events: seq<Event>, doc: DocRecord)
    requires UpsertFirst(events) && doc.status.DocFailed?
    ensures UpsertFirst(events + [DocStored(doc)])
  {
    var all := events + [DocStored(doc)];
    forall i | 0 <= i < |all| && all[i].DocStored? && all[i].doc.status.DocCompleted?
      ensures exists j :: 0 <= j < i && all[j].Upserted?
    {
      assert all[i] == events[i];
      var j :| 0 <= j < i && events[j].Upserted?;
      assert all[j].Upserted?;
    }
  }

  function CompletedDoc(doc: DocRecord, chunks: int, tokens: int): DocRecord {
    doc.(status := DocCompleted, chunkCount := chunks, tokenCount := tokens, error := None)
  }

  /** The document as a successful run leaves it. */
  function FinalDoc(env: Env, doc: DocRecord): DocRecord
    requires env.chunked.Some?
  {
    CompletedDoc(doc, |env.chunked.value|, SumTokens(Build(env, env.chunked.value)))
  }

  // ---------------------------------------------------------------- the stored documents after a run

  const EMPTY_CONTENT := "Document content is empty"
  const PIPELINE_FAILED := "Pipeline failed"

  function FailedDoc(doc: DocRecord, message: string): DocRecord {
    doc.(status := DocFailed, error := Some(message))
  }

  /** The run finds a document without content. */
  predicate FindsBlank(env: Env, docs: map<string, DocRecord>, id: string, status: JobStatus) {
    status.Queued? && !env.lookupRaises && id in docs && Blank(docs[id].content)
  }

  /** The stored documents when the try block is left. */
  ghost function DocsAfterTry(env: Env, docs: map<string, DocRecord>, id: string, status: JobStatus)
    : map<string, DocRecord>
  {
    if FindsBlank(env, docs, id, status) && Applied(env.failureUpdate) then
      docs[id := FailedDoc(docs[id], EMPTY_CONTENT)]
    else if ReachesCompletion(env, docs, id, status) && Applied(env.update) then
      docs[id := FinalDoc(env, docs[id])]
    else docs
  }

  /** An exception reaches the handler. */
  ghost predicate Raised(env: Env, docs: map<string, DocRecord>, id: string, status: JobStatus) {
    || !status.Queued? || env.lookupRaises
    || (id in docs && if Blank(docs[id].content) then !env.failureUpdate.Ok? else !Succeeds(env, docs, id, status))
  }

  /** The handler gets the document marked FAILED. */
  predicate HandlerStores(env: Env) { !env.handlerLookupRaises && Applied(env.handlerUpdate) }

  /** The stored documents when the run is over. */
  ghost function DocsAfter(env: Env, docs: map<string, DocRecord>, id: string, status: JobStatus)
    : map<string, DocRecord>
  {
    var tried := DocsAfterTry(env, docs, id, status);
    if Raised(env, docs, id, status) && HandlerStores(env) && id in tried
    then tried[id := FailedDoc(tried[id], PIPELINE_FAILED)] else tried
  }

  /**
   Exactly when a job that ends FAILED leaves its document stored as COMPLETED: it raised, the handler
   could not store its verdict, and the document either had been stored COMPLETED by this run, after its
   vectors, or was COMPLETED before and has not been found blank and marked so.
   */
  lemma {:induction false} FailedJobCompletedDocExactly(
    env: Env, docs: map<string, DocRecord>, id: string, status: JobStatus)
    requires id in docs
    ensures var after := DocsAfter(env, docs, id, status);
            && id in after
            && (after[id].status.DocCompleted? && !Succeeds(env, docs, id, status) <==>
                || (&& ReachesCompletion(env, docs, id, status) && !Finishes(env)
                    && Applied(env.update) && !HandlerStores(env))
                || (&& docs[id].status.DocCompleted? && !Succeeds(env, docs, id, status)
                    && !(FindsBlank(env, docs, id, status) && Applied(env.failureUpdate))
                    && !HandlerStores(env)))
  {}

  /** A run in which nothing raises and the provider's one reply has its one slot empty. */
  function EmptySlotRun(chunk: ChunkData): Env {
    Env(0, false, Ok, Some([chunk]), [], true, Ok, [Vectors([None])], Ok, Ok, {}, false, Ok, false)
  }

  /** A witness: job and document end COMPLETED with one chunk and no vector. */
  lemma {:induction false} CompletedWithoutVectors(chunk: ChunkData, docs: map<string, DocRecord>, id: string)
    requires id in docs && !Blank(docs[id].content)
    ensures var env := EmptySlotRun(chunk);
            && Succeeds(env, docs, id, Queued)
            && DocsAfter(env, docs, id, Queued)[id].status.DocCompleted?
            && DocsAfter(env, docs, id, Queued)[id].chunkCount == 1
            && forall entries :: Ingested(entries, env, id, docs[id]) ==> entries == []
  {
    var env := EmptySlotRun(chunk);
    forall k: nat | BATCH * k < 1 ensures ReplyFits(env.replies, 1, k) {
      assert k == 0;
    }
    assert SlotFor(env.replies, 0) == None;
    assert Filled(Slots(env.replies, 1)) == [];
  }

  /** A witness: only the last log call raises and the handler finds the repository down. */
  lemma {:induction false} FailedJobCompletedDoc(env: Env, docs: map<string, DocRecord>, id: string)
    requires ReachesCompletion(env, docs, id, Queued) && env.update.Ok? && LogCompleted in env.logFails
    requires env.handlerLookupRaises
    ensures !Succeeds(env, docs, id, Queued) && DocsAfter(env, docs, id, Queued)[id] == FinalDoc(env, docs[id])
  {}

  /** The vector store after a run: the entries of this run more exactly when the upsert was reached and took effect. */
  ghost predicate VectorsAfter(
    before: seq<Entry>, after: seq<Entry>, env: Env, docs: map<string, DocRecord>, id: string, status: JobStatus)
  {
    if Extracts(env, docs, id, status) && ChunksUp(env) && Embeds(env) && Applied(env.upsert)
    then before <= after && Ingested(after[|before|..], env, id, docs[id])
    else after == before
  }

  /** No other document changes, and of this one only what says how processing went. */
  ghost predicate OnlyVerdict(before: map<string, DocRecord>, after: map<string, DocRecord>, id: string) {
    && before.Keys == after.Keys
    && (forall other :: other in before && other != id ==> after[other] == before[other])
    && (id in before ==>
          && after[id].title == before[id].title && after[id].collection == before[id].collection
          && after[id].content == before[id].content)
  }

  /** A completed document: the number of chunks, the sum of their token counts, no error. */
  ghost predicate CountsChunksAndTokens(before: DocRecord, after: DocRecord, env: Env) {
    && env.chunked.Some? && after.status == DocCompleted && after.error == None
    && after.chunkCount == |env.chunked.value|
    && exists sums :: RunningTotal(sums, env.counts, |env.chunked.value|)
                      && after.tokenCount == sums[|env.chunked.value|]
  }

  lemma {:induction false} VerdictOnly(docs: map<string, DocRecord>, id: string, verdict: DocRecord)
    requires id in docs && verdict.title == docs[id].title && verdict.collection == docs[id].collection
    requires verdict.content == docs[id].content
    ensures OnlyVerdict(docs, docs[id := verdict], id)
  {
    assert docs[id := verdict].Keys == docs.Keys;
  }

  lemma {:induction false} DocsAfterOutright(env: Env, docs: map<string, DocRecord>, id: string, status: JobStatus)
    ensures var after := DocsAfter(env, docs, id, status);
            && OnlyVerdict(docs, after, id)
            && (Succeeds(env, docs, id, status) ==> CountsChunksAndTokens(docs[id], after[id], env))
            && (Raised(env, docs, id, status) && id in docs && !env.handlerLookupRaises
                && (env.handlerUpdate == Ok || env.handlerUpdate == Raises(true)) ==>
                  after[id].status == DocFailed && after[id].error == Some("Pipeline failed"))
  {
    if env.chunked.Some? {
      TotalIsOfCounts(env, env.chunked.value);
    }
    var after := DocsAfter(env, docs, id, status);
    if id in docs {
      assert after == docs[id := after[id]];
      VerdictOnly(docs, id, after[id]);
    }
  }

  // ---------------------------------------------------------------- the use case

  datatype Outcome = Continue | Return | Raise

  class ProcessDocumentUseCase {
    var docs: map<string, DocRecord>
    var vectors: seq<Entry>
    ghost var events: seq<Event>

    constructor (docs: map<string, DocRecord>)
      ensures this.docs == docs && vectors == [] && events == []
    {
      this.docs, vectors, events := docs, [], [];
    }

    /** All that a completed run has done: progress full, a vector for each filled slot, the counts of all chunks. */
    ghost predicate Complete(
      docs0: map<string, DocRecord>, vectors0: seq<Entry>, id: string, job: IngestionJob, env: Env)
      reads this, job
    {
      && env.chunked.Some? && id in docs0
      && job.reports != [] && job.processedChunks == job.totalChunks == |env.chunked.value|
      && |events| == 2 && events[0].Upserted?
      && Ingested(events[0].entries, env, id, docs0[id]) && vectors == vectors0 + events[0].entries
      && events[1] == DocStored(FinalDoc(env, docs0[id])) && docs == docs0[id := FinalDoc(env, docs0[id])]
    }

    method StoreDoc(id: string, doc: DocRecord, call: Call) returns (ok: bool)
      modifies this`docs, this`events
      ensures ok <==> call.Ok?
      ensures call == Ok || call == Raises(true) ==> docs == old(docs)[id := doc]
      ensures call == Raises(false) ==> docs == old(docs)
      ensures docs == if Applied(call) then old(docs)[id := doc] else old(docs)
      ensures events == if Applied(call) then old(events) + [DocStored(doc)] else old(events)
    {
      ok := call.Ok?;
      if Applied(call) {
        docs := docs[id := doc];
        events := events + [DocStored(doc)];
      }
    }

    method UpsertMany(entries: seq<Entry>, call: Call) returns (ok: bool)
      modifies this`vectors, this`events
      ensures ok <==> call.Ok?
      ensures vectors == if Applied(call) then old(vectors) + entries else old(vectors)
      ensures call == Ok || call == Raises(true) ==> vectors == old(vectors) + entries
      ensures call == Raises(false) ==> vectors == old(vectors)
      ensures events == if ok then old(events) + [Upserted(entries)] else old(events)
    {
      ok := call.Ok?;
      if Applied(call) {
        vectors := vectors + entries;
      }
      if ok {
        events := events + [Upserted(entries)];
      }
    }

    /** Stage 1. */
    method Extract(id: string, job: IngestionJob, env: Env) returns (r: Outcome, document: Document?)
      requires job.moves == [] && events == []
      modifies this`docs, this`events, job`status, job`errorMessage, job`moves
      ensures r.Continue? <==> Extracts(env, old(docs), id, old(job.status))
      ensures Walk(job.moves, old(job.status), job.status) && LegalMoves(job.moves) && LATE_FAILURE !in job.moves
      ensures r.Continue? ==> job.status == Extracting && docs == old(docs) && events == []
      ensures r.Continue? ==> document != null && fresh(document) && document.Snapshot() == old(docs)[id]
      ensures r.Return? ==> job.status == Failed && job.errorMessage.Some?
      ensures r.Raise? && job.status == Completed <==> old(job.status) == Completed
      ensures forall e :: e in events ==> e.DocStored? && e.doc.status.DocFailed?
      ensures docs == if FindsBlank(env, old(docs), id, old(job.status)) && Applied(env.failureUpdate)
                      then old(docs)[id := FailedDoc(old(docs)[id], EMPTY_CONTENT)] else old(docs)
      ensures r.Return? ==> !Raised(env, old(docs), id, old(job.status))
      ensures r.Raise? ==> Raised(env, old(docs), id, old(job.status))
    {
      document := null;
      var ok := job.AdvanceStatus(Extracting);
      if !ok || env.lookupRaises {
        return Raise, null;
      }
      if id !in docs {
        job.Fail("Document " + id + " not found");
        return Return, null;
      }
      document := new Document(docs[id]);
      if Blank(document.content) {
        job.Fail(EMPTY_CONTENT);
        document.MarkFailed(EMPTY_CONTENT);
        ok := StoreDoc(id, document.Snapshot(), env.failureUpdate);
        return if ok then Return else Raise, null;
      }
      r := if LogExtracting in env.logFails then Raise else Continue;
    }

    /** Stage 2. */
    method MakeChunks(job: IngestionJob, env: Env) returns (ok: bool, chunks: seq<Chunk>)
      requires job.status == Extracting && job.reports == []
      modifies job`status, job`moves, job`processedChunks, job`totalChunks, job`reports
      ensures ok <==> ChunksUp(env)
      ensures job.status == Chunking && job.moves == old(job.moves) + [Move(Extracting, Chunking)]
      ensures job.reports != [] ==> Tracked(job.reports, job.processedChunks, job.totalChunks)
      ensures ok ==> chunks == Build(env, env.chunked.value)
      ensures ok ==> job.reports != [] && job.processedChunks == 0 && job.totalChunks == |chunks|
    {
      chunks := [];
      var _ := job.AdvanceStatus(Chunking);
      if env.chunked.None? || !env.constructs {
        return false, [];
      }
      chunks := Build(env, env.chunked.value);
      if !env.save.Ok? {
        return false, chunks;
      }
      job.RecordProgress(0, |chunks|);
      ok := LogChunked !in env.logFails;
    }

    /** Stage 3. */
    method EmbedChunks(before: seq<Chunk>, job: IngestionJob, env: Env)
      returns (ok: bool, chunks: seq<Chunk>, totalTokens: nat)
      requires env.chunked.Some? && |before| == |env.chunked.value|
      requires job.status == Chunking && job.reports != []
      requires Tracked(job.reports, job.processedChunks, |before|)
      requires job.processedChunks == 0 && job.totalChunks == |before|
      modifies job`status, job`moves, job`processedChunks, job`totalChunks, job`reports
      ensures ok <==> Embeds(env)
      ensures job.status == Embedding && job.moves == old(job.moves) + [Move(Chunking, Embedding)]
      ensures Tracked(job.reports, job.processedChunks, job.totalChunks)
      ensures ok ==> job.reports != [] && job.processedChunks == job.totalChunks == |before|
      ensures ok ==> Embedded(chunks, before, env.replies, |before|) && totalTokens == SumTokens(before)
    {
      var _ := job.AdvanceStatus(Embedding);
      var requests;
      ok, chunks, totalTokens, requests := EmbedAll(before, job, env.replies);
      ok := ok && LogEmbedded !in env.logFails;
    }

    /** Stage 4. */
    method Store(id: string, doc: DocRecord, chunks: seq<Chunk>, job: IngestionJob, env: Env) returns (ok: bool)
      requires job.status == Embedding && events == []
      modifies this`vectors, this`events, job`status, job`moves
      ensures ok <==> Stores(env)
      ensures job.status == Storing && job.moves == old(job.moves) + [Move(Embedding, Storing)]
      ensures vectors == if Applied(env.upsert) then old(vectors) + Entries(chunks, id, doc) else old(vectors)
      ensures ok ==> events == [Upserted(Entries(chunks, id, doc))]
      ensures forall e :: e in events ==> e.Upserted?
    {
      var _ := job.AdvanceStatus(Storing);
      ok := UpsertMany(Entries(chunks, id, doc), env.upsert);
      ok := ok && LogStored !in env.logFails;
    }

    /** Stage 5. */
    method Finish(id: string, document: Document, chunkCount: nat, totalTokens: nat, job: IngestionJob, env: Env)
      returns (ok: bool)
      requires job.status == Storing
      modifies this`docs, this`events, document, job`status, job`errorMessage, job`moves
      ensures ok <==> Finishes(env)
      ensures job.status == Completed && job.moves == old(job.moves) + [Move(Storing, Completed)]
      ensures job.errorMessage == None
      ensures var d := CompletedDoc(old(document.Snapshot()), chunkCount, totalTokens);
              && docs == (if Applied(env.update) then old(docs)[id := d] else old(docs))
              && events == if Applied(env.update) then old(events) + [DocStored(d)] else old(events)
    {
      job.Complete();
      document.MarkCompleted(chunkCount, totalTokens);
      ok := StoreDoc(id, document.Snapshot(), env.update);
      ok := ok && LogCompleted !in env.logFails;
    }

    /** Stages 2 and 3: from content to embedded chunks, in memory and in the chunk store only. */
    method Prepare(job: IngestionJob, env: Env) returns (ok: bool, chunks: seq<Chunk>, totalTokens: nat)
      requires job.status == Extracting && job.reports == []
      requires Walk(job.moves, Queued, Extracting) && LegalMoves(job.moves) && LATE_FAILURE !in job.moves
      modifies job`status, job`moves, job`processedChunks, job`totalChunks, job`reports
      ensures ok <==> ChunksUp(env) && Embeds(env)
      ensures job.status == Chunking || job.status == Embedding
      ensures Walk(job.moves, Queued, job.status) && LegalMoves(job.moves) && LATE_FAILURE !in job.moves
      ensures job.reports != [] ==> Tracked(job.reports, job.processedChunks, job.totalChunks)
      ensures ok ==> job.status == Embedding && job.reports != []
      ensures ok ==> var data := env.chunked.value;
                     && job.processedChunks == job.totalChunks == |data|
                     && Embedded(chunks, Build(env, data), env.replies, |data|)
                     && totalTokens == SumTokens(Build(env, data))
    {
      ghost var moves := job.moves;
      totalTokens := 0;
      ok, chunks := MakeChunks(job, env);
      MovesAppend(moves, Queued, Extracting, Chunking);
      if ok {
        moves := job.moves;
        ok, chunks, totalTokens := EmbedChunks(chunks, job, env);
        MovesAppend(moves, Queued, Chunking, Embedding);
      }
    }

    /** Stages 4 and 5: first the vectors, then the verdict on job and document. */
    method Publish(id: string, document: Document, chunks: seq<Chunk>, tokens: nat, job: IngestionJob, env: Env)
      returns (ok: bool)
      requires job.status == Embedding && events == []
      requires Walk(job.moves, Queued, Embedding) && LegalMoves(job.moves) && LATE_FAILURE !in job.moves
      modifies this, document, job`status, job`errorMessage, job`moves
      ensures ok <==> Stores(env) && Finishes(env)
      ensures job.status == Completed <==> Stores(env)
      ensures ok ==> job.errorMessage == None
      ensures Walk(job.moves, Queued, job.status) && LegalMoves(job.moves) && LATE_FAILURE !in job.moves
      ensures UpsertFirst(events)
      ensures docs == if Stores(env) && Applied(env.update)
                      then old(docs)[id := CompletedDoc(old(document.Snapshot()), |chunks|, tokens)] else old(docs)
      ensures vectors == if Applied(env.upsert)
                         then old(vectors) + Entries(chunks, id, old(document.Snapshot())) else old(vectors)
      ensures ok ==> var doc := old(document.Snapshot());
                     var d := CompletedDoc(doc, |chunks|, tokens);
                     events == [Upserted(Entries(chunks, id, doc)), DocStored(d)]
    {
      ghost var moves := job.moves;
      ok := Store(id, document.Snapshot(), chunks, job, env);
      MovesAppend(moves, Queued, Embedding, Storing);
      if ok {
        moves := job.moves;
        ok := Finish(id, document, |chunks|, tokens, job, env);
        assert events[0].Upserted?;
        MovesAppend(moves, Queued, Storing, Completed);
      }
    }

    /** Stages 2 to 5, for a document that was found and has content. */
    method RunStages(id: string, document: Document, job: IngestionJob, env: Env) returns (ok: bool)
      requires Extracts(env, docs, id, Queued) && document.Snapshot() == docs[id]
      requires job.status == Extracting && job.reports == [] && events == []
      requires Walk(job.moves, Queued, Extracting) && LegalMoves(job.moves) && LATE_FAILURE !in job.moves
      modifies this, job, document
      ensures ok <==> ChunksUp(env) && Embeds(env) && Stores(env) && Finishes(env)
      ensures job.status == Completed <==> ChunksUp(env) && Embeds(env) && Stores(env)
      ensures ok ==> job.errorMessage == None
      ensures Walk(job.moves, Queued, job.status) && LegalMoves(job.moves) && LATE_FAILURE !in job.moves
      ensures job.reports != [] ==> Tracked(job.reports, job.processedChunks, job.totalChunks)
      ensures UpsertFirst(events)
      ensures ok ==> Complete(old(docs), old(vectors), id, job, env)
      ensures VectorsAfter(old(vectors), vectors, env, old(docs), id, Queued)
      ensures docs == if ChunksUp(env) && Embeds(env) && Stores(env) && Applied(env.update)
                      then old(docs)[id := FinalDoc(env, old(docs)[id])] else old(docs)
    {
      var chunks, tokens;
      ok, chunks, tokens := Prepare(job, env);
      if ok {
        EntriesAreIngested(chunks, env, id, docs[id]);
        ok := Publish(id, document, chunks, tokens, job, env);
      }
    }

    /** The body of the try.  `raised` says whether the handler runs. */
    method Try(id: string, job: IngestionJob, env: Env) returns (raised: bool)
      requires job.moves == [] && job.reports == [] && events == []
      modifies this, job
      ensures !raised ==> job.status == Completed || job.status == Failed
      ensures !raised ==> (job.errorMessage.Some? <==> job.status == Failed)
      ensures !raised && job.status == Completed <==> Succeeds(env, old(docs), id, old(job.status))
      ensures raised && job.status == Completed <==>
              old(job.status) == Completed || (ReachesCompletion(env, old(docs), id, old(job.status)) && !Finishes(env))
      ensures Walk(job.moves, old(job.status), job.status) && LegalMoves(job.moves) && LATE_FAILURE !in job.moves
      ensures job.reports != [] ==> Tracked(job.reports, job.processedChunks, job.totalChunks)
      ensures UpsertFirst(events)
      ensures !raised && job.status == Completed ==> Complete(old(docs), old(vectors), id, job, env)
      ensures raised <==> Raised(env, old(docs), id, old(job.status))
      ensures docs == DocsAfterTry(env, old(docs), id, old(job.status))
      ensures VectorsAfter(old(vectors), vectors, env, old(docs), id, old(job.status))
    {
      var r, document := Extract(id, job, env);
      if r == Continue {
        var ok := RunStages(id, document, job, env);
        raised := !ok;
      } else {
        raised := r == Raise;
      }
    }

    /**
     The whole run.  Whatever raises, the job ends COMPLETED or FAILED; it ends COMPLETED exactly when
     nothing raised, and then everything that came back was written, which is one vector per chunk exactly
     when no slot of a reply was empty; it passes through COMPLETED on the way to FAILED
     exactly when it came in completed or a step after `job.complete()` raised.  `escaped` is the one
     exception that leaves: the handler's own log call.
     */
    method Execute(id: string, job: IngestionJob, env: Env) returns (escaped: bool)
      modifies this, job
      ensures job.status == Completed || job.status == Failed
      ensures job.errorMessage.Some? <==> job.status == Failed
      ensures job.status == Completed <==> Succeeds(env, old(docs), id, old(job.status))
      ensures job.status == Completed ==> !escaped && Complete(old(docs), old(vectors), id, job, env)
      ensures job.status == Completed ==>
                (|vectors| == |old(vectors)| + docs[id].chunkCount <==>
                 NoneEmpty(Slots(env.replies, |env.chunked.value|)))
      ensures Walk(job.moves, old(job.status), job.status) && LegalMoves(job.moves)
      ensures LATE_FAILURE in job.moves <==>
              old(job.status) == Completed || (ReachesCompletion(env, old(docs), id, old(job.status)) && !Finishes(env))
      ensures job.reports != [] ==> Tracked(job.reports, job.processedChunks, job.totalChunks)
      ensures UpsertFirst(events)
      ensures docs == DocsAfter(env, old(docs), id, old(job.status))
      ensures VectorsAfter(old(vectors), vectors, env, old(docs), id, old(job.status))
      ensures id in old(docs) && !old(docs)[id].status.DocCompleted? ==>
                (id in docs && docs[id].status.DocCompleted? && job.status == Failed <==>
                 && ReachesCompletion(env, old(docs), id, old(job.status)) && !Finishes(env)
                 && Applied(env.update) && !HandlerStores(env))
      ensures OnlyVerdict(old(docs), docs, id)
      ensures job.status == Completed ==> CountsChunksAndTokens(old(docs)[id], docs[id], env)
      ensures Raised(env, old(docs), id, old(job.status)) && id in old(docs) && !env.handlerLookupRaises
              && (env.handlerUpdate == Ok || env.handlerUpdate == Raises(true)) ==>
                docs[id].status == DocFailed && docs[id].error == Some("Pipeline failed")
    {
      if id in docs {
        FailedJobCompletedDocExactly(env, docs, id, job.status);
      }
      DocsAfterOutright(env, docs, id, job.status);
      job.moves, job.reports, events := [], [], [];
      var raised := Try(id, job, env);
      escaped := false;
      if raised {
        escaped := Handle(id, job, env);
      } else if job.status == Completed {
        FullyStoredExactly(events[0].entries, env, id, old(docs)[id]);
      }
    }

    /** The except block. */
    method Handle(id: string, job: IngestionJob, env: Env) returns (escaped: bool)
      requires UpsertFirst(events)
      modifies this`docs, this`events, job`status, job`errorMessage, job`moves
      ensures job.status == Failed && job.moves == old(job.moves) + [Move(old(job.status), Failed)]
      ensures job.errorMessage.Some?
      ensures UpsertFirst(events)
      ensures escaped == env.handlerLogRaises
      ensures docs == if HandlerStores(env) && id in old(docs)
                      then old(docs)[id := FailedDoc(old(docs)[id], PIPELINE_FAILED)] else old(docs)
    {
      job.Fail(PIPELINE_FAILED);
      if !env.handlerLookupRaises && id in docs {
        var doc := new Document(docs[id]);
        doc.MarkFailed(PIPELINE_FAILED);
        FailureKeepsOrder(events, doc.Snapshot());
        var _ := StoreDoc(id, doc.Snapshot(), env.handlerUpdate);
      }
      escaped := env.handlerLogRaises;
    }
  }

  // ---------------------------------------------------------------- the source as it stands

  /** `Chunk(...)` is called without the tenant_id that Chunk requires, so building any chunk at all raises. */
  predicate AsWritten(env: Env) {
    env.chunked.Some? ==> (env.constructs <==> env.chunked.value == [])
  }

  /** The tokenizer's two calls are exact on a text. */
  ghost predicate ExactOn(encode: string -> seq<int>, decode: seq<int> -> string, text: string) {
    TokenChunking.Distributes(decode) && decode(encode(text)) == text
  }

  /**
   One run as the source stands, token chunker included: whatever the document and whatever else raises
   or does not, the job ends FAILED, no vector is stored, and no document becomes COMPLETED.
   */
  method ExecuteAsWritten(
    useCase: ProcessDocumentUseCase, id: string, job: IngestionJob, env: Env,
    encode: string -> seq<int>, decode: seq<int> -> string, chunkSize: int, chunkOverlap: int)
    requires chunkSize >= 1
    requires id in useCase.docs ==> ExactOn(encode, decode, useCase.docs[id].content)
    modifies useCase, job
    ensures job.status == Failed && useCase.vectors == old(useCase.vectors)
    ensures id in useCase.docs && useCase.docs[id].status.DocCompleted? ==>
              id in old(useCase.docs) && useCase.docs[id] == old(useCase.docs)[id]
  {
    var content := if id in useCase.docs then useCase.docs[id].content else "";
    var chunks := TokenChunking.Chunk(content, encode, decode, chunkSize, chunkOverlap);
    var actual := env.(chunked := Some(chunks), constructs := chunks == []);
    AsWrittenNeverChunks(actual, content, encode, decode, chunkSize, chunkOverlap);
    var _ := useCase.Execute(id, job, actual);
  }

  /** Text gives a chunk, and a chunk cannot be built. */
  lemma {:induction false} AsWrittenNeverChunks(
    env: Env, content: string, encode: string -> seq<int>, decode: seq<int> -> string,
    chunkSize: int, chunkOverlap: int)
    requires AsWritten(env) && chunkSize >= 1 && env.chunked.Some?
    requires !Blank(content) ==> ExactOn(encode, decode, content)
    requires !Blank(content) && encode(content) != [] ==>
               env.chunked.value == Emit(TokenChunking.AllWindows(
                                           encode(content), decode, TokenChunking.Size(chunkSize),
                                           TokenChunking.Stride(chunkSize, chunkOverlap)))
    ensures !Blank(content) ==> !ChunksUp(env)
  {
    if !Blank(content) {
      TokenChunking.DecodeNothing(decode);
      TokenChunking.ChunkerIsExact(content, encode(content), decode, chunkSize, chunkOverlap, env.chunked.value);
    }
  }
}
