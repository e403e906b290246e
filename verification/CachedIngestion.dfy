/**
 The pipeline with the repository's own embedding provider behind it: the batches of
 app/application/use_cases/process_document.py answered by the cached `embed_batch` of
 app/infrastructure/llm/openai_embedding.py.
 */
module CachedIngestion {
  import opened Options
  import opened IngestionEntities
  import opened Ingestion
  import Pipeline
  import opened EmbeddingCache

  /** What surrounds the k-th call, and what the API answers it for the texts sent; None: it raises. */
  datatype World = World(
    key: string -> string,
    around: nat -> EmbeddingCache.Env,
    api: (nat, seq<string>) -> Option<seq<Vector>>)

  /** Others keep the cache coherent, and the API preserves order, as far as its answer goes. */
  ghost predicate Reliable(w: World, E: string -> Vector, U: set<string>) {
    && KeyRespects(w.key, E, U)
    && (forall k: nat :: CoherentGaps(w.around(k).beforeLookup, w.key, E, U))
    && (forall k: nat :: CoherentGaps(w.around(k).beforeWrite, w.key, E, U))
    && (forall k: nat, sent :: w.api(k, sent).Some? ==> Truthful(w.api(k, sent).value, sent, E))
  }

  /** The API answers every text it is sent. */
  ghost predicate FullLength(w: World) {
    forall k: nat, sent :: w.api(k, sent).Some? ==> |w.api(k, sent).value| >= |sent|
  }

  /** A list is right slot by slot, and has an empty slot only if some API answer was short. */
  ghost predicate GoodReply(reply: Reply, texts: seq<string>, w: World, E: string -> Vector) {
    reply.Vectors? ==> RightOrEmpty(reply.slots, texts, E) && (FullLength(w) ==> NoneEmpty(reply.slots))
  }

  method Ask(service: OpenAIEmbeddingService, texts: seq<string>, w: World, k: nat,
             ghost E: string -> Vector, ghost U: set<string>) returns (reply: Reply)
    requires Reliable(w, E, U) && Coherent(service.cache, w.key, E, U)
    requires forall i :: 0 <= i < |texts| ==> texts[i] in U
    modifies service`cache
    ensures Coherent(service.cache, w.key, E, U) && GoodReply(reply, texts, w, E)
  {
    var call := w.around(k);
    var sent := Sent(service.enabled, w.key, service.cache, call.beforeLookup, texts);
    var results, _ := service.EmbedPointwise(texts, w.key, call.(reply := w.api(k, sent)), E, U);
    reply := if results.Some? then Vectors(results.value) else NoReply;
  }

  ghost predicate GoodReplies(replies: seq<Reply>, chunks: seq<Chunk>, w: World, E: string -> Vector) {
    forall k :: 0 <= k < |replies| ==> GoodReply(replies[k], Request(chunks, k), w, E)
  }

  lemma {:induction false} RequestFrom(chunks: seq<Chunk>, k: nat, U: set<string>)
    requires forall i :: 0 <= i < |chunks| ==> chunks[i].content in U
    ensures forall i :: 0 <= i < |Request(chunks, k)| ==> Request(chunks, k)[i] in U
  {}

  /** The provider's side of the embedding loop: batch after batch, until one raises. */
  method AskAll(service: OpenAIEmbeddingService, chunks: seq<Chunk>, w: World,
                ghost E: string -> Vector, ghost U: set<string>) returns (replies: seq<Reply>)
    requires Reliable(w, E, U) && Coherent(service.cache, w.key, E, U)
    requires forall i :: 0 <= i < |chunks| ==> chunks[i].content in U
    modifies service`cache
    ensures Coherent(service.cache, w.key, E, U) && GoodReplies(replies, chunks, w, E)
    ensures forall k :: 0 <= k < |replies| - 1 ==> replies[k].Vectors?
    ensures BATCH * |replies| >= |chunks| || (replies != [] && replies[|replies| - 1].NoReply?)
  {
    replies := [];
    while BATCH * |replies| < |chunks|
      invariant Coherent(service.cache, w.key, E, U) && GoodReplies(replies, chunks, w, E)
      invariant forall k :: 0 <= k < |replies| ==> replies[k].Vectors?
      decreases |chunks| - BATCH * |replies|
    {
      var k := |replies|;
      RequestFrom(chunks, k, U);
      var reply := Ask(service, Request(chunks, k), w, k, E, U);
      replies := replies + [reply];
      if reply.NoReply? {
        return;
      }
    }
  }

  /** Good replies are what the pipeline needs, and fill every slot if the API answers in full. */
  lemma {:induction false} GoodRepliesMatch(replies: seq<Reply>, chunks: seq<Chunk>, w: World, E: string -> Vector)
    requires GoodReplies(replies, chunks, w, E)
    ensures Pipeline.AnswersMatch(replies, chunks, E)
    ensures FullLength(w) && RepliesFit(replies, |chunks|) ==> NoneEmpty(Slots(replies, |chunks|))
  {
    forall k: nat | BATCH * k < |chunks| && k < |replies| && replies[k].Vectors?
      ensures RightOrEmpty(replies[k].slots, Request(chunks, k), E)
    {
      assert GoodReply(replies[k], Request(chunks, k), w, E);
    }
    if FullLength(w) && RepliesFit(replies, |chunks|) {
      forall i | 0 <= i < |chunks| ensures SlotFor(replies, i).Some? {
        FittingSlot(replies, chunks, w, E, i);
      }
    }
  }

  lemma {:induction false} FittingSlot(replies: seq<Reply>, chunks: seq<Chunk>, w: World, E: string -> Vector, i: nat)
    requires GoodReplies(replies, chunks, w, E) && FullLength(w) && RepliesFit(replies, |chunks|) && i < |chunks|
    ensures SlotFor(replies, i).Some?
  {
    var k := i / BATCH;
    RequestAt(chunks, i);
    assert ReplyFits(replies, |chunks|, k);
    assert GoodReply(replies[k], Request(chunks, k), w, E);
  }

  /**
   A run of the pipeline on its real provider.  Whatever is cached, evicted, written by others, answered
   in part or raised: the cache stays coherent and every vector added to the store is the embedding of the
   text stored with it.  A completed run has added one per chunk if the API always answers in full.
   */
  method ExecuteThroughCache(
    useCase: Pipeline.ProcessDocumentUseCase, service: OpenAIEmbeddingService, id: string, job: IngestionJob,
    env: Ingestion.Env, w: World, ghost E: string -> Vector, ghost U: set<string>)
    requires Reliable(w, E, U) && Coherent(service.cache, w.key, E, U)
    requires env.chunked.Some? ==>
               forall i :: 0 <= i < |env.chunked.value| ==> env.chunked.value[i].content in U
    modifies useCase, job, service
    ensures job.status == Completed || job.status == Failed
    ensures Coherent(service.cache, w.key, E, U)
    ensures old(useCase.vectors) <= useCase.vectors
    ensures forall j :: |old(useCase.vectors)| <= j < |useCase.vectors| ==>
              useCase.vectors[j].vector == E(useCase.vectors[j].content)
    ensures job.status == Completed && FullLength(w) ==>
              id in useCase.docs && |useCase.vectors| == |old(useCase.vectors)| + useCase.docs[id].chunkCount
  {
    var replies := [];
    if Pipeline.Extracts(env, useCase.docs, id, job.status) && Pipeline.ChunksUp(env) {
      var chunks := Build(env, env.chunked.value);
      replies := AskAll(service, chunks, w, E, U);
      GoodRepliesMatch(replies, chunks, w, E);
    }
    var actual := env.(replies := replies);
    ghost var before := useCase.vectors;
    ghost var docs, status := useCase.docs, job.status;
    var _ := useCase.Execute(id, job, actual);
    if useCase.vectors != before {
      var added := useCase.vectors[|before|..];
      assert Build(actual, env.chunked.value) == Build(env, env.chunked.value);
      forall j | 0 <= j < |added| ensures added[j].vector == E(added[j].content) {
        Pipeline.StoredVectorsMatchTheirText(added, actual, id, docs[id], E, j);
      }
    }
  }
}
