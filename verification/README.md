# Verified model of the RAG backend's stateful core

Most of this backend moves data between FastAPI, OpenAI, Postgres, Redis and Qdrant. A few pieces hold
state, loops or interleavings of their own, and those are modelled here:

| files | piece |
|---|---|
| `RateLimiter.dfy`, `RateLimiterOptimality.dfy`, `RateLimiterSkew.dfy` | the sliding-window rate limiter: a trimmed, expiring sorted set against the log of every admission, greedy optimality, and clock readings that land out of order |
| `Worker.dfy`, `WorkerRuns.dfy`, `BackgroundWorker.dfy` | the asyncio task queue: its atomic steps, what every interleaving keeps, and the object whose methods are those steps |
| `Text.dfy`, `Chunks.dfy`, `TokenChunking.dfy`, `CharChunking.dfy` | the two chunkers: exact termination, window arithmetic, stitching, coverage |
| `IngestionEntities.dfy`, `Ingestion.dfy`, `Pipeline.dfy`, `CachedIngestion.dfy` | job, document and the ingestion pipeline when any call may raise, on an arbitrary provider and on the cached one |
| `EmbeddingCache.dfy` | the cached `embed_batch` against the embedding function |
| `TenantCache.dfy` | tenant lookup through a cache, interleaved with writers and expiry |
| `Budget.dfy`, `Context.dfy` | the token-budgeted context and its citations |
| `ChatHistory.dfy`, `ChatStream.dfy` | trimmed chat history against an unbounded log, and the answer stream that feeds it |

The outside world (clock, tokenizer, embedding model, JSON, Redis, Postgres, the vector store, the LLM) is
a parameter. Every assumption about it is a `requires` or a named predicate such as `FreshRun`,
`Distributes`, `Truthful`, `KeyRespects` or `RoundTrips`; what the shape of the model itself rules out is
listed at the end. Classes follow the source's objects. Where calls interleave (the rate limiter's key, the worker, the tenant cache) the steps also exist
as functions on states, so that lemmas can speak about whole runs. Lemmas carry `{:induction false}`: a proof
uses only what its body says.

## What the proofs found

- The character slider ends on exactly the inputs of `CharChunking.TerminatesExactly`. Its "Prevent infinite
  loop" guard does not stop an inner window exactly as long as the overlap from repeating for ever, whether
  or not the loop has reached it yet. A `chunk_size` of zero or less never ends, for either slider.
- If the first window of the character slider is one character shorter than the overlap, the loop goes
  through start -1 and jumps to `size - 1 - overlap`; text in between is in no chunk when the size is more
  than twice the overlap (`NothingLostExactly`, `LosesALetter`).
- As written, `Chunk(...)` is called without the `tenant_id` it requires. With the token chunker and an exact
  tokenizer every run ends FAILED, stores no vector and completes no document (`ExecuteAsWritten`); the other
  pipeline theorems treat construction as a step that may raise.
- A job can go from COMPLETED to FAILED, which the transition table forbids, exactly when it came in
  completed or a step after `job.complete()` raises. A FAILED job leaves its document stored as COMPLETED
  exactly under the condition of `FailedJobCompletedDocExactly`.
- Nothing checks that a vector came back for each chunk. A short API reply becomes a full-length list with
  empty slots, and the job and its document end COMPLETED with fewer vectors than `chunk_count`: exactly when
  some slot is empty (`FullyStoredExactly`, `CompletedWithoutVectors`).
- `stop` is documented to wait for running tasks; the code waits only for its own loop, and the model follows
  the code. `StopDoesNotWait` is a run in which one task is still RUNNING after `stop` and another turns RUNNING.
  `max_concurrent = 0` accepts work and never starts any (`ZeroPermitsStall`).
- Without fresh sorted-set members the rate limiter admits without bound (`CollisionOverAdmits`), freshness is
  exactly what its promise needs (`FreshnessIsNeededExactly`). After a Redis error it lets the request through
  by design, which costs no more than the failures in the window (`FailingOpenIsBounded`).
- The script trims by a clock reading taken before the call is sent. If readings land up to d seconds late,
  exactly the windows of up to 60 - d seconds keep the limit (`SafeLengthExactly`).
- A soft delete does not invalidate the tenant cache. It is seen by all later lookups exactly when nothing
  usable is cached and no lookup holds a row at that moment (`SoftDeleteIsSeenExactly`); `DeletedTenantIsServed`
  is a run in which the active tenant is served afterwards. A lookup in flight across an `update` can bring
  the old row back (`UpdateIsReadBackExactly`).
- `get_history(limit=0)` returns everything kept, because `-0` is an index from the front.
- "Fits as many high-quality chunks as possible" is a longest prefix: the first block that does not fit ends
  the context even if a later, smaller one would fit (`LargeBlockHidesSmallOne`). It is as many as possible
  exactly when the whole list is taken or the cheapest selection of one more exceeds the budget
  (`AsManyAsPossibleExactly`), for instance when costs rise along the list.

## Model

| member | source | states |
|---|---|---|
| `RateLimiter.RedisRateLimiter.IsAllowed` | app/infrastructure/cache/rate_limiter.py:78-120 | with no fault, a reading not late and a new member: allowed exactly when the key's own log has fewer than `limit` admissions in the last 60 s, that log grows by exactly that admission and no other key's does; a Redis failure, before or after the script ran, allows the request |
| `RateLimiter.EveryKeyIsSafe` | app/infrastructure/cache/rate_limiter.py:22-43 | in every valid state of the limiter object no 60 s window of any key's log holds more than `limit` |
| `RateLimiter.RedisRateLimiter.GetRemaining` | app/infrastructure/cache/rate_limiter.py:122-134 | trims the key, lets anything happen to the store, then counts; with nothing in between the answer is `limit` less the key's log of the last 60 s, at least 0; the full limit if either call fails |
| `RateLimiter.RedisRateLimiter.Expire` | app/infrastructure/cache/rate_limiter.py:38 | a key whose time to live has run out can go: store and logs stay in agreement |
| `RateLimiter.ReportedExactly` | app/infrastructure/cache/rate_limiter.py:130-132 | at the instant of the count the report never overstates what a burst gets, and is exact if and only if nothing counted has left the window since the trim, or the window is full |
| `RateLimiter.RedisRateLimiter.Reset` | app/infrastructure/cache/rate_limiter.py:136-140 | forgets one key and its log and no other; a Redis error is let out, whether or not the delete took effect |
| `RateLimiter.MembersCountAdmissions` | app/infrastructure/cache/rate_limiter.py:28-38 | the number of live members equals the number of live admissions if and only if no two live admissions share a member; otherwise it is smaller |
| `RateLimiter.ExpiryRemovesNothingLive` | app/infrastructure/cache/rate_limiter.py:38 | whenever EXPIRE fires, neither the set nor the full log has an entry inside the window |
| `RateLimiter.StepRefines` | app/infrastructure/cache/rate_limiter.py:22-43 | each script call, header trim, expiry or reset keeps the set equal to the untrimmed log on everything live, provided a script reading is no older than the landing of a step before it, header reads included |
| `RateLimiter.RunRefines` | app/infrastructure/cache/rate_limiter.py:22-43 | so does every run in which no script reading is older than the landing of a step before it, header reads included, members colliding or not |
| `RateLimiter.DeniedExactly` | app/infrastructure/cache/rate_limiter.py:32-42 | a call is denied exactly when the untrimmed log has `limit` admissions in the last 60 s |
| `RateLimiter.RunSafe` | app/infrastructure/cache/rate_limiter.py:22-43 | over every interleaving of calls, lost replies, header reads, expiries and resets in which no script reading is older than the landing of a step before it, header reads included, and members are fresh, every window (t-60, t] holds at most `limit` admissions |
| `RateLimiter.FailingOpenIsBounded` | app/infrastructure/cache/rate_limiter.py:97-120 | over every such run without resets, the requests let through in a window, those that enter the log or meet a Redis failure, are at most `limit` plus the failed calls in it |
| `RateLimiter.AllowedIsLetThrough` | app/infrastructure/cache/rate_limiter.py:97-120 | a request is let through exactly when its call meets a Redis failure or the script admits it |
| `RateLimiter.OtherStepsOutright` | app/infrastructure/cache/rate_limiter.py:28-29 | a sweep drops exactly the members a minute older than its reading; expiry and reset empty the key, and only reset the log |
| `RateLimiterSkew.LateRunSafe` | app/infrastructure/cache/rate_limiter.py:94-102 | over every run in any order of readings, none more than d late, every window (t-(60-d), t] holds at most `limit` admissions |
| `RateLimiterSkew.SafeLengthExactly` | app/infrastructure/cache/rate_limiter.py:94-102 | for a limit of at least 1 and 0 < d <= 60, windows of a given length are safe in all such runs if and only if the length is at most 60 - d |
| `RateLimiter.CollisionOverAdmits` | app/infrastructure/cache/rate_limiter.py:36-37 | with one repeated member, n calls at one instant are all admitted under a limit of 2, for every n |
| `RateLimiter.FreshnessIsNeededExactly` | app/infrastructure/cache/rate_limiter.py:36-37 | from any good state an admitted draw leaves every fresh continuation, any steps over any time, safe if and only if its member is not live |
| `RateLimiter.RemainingIsExact` | app/infrastructure/cache/rate_limiter.py:122-134 | of any burst at that instant exactly the first r calls are admitted, r being what `get_remaining` reports |
| `RateLimiter.RetryAfterIsKept` | app/api/middleware/rate_limit.py:54-63 | 60 s after any reachable state of an otherwise idle key a retry is admitted, if and only if the limit is at least 1 |
| `RateLimiterOptimality.GreedyIsLargest` | app/infrastructure/cache/rate_limiter.py:28-42 | no selection of the arrivals with at most `limit` per window is larger than what the script admits |
| `RateLimiterOptimality.GreedyIsOptimal` | app/infrastructure/cache/rate_limiter.py:28-42 | and none has its i-th admission earlier than the script's i-th |
| `RateLimiterOptimality.GreedyIsLegal` | app/infrastructure/cache/rate_limiter.py:28-42 | the script's own answers are such a selection, so the optimum is attained |
| `Worker.StepInv` | app/infrastructure/queue/worker.py:44-176 | every atomic step keeps the invariant that ties queue, records, frames, permits and coroutine use together for every id |
| `Worker.PlacesPartition` | app/infrastructure/queue/worker.py:58-64 | recorded status and actual place agree: PENDING is queued or waiting and not both, RUNNING is past the semaphore, CANCELLED is nowhere |
| `Worker.CountsAddUp` | app/infrastructure/queue/worker.py:37-42 | the six places add up to the number of tasks and at most `max_concurrent` are RUNNING |
| `Worker.StepMovesAlongEdges` | app/infrastructure/queue/worker.py:150-176 | one step moves a status along one edge of the life cycle or not at all and never drops a record |
| `Worker.StopCancelsExactlyTheQueue` | app/infrastructure/queue/worker.py:83-108 | `stop` cancels and closes exactly the queued ids and touches nothing already dispatched |
| `WorkerRuns.RunInv` | app/infrastructure/queue/worker.py:30-176 | every reachable state, across stop/start cycles, satisfies the invariant |
| `WorkerRuns.NothingLost` | app/infrastructure/queue/worker.py:58-64 | in every reachable state the six places together hold exactly as many tasks as were enqueued |
| `WorkerRuns.StatusOnlyMovesForward` | app/infrastructure/queue/worker.py:150-176 | over any stretch of a run status only moves forward, and a terminal status never changes |
| `WorkerRuns.OutcomeIsRecorded` | app/infrastructure/queue/worker.py:160-176 | over every run a task is COMPLETED exactly when its coroutine has returned, and FAILED with a text exactly when it has raised with that text |
| `WorkerRuns.CoroutineUsedOnce` | app/infrastructure/queue/worker.py:93-98 | no coroutine is awaited twice, closed twice, or both; terminal tasks used theirs exactly once |
| `WorkerRuns.CancelledMeansStopped` | app/infrastructure/queue/worker.py:89-101 | an id is CANCELLED if and only if some earlier `stop` found it in the queue |
| `WorkerRuns.DispatchedIsNeverLost` | app/infrastructure/queue/worker.py:139-144 | a dispatched id stays accounted for and is never cancelled or closed |
| `WorkerRuns.WaitingStillRuns` | app/infrastructure/queue/worker.py:83-108 | a dispatched frame that waits for the semaphore when `stop` is called can turn RUNNING afterwards |
| `WorkerRuns.StopDoesNotWait` | app/infrastructure/queue/worker.py:83-108 | a witness: after `stop` one task is still RUNNING and another turns RUNNING |
| `WorkerRuns.FirstInFirstOut` | app/infrastructure/queue/worker.py:137-148 | in every reachable state what was dispatched, followed by what is queued, is what was submitted, in that order, less what was cancelled |
| `WorkerRuns.InternalRunsAreShort` | app/infrastructure/queue/worker.py:137-176 | between submissions the worker can take only as many steps as there is work |
| `WorkerRuns.FramesCanMove` | app/infrastructure/queue/worker.py:152-176 | no deadlock: with a permit in the system, anything dispatched can always move something |
| `WorkerRuns.QuiescentMeansDone` | app/infrastructure/queue/worker.py:137-176 | when nothing can move, every task is terminal, or queued in a stopped worker |
| `WorkerRuns.ZeroPermitsStall` | app/infrastructure/queue/worker.py:37-39 | with `max_concurrent` 0 no task is ever RUNNING or finished, in any run |
| `BackgroundWorker.BackgroundWorker.constructor` | app/infrastructure/queue/worker.py:37-42 | a new worker is the initial state of the protocol |
| `BackgroundWorker.BackgroundWorker.Enqueue` | app/infrastructure/queue/worker.py:44-72 | records the task as PENDING at the tail of the queue, as the protocol's step, invariant kept |
| `BackgroundWorker.BackgroundWorker.Start` | app/infrastructure/queue/worker.py:74-81 | starting twice is starting once |
| `BackgroundWorker.BackgroundWorker.Stop` | app/infrastructure/queue/worker.py:83-122 | the drain loop amounts to the protocol's one Stop step and counts what it cancelled |
| `BackgroundWorker.BackgroundWorker.Dispatch` | app/infrastructure/queue/worker.py:137-148 | one turn of the worker loop takes the head of the queue and starts its frame |
| `BackgroundWorker.BackgroundWorker.Acquire` | app/infrastructure/queue/worker.py:150-158 | entering the semaphore takes a permit and marks the task RUNNING |
| `BackgroundWorker.BackgroundWorker.Finish` | app/infrastructure/queue/worker.py:161-176 | a return records COMPLETED with no error, an exception FAILED with its text; the name and all else stay |
| `BackgroundWorker.BackgroundWorker.GetStatus` | app/infrastructure/queue/worker.py:124-135 | known ids answer with their record, which has an error exactly when FAILED |
| `Chunks.EveryCharacterKept` | app/domain/services/token_aware_chunking.py:86-104 | over gapless windows every non-whitespace character survives in some chunk, at its place |
| `Chunks.KeptExactly` | app/domain/services/chunking_service.py:88-100 | a non-whitespace character is in some chunk if and only if it is in some window |
| `Chunks.CoveredChunksAreExact` | app/domain/services/token_aware_chunking.py:86-104 | and chunks are numbered 0, 1, 2, ..., each is the stripped slice it says it is, and there are none exactly for blank text |
| `Text.WordsAreCounted` | app/domain/services/chunking_service.py:97 | the rough token count is the number of maximal runs of non-whitespace |
| `Text.WhitespaceInPlainText` | app/domain/services/chunking_service.py:71 | what stripping treats as whitespace among the ASCII characters |
| `TokenChunking.WindowsIsCeiling` | app/domain/services/token_aware_chunking.py:82-112 | the window count is 1 if n <= size, else 1 plus (n - size)/(size - overlap) rounded up |
| `TokenChunking.OrbitIsArithmetic` | app/domain/services/token_aware_chunking.py:69-70 | turn k starts at k * (size - overlap) and there are exactly that many turns, for every overlap, negative and oversized ones included |
| `TokenChunking.TerminatesExactly` | app/domain/services/token_aware_chunking.py:82-112 | the loop ends if and only if there is nothing to chunk or `chunk_size` is at least 1 |
| `TokenChunking.Chunk` | app/domain/services/token_aware_chunking.py:49-114 | on exactly the inputs on which it returns: windows of min(chunk_size, 8000) tokens over all tokens, each beginning the overlap, cut to between 0 and half a window, before the last one's end; of each window with any text one chunk, numbered, stripped, placed by decoded prefixes, with its exact number of tokens |
| `TokenChunking.StitchingGivesBackTokens` | app/domain/services/token_aware_chunking.py:82-112 | windows without their overlaps concatenate to the tokens; lengths sum to n + (m-1) * overlap; none exceeds min(chunk_size, 8000) |
| `TokenChunking.EveryTokenOnceOrTwice` | app/domain/services/token_aware_chunking.py:69-70 | every token is in one window or in two neighbouring ones |
| `TokenChunking.WindowsCover` | app/domain/services/token_aware_chunking.py:86-93 | if decode distributes over concatenation and inverts encode, the character windows cover the content |
| `TokenChunking.EndsIncrease` | app/domain/services/token_aware_chunking.py:91-93 | window ends never go back, and advance if and only if the tokens added decode to some text |
| `TokenChunking.ChunkEndsIncrease` | app/domain/services/token_aware_chunking.py:91-104 | chunk ends never go back, and increase if and only if the tokens added decode to some text; always, if no token is empty |
| `TokenChunking.ChunkerIsExact` | app/domain/services/token_aware_chunking.py:65-104 | for non-blank content there is at least one chunk, each the strip of content[start_char:end_char], and no non-whitespace character is lost |
| `CharChunking.EndBounds` | app/domain/services/chunking_service.py:80-86 | a window from a non-negative start is never empty, never longer than the size, and stops short of the end exactly when inner |
| `CharChunking.NextMonotone` | app/domain/services/chunking_service.py:80-107 | on non-negative starts the next-start map is monotone |
| `CharChunking.FixedPointIsStuck` | app/domain/services/chunking_service.py:102-107 | an inner window exactly as long as the overlap repeats itself, guard or no guard |
| `CharChunking.ClearFromStart` | app/domain/services/chunking_service.py:78-107 | the loop's way from 0 is clear if and only if the first window is not shorter than the overlap and there is no such position |
| `CharChunking.TerminatesExactly` | app/domain/services/chunking_service.py:78-107 | for every content, size and overlap the loop ends if and only if size >= 1 and its way from 0 is clear, or the first window is one short and the way from size - 1 - overlap is clear |
| `CharChunking.NoOverlapIsSound` | app/domain/services/chunking_service.py:102-107 | with overlap <= 0 every positive size terminates and covers |
| `CharChunking.Chunk` | app/domain/services/chunking_service.py:58-109 | the method returns the non-blank windows of the run, stripped and numbered, on exactly the inputs on which it returns |
| `CharChunking.FindEnd` | app/domain/services/chunking_service.py:79-86 | from a non-negative start the window reaches the end of the content, or ends just after the last newline beyond its first character, or, there being none, is full |
| `CharChunking.WindowsCover` | app/domain/services/chunking_service.py:78-107 | when the way from 0 is clear, windows run over the content without a gap, each at most `chunk_size`, starts and ends strictly increasing |
| `CharChunking.StitchingGivesBackContent` | app/domain/services/chunking_service.py:78-107 | windows without what they repeat concatenate to the content; at overlap <= 0 they tile it |
| `CharChunking.ChunkEndsIncrease` | app/domain/services/chunking_service.py:88-100 | on every run that ends, chunk ends strictly increase |
| `CharChunking.ChunkerIsExact` | app/domain/services/chunking_service.py:71-109 | on every run that ends, chunks are numbered, each is the strip of its slice and carries its number of words, a non-whitespace character is in some chunk if and only if it is not in the lost range, and there is no chunk if and only if all are |
| `CharChunking.LostExactly` | app/domain/services/chunking_service.py:78-107 | on every run that ends, a position is in no window if and only if the run goes through -1 and the position lies between the first window and size - 1 - overlap |
| `CharChunking.NothingLostExactly` | app/domain/services/chunking_service.py:78-107 | so a run that ends loses nothing if and only if it needs no such jump or the size is at most twice the overlap |
| `CharChunking.LosesALetter` | app/domain/services/chunking_service.py:84-107 | a nine-character text whose third letter is in no chunk at size 7 and overlap 3 |
| `IngestionEntities.IngestionJob.AdvanceStatus` | app/domain/entities/ingestion_job.py:55-74 | moves along an edge of the table, or raises and changes nothing |
| `IngestionEntities.TableIsALadder` | app/domain/entities/ingestion_job.py:27-35 | the table allows one stage up at a time, FAILED from every stage but the last, and QUEUED from FAILED, and nothing else |
| `IngestionEntities.IngestionJob.Progress` | app/domain/entities/ingestion_job.py:104-109 | lies in [0, 1] while counters are in order and is 1 exactly when all is processed |
| `Ingestion.Attach` | app/application/use_cases/process_document.py:128-129 | the strict zip attaches pairwise, empty slots included, and raises exactly on a length mismatch |
| `Ingestion.EmbedAll` | app/application/use_cases/process_document.py:121-133 | for any number of batches of 50: request k is the texts of batch k; gets through exactly when every reply is full-length, empty slots or not, and then chunk i has reply i/50's slot i%50, tokens sum over all chunks, and progress never fell and reached the total |
| `Ingestion.FirstRequestsInOrder` | app/application/use_cases/process_document.py:122-126 | request k of such a sequence is the contents of chunks 50 * k and on, 50 of them or what is left |
| `Ingestion.TotalIsOfCounts` | app/application/use_cases/process_document.py:104-133 | the token total of a run is the running sum of its chunks' counts |
| `Ingestion.TotalFollowsCounts` | app/application/use_cases/process_document.py:121-133 | changing one count moves such a total by exactly as much, and all-zero counts give 0 |
| `Pipeline.EntriesAreIngested` | app/application/use_cases/process_document.py:145-161 | one vector entry, in order, for exactly the chunks whose slot was filled, each with its own vector and text |
| `Pipeline.FullyStoredExactly` | app/application/use_cases/process_document.py:145-174 | the entries are as many as the recorded chunk count if and only if no slot of any reply was empty, and never more |
| `Pipeline.CompletedWithoutVectors` | app/application/use_cases/process_document.py:126-175 | a witness: nothing raises, the one slot is empty, and the document is COMPLETED with one chunk and no vector |
| `Pipeline.StoredVectorsMatchTheirText` | app/application/use_cases/process_document.py:122-161 | if each slot the provider fills is the embedding of the text sent for it, every stored vector is the embedding of the text stored with it |
| `Pipeline.ProcessDocumentUseCase.RunStages` | app/application/use_cases/process_document.py:87-184 | stages 2 to 5 get through exactly when each of their calls does, and the job is COMPLETED exactly when all before `complete()` did |
| `Pipeline.SucceedsOutright` | app/application/use_cases/process_document.py:66-184 | a run completes exactly when the job came in QUEUED, the document is there and not blank, and no call of any stage raises |
| `Pipeline.ProcessDocumentUseCase.Handle` | app/application/use_cases/process_document.py:186-206 | the handler fails the job always, and the stored document exactly when there is one and its own lookup and update work |
| `Pipeline.ProcessDocumentUseCase.Execute` | app/application/use_cases/process_document.py:57-206 | under any pattern of exceptions the job ends COMPLETED or FAILED, COMPLETED exactly when nothing raised, and then with the number of all chunks, the running sum of their token counts and a vector for each filled slot, which is one per chunk if and only if no slot is empty; every status change is an edge of the table except COMPLETED to FAILED, whose exact cause is stated; progress is monotone; no document is stored COMPLETED before the upsert succeeded; no other document changes, and of this one only the verdict; the stored documents and vectors after the run are determined, with the exact condition for a COMPLETED document under a FAILED job |
| `Pipeline.FailedJobCompletedDocExactly` | app/application/use_cases/process_document.py:169-199 | a run that does not succeed leaves the document COMPLETED if and only if the handler stores no verdict and the document was stored COMPLETED by this run before a late failure, or was COMPLETED before and not found blank and marked so |
| `Pipeline.FailedJobCompletedDoc` | app/application/use_cases/process_document.py:175-199 | a witness: only the last log call raises and the handler's lookup fails |
| `Pipeline.ExecuteAsWritten` | app/application/use_cases/process_document.py:90-107 | with the token chunker, an exact tokenizer and `Chunk` built as the source does, every run ends FAILED, stores no vector and completes no document, whatever else raises |
| `EmbeddingCache.OpenAIEmbeddingService.EmbedBatch` | app/infrastructure/llm/openai_embedding.py:62-117 | every outcome: cached slots, exactly the misses sent and in order, reply placed by index, write-backs, a raised lookup or API call, a short reply |
| `EmbeddingCache.MissesAreTheEmptySlots` | app/infrastructure/llm/openai_embedding.py:79-90 | the uncached indices are exactly the empty slots, each once, ascending |
| `EmbeddingCache.OpenAIEmbeddingService.EmbedPointwise` | app/infrastructure/llm/openai_embedding.py:62-117 | `embed_batch` itself, any texts, coherent cache, evictions, foreign writes and failed write-backs: it raises exactly when a lookup does or something had to be sent and the API call does; else result[i] is E(texts[i]), or empty if the reply was short; the cache is coherent after every outcome |
| `EmbeddingCache.OpenAIEmbeddingService.Embed` | app/infrastructure/llm/openai_embedding.py:57-60 | the single-text call returns E(text) if it returns a vector, and keeps the cache coherent |
| `CachedIngestion.AskAll` | app/application/use_cases/process_document.py:122-126 | the cached provider's answers to the batches, up to the first that raises: slot by slot right or empty, empty only after a short API reply, the cache coherent throughout |
| `CachedIngestion.ExecuteThroughCache` | app/application/use_cases/process_document.py:57-206 | the pipeline on its real provider, any cache contents, evictions, short replies and exceptions: every vector added is the embedding of the text stored with it, the cache stays coherent, and a completed run adds one per chunk if the API answers in full |
| `EmbeddingCache.BatchIsPointwise` | app/infrastructure/llm/openai_embedding.py:79-107 | scatter and gather agree with E slot by slot, for any truthful reply, full or short, and for a fully cached batch whatever the API does |
| `EmbeddingCache.CallKeepsCoherence` | app/infrastructure/cache/redis_cache.py:87-121 | every outcome of a call, a raised lookup, a raised API call and a short reply included, leaves the cache coherent if texts that share a key share an embedding |
| `EmbeddingCache.SecondCallIsFree` | app/infrastructure/llm/openai_embedding.py:62-117 | after an undisturbed call with a full reply, on texts that do not share keys, the same call again sends nothing and returns the embedding of each |
| `EmbeddingCache.CollisionServesTheWrongVector` | app/infrastructure/cache/redis_cache.py:87-90 | and if two texts share a key and not an embedding, two calls in a row serve a wrong vector |
| `TenantCache.RunInv` | app/infrastructure/repositories/postgres_tenant_repo.py:62-145 | in every interleaving, what is cached or in flight was the row when it was read |
| `TenantCache.BoundedStaleness` | app/infrastructure/repositories/postgres_tenant_repo.py:62-94 | what a lookup returns was the row at an instant at most 300 s plus the longest read-to-write gap ago |
| `TenantCache.EveryWriteBecomesVisible` | app/infrastructure/repositories/postgres_tenant_repo.py:119-145 | so every write, soft deletes included, is seen by every lookup that returns later than that |
| `TenantCache.SoftDeleteIsSeenExactly` | app/infrastructure/repositories/postgres_tenant_repo.py:140-145 | after a soft delete every lookup in every continuation sees it or something newer, if and only if nothing usable is cached and no lookup stands between its SELECT and its cache write |
| `TenantCache.DeletedTenantIsServed` | app/infrastructure/repositories/postgres_tenant_repo.py:62-94 | a witness: a run in which a lookup 299 s after the soft delete returns the active tenant |
| `TenantCache.UpdateIsReadBackExactly` | app/infrastructure/repositories/postgres_tenant_repo.py:119-138 | after an update every lookup in every continuation sees it or something newer, if and only if no lookup holds an older row across the invalidation |
| `TenantCache.UpdateStores` | app/infrastructure/repositories/postgres_tenant_repo.py:119-134 | an update stores the row it is given, where there is one |
| `TenantCache.InsertStores` | app/infrastructure/repositories/postgres_tenant_repo.py:96-117 | a save stores its row exactly when there is none |
| `TenantCache.SoftDeleteStores` | app/infrastructure/repositories/postgres_tenant_repo.py:140-145 | a soft delete makes the stored row inactive and keeps the rest |
| `TenantCache.UpdateIsReadBackByContent` | app/infrastructure/repositories/postgres_tenant_repo.py:62-138 | with no older row in flight and no later write, every lookup in every continuation returns exactly the row the update was given |
| `TenantCache.SoftDeleteIsSeenByContent` | app/infrastructure/repositories/postgres_tenant_repo.py:62-145 | likewise the stored row made inactive, if nothing usable is cached and no lookup holds a row |
| `TenantCache.EveryVersionWasWritten` | app/infrastructure/repositories/postgres_tenant_repo.py:96-145 | in every run each version of the row is what some step wrote: the row it was given, or the one before made inactive |
| `TenantCache.WriteBackServes` | app/infrastructure/repositories/postgres_tenant_repo.py:86-92 | a successful cache write serves its row for exactly 300 s |
| `TenantCache.CallsEnd` | app/infrastructure/repositories/postgres_tenant_repo.py:76-94 | a lookup that has answered and an update that has invalidated are over, and other lookups go on unchanged |
| `Context.LabelReadsBack` | app/application/services/context_service.py:75-84 | the number in a block's bracket reads back as its index, whatever title, score and content are and whatever follows |
| `Context.BlockShowsResult` | app/application/services/context_service.py:75-84 | a block shows the title, or "Untitled" for an empty one, at a fixed place after its label, and ends with the whole content |
| `Context.BlockShowsDetails` | app/application/services/context_service.py:79-84 | just before the content a block shows the chunk index, which reads back, and the score's rendering |
| `Context.RelevantExactly` | app/application/services/context_service.py:50-51 | the filter keeps exactly the results at or above the threshold, in order |
| `Context.SortedFilterIsPrefix` | app/application/services/context_service.py:50-51 | on score-sorted input the threshold filter is a cut |
| `Context.BuildContext` | app/application/services/context_service.py:47-73 | the used results are the longest prefix of those passing the threshold whose blocks fit the budget: exactly the prefixes up to that length fit |
| `Budget.LargerBudgetExtends` | app/application/services/context_service.py:61-70 | a larger budget only extends the used results |
| `Context.LargerBudgetExtendsText` | app/application/services/context_service.py:61-72 | and the smaller context text is a prefix of the larger one |
| `Budget.AsManyAsPossibleExactly` | app/application/services/context_service.py:17-19 | no selection in list order is larger than the prefix taken, if and only if it is the whole list or the cheapest selection of one more exceeds the budget |
| `Budget.CheapestIsLeast` | app/application/services/context_service.py:61-70 | no selection of m results costs less than the computed cheapest |
| `Budget.CheapestIsAttained` | app/application/services/context_service.py:61-70 | and one costs exactly that |
| `Budget.RisingCostsGiveTheMost` | app/application/services/context_service.py:17-19 | when costs do not fall along the list, whatever the label, the prefix is as large as any selection |
| `Budget.LargeBlockHidesSmallOne` | app/application/services/context_service.py:65-66 | a witness: a block over the budget in front of one within it keeps both out |
| `Context.JoinHoldsBlocks` | app/application/services/context_service.py:72 | the joined text holds every block whole at a known place |
| `Context.BlankLineBetween` | app/application/services/context_service.py:72 | between two blocks there is one blank line and nothing else |
| `Context.BuildSources` | app/application/use_cases/rag_chat.py:239-258 | source i has index i + 1 and cites used result i, its content the first min(200, length) characters |
| `Context.LabelsDenoteSources` | app/application/use_cases/rag_chat.py:239-258 | the label read at a block's place in the context is the index of exactly one source, and both denote the same result |
| `Context.Cite` | app/application/use_cases/rag_chat.py:92-122 | the two calls together: longest fit, labels agree with sources, and on sorted input the used results are a prefix of all results |
| `ChatHistory.PushTrim` | app/infrastructure/repositories/redis_chat_repo.py:47-51 | RPUSH then LTRIM -100 -1 keeps the last 100 of everything pushed |
| `ChatHistory.RedisChatHistoryRepository.SaveMessage` | app/infrastructure/repositories/redis_chat_repo.py:37-51 | the user's live conversation grows by exactly this message, no other user's changes, and every stored list stays the last 100 of its user's conversation, with its deadline |
| `ChatHistory.RedisChatHistoryRepository.GetHistory` | app/infrastructure/repositories/redis_chat_repo.py:53-81 | returns what the log would show for every integer limit, undecodable entries skipped |
| `ChatHistory.ReadableAppend` | app/infrastructure/repositories/redis_chat_repo.py:63-79 | an entry that does not decode is left out, and only it |
| `ChatHistory.RedisChatHistoryRepository.ClearHistory` | app/infrastructure/repositories/redis_chat_repo.py:83-90 | ends one user's conversation and changes no other |
| `ChatHistory.ForgottenAfterAWeek` | app/infrastructure/repositories/redis_chat_repo.py:50 | without a clear, a conversation lives until a week after its last save and not longer |
| `ChatHistory.RedisChatHistoryRepository.Purge` | app/infrastructure/repositories/redis_chat_repo.py:50 | a key removed by its 7-day TTL leaves every user's history as the log shows it |
| `ChatHistory.LastMessagesExactly` | app/infrastructure/repositories/redis_chat_repo.py:60-61 | "the last `limit` messages" holds if and only if 1 <= limit <= 100, or limit is 0 and there are none, or limit is above 100 and there are at most 100 |
| `ChatHistory.LastOfEverything` | app/infrastructure/repositories/redis_chat_repo.py:37-81 | with no clear and no silent week that is the last min(limit, total) of everything ever saved, in order |
| `ChatStream.Execute` | app/application/use_cases/rag_chat.py:109-119 | the non-streaming path saves question and the provider's message, only after the model answered, and only for a named user |
| `ChatStream.AnswerStream.Next` | app/application/use_cases/rag_chat.py:195-227 | each pull keeps emitted chunks and saved messages in agreement, wherever the consumer stops |
| `ChatStream.Forward` | app/api/routers/chat.py:99-107 | for every delta sequence, failure and departure: the sent chunks are the deltas in order and at most one done chunk; for a named user whose stream was followed past it, and a first write that works, history grows by the question, and with a second write that works by an assistant message whose content is that of the sent deltas end to end; else not at all |
| `ChatStream.RememberedIsReadBack` | app/application/use_cases/rag_chat.py:219-227 | after that, the last two messages of the history are the exchange |

## Left out

- FastAPI routers, schemas, DTO mapping, error handlers, logging contents, dependency injection and settings: no property beyond the plumbing.
- OpenAI, Qdrant, Postgres and Redis clients, ARQ retries and the dead-letter queue: only the abstract effect of a call is kept (works, raises, raises after taking effect).
- `app/infrastructure/queue/arq_worker.py` passes a `tenant_id` that `execute` does not accept; that call never reaches the pipeline and is not modelled.
- tiktoken, SHA-256, JSON and UUIDs are arbitrary functions; no claim is made that re-encoding a decoded window gives the same token count.
- RateLimiter.StepRefines: asks that no script reading be older than the landing of a step before it, header reads included; `RateLimiterSkew` covers readings that are, where the set need not equal the log on the last 60 s.
- RateLimiter.RunRefines: as for StepRefines.
- RateLimiter.RunSafe: as for StepRefines; the promise that holds without it is `RateLimiterSkew.LateRunSafe`.
- Clocks: time is an exact real or integer that does not go backward and is shared by Redis and the application; timestamps on entities are dropped.
- Worker: `wait_for`, `get` and `create_task` are one step, task cancellation and process shutdown are excluded, and logging does not raise.
- BackgroundWorker.BackgroundWorker.Enqueue: the id is a parameter that is new, standing for `uuid4`.
- BackgroundWorker.BackgroundWorker.Dispatch: is called when the loop is running and something is queued; the one-second timeout that finds nothing changes no state.
- RateLimiter: one key at a time in the run lemmas; `burst_size` is unused in the source.
- Ingestion: chunks are values, so sharing of a chunk object with an in-memory repository is not captured; the text of an error after its fixed prefix is dropped.
- Ingestion: `batch_start` is written as 50 * k; `save_many` gives back the chunks it was given; an upsert takes effect for all entries or none.
- Idempotent reprocessing is not claimed: chunk ids are fresh on every run, so a second run adds vectors.
- EmbeddingCache: a cached value that is not a well-formed embedding counts as a lookup that raises.
- TenantCache: one row and one cache key; an `update` whose object carries another key hash than the row is not modelled.
- Context: scores are exact reals and their percent rendering is an arbitrary function; every element of the result list is a `SearchResult`.
- ChatHistory: stored entries that make decoding raise anything but the three caught exceptions are not modelled; no entry written by `save_message` does.
- ChatStream: within one forwarded stream no other writer touches the same repository; `AnswerStream.Next` itself allows it between pulls.
- ChatStream: a history write that raises is taken not to have happened (the pipeline is one transaction).
- Duplicate detection in `app/application/use_cases/ingest_document.py`, quota counters, cost estimation, prompt texts and in-memory repositories: easy or outside the core.
