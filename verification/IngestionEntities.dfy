/** The job and document entities of app/domain/entities, with the history of one pipeline run. */
module IngestionEntities {
  import opened Options

  datatype JobStatus = Queued | Extracting | Chunking | Embedding | Storing | Completed | Failed

  /** _VALID_TRANSITIONS. */
  function Transitions(s: JobStatus): set<JobStatus> {
    match s
    case Queued => {Extracting, Failed}
    case Extracting => {Chunking, Failed}
    case Chunking => {Embedding, Failed}
    case Embedding => {Storing, Failed}
    case Storing => {Completed, Failed}
    case Completed => {}
    case Failed => {Queued}
  }

  /** How far along the stages a status is. */
  function Stage(s: JobStatus): int {
    match s
    case Queued => 0 case Extracting => 1 case Chunking => 2 case Embedding => 3 case Storing => 4 case Completed => 5
    case Failed => -1
  }

  /** The table is a ladder: one stage up at a time, to FAILED from every stage but the last, and back to QUEUED. */
  lemma {:induction false} TableIsALadder(s: JobStatus, t: JobStatus)
    ensures t in Transitions(s) <==>
            || (s != Failed && Stage(t) == Stage(s) + 1)
            || (t == Failed && s != Failed && s != Completed)
            || (s == Failed && t == Queued)
  {}

  /** One assignment to `status`, and one call of record_progress. */
  datatype Move = Move(source: JobStatus, target: JobStatus)

  datatype Report = Report(processed: int, total: int)

  /** `moves` and `reports` are what has been done to the job since they were last cleared. */
  class IngestionJob {
    var status: JobStatus
    var totalChunks: int
    var processedChunks: int
    var errorMessage: Option<string>
    ghost var moves: seq<Move>
    ghost var reports: seq<Report>

    constructor ()
      ensures status == Queued && totalChunks == processedChunks == 0 && errorMessage == None
      ensures moves == [] && reports == []
    {
      status, totalChunks, processedChunks, errorMessage := Queued, 0, 0, None;
      moves, reports := [], [];
    }

    /** False stands for the ValueError. */
    method AdvanceStatus(target: JobStatus) returns (ok: bool)
      modifies this`status, this`moves
      ensures ok <==> target in Transitions(old(status))
      ensures ok ==> status == target && moves == old(moves) + [Move(old(status), target)]
      ensures !ok ==> status == old(status) && moves == old(moves)
    {
      ok := target in Transitions(status);
      if ok {
        moves := moves + [Move(status, target)];
        status := target;
      }
    }

    method RecordProgress(processed: int, total: int)
      modifies this`processedChunks, this`totalChunks, this`reports
      ensures processedChunks == processed && totalChunks == total
      ensures reports == old(reports) + [Report(processed, total)]
    {
      processedChunks, totalChunks := processed, total;
      reports := reports + [Report(processed, total)];
    }

    method Fail(error: string)
      modifies this`status, this`errorMessage, this`moves
      ensures status == Failed && errorMessage == Some(error)
      ensures moves == old(moves) + [Move(old(status), Failed)]
    {
      moves := moves + [Move(status, Failed)];
      status, errorMessage := Failed, Some(error);
    }

    method Complete()
      modifies this`status, this`errorMessage, this`moves
      ensures status == Completed && errorMessage == None
      ensures moves == old(moves) + [Move(old(status), Completed)]
    {
      moves := moves + [Move(status, Completed)];
      status, errorMessage := Completed, None;
    }

    /** The share of chunks processed; 0.0 before any total is known. */
    function Progress(): (r: real)
      reads this
      ensures 0 <= processedChunks <= totalChunks ==> 0.0 <= r <= 1.0
      ensures totalChunks > 0 ==> (r == 1.0 <==> processedChunks == totalChunks)
      ensures if totalChunks == 0 then r == 0.0 else r * totalChunks as real == processedChunks as real
    {
      if totalChunks == 0 then 0.0 else processedChunks as real / totalChunks as real
    }
  }

  /** A status history: each move starts where the last one ended. */
  ghost predicate Walk(moves: seq<Move>, first: JobStatus, last: JobStatus) {
    if moves == [] then first == last
    else
      && moves[0].source == first && moves[|moves| - 1].target == last
      && forall i :: 0 < i < |moves| ==> moves[i - 1].target == moves[i].source
  }

  const LATE_FAILURE := Move(Completed, Failed)

  /** Every change is an edge of the table, except that a completed job may fail. */
  ghost predicate LegalMoves(moves: seq<Move>) {
    forall i :: 0 <= i < |moves| ==>
      || moves[i].source == moves[i].target
      || moves[i].target in Transitions(moves[i].source)
      || (moves[i].source == Completed && moves[i].target == Failed)
  }

  /** Progress reports for one total: never falling, never above the total, the last at `processed`. */
  ghost predicate Tracked(reports: seq<Report>, processed: int, total: int) {
    && 0 <= processed <= total
    && (forall i :: 0 <= i < |reports| ==> reports[i].total == total && 0 <= reports[i].processed <= processed)
    && (forall i, j :: 0 <= i < j < |reports| ==> reports[i].processed <= reports[j].processed)
    && (reports != [] ==> reports[|reports| - 1].processed == processed)
  }

  lemma {:induction false} TrackedAppend(reports: seq<Report>, processed: int, more: int, total: int)
    requires Tracked(reports, processed, total) && processed <= more <= total
    ensures Tracked(reports + [Report(more, total)], more, total)
  {}

  lemma {:induction false} MovesAppend(moves: seq<Move>, first: JobStatus, last: JobStatus, target: JobStatus)
    requires Walk(moves, first, last) && LegalMoves(moves)
    requires last == target || target in Transitions(last) || Move(last, target) == LATE_FAILURE
    ensures Walk(moves + [Move(last, target)], first, target) && LegalMoves(moves + [Move(last, target)])
  {}

  datatype DocStatus = DocPending | DocProcessing | DocCompleted | DocFailed

  /** A document as the repository stores it. */
  datatype DocRecord = DocRecord(
    title: string, collection: string, content: string,
    status: DocStatus, chunkCount: int, tokenCount: int, error: Option<string>)

  class Document {
    const title: string
    const collection: string
    const content: string
    var status: DocStatus
    var chunkCount: int
    var tokenCount: int
    var error: Option<string>

    constructor (r: DocRecord)
      ensures Snapshot() == r
    {
      title, collection, content := r.title, r.collection, r.content;
      status, chunkCount, tokenCount, error := r.status, r.chunkCount, r.tokenCount, r.error;
    }

    function Snapshot(): DocRecord
      reads this
    {
      DocRecord(title, collection, content, status, chunkCount, tokenCount, error)
    }

    method MarkCompleted(chunks: int, tokens: int)
      modifies this
      ensures Snapshot() == old(Snapshot()).(status := DocCompleted, chunkCount := chunks,
                                             tokenCount := tokens, error := None)
    {
      status, chunkCount, tokenCount, error := DocCompleted, chunks, tokens, None;
    }

    method MarkFailed(message: string)
      modifies this
      ensures Snapshot() == old(Snapshot()).(status := DocFailed, error := Some(message))
    {
      status, error := DocFailed, Some(message);
    }
  }
}
