/** `RAGSystem`: an in-memory store of one chunked, weighted document per session, and
    retrieval of the chunks most similar to a query. */
module Rag {
  import opened Text
  import opened Natural
  import opened Chunker
  import opened Tfidf
  import opened Query
  import opened Ranker

  datatype Option<T> = None | Some(value: T)

  /** A value, or the message of the `Error` the source throws. */
  datatype Result<T> = Success(value: T) | Failure(error: string)

  /** What `storeDocument` keeps for a session. */
  datatype DocumentRecord = DocumentRecord(
    chunks: seq<Chunk>,
    tfidfScores: seq<WeightTable>,
    filename: string,
    processedAt: string,
    chunkCount: nat)

  /** What `getDocumentInfo` reports. */
  datatype DocumentInfo = DocumentInfo(filename: string, chunkCount: nat, processedAt: string)

  /** One entry of the `context` `retrieveContext` returns. */
  datatype Passage = Passage(text: string, similarity: real, start: int, end: int)

  /** What `retrieveContext` returns. */
  datatype Retrieval = Retrieval(
    context: seq<Passage>,
    totalChunks: nat,
    relevantChunks: nat,
    filename: string)

  const NoDocument: string := "No document found for this session"

  /** One weight table per chunk, and the recorded count is the number of chunks. */
  predicate Consistent(record: DocumentRecord) {
    |record.tfidfScores| == |record.chunks| == record.chunkCount
  }

  /** `relevantChunks.map(item => ({ text, similarity, start, end }))`. */
  function Passages(ranked: seq<Scored>): seq<Passage> {
    seq(|ranked|, i requires 0 <= i < |ranked| =>
      Passage(ranked[i].chunk.text, ranked[i].similarity, ranked[i].chunk.start, ranked[i].chunk.end))
  }

  class RagSystem {
    /** `this.documents`: the record of each session that stored a document. */
    var documents: map<string, DocumentRecord>
    const chunkSize: int
    const chunkOverlap: int
    /** The `natural` library calls the engine makes. */
    const tools: Toolkit

    ghost predicate Valid()
      reads this
    {
      && Progressing(chunkSize, chunkOverlap)
      && forall s :: s in documents ==> Consistent(documents[s])
    }

    /** An empty store with chunks of 1000 characters overlapping by 200. */
    constructor(tools: Toolkit)
      ensures Valid()
      ensures documents == map[]
      ensures chunkSize == DefaultChunkSize && chunkOverlap == DefaultOverlap
      ensures this.tools == tools
    {
      documents := map[];
      chunkSize := DefaultChunkSize;
      chunkOverlap := DefaultOverlap;
      this.tools := tools;
    }

    /** `storeDocument(sessionId, text, filename)`: chunk and weigh the text, and store
        (or replace) the session's record. Returns the number of chunks, which is also
        the stored `chunkCount`; every other session keeps its record. */
    method StoreDocument(sessionId: string, text: string, filename: string, processedAt: string)
      returns (count: nat)
      requires Valid()
      modifies this
      ensures Valid()
      ensures count == |Chunks(text, chunkSize, chunkOverlap)|
      ensures |Trim(text)| <= MinChunkText ==> count == 0
      ensures sessionId in documents
      ensures documents[sessionId] == DocumentRecord(
        Chunks(text, chunkSize, chunkOverlap),
        WeightTables(Chunks(text, chunkSize, chunkOverlap), tools),
        filename, processedAt, count)
      ensures forall s :: s != sessionId ==>
        (s in documents <==> s in old(documents)) && (s in documents ==> documents[s] == old(documents)[s])
    {
      var chunks := ChunkText(text, chunkSize, chunkOverlap);
      var tfidfScores := CalculateTfidf(chunks, tools);
      documents := documents[sessionId := DocumentRecord(chunks, tfidfScores, filename, processedAt, |chunks|)];
      count := |chunks|;
      if |Trim(text)| <= MinChunkText {
        ShortTextHasNoChunks(text, chunkSize, chunkOverlap, 0);
      }
    }

    /** `retrieveContext(sessionId, query, topK)`: throws when the session has no
        document; otherwise the passages of the document's chunks ranked against the
        query, at most `topK` of them (for `topK >= 0`), each with a positive
        similarity, highest first. The store is left as it is. */
    method RetrieveContext(sessionId: string, query: string, topK: int) returns (r: Result<Retrieval>)
      requires Valid()
      ensures r.Failure? <==> sessionId !in documents
      ensures r.Failure? ==> r.error == NoDocument
      ensures r.Success? ==>
        && sessionId in documents
        && r.value.context == Passages(Rank(Similarities(documents[sessionId].chunks,
             documents[sessionId].tfidfScores, QueryOf(query, tools)), topK))
        && r.value.totalChunks == |documents[sessionId].chunks|
        && r.value.relevantChunks == |r.value.context| <= |documents[sessionId].chunks|
        && (0 <= topK ==> r.value.relevantChunks <= topK)
        && r.value.filename == documents[sessionId].filename
        && (forall i :: 0 <= i < |r.value.context| ==> r.value.context[i].similarity > 0.0)
        && (forall i, j :: 0 <= i < j < |r.value.context| ==>
              r.value.context[i].similarity >= r.value.context[j].similarity)
    {
      if sessionId !in documents {
        return Failure(NoDocument);
      }
      var docData := documents[sessionId];
      var relevantChunks := FindRelevantChunks(query, docData.chunks, docData.tfidfScores, topK, tools);
      var context := Passages(relevantChunks);
      forall i | 0 <= i < |context| ensures context[i].similarity > 0.0 {
        assert relevantChunks[i] in relevantChunks;
      }
      r := Success(Retrieval(context, |docData.chunks|, |relevantChunks|, docData.filename));
    }

    /** `clearDocument(sessionId)`: forget the session's record, if any. Clearing an
        absent session changes nothing; afterwards there is no record to report. */
    method ClearDocument(sessionId: string)
      requires Valid()
      modifies this
      ensures Valid()
      ensures documents == old(documents) - {sessionId}
      ensures sessionId !in old(documents) ==> documents == old(documents)
      ensures GetDocumentInfo(sessionId) == None
    {
      documents := documents - {sessionId};
    }

    /** `getDocumentInfo(sessionId)`: `null` for a session with no record, and otherwise
        the stored file name, chunk count and processing time. */
    function GetDocumentInfo(sessionId: string): (info: Option<DocumentInfo>)
      reads this
      ensures info.None? <==> sessionId !in documents
      ensures info.Some? ==>
        && info.value.filename == documents[sessionId].filename
        && info.value.chunkCount == documents[sessionId].chunkCount
        && info.value.processedAt == documents[sessionId].processedAt
    {
      if sessionId !in documents then None
      else
        var docData := documents[sessionId];
        Some(DocumentInfo(docData.filename, docData.chunkCount, docData.processedAt))
    }
  }
}
