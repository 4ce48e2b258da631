/**
 * The embedding handler (src/app/api/generate-embeddings/route.js:13-159): the resume filter,
 * the batch, document and chunk loops that call the embedding provider, and the records they
 * produce.
 */
module Embeddings {
  import opened Wrappers
  import opened Seqs
  import opened Strings
  import opened Upload
  import opened Chunking

  /** The metadata of a record: the document's metadata with the three chunk fields added (lines 97-102). */
  datatype RecordMetadata = RecordMetadata(document: Metadata, isChunk: bool, chunkIndex: nat, totalChunks: nat)

  /** One stored embedding record. */
  datatype EmbeddingRecord = EmbeddingRecord(id: string, content: string, metadata: RecordMetadata, embedding: seq<real>)

  /**
   * The embedding provider, as seen by the handler: the `n`-th call (counting from 0, failed
   * calls included) with text `t` either returns a vector or throws.
   */
  type Embedder = (nat, string) -> Option<seq<real>>

  const BatchSize: nat := 5

  /** Line 95: a chunk of a document cut into several chunks gets `id_chunk_k`, the only chunk keeps the document id. */
  function ChunkId(docId: string, k: nat, n: nat): (id: string)
    ensures n > 1 ==> |id| > |docId|
    ensures n <= 1 ==> id == docId
  {
    if n > 1 then docId + "_chunk_" + DecimalString(k) else docId
  }

  /** The record for chunk `k` of `n` of `doc`. */
  function ChunkRecord(doc: Document, chunk: string, k: nat, n: nat, embedding: seq<real>): EmbeddingRecord {
    EmbeddingRecord(ChunkId(doc.id, k, n), chunk, RecordMetadata(doc.metadata, n > 1, k, n), embedding)
  }

  /**
   * The records for chunks `k` onward of `doc`, with the call counter at `calls` before the first
   * call: one record per successful call, stopping at the first failure (the `catch` of lines
   * 117-122). Also returns the counter after the last call.
   */
  function EmbedChunks(doc: Document, chunks: seq<string>, k: nat, calls: nat, embed: Embedder): (r: (seq<EmbeddingRecord>, nat))
    requires k <= |chunks|
    ensures |r.0| <= |chunks| - k && r.1 >= calls
    decreases |chunks| - k
  {
    if k == |chunks| then ([], calls)
    else
      match embed(calls, chunks[k])
      case None => ([], calls + 1)
      case Some(v) =>
        var rest := EmbedChunks(doc, chunks, k + 1, calls + 1, embed);
        ([ChunkRecord(doc, chunks[k], k, |chunks|, v)] + rest.0, rest.1)
  }

  /** The records of one document. */
  function EmbedDocument(doc: Document, calls: nat, embed: Embedder): (seq<EmbeddingRecord>, nat) {
    EmbedChunks(doc, Chunks(doc.content, MaxChunkSize), 0, calls, embed)
  }

  /** The records of `docs`, document after document, as if there were no batches. */
  function EmbedDocuments(docs: seq<Document>, calls: nat, embed: Embedder): (seq<EmbeddingRecord>, nat) {
    if docs == [] then ([], calls)
    else
      var first := EmbedDocument(docs[0], calls, embed);
      var rest := EmbedDocuments(docs[1..], first.1, embed);
      (first.0 + rest.0, rest.1)
  }

  function Ids(records: seq<EmbeddingRecord>): set<string> {
    set r | r in records :: r.id
  }

  /** Lines 51-54: the documents whose id is not among the stored records' ids, in order. */
  function ToProcess(docs: seq<Document>, existing: seq<EmbeddingRecord>): (r: seq<Document>)
    ensures |r| <= |docs|
  {
    if docs == [] then []
    else
      var init := ToProcess(docs[..|docs| - 1], existing);
      var last := docs[|docs| - 1];
      if last.id in Ids(existing) then init else init + [last]
  }

  datatype Saved = Saved(embeddingsGenerated: nat, allEmbeddings: seq<EmbeddingRecord>)

  /** The handler's refusals: status 400 without a session id, 404 without the documents artifact. */
  datatype EmbeddingError = SessionIdRequired | DocumentsNotFound

  /**
   * The embedding handler. `documents` is the session's documents artifact (`None` when it does
   * not exist) and `existing` the records saved by an earlier run (empty when there are none).
   */
  method GenerateEmbeddings(sessionId: string, documents: Option<seq<Document>>, existing: seq<EmbeddingRecord>, embed: Embedder)
    returns (r: Result<Saved, EmbeddingError>)
    ensures sessionId == "" <==> r == Err(SessionIdRequired)
    ensures sessionId != "" && documents.None? <==> r == Err(DocumentsNotFound)
    ensures sessionId != "" && documents.Some? ==>
      var added := EmbedDocuments(ToProcess(documents.value, existing), 0, embed).0;
      r == Ok(Saved(|added|, existing + added))
  {
    if sessionId == "" {
      return Err(SessionIdRequired);
    }
    if documents.None? {
      return Err(DocumentsNotFound);
    }
    var documentsToProcess := ToProcess(documents.value, existing);
    var newEmbeddings := EmbedAll(documentsToProcess, embed);
    var allEmbeddings := existing + newEmbeddings;
    return Ok(Saved(|newEmbeddings|, allEmbeddings));
  }

  /** Lines 68-127: batches of five documents, each document's chunks in turn. */
  method EmbedAll(documentsToProcess: seq<Document>, embed: Embedder) returns (newEmbeddings: seq<EmbeddingRecord>)
    ensures newEmbeddings == EmbedDocuments(documentsToProcess, 0, embed).0
  {
    newEmbeddings := [];
    var calls := 0;
    var i := 0;
    while i < |documentsToProcess|
      invariant i <= |documentsToProcess|
      invariant EmbedDocuments(documentsToProcess[..i], 0, embed) == (newEmbeddings, calls)
      decreases |documentsToProcess| - i
    {
      var end := if i + BatchSize <= |documentsToProcess| then i + BatchSize else |documentsToProcess|;
      var batch := documentsToProcess[i..end];
      var batchRecords, after := EmbedBatch(batch, calls, embed);
      EmbedDocumentsAppend(documentsToProcess[..i], batch, 0, embed);
      assert documentsToProcess[..i] + batch == documentsToProcess[..end];
      newEmbeddings := newEmbeddings + batchRecords;
      calls := after;
      i := end;
    }
    assert documentsToProcess[..i] == documentsToProcess;
  }

  /** Lines 76-124: the documents of one batch in turn, the call counter carried from one to the next. */
  method EmbedBatch(batch: seq<Document>, calls0: nat, embed: Embedder) returns (records: seq<EmbeddingRecord>, calls: nat)
    ensures (records, calls) == EmbedDocuments(batch, calls0, embed)
  {
    records := [];
    calls := calls0;
    for j := 0 to |batch|
      invariant EmbedDocuments(batch[..j], calls0, embed) == (records, calls)
    {
      var docRecords, after := EmbedOneDocument(batch[j], calls, embed);
      EmbedDocumentsAppend(batch[..j], [batch[j]], calls0, embed);
      OneDocument(batch[j], calls, embed);
      assert batch[..j] + [batch[j]] == batch[..j + 1];
      records := records + docRecords;
      calls := after;
    }
    assert batch[..|batch|] == batch;
  }

  /**
   * The body of the document loop, lines 78-122: the document is chunked and each chunk embedded
   * in turn; the first failing call ends the document, keeping the records made so far.
   */
  method EmbedOneDocument(doc: Document, calls0: nat, embed: Embedder) returns (docRecords: seq<EmbeddingRecord>, calls: nat)
    ensures (docRecords, calls) == EmbedDocument(doc, calls0, embed)
  {
    var chunks := ChunkDocument(doc.content, MaxChunkSize);
    var target := EmbedChunks(doc, chunks, 0, calls0, embed);
    docRecords := [];
    calls := calls0;
    for chunkIndex := 0 to |chunks|
      invariant docRecords + EmbedChunks(doc, chunks, chunkIndex, calls, embed).0 == target.0
      invariant EmbedChunks(doc, chunks, chunkIndex, calls, embed).1 == target.1
    {
      var result := embed(calls, chunks[chunkIndex]);
      calls := calls + 1;
      if result.None? {
        assert docRecords == target.0 && calls == target.1;
        break;
      }
      docRecords := docRecords + [ChunkRecord(doc, chunks[chunkIndex], chunkIndex, |chunks|, result.value)];
    }
    assert docRecords == target.0 && calls == target.1;
  }

  // ---------------------------------------------------------------------------------------
  // Properties

  /**
   * The records of chunks `k` onward are the chunk records of a prefix of them, each carrying the
   * vector of its own call; the prefix ends at the first failing call, after which that call is
   * the last one made.
   */
  lemma {:induction false} EmbedChunksIsPrefix(doc: Document, chunks: seq<string>, k: nat, calls: nat, embed: Embedder)
    requires k <= |chunks|
    ensures var recs := EmbedChunks(doc, chunks, k, calls, embed).0;
      forall j: nat :: j < |recs| ==> MadeByCall(doc, chunks, k, calls, embed, recs, j)
    ensures var r := EmbedChunks(doc, chunks, k, calls, embed);
      (k + |r.0| < |chunks| ==> embed(calls + |r.0|, chunks[k + |r.0|]).None? && r.1 == calls + |r.0| + 1) &&
      (k + |r.0| == |chunks| ==> r.1 == calls + |r.0|)
    decreases |chunks| - k
  {
    if k < |chunks| && embed(calls, chunks[k]).Some? {
      EmbedChunksIsPrefix(doc, chunks, k + 1, calls + 1, embed);
      var v := embed(calls, chunks[k]).value;
      var rest := EmbedChunks(doc, chunks, k + 1, calls + 1, embed);
      var recs := EmbedChunks(doc, chunks, k, calls, embed).0;
      assert recs == [ChunkRecord(doc, chunks[k], k, |chunks|, v)] + rest.0;
      assert EmbedChunks(doc, chunks, k, calls, embed).1 == rest.1;
      assert k + |recs| == k + 1 + |rest.0| && calls + |recs| == calls + 1 + |rest.0|;
      forall j: nat | j < |recs|
        ensures MadeByCall(doc, chunks, k, calls, embed, recs, j)
      {
        if j > 0 {
          assert MadeByCall(doc, chunks, k + 1, calls + 1, embed, rest.0, j - 1);
          assert recs[j] == rest.0[j - 1];
        }
      }
    } else if k < |chunks| {
      assert EmbedChunks(doc, chunks, k, calls, embed) == ([], calls + 1);
    } else {
      assert EmbedChunks(doc, chunks, k, calls, embed) == ([], calls);
    }
  }

  /** Record `j` of `recs` is the record of chunk `k + j`, made from the vector returned by call `calls + j`. */
  predicate MadeByCall(doc: Document, chunks: seq<string>, k: nat, calls: nat, embed: Embedder, recs: seq<EmbeddingRecord>, j: nat) {
    j < |recs| && k + j < |chunks| && embed(calls + j, chunks[k + j]).Some? &&
    recs[j] == ChunkRecord(doc, chunks[k + j], k + j, |chunks|, embed(calls + j, chunks[k + j]).value)
  }

  /**
   * Record `k` of a document cut into `n` chunks: id `id_chunk_k` when `n > 1`, else the document
   * id; content chunk `k`; metadata the document's with `isChunk = n > 1`, `chunkIndex = k` and
   * `totalChunks = n`. When every call succeeds there is one record per chunk.
   */
  lemma DocumentRecords(doc: Document, calls: nat, embed: Embedder)
    ensures var chunks := Chunks(doc.content, MaxChunkSize);
      var recs := EmbedDocument(doc, calls, embed).0;
      |recs| <= |chunks| &&
      (forall k :: 0 <= k < |recs| ==>
        recs[k].id == (if |chunks| > 1 then doc.id + "_chunk_" + DecimalString(k) else doc.id) &&
        recs[k].content == chunks[k] &&
        recs[k].metadata == RecordMetadata(doc.metadata, |chunks| > 1, k, |chunks|) &&
        Some(recs[k].embedding) == embed(calls + k, chunks[k])) &&
      ((forall j :: 0 <= j < |chunks| ==> embed(calls + j, chunks[j]).Some?) ==> |recs| == |chunks|)
  {
    var chunks := Chunks(doc.content, MaxChunkSize);
    var recs := EmbedDocument(doc, calls, embed).0;
    EmbedChunksIsPrefix(doc, chunks, 0, calls, embed);
    forall k | 0 <= k < |recs|
      ensures recs[k].id == (if |chunks| > 1 then doc.id + "_chunk_" + DecimalString(k) else doc.id)
      ensures recs[k].content == chunks[k]
      ensures recs[k].metadata == RecordMetadata(doc.metadata, |chunks| > 1, k, |chunks|)
      ensures Some(recs[k].embedding) == embed(calls + k, chunks[k])
    {
      assert MadeByCall(doc, chunks, 0, calls, embed, recs, k);
    }
  }

  /** An embedder whose calls all succeed. */
  ghost predicate AlwaysEmbeds(embed: Embedder) {
    forall n, t :: embed(n, t).Some?
  }

  /** The documents to process are exactly those whose id is not stored yet. */
  lemma {:induction false} ToProcessKeepsUnstored(docs: seq<Document>, existing: seq<EmbeddingRecord>, d: Document)
    ensures d in ToProcess(docs, existing) <==> d in docs && d.id !in Ids(existing)
  {
    if docs != [] {
      ToProcessKeepsUnstored(docs[..|docs| - 1], existing, d);
      assert docs == docs[..|docs| - 1] + [docs[|docs| - 1]];
    }
  }

  /** The filter keeps the documents' order. */
  lemma {:induction false} ToProcessAppend(a: seq<Document>, b: seq<Document>, existing: seq<EmbeddingRecord>)
    ensures ToProcess(a + b, existing) == ToProcess(a, existing) + ToProcess(b, existing)
  {
    if b != [] {
      ToProcessAppend(a, b[..|b| - 1], existing);
      assert (a + b)[..|a + b| - 1] == a + b[..|b| - 1];
    } else {
      assert a + b == a;
    }
  }

  /**
   * The documents are embedded one after another whatever happens to the earlier ones: a failure
   * inside one document (see `DocumentRecords`) does not stop the documents after it.
   */
  lemma {:induction false} EmbedDocumentsAppend(a: seq<Document>, b: seq<Document>, calls: nat, embed: Embedder)
    ensures var first := EmbedDocuments(a, calls, embed);
      EmbedDocuments(a + b, calls, embed) == (first.0 + EmbedDocuments(b, first.1, embed).0, EmbedDocuments(b, first.1, embed).1)
  {
    if a == [] {
      assert a + b == b;
      assert EmbedDocuments(a, calls, embed) == ([], calls);
      assert [] + EmbedDocuments(b, calls, embed).0 == EmbedDocuments(b, calls, embed).0;
    } else {
      var d := EmbedDocument(a[0], calls, embed);
      EmbedDocumentsAppend(a[1..], b, d.1, embed);
      EmbedDocumentsCons(a, b, calls, embed);
      var restA := EmbedDocuments(a[1..], d.1, embed);
      var restB := EmbedDocuments(b, restA.1, embed);
      AppendAssociative(d.0, restA.0, restB.0);
    }
  }

  lemma EmbedDocumentsCons(a: seq<Document>, b: seq<Document>, calls: nat, embed: Embedder)
    requires a != []
    ensures var d := EmbedDocument(a[0], calls, embed);
      EmbedDocuments(a + b, calls, embed).0 == d.0 + EmbedDocuments(a[1..] + b, d.1, embed).0 &&
      EmbedDocuments(a + b, calls, embed).1 == EmbedDocuments(a[1..] + b, d.1, embed).1 &&
      EmbedDocuments(a, calls, embed).0 == d.0 + EmbedDocuments(a[1..], d.1, embed).0 &&
      EmbedDocuments(a, calls, embed).1 == EmbedDocuments(a[1..], d.1, embed).1
  {
    assert (a + b)[0] == a[0] && (a + b)[1..] == a[1..] + b;
  }

  lemma OneDocument(doc: Document, calls: nat, embed: Embedder)
    ensures EmbedDocuments([doc], calls, embed) == EmbedDocument(doc, calls, embed)
  {
    assert [doc][1..] == [];
    assert EmbedDocument(doc, calls, embed).0 + [] == EmbedDocument(doc, calls, embed).0;
  }

  /** A single document that is not stored yet is processed on its own. */
  lemma RunOfUnstoredDocument(doc: Document, existing: seq<EmbeddingRecord>, embed: Embedder)
    requires doc.id !in Ids(existing)
    ensures EmbedDocuments(ToProcess([doc], existing), 0, embed).0 == EmbedDocument(doc, 0, embed).0
  {
    assert [doc][..0] == [];
    assert ToProcess([doc], existing) == [doc];
    OneDocument(doc, 0, embed);
  }

  /** No record of a document cut into several chunks carries the document's own id. */
  lemma ChunkRecordsLackDocumentId(doc: Document, embed: Embedder)
    requires |Chunks(doc.content, MaxChunkSize)| > 1
    ensures doc.id !in Ids(EmbedDocument(doc, 0, embed).0)
  {
    var recs := EmbedDocument(doc, 0, embed).0;
    DocumentRecords(doc, 0, embed);
    forall r | r in recs ensures r.id != doc.id {
      var k :| 0 <= k < |recs| && recs[k] == r;
      assert |r.id| > |doc.id|;
    }
  }

  /**
   * A document longer than one chunk is never recognised as done: its records carry the ids
   * `id_chunk_k`, never the document id, so running the handler again embeds it again and
   * appends a second copy of every record.
   */
  lemma RerunDuplicatesChunkedDocument(doc: Document, embed: Embedder)
    requires |doc.content| > MaxChunkSize && AlwaysEmbeds(embed)
    ensures var first := EmbedDocuments(ToProcess([doc], []), 0, embed).0;
      var second := EmbedDocuments(ToProcess([doc], first), 0, embed).0;
      |first| >= 2 && second == first
  {
    var chunks := Chunks(doc.content, MaxChunkSize);
    assert |chunks| >= 2;
    RunOfUnstoredDocument(doc, [], embed);
    DocumentRecords(doc, 0, embed);
    var first := EmbedDocument(doc, 0, embed).0;
    ChunkRecordsLackDocumentId(doc, embed);
    RunOfUnstoredDocument(doc, first, embed);
  }

  /** A document that fits in one chunk is stored under its own id and skipped when the handler runs again. */
  lemma RerunSkipsUnchunkedDocument(doc: Document, embed: Embedder)
    requires |doc.content| <= MaxChunkSize && AlwaysEmbeds(embed)
    ensures var first := EmbedDocuments(ToProcess([doc], []), 0, embed).0;
      |first| == 1 && first[0].id == doc.id && ToProcess([doc], first) == []
  {
    ToProcessKeepsUnstored([doc], [], doc);
    assert ToProcess([doc], []) == [doc];
    OneDocument(doc, 0, embed);
    var first := EmbedDocument(doc, 0, embed).0;
    DocumentRecords(doc, 0, embed);
    assert doc.id in Ids(first) by {
      assert first[0] in first;
    }
    assert [doc][..0] == [];
  }
}
