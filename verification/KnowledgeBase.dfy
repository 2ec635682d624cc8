/**
 The knowledge base: document rows are the truth, the vector index is derived from them over its own
 connection. Extraction and splitting are a fixed function of a document's content.
 */
module KnowledgeBase {
  import opened Strings

  type Id = nat
  type ChunkId = (Id, nat)

  datatype Row = Row(content: string, chunkCount: nat, model: string)

  /** A stored chunk and the model that embedded it. */
  datatype Chunk = Chunk(text: string, model: string)

  datatype Kb = Kb(rows: map<Id, Row>, index: map<ChunkId, Chunk>)

  /** A text that is not blank splits into at least one chunk. */
  type Chunks = s: seq<string> | s != [] witness [""]

  /** Extracting a content's text and splitting it; None when the type is unsupported, the file
      unreadable, or the text blank. */
  type Chunker = string -> Option<Chunks>

  // ---------- What indexing writes ----------

  /** The index with the first n chunks of document d written. */
  function Written(index: map<ChunkId, Chunk>, d: Id, chunks: seq<string>, n: nat, model: string): map<ChunkId, Chunk>
    requires n <= |chunks|
  {
    if n == 0 then index
    else
      var last: nat := n - 1;
      Written(index, d, chunks, last, model)[(d, last) := Chunk(chunks[last], model)]
  }

  lemma {:induction false} WrittenLooksUp(index: map<ChunkId, Chunk>, d: Id, chunks: seq<string>, n: nat, model: string)
    requires n <= |chunks|
    ensures var after := Written(index, d, chunks, n, model);
      && (forall k: ChunkId :: k in after <==> k in index || (k.0 == d && k.1 < n))
      && (forall k: ChunkId :: k in after ==>
          after[k] == if k.0 == d && k.1 < n then Chunk(chunks[k.1], model) else index[k])
  {
    if n == 0 {
    } else {
      WrittenLooksUp(index, d, chunks, n - 1, model);
    }
  }

  /** The index without the first n chunks of document d. */
  function Removed(index: map<ChunkId, Chunk>, d: Id, n: nat): map<ChunkId, Chunk> {
    map k: ChunkId | k in index && !(k.0 == d && k.1 < n) :: index[k]
  }

  // ---------- Operations ----------

  ghost predicate Known(rows: map<Id, Row>, content: string) {
    exists d :: d in rows && rows[d].content == content
  }

  /** An upload that was indexed whole, or one that failed after some chunks and rolled its row back. */
  ghost function Upload(kb: Kb, chunk: Chunker, d: Id, content: string, model: string, failedAt: Option<nat>): Kb {
    if Known(kb.rows, content) || chunk(content).None? then kb
    else
      var chunks := chunk(content).value;
      if failedAt.Some? && failedAt.value <= |chunks| then
        kb.(index := Written(kb.index, d, chunks, failedAt.value, model))
      else
        Kb(kb.rows[d := Row(content, |chunks|, model)], Written(kb.index, d, chunks, |chunks|, model))
  }

  function Delete(kb: Kb, d: Id): Kb {
    if d !in kb.rows then kb
    else Kb(kb.rows - {d}, Removed(kb.index, d, kb.rows[d].chunkCount))
  }

  /** The index holds every chunk of the row, as its model embedded it. */
  ghost predicate Indexed(index: map<ChunkId, Chunk>, d: Id, row: Row, chunk: Chunker) {
    && chunk(row.content).Some? && row.chunkCount == |chunk(row.content).value|
    && forall i: nat :: i < row.chunkCount ==>
         (d, i) in index && index[(d, i)] == Chunk(chunk(row.content).value[i], row.model)
  }

  ghost predicate AllIndexed(kb: Kb, chunk: Chunker) {
    forall d :: d in kb.rows ==> Indexed(kb.index, d, kb.rows[d], chunk)
  }

  ghost predicate NoOrphans(kb: Kb) {
    forall k: ChunkId :: k in kb.index ==> k.0 in kb.rows && k.1 < kb.rows[k.0].chunkCount
  }

  ghost predicate ContentsDiffer(rows: map<Id, Row>) {
    forall d, e :: d in rows && e in rows && rows[d].content == rows[e].content ==> d == e
  }

  ghost predicate Invariant(kb: Kb, chunk: Chunker) {
    AllIndexed(kb, chunk) && ContentsDiffer(kb.rows)
  }

  ghost predicate NeedsReindex(rows: map<Id, Row>, model: string) {
    exists d :: d in rows && rows[d].model != model
  }

  /** Rebuilt from the rows of these documents, all with this model. */
  ghost predicate Rebuilt(before: Kb, after: Kb, chunk: Chunker, model: string, done: set<Id>) {
    && after.rows.Keys == before.rows.Keys
    && (forall d :: d in before.rows ==> after.rows[d].content == before.rows[d].content)
    && (forall d :: d in done ==>
        d in after.rows && Indexed(after.index, d, after.rows[d], chunk) && after.rows[d].model == model)
    && (forall k: ChunkId :: k in after.index ==> k.0 in done && k.0 in after.rows && k.1 < after.rows[k.0].chunkCount)
    && (forall d :: d in before.rows && d !in done ==> after.rows[d] == before.rows[d])
  }

  // ---------- Each operation keeps the index in agreement ----------

  lemma OthersStayIndexed(index: map<ChunkId, Chunk>, d: Id, chunks: seq<string>, n: nat, model: string,
                          e: Id, row: Row, chunk: Chunker)
    requires n <= |chunks| && e != d && Indexed(index, e, row, chunk)
    ensures Indexed(Written(index, d, chunks, n, model), e, row, chunk)
  {
    WrittenLooksUp(index, d, chunks, n, model);
    hide Written;
  }

  lemma WrittenIsIndexed(index: map<ChunkId, Chunk>, d: Id, row: Row, chunk: Chunker)
    requires chunk(row.content).Some? && row.chunkCount == |chunk(row.content).value|
    ensures Indexed(Written(index, d, chunk(row.content).value, row.chunkCount, row.model), d, row, chunk)
  {
    WrittenLooksUp(index, d, chunk(row.content).value, row.chunkCount, row.model);
    hide Written;
  }

  lemma UploadKeepsInvariant(kb: Kb, chunk: Chunker, d: Id, content: string, model: string, failedAt: Option<nat>)
    requires Invariant(kb, chunk) && d !in kb.rows
    ensures Invariant(Upload(kb, chunk, d, content, model, failedAt), chunk)
  {
    hide Written, Indexed;
    if !Known(kb.rows, content) && chunk(content).Some? {
      var chunks := chunk(content).value;
      var n := if failedAt.Some? && failedAt.value <= |chunks| then failedAt.value else |chunks|;
      var after := Upload(kb, chunk, d, content, model, failedAt);
      forall e | e in kb.rows ensures Indexed(after.index, e, kb.rows[e], chunk) {
        OthersStayIndexed(kb.index, d, chunks, n, model, e, kb.rows[e], chunk);
      }
      WrittenIsIndexed(kb.index, d, Row(content, |chunks|, model), chunk);
    }
  }

  /** An upload is stored exactly if no stored document has its content, its text can be read and no
      batch failed: then there is a row with this content and model and all its chunks are in the index.
      Otherwise the rows are as before. Chunks of other documents are never touched. */
  lemma UploadStoresExactly(kb: Kb, chunk: Chunker, d: Id, content: string, model: string, failedAt: Option<nat>)
    requires d !in kb.rows
    requires failedAt.Some? && chunk(content).Some? ==> failedAt.value <= |chunk(content).value|
    ensures var u := Upload(kb, chunk, d, content, model, failedAt);
      var stored := (forall e :: e in kb.rows ==> kb.rows[e].content != content) && chunk(content).Some?
          && failedAt.None?;
      && u.rows == (if stored then kb.rows[d := Row(content, |chunk(content).value|, model)] else kb.rows)
      && (stored ==> forall i: nat :: i < |chunk(content).value| ==>
            (d, i) in u.index && u.index[(d, i)] == Chunk(chunk(content).value[i], model))
      && (forall k: ChunkId :: k.0 != d ==>
            (k in u.index <==> k in kb.index) && (k in kb.index ==> u.index[k] == kb.index[k]))
  {
    if !Known(kb.rows, content) && chunk(content).Some? {
      var chunks := chunk(content).value;
      WrittenLooksUp(kb.index, d, chunks, if failedAt.Some? then failedAt.value else |chunks|, model);
      hide Written;
    }
  }

  /** Deleting takes away the row and its chunks and nothing else. */
  lemma DeleteRemovesOnly(kb: Kb, d: Id)
    ensures var u := Delete(kb, d);
      && d !in u.rows
      && (forall e :: e != d ==> (e in u.rows <==> e in kb.rows) && (e in kb.rows ==> u.rows[e] == kb.rows[e]))
      && (forall k: ChunkId :: k in u.index ==> k in kb.index && u.index[k] == kb.index[k])
      && (forall k: ChunkId :: k in kb.index ==>
            (k !in u.index <==> d in kb.rows && k.0 == d && k.1 < kb.rows[d].chunkCount))
  {
  }

  lemma DeleteKeepsInvariant(kb: Kb, chunk: Chunker, d: Id)
    requires Invariant(kb, chunk)
    ensures Invariant(Delete(kb, d), chunk)
    ensures forall i: nat :: d in kb.rows && i < kb.rows[d].chunkCount ==> (d, i) !in Delete(kb, d).index
  {
  }

  /** A finished rebuild holds exactly the rows' chunks and needs no further one. */
  lemma RebuiltIsExact(before: Kb, after: Kb, chunk: Chunker, model: string)
    requires Rebuilt(before, after, chunk, model, before.rows.Keys)
    ensures AllIndexed(after, chunk) && NoOrphans(after) && !NeedsReindex(after.rows, model)
    ensures ContentsDiffer(before.rows) ==> ContentsDiffer(after.rows)
  {
  }

  lemma RebuildStep(before: Kb, kb: Kb, chunk: Chunker, model: string, done: set<Id>, d: Id)
    requires Rebuilt(before, kb, chunk, model, done) && d in kb.rows && d !in done && chunk(kb.rows[d].content).Some?
    ensures var chunks := chunk(kb.rows[d].content).value;
      var after := Kb(kb.rows[d := kb.rows[d].(chunkCount := |chunks|, model := model)],
                    Written(kb.index, d, chunks, |chunks|, model));
      Rebuilt(before, after, chunk, model, done + {d})
  {
    var chunks := chunk(kb.rows[d].content).value;
    WrittenLooksUp(kb.index, d, chunks, |chunks|, model);
    hide Written, Indexed;
    var after := Kb(kb.rows[d := kb.rows[d].(chunkCount := |chunks|, model := model)],
                  Written(kb.index, d, chunks, |chunks|, model));
    forall e | e in done ensures Indexed(after.index, e, after.rows[e], chunk) {
      OthersStayIndexed(kb.index, d, chunks, |chunks|, model, e, kb.rows[e], chunk);
    }
    WrittenIsIndexed(kb.index, d, after.rows[d], chunk);
  }

  /** Search refuses to run exactly while some document is indexed under another model. */
  lemma SearchSeesOneModel(kb: Kb, chunk: Chunker, model: string)
    requires Invariant(kb, chunk)
    ensures NeedsReindex(kb.rows, model) <==>
      exists k: ChunkId ::
          k in kb.index && k.0 in kb.rows && k.1 < kb.rows[k.0].chunkCount && kb.index[k].model != model
  {
    if NeedsReindex(kb.rows, model) {
      var d :| d in kb.rows && kb.rows[d].model != model;
      assert Indexed(kb.index, d, kb.rows[d], chunk);
      var first: ChunkId := (d, 0);
      assert first in kb.index && kb.index[first].model != model;
    }
    if k: ChunkId :| k in kb.index && k.0 in kb.rows && k.1 < kb.rows[k.0].chunkCount && kb.index[k].model != model {
      assert Indexed(kb.index, k.0, kb.rows[k.0], chunk);
      assert k == (k.0, k.1);
    }
  }

  // ---------- The index, batch by batch ----------

  const TARGET_PROGRESS_REPORTS := 20
  const EMBED_BATCH_CHUNKS := 64

  /** The least step, and at least one, that takes no more than twenty reports. */
  function ProgressStep(total: nat): (r: nat)
    ensures r >= 1 && r * 20 >= total && (r > 1 ==> (r - 1) * 20 < total)
  {
    var reports := (total + TARGET_PROGRESS_REPORTS - 1) / TARGET_PROGRESS_REPORTS;
    if reports > 1 then reports else 1
  }

  function BatchSize(total: nat): (r: nat)
    ensures 1 <= r <= 64 && (r == ProgressStep(total) || r == 64 < ProgressStep(total))
  {
    var step := ProgressStep(total);
    if step < EMBED_BATCH_CHUNKS then step else EMBED_BATCH_CHUNKS
  }

  /** The ids of chunks [from, until) of a document, in order. */
  function ChunkIds(d: Id, from: nat, until: nat): (r: seq<ChunkId>)
    requires from <= until
    ensures |r| == until - from && forall i :: 0 <= i < |r| ==> r[i] == (d, from + i)
  {
    seq(until - from, i requires 0 <= i < until - from => (d, from + i))
  }

  lemma NothingWritten(d: Id, index: map<ChunkId, Chunk>, texts: seq<string>, model: string)
    ensures Written(index, d, texts, 0, model) == index && ChunkIds(d, 0, 0) == []
  {
  }

  lemma IdsGoOn(d: Id, from: nat, until: nat)
    requires from <= until
    ensures ChunkIds(d, 0, from) + ChunkIds(d, from, until) == ChunkIds(d, 0, until)
  {
  }

  lemma OneBatchMore(done: nat, batch: nat)
    ensures (done + 1) * batch == done * batch + batch
  {
  }

  lemma AsManyBatches(done: nat, failing: nat, batch: nat)
    requires done <= failing
    ensures done * batch <= failing * batch
  {
  }

  /** The chunk table, written outside the document rows' transaction. */
  class VectorIndex {
    var chunks: map<ChunkId, Chunk>
    /** Every write, in order. */
    var writes: seq<ChunkId>

    /** Writes the chunks in batches; a failing batch leaves the earlier ones behind. Returns how many
        were written, and whether that is all of them. Each is written once, in order. */
    method IndexDocument(d: Id, texts: seq<string>, model: string, failingBatch: Option<nat>) returns (written: nat,
        ok: bool)
      modifies this
      ensures written <= |texts| && (ok ==> written == |texts|)
      ensures !ok <==> failingBatch.Some? && failingBatch.value * BatchSize(|texts|) < |texts|
      ensures !ok ==> written == failingBatch.value * BatchSize(|texts|)
      ensures chunks == Written(old(chunks), d, texts, written, model)
      ensures writes == old(writes) + ChunkIds(d, 0, written)
    {
      hide Written, ChunkIds, BatchSize;
      var total := |texts|;
      var batch := BatchSize(total);
      NothingWritten(d, chunks, texts, model);
      assert writes + ChunkIds(d, 0, 0) == writes;
      ghost var before := chunks;
      var start: nat, done: nat := 0, 0;
      while start < total
        invariant start <= total && chunks == Written(before, d, texts, start, model)
        invariant writes == old(writes) + ChunkIds(d, 0, start)
        invariant start == done * batch || start == total <= done * batch
        invariant failingBatch.Some? ==> done <= failingBatch.value
        decreases total - start
      {
        if failingBatch == Some(done) {
          return start, false;
        }
        var end: nat := if start + batch < total then start + batch else total;
        AddDocuments(d, texts, start, end, model, before);
        IdsGoOn(d, start, end);
        OneBatchMore(done, batch);
        start := end;
        done := done + 1;
      }
      if failingBatch.Some? { AsManyBatches(done, failingBatch.value, batch); }
      return total, true;
    }

    /** One batch. */
    method AddDocuments(d: Id, texts: seq<string>, from: nat, until: nat, model: string,
                        ghost before: map<ChunkId, Chunk>)
      requires from <= until <= |texts| && chunks == Written(before, d, texts, from, model)
      modifies this
      ensures chunks == Written(before, d, texts, until, model)
      ensures writes == old(writes) + ChunkIds(d, from, until)
    {
      var i: nat := from;
      while i < until
        invariant from <= i <= until && chunks == Written(before, d, texts, i, model)
        invariant writes == old(writes) + ChunkIds(d, from, until)[..i - from]
      {
        chunks := chunks[(d, i) := Chunk(texts[i], model)];
        writes := writes + [(d, i)];
        i := i + 1;
      }
    }

    method RemoveDocument(d: Id, count: nat)
      modifies this`chunks
      ensures chunks == Removed(old(chunks), d, count)
    {
      if count == 0 {
        assert Removed(chunks, d, 0) == chunks;
        return;
      }
      chunks := Removed(chunks, d, count);
    }

    method Reset()
      modifies this`chunks
      ensures chunks == map[]
    {
      chunks := map[];
    }
  }

  // ---------- The service ----------

  class DocumentStore {
    var rows: map<Id, Row>

    method FindByContent(content: string) returns (found: bool)
      ensures found <==> Known(rows, content)
    {
      var left := rows.Keys;
      while left != {}
        invariant left <= rows.Keys
        invariant forall d :: d in rows && d !in left ==> rows[d].content != content
        decreases |left|
      {
        var d :| d in left;
        left := left - {d};
        if rows[d].content == content {
          return true;
        }
      }
      return false;
    }
  }

  /** One upload in one transaction: the row first, then the index; a failure rolls the row back. */
  method UploadDocument(documents: DocumentStore, index: VectorIndex, chunk: Chunker, d: Id, content: string,
                        model: string, failingBatch: Option<nat>)
    returns (ok: bool, ghost failedAt: Option<nat>)
    modifies documents, index
    ensures Kb(documents.rows, index.chunks) ==
      Upload(old(Kb(documents.rows, index.chunks)), chunk, d, content, model, failedAt)
    ensures failingBatch.None? ==> failedAt.None?
    ensures ok <==> failedAt.None? && chunk(content).Some? && !Known(old(documents.rows), content)
    ensures failedAt.Some? ==> chunk(content).Some? && failedAt.value <= |chunk(content).value|
  {
    failedAt := None;
    var known := documents.FindByContent(content);
    var chunks := chunk(content);
    if known || chunks.None? {
      return false, None;
    }
    var before := documents.rows;
    documents.rows := documents.rows[d := Row(content, 0, model)];
    var written, indexed := index.IndexDocument(d, chunks.value, model, failingBatch);
    if !indexed {
      documents.rows := before;
      return false, Some(written);
    }
    documents.rows := documents.rows[d := Row(content, written, model)];
    return true, None;
  }

  /** Chunks first, then the row. */
  method DeleteDocument(documents: DocumentStore, index: VectorIndex, d: Id) returns (ok: bool)
    modifies documents, index
    ensures Kb(documents.rows, index.chunks) == old(Delete(Kb(documents.rows, index.chunks), d))
    ensures ok == (d in old(documents.rows))
  {
    if d !in documents.rows {
      return false;
    }
    index.RemoveDocument(d, documents.rows[d].chunkCount);
    documents.rows := documents.rows - {d};
    return true;
  }

  lemma NothingRebuiltYet(before: Kb, chunk: Chunker, model: string)
    ensures Rebuilt(before, Kb(before.rows, map[]), chunk, model, {})
  {
  }

  lemma RebuiltKeepsContents(before: Kb, after: Kb, chunk: Chunker, model: string, done: set<Id>)
    requires Rebuilt(before, after, chunk, model, done)
    ensures after.rows.Keys == before.rows.Keys && forall d :: d in before.rows ==>
        after.rows[d].content == before.rows[d].content
  {
  }

  /** Indexes one stored document afresh and notes it in its row. */
  method ReindexOne(documents: DocumentStore, index: VectorIndex, chunk: Chunker, model: string, d: Id,
                    ghost before: Kb, ghost done: set<Id>)
    requires d in documents.rows && d !in done && chunk(documents.rows[d].content).Some?
    requires Rebuilt(before, Kb(documents.rows, index.chunks), chunk, model, done)
    modifies documents, index
    ensures Rebuilt(before, Kb(documents.rows, index.chunks), chunk, model, done + {d})
  {
    hide Rebuilt, Written;
    var row := documents.rows[d];
    var chunks := chunk(row.content).value;
    RebuildStep(before, Kb(documents.rows, index.chunks), chunk, model, done, d);
    var written, ok := index.IndexDocument(d, chunks, model, None);
    documents.rows := documents.rows[d := row.(chunkCount := written, model := model)];
  }

  /** From any index whatever, a completed rebuild leaves exactly the chunks of the stored rows. */
  method Reindex(documents: DocumentStore, index: VectorIndex, chunk: Chunker, model: string)
    requires forall d :: d in documents.rows ==> chunk(documents.rows[d].content).Some?
    modifies documents, index
    ensures Rebuilt(old(Kb(documents.rows, index.chunks)), Kb(documents.rows, index.chunks), chunk, model,
                old(documents.rows.Keys))
    ensures var after := Kb(documents.rows, index.chunks);
      && AllIndexed(after, chunk) && NoOrphans(after) && !NeedsReindex(after.rows, model)
      && after.rows.Keys == old(documents.rows.Keys)
      && forall d :: d in after.rows ==> after.rows[d].content == old(documents.rows)[d].content
  {
    hide Rebuilt, Written, AllIndexed, NoOrphans, NeedsReindex, ContentsDiffer;
    ghost var before := Kb(documents.rows, index.chunks);
    index.Reset();
    NothingRebuiltYet(before, chunk, model);
    var left := documents.rows.Keys;
    ghost var done: set<Id> := {};
    while left != {}
      invariant left !! done && left + done == before.rows.Keys
      invariant Rebuilt(before, Kb(documents.rows, index.chunks), chunk, model, done)
      decreases |left|
    {
      var d :| d in left;
      left := left - {d};
      RebuiltKeepsContents(before, Kb(documents.rows, index.chunks), chunk, model, done);
      ReindexOne(documents, index, chunk, model, d, before, done);
      done := done + {d};
    }
    RebuiltIsExact(before, Kb(documents.rows, index.chunks), chunk, model);
    RebuiltKeepsContents(before, Kb(documents.rows, index.chunks), chunk, model, done);
  }

  // ---------- Every run ----------

  /** A broken step is a reindex or a delete whose index writes went through, in part or whole, and
      whose rows were rolled back. */
  datatype Step =
    | UploadStep(d: Id, content: string, model: string, failedAt: Option<nat>)
    | DeleteStep(d: Id)
    | ReindexStep(model: string)
    | BrokenStep

  ghost predicate StepTo(kb: Kb, step: Step, after: Kb, chunk: Chunker) {
    match step
    case UploadStep(d, content, model, failedAt) =>
      d !in kb.rows && after == Upload(kb, chunk, d, content, model, failedAt)
    case DeleteStep(d) => after == Delete(kb, d)
    case ReindexStep(model) => Rebuilt(kb, after, chunk, model, kb.rows.Keys)
    case BrokenStep => after.rows == kb.rows
  }

  ghost predicate IsRun(states: seq<Kb>, steps: seq<Step>, chunk: Chunker) {
    && |states| == |steps| + 1 && states[0] == Kb(map[], map[])
    && forall i :: 0 <= i < |steps| ==> StepTo(states[i], steps[i], states[i + 1], chunk)
  }

  /** No step has broken the index since it was last rebuilt. */
  predicate Unbroken(steps: seq<Step>, i: nat)
    requires i <= |steps|
  {
    i == 0 || steps[i - 1].ReindexStep? || (!steps[i - 1].BrokenStep? && Unbroken(steps, i - 1))
  }

  /** Stored documents can be read and differ, so a reindex can always be run. */
  ghost predicate Readable(rows: map<Id, Row>, chunk: Chunker) {
    ContentsDiffer(rows) && forall d :: d in rows ==> chunk(rows[d].content).Some?
  }

  lemma StepKeepsReadable(kb: Kb, step: Step, after: Kb, chunk: Chunker)
    requires StepTo(kb, step, after, chunk) && Readable(kb.rows, chunk)
    ensures Readable(after.rows, chunk)
  {
    hide Written, Removed, Indexed;
  }

  /** In every run the index holds every stored row's chunks, as the row's model embedded them, unless
      a step has broken it since it was last rebuilt; right after a reindex it holds nothing else. */
  lemma {:induction false} EveryRunKeepsInvariant(states: seq<Kb>, steps: seq<Step>, chunk: Chunker, i: nat)
    requires IsRun(states, steps, chunk) && i < |states|
    ensures Readable(states[i].rows, chunk)
    ensures Unbroken(steps, i) ==> Invariant(states[i], chunk)
    ensures i > 0 && steps[i - 1].ReindexStep? ==>
      NoOrphans(states[i]) && !NeedsReindex(states[i].rows, steps[i - 1].model)
  {
    if i == 0 {
    } else {
      var kb, after, step := states[i - 1], states[i], steps[i - 1];
      EveryRunKeepsInvariant(states, steps, chunk, i - 1);
      assert StepTo(kb, step, after, chunk);
      StepKeepsReadable(kb, step, after, chunk);
      hide Upload, Delete, Rebuilt, NoOrphans, NeedsReindex, AllIndexed, ContentsDiffer, IsRun;
      match step
      case UploadStep(d, content, model, failedAt) =>
        if Unbroken(steps, i) {
          UploadKeepsInvariant(kb, chunk, d, content, model, failedAt);
        }
      case DeleteStep(d) =>
        if Unbroken(steps, i) {
          DeleteKeepsInvariant(kb, chunk, d);
        }
      case ReindexStep(model) => RebuiltIsExact(kb, after, chunk, model);
      case BrokenStep =>
    }
  }
}
