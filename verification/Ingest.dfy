/**
  Ingesting a document version (`DocumentIngestHandler` of document_ingest_handler.py): the
  rows of its chunks in the database, their points in the store, and what is left of both when
  a step fails or the worker loses its lease.

  Everything the handler cannot foresee is an input of a run: how each transaction ends, which
  requests to the store arrive, and the chunks that extraction yields, with the ids the
  database gives them. One worker at a time ingests a version.
 */
module Ingest {
  import opened Text
  import opened VectorStore
  import opened Indexing

  /** The chunk rows: the version of every chunk id. */
  type Rows = map<int, string>

  datatype State = State(store: Store, rows: Rows)

  function RowIds(rows: Rows, version: string): set<int> {
    set id | id in rows && rows[id] == version
  }

  /** `delete_chunks` */
  function Without(rows: Rows, version: string): Rows {
    map id | id in rows && rows[id] != version :: rows[id]
  }

  /** `bulk_insert_chunks` */
  function WithChunks(rows: Rows, version: string, chunks: seq<Chunk>): Rows {
    rows + map id | id in ChunkIds(chunks) :: version
  }

  /** How a transaction ends: the version may be gone or archived, the lease lost. */
  datatype Commit = Committed | Missing | Archived | LeaseLost | Broken

  datatype Ending = Succeeded(count: nat) | Failed(code: string) | Aborted

  datatype Content = Extracted(chunks: seq<Chunk>) | NotExtracted(code: string)

  /** What one run meets. */
  datatype Run = Run(existing: Delivery, emptied: Commit, content: Content, stored: Commit, loaded: bool,
                     adapter: Adapter, calls: nat -> Call, deliver: nat -> Delivery, ready: Commit,
                     cleanup: Delivery, record: Commit)

  // ---- what holds of a run

  /** Points without a chunk row. */
  function Orphans(s: State): set<int> {
    s.store.Keys - s.rows.Keys
  }

  /** No new orphans, and nothing of other versions or under ids that are not the run's own is touched. */
  ghost predicate Keeps(version: string, own: set<int>, before: State, after: State) {
    && Orphans(after) <= Orphans(before)
    && Without(after.rows, version) == Without(before.rows, version)
    && forall id :: id !in own ==> SameAt(before.store, after.store, id)
  }

  lemma KeepsMore(version: string, own: set<int>, s: State, t: State, u: State)
    requires Keeps(version, own, s, t) && Keeps(version, own, t, u)
    ensures Keeps(version, own, s, u)
  {
    hide Without, Orphans;
    forall id | id !in own ensures SameAt(s.store, u.store, id) {
      assert SameAt(s.store, t.store, id) && SameAt(t.store, u.store, id);
    }
  }

  lemma KeepsSame(version: string, own: set<int>, s: State)
    ensures Keeps(version, own, s, s)
  {}

  lemma RowsDeleted(version: string, own: set<int>, s: State)
    requires RowIds(s.rows, version) !! s.store.Keys
    ensures Keeps(version, own, s, State(s.store, Without(s.rows, version)))
  {
    assert Without(Without(s.rows, version), version) == Without(s.rows, version);
    forall id | id in s.store && id in s.rows ensures id in Without(s.rows, version) {
      assert id !in RowIds(s.rows, version);
    }
  }

  lemma PointsDeleted(version: string, own: set<int>, s: State, ids: set<int>)
    requires ids <= own
    ensures Keeps(version, own, s, State(s.store - ids, s.rows))
  {}

  /** The chunks of a run have ids of their own. */
  predicate NewIds(rows: Rows, chunks: seq<Chunk>) {
    forall id :: id in ChunkIds(chunks) ==> id !in rows
  }

  lemma RowsAdded(version: string, own: set<int>, s: State, chunks: seq<Chunk>)
    requires NewIds(s.rows, chunks) && RowIds(s.rows, version) == {}
    ensures Keeps(version, own, s, State(s.store, WithChunks(s.rows, version, chunks)))
    ensures RowIds(WithChunks(s.rows, version, chunks), version) == IdSet(ChunkIds(chunks))
  {
    var rows := WithChunks(s.rows, version, chunks);
    forall id | id in rows && rows[id] == version ensures id in ChunkIds(chunks) {
      assert id in s.rows && s.rows[id] == version ==> id in RowIds(s.rows, version);
    }
    assert Without(rows, version) == Without(s.rows, version);
  }

  lemma PointsAdded(version: string, own: set<int>, s: State, adapter: Adapter, chunks: seq<Chunk>, k: nat)
    requires (forall i :: 0 <= i < |chunks| ==> chunks[i].text.Some?) && k <= |chunks|
    requires forall id :: id in ChunkIds(chunks) ==> id in own && id in s.rows
    ensures Keeps(version, own, s, State(Upserted(s.store, PointsOf(adapter, chunks)[..k]), s.rows))
  {
    var points := PointsOf(adapter, chunks)[..k];
    var after := Upserted(s.store, points);
    hide Upserted;
    forall id | id !in ChunkIds(chunks) ensures SameAt(s.store, after, id) {
      OtherPointsStay(adapter, chunks, s.store, k, id);
    }
    forall id | id in after && id !in s.rows ensures id in s.store {
      assert SameAt(s.store, after, id);
    }
  }

  // ---- the steps

  predicate CleanupSucceeds(ids: set<int>, failDelete: bool, delivery: Delivery) {
    (forall id :: id in ids ==> id >= 1) && !failDelete && delivery.Delivered?
  }

  function CleanedUp(store: Store, ids: set<int>, failDelete: bool, delivery: Delivery): Store {
    if (exists id :: id in ids && id < 1) || failDelete || delivery.Refused? then store else store - ids
  }

  /** `cleanup_document_points` */
  method CleanupPoints(vectors: QdrantVectorStore, version: string, ids: seq<int>, delivery: Delivery)
    returns (ok: bool)
    requires ids != []
    modifies vectors.client`points
    ensures ok <==> CleanupSucceeds(IdSet(ids), vectors.client.failDelete, delivery)
    ensures ok <==> (forall i :: 0 <= i < |ids| ==> ids[i] >= 1) && !vectors.client.failDelete && delivery.Delivered?
    ensures vectors.client.Becomes(vectors.name, CleanedUp(old(vectors.client.Stored(vectors.name)),
                                                           IdSet(ids), vectors.client.failDelete, delivery))
  {
    for i := 0 to |ids|
      invariant forall j :: 0 <= j < i ==> ids[j] >= 1
    {
      if ids[i] < 1 {
        assert ids[i] in IdSet(ids);
        return false;
      }
    }
    var error := vectors.Cleanup(version, ids, delivery);
    ok := error.None?;
  }

  /** `_mark_failed_after_cleanup` */
  function MarkFailed(rows: Rows, version: string, code: string, deleteChunks: bool, record: Commit): (Ending, Rows) {
    match record
    case Committed => (Failed(code), if deleteChunks then Without(rows, version) else rows)
    case LeaseLost => (Aborted, rows)
    case Broken => (Failed("ingest_cleanup_failed"), rows)
    case _ => (Failed(code), rows)
  }

  lemma FailKeeps(version: string, own: set<int>, s: State, code: string, failDelete: bool, run: Run)
    requires RowIds(s.rows, version) <= own
    ensures var ids := RowIds(s.rows, version);
      Keeps(version, own, s, State(CleanedUp(s.store, ids, failDelete, run.cleanup),
        MarkFailed(s.rows, version, code, ids == {} || CleanupSucceeds(ids, failDelete, run.cleanup), run.record).1))
  {
    var ids := RowIds(s.rows, version);
    hide RowIds;
    var cleaned := State(CleanedUp(s.store, ids, failDelete, run.cleanup), s.rows);
    PointsDeleted(version, own, s, ids);
    assert Keeps(version, own, s, cleaned);
    if ids == {} || CleanupSucceeds(ids, failDelete, run.cleanup) {
      RowsDeleted(version, own, cleaned);
      KeepsMore(version, own, s, cleaned, State(cleaned.store, Without(s.rows, version)));
    }
  }

  function CodeOf(failure: Indexing): string
    requires !failure.Indexed?
  {
    match failure
    case EmbeddingError(EmptyResult) => "embedding_empty_result"
    case EmbeddingError(VectorDimensionMismatch) => "embedding_dimension_mismatch"
    case EmbeddingError(EmbeddingFailed) => "embedding_failed"
    case StoreError(QdrantUnavailable) => "qdrant_unavailable"
    case StoreError(UpsertFailed) => "qdrant_upsert_failed"
    case StoreError(CleanupFailed) => "qdrant_cleanup_failed"
    case StoreError(CollectionCreateFailed) => "qdrant_collection_create_failed"
    case StoreError(DimensionMismatch) => "qdrant_collection_dimension_mismatch"
    case StoreError(DocumentIndexingFailed) => "document_indexing_failed"
  }

  /** What a run must meet for a failure of it to leave nothing of the version behind. */
  predicate Cleans(ids: set<int>, failDelete: bool, run: Run) {
    CleanupSucceeds(ids, failDelete, run.cleanup) && run.record.Committed?
  }

  lemma FailCleans(rows: Rows, version: string, code: string, failDelete: bool, run: Run)
    ensures Cleans(RowIds(rows, version), failDelete, run) ==>
            RowIds(MarkFailed(rows, version, code, true, run.record).1, version) == {}
  {}

  lemma NothingCleaned(store: Store, failDelete: bool, delivery: Delivery)
    ensures CleanedUp(store, {}, failDelete, delivery) == store
  {
    assert store - {} == store;
  }

  /** `_fail_version` */
  method FailVersion(vectors: QdrantVectorStore, rows: Rows, version: string, code: string, run: Run)
    returns (r: Ending, after: Rows)
    modifies vectors.client`points
    ensures var ids, failDelete := RowIds(rows, version), vectors.client.failDelete;
      && vectors.client.Becomes(vectors.name, CleanedUp(old(vectors.client.Stored(vectors.name)), ids, failDelete,
                                                        run.cleanup))
      && (r, after) == MarkFailed(rows, version, code, ids == {} || CleanupSucceeds(ids, failDelete, run.cleanup),
                                  run.record)
    ensures Keeps(version, RowIds(rows, version), State(old(vectors.client.Stored(vectors.name)), rows),
                  State(vectors.client.Stored(vectors.name), after))
    ensures !r.Succeeded?
    ensures r.Failed? && Cleans(RowIds(rows, version), vectors.client.failDelete, run) ==> RowIds(after, version) == {}
  {
    ghost var s := State(vectors.client.Stored(vectors.name), rows);
    FailKeeps(version, RowIds(rows, version), s, code, vectors.client.failDelete, run);
    FailCleans(rows, version, code, vectors.client.failDelete, run);
    NothingCleaned(s.store, vectors.client.failDelete, run.cleanup);
    hide Keeps, RowIds, Cleans, CleanedUp, CleanupSucceeds, SortedIds;
    // The order of the ids decides nothing.
    var ids := SortedIds(RowIds(rows, version));
    assert IdSet(ids) == RowIds(rows, version);
    var ok := true;
    if ids != [] {
      ok := CleanupPoints(vectors, version, ids, run.cleanup);
    }
    var result := MarkFailed(rows, version, code, ok, run.record);
    r, after := result.0, result.1;
  }

  /** The end of `_embed_index_and_finalize`: the version is marked ready, or its points are removed again. */
  method FinishIndexed(vectors: QdrantVectorStore, rows: Rows, version: string, chunks: seq<Chunk>, count: nat,
                       run: Run)
    returns (r: Ending, after: Rows)
    requires chunks != [] && RowIds(rows, version) == IdSet(ChunkIds(chunks))
    modifies vectors.client`points
    ensures Keeps(version, RowIds(rows, version), State(old(vectors.client.Stored(vectors.name)), rows),
                  State(vectors.client.Stored(vectors.name), after))
    ensures vectors.client.Becomes(vectors.name, vectors.client.Stored(vectors.name))
    ensures r.Succeeded? ==>
      && r.count == count && after == rows
      && vectors.client.Stored(vectors.name) == old(vectors.client.Stored(vectors.name))
    ensures r.Failed? && Cleans(RowIds(rows, version), vectors.client.failDelete, run) ==> RowIds(after, version) == {}
  {
    ghost var own, failDelete := RowIds(rows, version), vectors.client.failDelete;
    ghost var s := State(vectors.client.Stored(vectors.name), rows);
    hide Keeps, RowIds, CleanedUp;
    match run.ready {
      case Committed =>
        r, after := Succeeded(count), rows;
        KeepsSame(version, own, s);
      case LeaseLost =>
        r, after := Aborted, rows;
        KeepsSame(version, own, s);
      case _ =>
        var code := "document_ready_update_failed";
        var ok := CleanupPoints(vectors, version, ChunkIds(chunks), run.cleanup);
        var result := MarkFailed(rows, version, code, ok, run.record);
        r, after := result.0, result.1;
        FailKeeps(version, own, s, code, failDelete, run);
        FailCleans(rows, version, code, failDelete, run);
    }
  }

  lemma IndexKeeps(version: string, s: State, adapter: Adapter, chunks: seq<Chunk>, written: nat, store: Store)
    requires RowIds(s.rows, version) == IdSet(ChunkIds(chunks)) && written <= |chunks|
    requires written > 0 ==> forall i :: 0 <= i < |chunks| ==> chunks[i].text.Some?
    requires store == if written == 0 then s.store else Upserted(s.store, PointsOf(adapter, chunks)[..written])
    ensures Keeps(version, RowIds(s.rows, version), s, State(store, s.rows))
    ensures written == |chunks| > 0 ==> store == Upserted(s.store, PointsOf(adapter, chunks))
  {
    hide Upserted, Keeps;
    if written == 0 {
      KeepsSame(version, RowIds(s.rows, version), s);
    } else {
      forall id | id in ChunkIds(chunks) ensures id in RowIds(s.rows, version) {
        assert id in IdSet(ChunkIds(chunks));
      }
      PointsAdded(version, RowIds(s.rows, version), s, adapter, chunks, written);
      assert written == |chunks| ==> PointsOf(adapter, chunks)[..written] == PointsOf(adapter, chunks);
    }
  }

  /** `_embed_index_and_finalize` */
  method EmbedIndexAndFinalize(vectors: QdrantVectorStore, rows: Rows, version: string, chunks: seq<Chunk>, run: Run,
                               embedBatch: nat, upsertBatch: nat)
    returns (r: Ending, after: Rows)
    requires embedBatch >= 1 && upsertBatch >= 1 && RowIds(rows, version) == IdSet(ChunkIds(chunks))
    modifies vectors.client`collections, vectors.client`points
    ensures Keeps(version, RowIds(rows, version), State(old(vectors.client.Stored(vectors.name)), rows),
                  State(vectors.client.Stored(vectors.name), after))
    ensures forall other :: other != vectors.name ==> vectors.client.Stored(other) == old(vectors.client.Stored(other))
    ensures r.Succeeded? ==>
      && after == rows && r.count == |chunks| && (forall i :: 0 <= i < |chunks| ==> chunks[i].text.Some?)
      && vectors.client.Stored(vectors.name) ==
         Upserted(old(vectors.client.Stored(vectors.name)), PointsOf(run.adapter, chunks))
    ensures r.Failed? && Cleans(RowIds(rows, version), vectors.client.failDelete, run) ==> RowIds(after, version) == {}
  {
    ghost var s := State(vectors.client.Stored(vectors.name), rows);
    hide *;
    var indexed, written := IndexChunks(vectors, run.adapter, run.calls, chunks, embedBatch, upsertBatch, run.deliver);
    ghost var t := State(vectors.client.Stored(vectors.name), rows);
    IndexKeeps(version, s, run.adapter, chunks, written, t.store);
    if !indexed.Indexed? {
      r, after := FailVersion(vectors, rows, version, CodeOf(indexed), run);
    } else {
      r, after := FinishIndexed(vectors, rows, version, chunks, indexed.count, run);
    }
    KeepsMore(version, RowIds(rows, version), s, t, State(vectors.client.Stored(vectors.name), after));
  }

  // ---- a whole run

  lemma EmptiedIs(version: string, s: State)
    ensures RowIds(Without(s.rows, version), version) == {}
    ensures RowIds(s.rows, version) == {} ==> Without(s.rows, version) == s.rows
    ensures RowIds(s.rows, version) == {} ==> s.store - RowIds(s.rows, version) == s.store
  {
    if RowIds(s.rows, version) == {} {
      forall id | id in s.rows ensures s.rows[id] != version {
        assert id !in RowIds(s.rows, version);
      }
      assert Without(s.rows, version) == s.rows;
    }
  }

  /** `_cleanup_existing_artifacts`; None when the run goes on. */
  method CleanupExisting(vectors: QdrantVectorStore, rows: Rows, version: string, run: Run)
    returns (stop: Option<Ending>, after: Rows)
    modifies vectors.client`points
    ensures Keeps(version, RowIds(rows, version), State(old(vectors.client.Stored(vectors.name)), rows),
                  State(vectors.client.Stored(vectors.name), after))
    ensures vectors.client.Becomes(vectors.name, vectors.client.Stored(vectors.name))
    ensures stop.None? ==>
      && after == Without(rows, version)
      && vectors.client.Stored(vectors.name) == old(vectors.client.Stored(vectors.name)) - RowIds(rows, version)
    ensures stop.Some? ==> !stop.value.Succeeded?
    ensures stop.Some? && stop.value.Failed? && run.record.Committed? &&
            CleanupSucceeds(RowIds(rows, version), vectors.client.failDelete, run.existing) ==>
              RowIds(after, version) == {}
  {
    ghost var own, failDelete := RowIds(rows, version), vectors.client.failDelete;
    ghost var s := State(vectors.client.Stored(vectors.name), rows);
    EmptiedIs(version, s);
    KeepsSame(version, own, s);
    var ids := SortedIds(RowIds(rows, version));
    assert IdSet(ids) == own;
    if ids == [] {
      assert own == {};
      return None, rows;
    }
    var ok := CleanupPoints(vectors, version, ids, run.existing);
    ExistingKeeps(version, s, failDelete, run.existing);
    hide Keeps, RowIds, Without;
    if !ok {
      var result := MarkFailed(rows, version, "qdrant_cleanup_failed", false, run.record);
      return Some(result.0), result.1;
    }
    match run.emptied {
      case Committed =>
        return None, Without(rows, version);
      case LeaseLost =>
        return Some(Aborted), rows;
      case _ =>
        var result := MarkFailed(rows, version, "ingest_cleanup_failed", true, run.record);
        return Some(result.0), result.1;
    }
  }

  lemma ExistingKeeps(version: string, s: State, failDelete: bool, delivery: Delivery)
    ensures var ids := RowIds(s.rows, version);
      var store := CleanedUp(s.store, ids, failDelete, delivery);
      && Keeps(version, ids, s, State(store, s.rows))
      && (CleanupSucceeds(ids, failDelete, delivery) ==>
            store == s.store - ids && Keeps(version, ids, s, State(store, Without(s.rows, version))))
  {
    var ids := RowIds(s.rows, version);
    hide RowIds, Without;
    var cleaned := State(CleanedUp(s.store, ids, failDelete, delivery), s.rows);
    PointsDeleted(version, ids, s, ids);
    PointsDeleted(version, ids, s, {});
    assert s.store - {} == s.store;
    if CleanupSucceeds(ids, failDelete, delivery) {
      RowsDeleted(version, ids, cleaned);
      KeepsMore(version, ids, s, cleaned, State(cleaned.store, Without(s.rows, version)));
    }
  }

  /** The ids a run may touch: those of the version's old chunks and of its new ones. */
  function OwnIds(rows: Rows, version: string, content: Content): set<int> {
    RowIds(rows, version) + if content.Extracted? then IdSet(ChunkIds(content.chunks)) else {}
  }

  /** The state after a successful run: the new chunks have replaced the old ones. */
  function Replaced(s: State, version: string, adapter: Adapter, chunks: seq<Chunk>): State
    requires forall i :: 0 <= i < |chunks| ==> chunks[i].text.Some?
  {
    State(Upserted(s.store - RowIds(s.rows, version), PointsOf(adapter, chunks)),
          WithChunks(Without(s.rows, version), version, chunks))
  }

  /** Nothing keeps a failing run from cleaning up. */
  predicate CleansAll(own: set<int>, failDelete: bool, run: Run) {
    Cleans(own, failDelete, run) && run.existing.Delivered?
  }

  lemma KeepsWider(version: string, own: set<int>, wider: set<int>, s: State, t: State)
    requires Keeps(version, own, s, t) && own <= wider
    ensures Keeps(version, wider, s, t)
  {}

  lemma CleansLess(own: set<int>, ids: set<int>, failDelete: bool, run: Run)
    requires ids <= own
    ensures CleansAll(own, failDelete, run) ==>
            Cleans(ids, failDelete, run) && CleanupSucceeds(ids, failDelete, run.existing) && run.record.Committed?
  {}

  lemma NewStays(rows: Rows, version: string, content: Content)
    requires content.Extracted? ==> NewIds(rows, content.chunks)
    ensures content.Extracted? ==> NewIds(Without(rows, version), content.chunks)
    ensures OwnIds(Without(rows, version), version, content) <= OwnIds(rows, version, content)
  {}

  /** `handle`, once the earlier chunks are gone: extraction has been tried, the chunks are stored and indexed. */
  method IngestContent(vectors: QdrantVectorStore, rows: Rows, version: string, run: Run, embedBatch: nat,
                       upsertBatch: nat)
    returns (r: Ending, after: Rows)
    requires embedBatch >= 1 && upsertBatch >= 1 && RowIds(rows, version) == {}
    requires run.content.Extracted? ==> NewIds(rows, run.content.chunks)
    modifies vectors.client`collections, vectors.client`points
    ensures Keeps(version, OwnIds(rows, version, run.content), State(old(vectors.client.Stored(vectors.name)), rows),
                  State(vectors.client.Stored(vectors.name), after))
    ensures forall other :: other != vectors.name ==> vectors.client.Stored(other) == old(vectors.client.Stored(other))
    ensures r.Succeeded? ==>
      && run.content.Extracted? && r.count == |run.content.chunks|
      && (forall i :: 0 <= i < r.count ==> run.content.chunks[i].text.Some?)
      && after == WithChunks(rows, version, run.content.chunks)
      && vectors.client.Stored(vectors.name) ==
         Upserted(old(vectors.client.Stored(vectors.name)), PointsOf(run.adapter, run.content.chunks))
    ensures r.Failed? && Cleans(OwnIds(rows, version, run.content), vectors.client.failDelete, run) ==>
              RowIds(after, version) == {}
  {
    ghost var own, failDelete := OwnIds(rows, version, run.content), vectors.client.failDelete;
    ghost var s := State(vectors.client.Stored(vectors.name), rows);
    EmptiedIs(version, s);
    KeepsSame(version, own, s);
    if run.content.NotExtracted? {
      r, after := FailVersion(vectors, rows, version, run.content.code, run);
      return;
    }
    var chunks := run.content.chunks;
    RowsAdded(version, own, s, chunks);
    hide Keeps, RowIds, Without, WithChunks, Cleans, Upserted;
    if chunks == [] {
      r, after := FailVersion(vectors, rows, version, "no_chunks_created", run);
      return;
    }
    match run.stored {
      case Missing =>
        return Failed("document_version_not_found"), rows;
      case Archived =>
        r, after := FailVersion(vectors, rows, version, "document_version_not_ingestable", run);
      case LeaseLost =>
        return Aborted, rows;
      case Broken =>
        r, after := FailVersion(vectors, rows, version, "document_chunk_insert_failed", run);
      case Committed =>
        var stored := WithChunks(Without(rows, version), version, chunks);
        if !run.loaded {
          r, after := FailVersion(vectors, stored, version, "internal_error", run);
        } else {
          r, after := EmbedIndexAndFinalize(vectors, stored, version, chunks, run, embedBatch, upsertBatch);
        }
        KeepsMore(version, own, s, State(s.store, stored), State(vectors.client.Stored(vectors.name), after));
    }
  }

  /** One run of `Ingest`: a version, the ids it may touch, and the states around it. */
  datatype Ingestion = Ingestion(version: string, own: set<int>, before: State, after: State)

  ghost predicate IsIngestion(run: Ingestion) {
    && Keeps(run.version, run.own, run.before, run.after)
    && forall id :: id in run.own && id in run.before.rows ==> run.before.rows[id] == run.version
  }

  lemma OwnIdsAreOwn(rows: Rows, version: string, content: Content)
    requires content.Extracted? ==> NewIds(rows, content.chunks)
    ensures forall id :: id in OwnIds(rows, version, content) && id in rows ==> rows[id] == version
  {
    if content.Extracted? {
      forall id | id in IdSet(ChunkIds(content.chunks)) ensures id !in rows {}
    }
  }

  /**
    `handle`, from the cleanup of the earlier chunks on. Whatever fails, no new point is left
    without a chunk row and other versions are untouched; a success replaces the version's
    chunks and points; a failure leaves no chunk rows of it, if it could clean up.
   */
  method Ingest(vectors: QdrantVectorStore, rows: Rows, version: string, run: Run, embedBatch: nat, upsertBatch: nat)
    returns (r: Ending, after: Rows)
    requires embedBatch >= 1 && upsertBatch >= 1 && (run.content.Extracted? ==> NewIds(rows, run.content.chunks))
    modifies vectors.client`collections, vectors.client`points
    ensures IsIngestion(Ingestion(version, OwnIds(rows, version, run.content),
                                  State(old(vectors.client.Stored(vectors.name)), rows),
                                  State(vectors.client.Stored(vectors.name), after)))
    ensures forall other :: other != vectors.name ==> vectors.client.Stored(other) == old(vectors.client.Stored(other))
    ensures r.Succeeded? ==>
      && run.content.Extracted? && r.count == |run.content.chunks|
      && (forall i :: 0 <= i < r.count ==> run.content.chunks[i].text.Some?)
      && State(vectors.client.Stored(vectors.name), after) ==
         Replaced(State(old(vectors.client.Stored(vectors.name)), rows), version, run.adapter, run.content.chunks)
    ensures r.Failed? && CleansAll(OwnIds(rows, version, run.content), vectors.client.failDelete, run) ==>
              RowIds(after, version) == {}
  {
    ghost var own, failDelete := OwnIds(rows, version, run.content), vectors.client.failDelete;
    ghost var s := State(vectors.client.Stored(vectors.name), rows);
    var stop: Option<Ending>;
    stop, after := CleanupExisting(vectors, rows, version, run);
    ghost var t := State(vectors.client.Stored(vectors.name), after);
    CleansLess(own, RowIds(rows, version), failDelete, run);
    EmptiedIs(version, s);
    NewStays(rows, version, run.content);
    OwnIdsAreOwn(rows, version, run.content);
    hide Keeps, RowIds, Without, Cleans, CleansAll, NewIds;
    KeepsWider(version, RowIds(rows, version), own, s, t);
    if stop.Some? {
      r := stop.value;
    } else {
      CleansLess(own, OwnIds(after, version, run.content), failDelete, run);
      r, after := IngestContent(vectors, after, version, run, embedBatch, upsertBatch);
      ghost var u := State(vectors.client.Stored(vectors.name), after);
      KeepsWider(version, OwnIds(t.rows, version, run.content), own, t, u);
      KeepsMore(version, own, s, t, u);
    }
  }

  /**
    After a success every chunk of the version has its point and row, nothing of its earlier
    chunks is left, however earlier runs ended, and all else is as it was.
   */
  lemma ReplacedIs(s: State, version: string, adapter: Adapter, chunks: seq<Chunk>, id: int)
    requires (forall i :: 0 <= i < |chunks| ==> chunks[i].text.Some?) && NewIds(s.rows, chunks) && Orphans(s) == {}
    ensures var t := Replaced(s, version, adapter, chunks);
      if id in ChunkIds(chunks) then
        && id in t.rows && t.rows[id] == version
        && id in t.store && exists i :: IsLastChunk(adapter, chunks, id, i, t.store[id])
      else if id in RowIds(s.rows, version) then id !in t.rows && id !in t.store
      else (id in t.rows <==> id in s.rows) && (id in s.rows ==> t.rows[id] == s.rows[id]) &&
           SameAt(s.store, t.store, id)
  {
    var emptied := s.store - RowIds(s.rows, version);
    hide Upserted;
    IndexedPoints(adapter, chunks, emptied, id);
  }

  ghost predicate IsHistory(runs: seq<Ingestion>) {
    && (forall i :: 0 <= i < |runs| ==> IsIngestion(runs[i]))
    && (forall i :: 0 < i < |runs| ==> runs[i].before == runs[i - 1].after)
  }

  /** Over any number of runs, of any versions, however they end, no point is ever without a chunk row. */
  lemma {:induction false} NoOrphansEver(runs: seq<Ingestion>)
    requires IsHistory(runs) && runs != [] && Orphans(runs[0].before) == {}
    ensures Orphans(runs[|runs| - 1].after) == {}
  {
    var n := |runs| - 1;
    assert IsIngestion(runs[n]);
    hide Orphans;
    if n > 0 {
      NoOrphansEver(runs[..n]);
      assert runs[n].before == runs[n - 1].after;
    }
  }

  /** A version that none of the runs is about keeps its rows and its points. */
  lemma {:induction false} OthersKeep(runs: seq<Ingestion>, version: string)
    requires IsHistory(runs) && runs != [] && forall i :: 0 <= i < |runs| ==> runs[i].version != version
    ensures var s, t := runs[0].before, runs[|runs| - 1].after;
      && RowIds(t.rows, version) == RowIds(s.rows, version)
      && forall id :: id in RowIds(s.rows, version) ==> SameAt(s.store, t.store, id)
  {
    var n := |runs| - 1;
    var s, last := runs[0].before, runs[n];
    assert IsIngestion(last);
    OthersKeepRows(version, last.version, last.before.rows, last.after.rows);
    if n > 0 {
      OthersKeep(runs[..n], version);
      assert last.before == runs[n - 1].after;
    }
    forall id | id in RowIds(s.rows, version) ensures SameAt(s.store, last.after.store, id) {
      assert id in RowIds(last.before.rows, version);
      assert SameAt(last.before.store, last.after.store, id);
    }
  }

  lemma OthersKeepRows(version: string, other: string, before: Rows, after: Rows)
    requires Without(after, other) == Without(before, other) && version != other
    ensures RowIds(after, version) == RowIds(before, version)
  {
    forall id ensures id in RowIds(after, version) <==> id in RowIds(before, version) {
      assert id in Without(after, other) <==> id in Without(before, other);
      assert id in Without(after, other) ==> Without(after, other)[id] == Without(before, other)[id];
    }
  }
}
