/** The document bookkeeping of the document service: `ingest_document`,
    `delete_document` and `list_documents`, over a store that holds the rows
    of the `documents` and `document_chunks` tables.

    The collaborators are parameters: the embedder is any function from a
    list of texts to a list of vectors (`None` when it raises), the new
    document's id and creation time are the values the database assigns, and
    `mint` gives the ids the database assigns to the chunk rows. A failed call
    leaves the store as it was: the session is rolled back when an exception
    leaves the request. */
module Corpus {

  import opened Wrappers
  import opened Identifiers
  import opened Rows
  import Chunker
  import Cache
  import Text

  type Vector = seq<real>

  /** The width of the `embedding` column, `Vector(384)`. */
  const EmbeddingDimension: nat := 384

  datatype Document = Document(
    id: Uuid,
    tenant: TenantId,
    title: string,
    content: string,
    docType: string,
    createdAt: int)

  /** A row of `document_chunks`; `title` is the `document_title` entry of
      the row's metadata. */
  datatype StoredChunk = StoredChunk(
    id: Uuid,
    document: Uuid,
    tenant: TenantId,
    index: nat,
    content: string,
    tokenCount: nat,
    embedding: Vector,
    title: string)

  datatype Store = Store(documents: seq<Document>, chunks: seq<StoredChunk>)

  function DocumentIds(store: Store): set<Uuid> {
    set d | d in store.documents :: d.id
  }

  /** What the schema guarantees of the two tables: document ids are a primary
      key, and every chunk refers to an existing document (a foreign key). */
  predicate WellFormed(store: Store) {
    && (forall i, j :: 0 <= i < j < |store.documents| ==> store.documents[i].id != store.documents[j].id)
    && (forall i :: 0 <= i < |store.chunks| ==> store.chunks[i].document in DocumentIds(store))
  }

  // ---------------------------------------------------------------------
  // Ingestion

  datatype IngestError =
    | DuplicateDocument   // the insert of the document row fails
    | EmbeddingFailed     // the embedder raises
    | DimensionMismatch   // a vector does not fit the column
    | CacheFailed         // invalidating the tenant's cache raises

  /** The dictionary `ingest_document` returns. */
  datatype IngestSummary = IngestSummary(documentId: Uuid, title: string, chunkCount: nat, totalTokens: nat)

  /** The chunk rows of one document: `zip(text_chunks, embeddings)` stops at
      the shorter list, and the i-th pair becomes the row with index i. */
  function NewChunks(docId: Uuid, tenant: TenantId, title: string, texts: seq<string>, vectors: seq<Vector>, mint: nat -> Uuid): (cs: seq<StoredChunk>)
    ensures |cs| == Min(|texts|, |vectors|)
    ensures forall i :: 0 <= i < |cs| ==>
      cs[i] == StoredChunk(mint(i), docId, tenant, i, texts[i], Chunker.EstimateTokens(texts[i]), vectors[i], title)
  {
    seq(Min(|texts|, |vectors|), i requires 0 <= i < Min(|texts|, |vectors|) =>
      StoredChunk(mint(i), docId, tenant, i, texts[i], Chunker.EstimateTokens(texts[i]), vectors[i], title))
  }

  /** `sum(c.token_count for c in chunk_records)`. */
  function SumTokens(cs: seq<StoredChunk>): nat
    decreases |cs|
  {
    if cs == [] then 0 else cs[0].tokenCount + SumTokens(cs[1..])
  }

  predicate FitsColumn(cs: seq<StoredChunk>) {
    forall i :: 0 <= i < |cs| ==> |cs[i].embedding| == EmbeddingDimension
  }

  /** `ingest_document` from the point where the text has been chunked:
      stores the document, embeds the chunk texts in one batch, stores one row
      per chunk that got a vector, and invalidates the tenant's cached
      answers. Inserting a document whose id is taken fails, and so does a
      vector that does not fit the column. `up` is whether the store answers
      the invalidation. */
  function Record(store: Store, cache: Cache.Conn, up: bool, doc: Document, texts: seq<string>, embed: seq<string> -> Option<seq<Vector>>, mint: nat -> Uuid)
    : (r: Result<(Store, Cache.Conn, IngestSummary), IngestError>)
    ensures doc.id in DocumentIds(store) ==> r == Failure(DuplicateDocument)
    ensures doc.id !in DocumentIds(store) && embed(texts).None? ==> r == Failure(EmbeddingFailed)
    ensures r.Success? ==>
      && embed(texts).Some?
      && var added := NewChunks(doc.id, doc.tenant, doc.title, texts, embed(texts).value, mint);
      && FitsColumn(added)
      && r.value.0 == Store(store.documents + [doc], store.chunks + added)
      && r.value.2 == IngestSummary(doc.id, doc.title, |added|, SumTokens(added))
      && Cache.Invalidate(cache, up, doc.tenant).Success?
      && r.value.1 == Cache.Invalidate(cache, up, doc.tenant).value.0
    ensures r.Failure? && doc.id !in DocumentIds(store) && embed(texts).Some? ==>
      r == Failure(DimensionMismatch) || Cache.Invalidate(cache, up, doc.tenant).Failure?
    ensures r == Failure(DimensionMismatch) ==>
      embed(texts).Some? && !FitsColumn(NewChunks(doc.id, doc.tenant, doc.title, texts, embed(texts).value, mint))
    ensures (&& doc.id !in DocumentIds(store) && embed(texts).Some?
             && FitsColumn(NewChunks(doc.id, doc.tenant, doc.title, texts, embed(texts).value, mint))
             && Cache.Invalidate(cache, up, doc.tenant).Success?) ==> r.Success?
  {
    if doc.id in DocumentIds(store) then Failure(DuplicateDocument)
    else
      match embed(texts)
      case None => Failure(EmbeddingFailed)
      case Some(vectors) =>
        var cs := NewChunks(doc.id, doc.tenant, doc.title, texts, vectors, mint);
        if !FitsColumn(cs) then Failure(DimensionMismatch)
        else
          match Cache.Invalidate(cache, up, doc.tenant)
          case Failure(_) => Failure(CacheFailed)
          case Success((cache', _)) =>
            Success((Store(store.documents + [doc], store.chunks + cs), cache', IngestSummary(doc.id, doc.title, |cs|, SumTokens(cs))))
  }

  /** `ingest_document`: the content is chunked with the default budget of
      500 tokens, then recorded. */
  function Ingest(
    store: Store, cache: Cache.Conn, up: bool,
    tenant: TenantId, title: string, content: string, docType: string,
    docId: Uuid, createdAt: int, mint: nat -> Uuid,
    embed: seq<string> -> Option<seq<Vector>>): (r: Result<(Store, Cache.Conn, IngestSummary), IngestError>)
    ensures docId in DocumentIds(store) ==> r == Failure(DuplicateDocument)
    ensures r.Success? ==>
      && r.value.0.documents == store.documents + [Document(docId, tenant, title, content, docType, createdAt)]
      && r.value.2.documentId == docId && r.value.2.title == title
      && r.value.2.chunkCount <= |Chunker.ChunkText(content, Chunker.MaxChunkTokens)|
    ensures r.Success? && Text.AllSpace(content) ==> r.value.2.chunkCount == 0 && r.value.0.chunks == store.chunks
  {
    var doc := Document(docId, tenant, title, content, docType, createdAt);
    Record(store, cache, up, doc, Chunker.ChunkText(content, Chunker.MaxChunkTokens), embed, mint)
  }

  /** A successful ingestion appends the document and one row per chunk of
      its content that got a vector: indices 0, 1, ... in chunk order, each
      stamped with the document, the tenant and the title, and estimated at
      one token at least. The summary counts those rows and their tokens. */
  lemma IngestStoresChunks(
    store: Store, cache: Cache.Conn, up: bool,
    tenant: TenantId, title: string, content: string, docType: string,
    docId: Uuid, createdAt: int, mint: nat -> Uuid,
    embed: seq<string> -> Option<seq<Vector>>)
    requires Ingest(store, cache, up, tenant, title, content, docType, docId, createdAt, mint, embed).Success?
    ensures var (store', _, summary) := Ingest(store, cache, up, tenant, title, content, docType, docId, createdAt, mint, embed).value;
      var texts := Chunker.ChunkText(content, Chunker.MaxChunkTokens);
      && store'.documents == store.documents + [Document(docId, tenant, title, content, docType, createdAt)]
      && store'.chunks[..|store.chunks|] == store.chunks
      && |store'.chunks| == |store.chunks| + summary.chunkCount
      && summary.documentId == docId
      && summary.chunkCount <= |texts|
      && summary.totalTokens >= summary.chunkCount
      && forall i :: 0 <= i < summary.chunkCount ==>
           var c := store'.chunks[|store.chunks| + i];
           && c.document == docId && c.tenant == tenant && c.title == title
           && c.index == i && c.content == texts[i]
           && c.tokenCount == Chunker.EstimateTokens(texts[i]) && c.tokenCount >= 1
  {
    var doc := Document(docId, tenant, title, content, docType, createdAt);
    var texts := Chunker.ChunkText(content, Chunker.MaxChunkTokens);
    var added := NewChunks(doc.id, doc.tenant, doc.title, texts, embed(texts).value, mint);
    var store' := Record(store, cache, up, doc, texts, embed, mint).value.0;
    assert store'.chunks == store.chunks + added;
    assert store'.chunks[..|store.chunks|] == store.chunks;
    SumTokensAtLeastCount(added);
  }

  /** Every chunk is estimated at one token at least, so a document stored
      with n chunks reports at least n tokens. */
  lemma {:induction false} SumTokensAtLeastCount(cs: seq<StoredChunk>)
    requires forall i :: 0 <= i < |cs| ==> cs[i].tokenCount >= 1
    ensures SumTokens(cs) >= |cs|
    decreases |cs|
  {
    if cs != [] {
      SumTokensAtLeastCount(cs[1..]);
    }
  }

  lemma RecordTotalAtLeastCount(store: Store, cache: Cache.Conn, up: bool, doc: Document, texts: seq<string>, embed: seq<string> -> Option<seq<Vector>>, mint: nat -> Uuid)
    requires Record(store, cache, up, doc, texts, embed, mint).Success?
    ensures Record(store, cache, up, doc, texts, embed, mint).value.2.totalTokens >= Record(store, cache, up, doc, texts, embed, mint).value.2.chunkCount
  {
    var added := NewChunks(doc.id, doc.tenant, doc.title, texts, embed(texts).value, mint);
    SumTokensAtLeastCount(added);
  }

  // ---------------------------------------------------------------------
  // Deletion

  /** The row `delete_document` targets: the id and the tenant both match. */
  predicate Owns(d: Document, tenant: TenantId, docId: Uuid) {
    d.id == docId && d.tenant == tenant
  }

  /** `delete_document`: deletes the document when it belongs to the tenant,
      the chunks go with it (`ondelete="CASCADE"`), and only then is the
      tenant's cache invalidated. The flag says whether a row was deleted; a
      failing invalidation (`up` false on a connection) reaches the caller. */
  function Delete(store: Store, cache: Cache.Conn, up: bool, tenant: TenantId, docId: Uuid): (r: Result<(Store, Cache.Conn, bool), Cache.CacheError>)
    ensures (forall i :: 0 <= i < |store.documents| ==> !Owns(store.documents[i], tenant, docId)) ==>
      r == Success((store, cache, false))
    ensures r.Success? && r.value.2 ==>
      && (exists i :: 0 <= i < |store.documents| && Owns(store.documents[i], tenant, docId))
      && Cache.Invalidate(cache, up, tenant).Success?
      && r.value.1 == Cache.Invalidate(cache, up, tenant).value.0
      && (forall i :: 0 <= i < |r.value.0.documents| ==>
            r.value.0.documents[i] in store.documents && !Owns(r.value.0.documents[i], tenant, docId))
      && (forall i :: 0 <= i < |store.documents| && !Owns(store.documents[i], tenant, docId) ==>
            store.documents[i] in r.value.0.documents)
      && (forall i :: 0 <= i < |r.value.0.chunks| ==>
            r.value.0.chunks[i] in store.chunks && r.value.0.chunks[i].document != docId)
      && (forall i :: 0 <= i < |store.chunks| && store.chunks[i].document != docId ==>
            store.chunks[i] in r.value.0.chunks)
    ensures ((exists i :: 0 <= i < |store.documents| && Owns(store.documents[i], tenant, docId))
             && Cache.Invalidate(cache, up, tenant).Success?) ==> r.Success? && r.value.2
    ensures r.Failure? ==> Cache.Invalidate(cache, up, tenant).Failure?
  {
    var owned := Filter(store.documents, (d: Document) => Owns(d, tenant, docId));
    if owned == [] then
      assert forall i :: 0 <= i < |store.documents| ==> !Owns(store.documents[i], tenant, docId);
      Success((store, cache, false))
    else
      assert owned[0] in store.documents;
      match Cache.Invalidate(cache, up, tenant)
      case Failure(e) => Failure(e)
      case Success((cache', _)) =>
        var docs := Filter(store.documents, (d: Document) => !Owns(d, tenant, docId));
        var chunks := Filter(store.chunks, (c: StoredChunk) => c.document != docId);
        Success((Store(docs, chunks), cache', true))
  }

  // ---------------------------------------------------------------------
  // Listing

  /** A row of the `list_documents` result. */
  datatype Listed = Listed(id: Uuid, title: string, docType: string, chunkCount: nat, createdAt: int)

  /** `count(DocumentChunk.id)` over the outer join: the chunks of a document,
      zero when it has none. */
  function ChunkCount(chunks: seq<StoredChunk>, docId: Uuid): nat
    decreases |chunks|
  {
    if chunks == [] then 0
    else (if chunks[0].document == docId then 1 else 0) + ChunkCount(chunks[1..], docId)
  }

  function ListedOf(store: Store, d: Document): Listed {
    Listed(d.id, d.title, d.docType, ChunkCount(store.chunks, d.id), d.createdAt)
  }

  /** The rows of the tenant's documents before ordering, in store order. */
  function TenantRows(store: Store, tenant: TenantId): seq<Listed> {
    var docs := Filter(store.documents, (d: Document) => d.tenant == tenant);
    seq(|docs|, i requires 0 <= i < |docs| => ListedOf(store, docs[i]))
  }

  function Age(row: Listed): real {
    row.createdAt as real
  }

  /** A correct answer to the listing query: the tenant's rows, newest first.
      Rows with equal timestamps may come in any order. */
  predicate IsListing(store: Store, tenant: TenantId, rows: seq<Listed>) {
    multiset(rows) == multiset(TenantRows(store, tenant)) && SortedDesc(rows, Age)
  }

  /** `list_documents`. */
  function ListDocuments(store: Store, tenant: TenantId): (rows: seq<Listed>)
    ensures IsListing(store, tenant, rows)
  {
    SortDesc(TenantRows(store, tenant), Age)
  }

  /** Every listed row is a document of the tenant, with its chunk count. */
  lemma ListingIsTenantScoped(store: Store, tenant: TenantId, rows: seq<Listed>, k: nat)
    requires IsListing(store, tenant, rows) && k < |rows|
    ensures exists d :: d in store.documents && d.tenant == tenant && rows[k] == ListedOf(store, d)
  {
    assert rows[k] in multiset(TenantRows(store, tenant));
    var docs := Filter(store.documents, (d: Document) => d.tenant == tenant);
    var j :| 0 <= j < |TenantRows(store, tenant)| && TenantRows(store, tenant)[j] == rows[k];
    assert docs[j] in store.documents && docs[j].tenant == tenant;
  }

  // ---------------------------------------------------------------------
  // Ingest, list and delete together

  lemma {:induction false} ChunkCountAppend(xs: seq<StoredChunk>, ys: seq<StoredChunk>, docId: Uuid)
    ensures ChunkCount(xs + ys, docId) == ChunkCount(xs, docId) + ChunkCount(ys, docId)
    decreases |xs|
  {
    if xs == [] {
      assert xs + ys == ys;
    } else {
      assert (xs + ys)[1..] == xs[1..] + ys;
      ChunkCountAppend(xs[1..], ys, docId);
    }
  }

  lemma {:induction false} ChunkCountNone(cs: seq<StoredChunk>, docId: Uuid)
    requires forall i :: 0 <= i < |cs| ==> cs[i].document != docId
    ensures ChunkCount(cs, docId) == 0
    decreases |cs|
  {
    if cs != [] {
      ChunkCountNone(cs[1..], docId);
    }
  }

  lemma {:induction false} ChunkCountAll(cs: seq<StoredChunk>, docId: Uuid)
    requires forall i :: 0 <= i < |cs| ==> cs[i].document == docId
    ensures ChunkCount(cs, docId) == |cs|
    decreases |cs|
  {
    if cs != [] {
      ChunkCountAll(cs[1..], docId);
    }
  }

  /** Ingestion keeps the store well formed. */
  lemma RecordKeepsWellFormed(store: Store, cache: Cache.Conn, up: bool, doc: Document, texts: seq<string>, embed: seq<string> -> Option<seq<Vector>>, mint: nat -> Uuid)
    requires WellFormed(store)
    requires Record(store, cache, up, doc, texts, embed, mint).Success?
    ensures WellFormed(Record(store, cache, up, doc, texts, embed, mint).value.0)
  {
    var store' := Record(store, cache, up, doc, texts, embed, mint).value.0;
    var added := NewChunks(doc.id, doc.tenant, doc.title, texts, embed(texts).value, mint);
    assert doc.id !in DocumentIds(store);
    assert DocumentIds(store') == DocumentIds(store) + {doc.id} by {
      assert store'.documents[|store.documents|] == doc;
      assert forall d :: d in store'.documents ==> d in store.documents || d == doc;
    }
    forall i, j | 0 <= i < j < |store'.documents| ensures store'.documents[i].id != store'.documents[j].id {
      if j == |store.documents| {
        assert store'.documents[i] in store.documents;
      }
    }
    forall i | 0 <= i < |store'.chunks| ensures store'.chunks[i].document in DocumentIds(store') {
      if i < |store.chunks| {
        assert store'.chunks[i] == store.chunks[i];
      } else {
        assert store'.chunks[i] == added[i - |store.chunks|];
      }
    }
  }

  /** Deletion keeps the store well formed. */
  lemma DeleteKeepsWellFormed(store: Store, cache: Cache.Conn, up: bool, tenant: TenantId, docId: Uuid)
    requires WellFormed(store)
    requires Delete(store, cache, up, tenant, docId).Success?
    ensures WellFormed(Delete(store, cache, up, tenant, docId).value.0)
  {
    var r := Delete(store, cache, up, tenant, docId).value;
    var store' := r.0;
    if r.2 {
      FilterKeepsDistinct(store.documents, (d: Document) => !Owns(d, tenant, docId), (d: Document) => d.id);
      forall i | 0 <= i < |store'.chunks| ensures store'.chunks[i].document in DocumentIds(store') {
        var c := store'.chunks[i];
        assert c in store.chunks && c.document != docId;
        var d :| d in store.documents && d.id == c.document;
        assert !Owns(d, tenant, docId);
        var k :| 0 <= k < |store.documents| && store.documents[k] == d;
        assert d in store'.documents;
      }
    }
  }

  /** Deleting a freshly ingested document, as the tenant that ingested it,
      gives back the store as it was before the ingestion, unless the
      deletion's own invalidation fails (`up'` is whether the store answers
      it). */
  lemma DeleteUndoesRecord(store: Store, cache: Cache.Conn, up: bool, up': bool, doc: Document, texts: seq<string>, embed: seq<string> -> Option<seq<Vector>>, mint: nat -> Uuid)
    requires WellFormed(store)
    requires Record(store, cache, up, doc, texts, embed, mint).Success?
    ensures var (store', cache', _) := Record(store, cache, up, doc, texts, embed, mint).value;
      var d := Delete(store', cache', up', doc.tenant, doc.id);
      && (d.Success? <==> Cache.Invalidate(cache', up', doc.tenant).Success?)
      && (d.Success? ==> d.value.0 == store && d.value.2)
  {
    var (store', cache', _) := Record(store, cache, up, doc, texts, embed, mint).value;
    var added := NewChunks(doc.id, doc.tenant, doc.title, texts, embed(texts).value, mint);
    assert doc.id !in DocumentIds(store);
    assert Owns(store'.documents[|store.documents|], doc.tenant, doc.id);
    var keepDoc := (d: Document) => !Owns(d, doc.tenant, doc.id);
    var keepChunk := (c: StoredChunk) => c.document != doc.id;
    forall i | 0 <= i < |store.documents| ensures keepDoc(store.documents[i]) {
      assert store.documents[i].id in DocumentIds(store);
    }
    FilterDropsTail(store.documents, [doc], keepDoc);
    forall i | 0 <= i < |store.chunks| ensures keepChunk(store.chunks[i]) {
      assert store.chunks[i].document in DocumentIds(store);
    }
    FilterDropsTail(store.chunks, added, keepChunk);
  }

  /** A freshly ingested document is listed for its tenant, with as many
      chunks as the ingestion reported. */
  lemma RecordThenList(store: Store, cache: Cache.Conn, up: bool, doc: Document, texts: seq<string>, embed: seq<string> -> Option<seq<Vector>>, mint: nat -> Uuid)
    requires WellFormed(store)
    requires Record(store, cache, up, doc, texts, embed, mint).Success?
    ensures var (store', _, summary) := Record(store, cache, up, doc, texts, embed, mint).value;
      Listed(doc.id, doc.title, doc.docType, summary.chunkCount, doc.createdAt) in ListDocuments(store', doc.tenant)
  {
    var (store', _, summary) := Record(store, cache, up, doc, texts, embed, mint).value;
    var added := NewChunks(doc.id, doc.tenant, doc.title, texts, embed(texts).value, mint);
    assert doc.id !in DocumentIds(store);
    ChunkCountAppend(store.chunks, added, doc.id);
    ChunkCountNone(store.chunks, doc.id);
    ChunkCountAll(added, doc.id);
    assert ListedOf(store', doc) == Listed(doc.id, doc.title, doc.docType, summary.chunkCount, doc.createdAt);
    var docs := Filter(store'.documents, (d: Document) => d.tenant == doc.tenant);
    assert store'.documents[|store.documents|] == doc;
    assert doc in docs;
    var j :| 0 <= j < |docs| && docs[j] == doc;
    assert TenantRows(store', doc.tenant)[j] == ListedOf(store', doc);
    assert ListedOf(store', doc) in multiset(ListDocuments(store', doc.tenant));
  }

  /** After an ingestion every cached answer of the tenant is gone, and
      every other tenant's cached answers are as they were. */
  lemma RecordInvalidatesTenant<P>(
    store: Store, cache: Cache.Conn, up: bool, doc: Document, texts: seq<string>,
    embed: seq<string> -> Option<seq<Vector>>, mint: nat -> Uuid,
    digest: string -> Cache.Digest, codec: Cache.Codec<P>, other: TenantId, question: string, up': bool)
    requires Record(store, cache, up, doc, texts, embed, mint).Success?
    ensures var cache' := Record(store, cache, up, doc, texts, embed, mint).value.1;
      && Cache.Get(cache', up', digest, codec, doc.tenant, question) == None
      && (other != doc.tenant ==> Cache.Get(cache', up', digest, codec, other, question) == Cache.Get(cache, up', digest, codec, other, question))
  {
    Cache.InvalidateThenMiss(cache, up, up', digest, codec, doc.tenant, question);
    if other != doc.tenant {
      Cache.InvalidateIsolatesTenants(cache, up, up', digest, codec, doc.tenant, other, question);
    }
  }

  /** A deletion that removed a document leaves no cached answer of the
      tenant; one that removed nothing leaves the cache alone. */
  lemma DeleteInvalidatesTenant<P>(
    store: Store, cache: Cache.Conn, up: bool, tenant: TenantId, docId: Uuid,
    digest: string -> Cache.Digest, codec: Cache.Codec<P>, question: string, up': bool)
    requires Delete(store, cache, up, tenant, docId).Success?
    ensures var (_, cache', deleted) := Delete(store, cache, up, tenant, docId).value;
      && (deleted ==> Cache.Get(cache', up', digest, codec, tenant, question) == None)
      && (!deleted ==> cache' == cache)
  {
    var (_, cache', deleted) := Delete(store, cache, up, tenant, docId).value;
    if deleted {
      Cache.InvalidateThenMiss(cache, up, up', digest, codec, tenant, question);
    }
  }
}
