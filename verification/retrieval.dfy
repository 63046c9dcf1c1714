/** The tenant-scoped vector search of the query service: the chunks of the
    tenant whose similarity to the question is above the threshold, joined to
    their document's title, most similar first, at most `TopK` of them.

    Cosine similarity is computed by the database; here it is any function
    `score` from a chunk to an ordered value. The query orders only by
    distance, so chunks with equal similarity may come back in any order:
    `IsRetrieval` admits every such answer, and `Retrieve` is one of them. */
module Retrieval {

  import opened Wrappers
  import opened Identifiers
  import opened Rows
  import opened Corpus

  /** TOP_K, the `LIMIT` of the search. */
  const TopK: nat := 5

  /** SIMILARITY_THRESHOLD, the strict lower bound on similarity. */
  const SimilarityThreshold: real := 0.3

  /** A row of the search: a context chunk as handed to the generator. */
  datatype Hit = Hit(chunkId: Uuid, content: string, title: string, similarity: real)

  function Similarity(h: Hit): real {
    h.similarity
  }

  /** `1 - (embedding <=> query)` as a score on chunks. */
  function ScoreAgainst(similarity: (Vector, Vector) -> real, query: Vector): StoredChunk -> real {
    (c: StoredChunk) => similarity(c.embedding, query)
  }

  /** The title the join `d.id = dc.document_id` finds for a chunk. */
  function TitleOf(docs: seq<Document>, id: Uuid): (t: Option<string>)
    ensures t.Some? <==> exists i :: 0 <= i < |docs| && docs[i].id == id
    ensures t.Some? ==> exists i :: 0 <= i < |docs| && docs[i].id == id && docs[i].title == t.value
    decreases |docs|
  {
    if docs == [] then None
    else if docs[0].id == id then Some(docs[0].title)
    else
      var t := TitleOf(docs[1..], id);
      assert forall i :: 1 <= i < |docs| ==> docs[i] == docs[1..][i - 1];
      t
  }

  /** The `WHERE` of the search: the chunk is the tenant's and its
      similarity is strictly above the threshold. */
  predicate Admits(tenant: TenantId, score: StoredChunk -> real, c: StoredChunk) {
    c.tenant == tenant && score(c) > SimilarityThreshold
  }

  function HitOf(c: StoredChunk, title: string, score: StoredChunk -> real): Hit {
    Hit(c.id, c.content, title, score(c))
  }

  /** `h` is the row of some chunk of `chunks` that the search admits. */
  ghost predicate RowOf(docs: seq<Document>, chunks: seq<StoredChunk>, tenant: TenantId, score: StoredChunk -> real, h: Hit) {
    exists k :: 0 <= k < |chunks| && Found(docs, chunks[k], tenant, score, h)
  }

  predicate Found(docs: seq<Document>, c: StoredChunk, tenant: TenantId, score: StoredChunk -> real, h: Hit) {
    Admits(tenant, score, c) && TitleOf(docs, c.document).Some? && h == HitOf(c, TitleOf(docs, c.document).value, score)
  }

  /** The rows the `WHERE` and the join admit, before ordering and limit, in
      store order. */
  function Candidates(docs: seq<Document>, chunks: seq<StoredChunk>, tenant: TenantId, score: StoredChunk -> real): seq<Hit>
    decreases |chunks|
  {
    if chunks == [] then []
    else
      var rest := Candidates(docs, chunks[1..], tenant, score);
      var c := chunks[0];
      if Admits(tenant, score, c) && TitleOf(docs, c.document).Some? then
        [HitOf(c, TitleOf(docs, c.document).value, score)] + rest
      else rest
  }

  /** Every candidate is the row of an admitted chunk of the store. */
  lemma {:induction false} CandidatesSound(docs: seq<Document>, chunks: seq<StoredChunk>, tenant: TenantId, score: StoredChunk -> real, i: nat)
    requires i < |Candidates(docs, chunks, tenant, score)|
    ensures RowOf(docs, chunks, tenant, score, Candidates(docs, chunks, tenant, score)[i])
    decreases |chunks|
  {
    var hs := Candidates(docs, chunks, tenant, score);
    var rest := Candidates(docs, chunks[1..], tenant, score);
    var c := chunks[0];
    var taken := Admits(tenant, score, c) && TitleOf(docs, c.document).Some?;
    if taken && i == 0 {
      assert Found(docs, chunks[0], tenant, score, hs[0]);
    } else {
      var i' := if taken then i - 1 else i;
      assert hs[i] == rest[i'];
      CandidatesSound(docs, chunks[1..], tenant, score, i');
      var k :| 0 <= k < |chunks[1..]| && Found(docs, chunks[1..][k], tenant, score, rest[i']);
      assert Found(docs, chunks[k + 1], tenant, score, hs[i]);
    }
  }

  /** Every admitted chunk whose document exists is a candidate. */
  lemma {:induction false} CandidatesComplete(docs: seq<Document>, chunks: seq<StoredChunk>, tenant: TenantId, score: StoredChunk -> real, k: nat)
    requires k < |chunks| && Admits(tenant, score, chunks[k]) && TitleOf(docs, chunks[k].document).Some?
    ensures HitOf(chunks[k], TitleOf(docs, chunks[k].document).value, score) in Candidates(docs, chunks, tenant, score)
    decreases |chunks|
  {
    if k > 0 {
      assert chunks[k] == chunks[1..][k - 1];
      CandidatesComplete(docs, chunks[1..], tenant, score, k - 1);
    }
  }

  /** A correct answer to the search: some of the candidates, most similar
      first, as many as the limit allows, and no candidate left out is more
      similar than the least similar one kept. */
  predicate IsRetrieval(cands: seq<Hit>, rows: seq<Hit>) {
    && multiset(rows) <= multiset(cands)
    && SortedDesc(rows, Similarity)
    && |rows| == Min(TopK, |cands|)
    && (|rows| > 0 ==> forall h :: h in multiset(cands) - multiset(rows) ==> Similarity(h) <= Similarity(rows[|rows| - 1]))
  }

  /** The search, with ties kept in store order. */
  function Retrieve(store: Store, tenant: TenantId, score: StoredChunk -> real): (rows: seq<Hit>)
    ensures IsRetrieval(Candidates(store.documents, store.chunks, tenant, score), rows)
  {
    var cands := Candidates(store.documents, store.chunks, tenant, score);
    SortTakeIsRetrieval(cands);
    Take(SortDesc(cands, Similarity), TopK)
  }

  lemma SortTakeIsRetrieval(cands: seq<Hit>)
    ensures IsRetrieval(cands, Take(SortDesc(cands, Similarity), TopK))
  {
    var sorted := SortDesc(cands, Similarity);
    var rows := Take(sorted, TopK);
    var n := |rows|;
    assert rows == sorted[..n];
    PrefixSortedDesc(sorted, Similarity, n);
    TakeSplitsMultiset(sorted, n);
    if n > 0 {
      LeftOutBelow(sorted, Similarity, n);
    }
  }

  /** Every retrieved row comes from a chunk of the requesting tenant whose
      similarity is above the threshold, and carries that chunk's content,
      its document's title and its similarity. */
  lemma RetrievalIsTenantScoped(store: Store, tenant: TenantId, score: StoredChunk -> real, rows: seq<Hit>, i: nat)
    requires IsRetrieval(Candidates(store.documents, store.chunks, tenant, score), rows)
    requires i < |rows|
    ensures exists k :: (0 <= k < |store.chunks|
      && store.chunks[k].tenant == tenant
      && score(store.chunks[k]) > SimilarityThreshold
      && rows[i].chunkId == store.chunks[k].id
      && rows[i].content == store.chunks[k].content
      && rows[i].similarity == score(store.chunks[k])
      && Some(rows[i].title) == TitleOf(store.documents, store.chunks[k].document))
  {
    var cands := Candidates(store.documents, store.chunks, tenant, score);
    assert rows[i] in multiset(rows);
    assert rows[i] in multiset(cands);
    var j :| 0 <= j < |cands| && cands[j] == rows[i];
    CandidatesSound(store.documents, store.chunks, tenant, score, j);
  }

  /** Every retrieved row is above the threshold; there are at most `TopK`
      rows, and none exactly when no chunk of the tenant is admitted. */
  lemma RetrievalBounds(store: Store, tenant: TenantId, score: StoredChunk -> real, rows: seq<Hit>)
    requires IsRetrieval(Candidates(store.documents, store.chunks, tenant, score), rows)
    ensures |rows| <= TopK
    ensures forall i :: 0 <= i < |rows| ==> rows[i].similarity > SimilarityThreshold
    ensures rows == [] <==> Candidates(store.documents, store.chunks, tenant, score) == []
  {
    forall i | 0 <= i < |rows| ensures rows[i].similarity > SimilarityThreshold {
      RetrievalIsTenantScoped(store, tenant, score, rows, i);
    }
  }

  /** Another tenant's chunks never change what a tenant retrieves. */
  lemma {:induction false} CandidatesIgnoreOtherTenants(docs: seq<Document>, chunks: seq<StoredChunk>, extra: seq<StoredChunk>, tenant: TenantId, score: StoredChunk -> real)
    requires forall k :: 0 <= k < |extra| ==> extra[k].tenant != tenant
    ensures Candidates(docs, chunks + extra, tenant, score) == Candidates(docs, chunks, tenant, score)
    decreases |chunks|
  {
    if chunks == [] {
      assert chunks + extra == extra;
      CandidatesNone(docs, extra, tenant, score);
    } else {
      assert (chunks + extra)[1..] == chunks[1..] + extra;
      CandidatesIgnoreOtherTenants(docs, chunks[1..], extra, tenant, score);
    }
  }

  lemma {:induction false} CandidatesNone(docs: seq<Document>, chunks: seq<StoredChunk>, tenant: TenantId, score: StoredChunk -> real)
    requires forall k :: 0 <= k < |chunks| ==> chunks[k].tenant != tenant
    ensures Candidates(docs, chunks, tenant, score) == []
    decreases |chunks|
  {
    if chunks != [] {
      CandidatesNone(docs, chunks[1..], tenant, score);
    }
  }
}
