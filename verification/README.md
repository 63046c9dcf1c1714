# Knowledge assistant core, in Dafny

This project models the core of a multi-tenant internal knowledge
assistant. Tenants ingest documents. A document is cut into paragraph
chunks, each chunk is embedded, and the chunks are stored next to the
document. A question is answered by a retrieval-augmented pipeline. The
pipeline first consults a tenant-scoped answer cache. On a miss it embeds
the question, searches the tenant's chunks by similarity, asks a generator
for an answer, writes an audit row, and caches the response only when it
is an answer and not a refusal.

The model has twelve modules, one per concern of the services:

- `Wrappers`: `Option`, `Result` and `Min`.
- `Identifiers`: the canonical text of a UUID. Every tenant id and row id is one.
- `Text`: the Python string operations the services rely on: `isspace`,
  `strip`, `lower`, `split()`, `join` and `s[:n]`.
- `Splitting`: the two regular-expression splits of the chunker, as scans:
  `\n{2,}` and `(?<=[.!?])\s+`.
- `Chunker`: `_estimate_tokens` and `chunk_text`. The loop is a fold of
  `Step` over the paragraphs. `IsChunking` is an independent description of
  what a correct chunking is, and the fold is proved to be the only one.
- `Rows`: the ordering and filtering of query results: a descending sort,
  `Filter` and `Take`.
- `Cache`: `_cache_key`, `get_cached_answer`, `set_cached_answer` and
  `invalidate_tenant`, over a map from key to stored text.
- `Corpus`: `ingest_document`, `delete_document` and `list_documents`, over
  a store holding the rows of the two tables.
- `Retrieval`: the tenant-scoped vector search. `IsRetrieval` is a relation,
  because the query has no tie-break for equal similarities.
- `Prompts`: `build_user_prompt` and `build_system_prompt`.
- `Generation`: `LLMResult`, the stub generator, the mapping of an external
  chat-completion reply, and `get_llm_provider`.
- `Query`: `ask_question`, as a state machine over the cache and the audit log.

## Collaborators

Everything outside the core is a parameter. The parameters are:

- the SHA-256 digest: any function onto 16-character strings;
- the JSON codec: an encode and a decode function;
- the embedder: a function from a list of texts to a list of vectors, or
  `None` when it raises;
- the database's similarity search: any function from a tenant and a query
  vector to rows, or to `None` when the query raises;
- the similarity score;
- `round(x, 4)`;
- the chat-completion call and `json.loads`;
- the ids and timestamps the database assigns;
- the clock readings the latency is taken from;
- whether the key/value store answers each command. It fails command by
  command, so every cache operation takes its own availability, and a
  question has one for its lookup and one for its write;
- the iteration order of a Python set, as a function of the titles inserted
  into it, in insertion order.

Where a property needs a collaborator to behave, the lemma says so in its
`requires`. For example, `Query.AnswerIsCached` requires a codec that reads
back the response it writes, and `Query.SourcesAreTenantScoped` requires a
search that answers correctly for the store whenever it answers.

## Model

| member | source | states |
|---|---|---|
| Chunker.EstimateTokens | src/backend/app/services/document_service.py:32-34 | The estimate is `floor(words / 0.75)` over real numbers, raised to 1 when smaller, so it is never below one. The body's integer formula `4*w/3` is proved equal to it. |
| Text.Strip | src/backend/app/services/document_service.py:46 | `strip` returns a slice of its input with no whitespace at either end. The result is empty exactly when the leading whitespace run covers the whole input. |
| Text.StripEmptyIff | src/backend/app/services/document_service.py:46 | A piece strips to the empty string exactly when it is all whitespace, which is when the comprehension drops it. |
| Text.StripTrims | src/backend/app/services/cache_service.py:50 | `strip` equals `rstrip` applied after `lstrip`. |
| Text.StripIgnoresPadding | src/backend/app/services/cache_service.py:50 | Whitespace added before and after a string does not change what `strip` returns. |
| Text.WordsAreWords | src/backend/app/services/document_service.py:34 | Every word of `split()` is a non-empty run of non-whitespace characters. |
| Text.WordsEmptyIffBlank | src/backend/app/services/document_service.py:34 | `split()` gives no words, so a word count of 0, exactly when the text is empty or all whitespace. |
| Text.WordsOfWord | src/backend/app/services/document_service.py:34 | A non-empty text with no whitespace is one word, itself. |
| Text.WordsSplitAtSpace | src/backend/app/services/llm_service.py:75 | Splitting at a whitespace character splits the words: the words of `a + c + b`, for whitespace `c`, are the words of `a` followed by the words of `b`, and the counts add. |
| Splitting.SplitBlankLines | src/backend/app/services/document_service.py:45 | `re.split(r"\n{2,}", s)` returns at least one piece, and no piece contains two consecutive newlines. |
| Splitting.SplitJoinBlankLines | src/backend/app/services/document_service.py:45-46 | Round trip: splitting the `"\n\n"` join of clean paragraphs on blank lines gives the paragraphs back. |
| Splitting.LastSentenceIsStrippedSuffix | src/backend/app/services/document_service.py:59-60 | The last piece of the sentence split of a stripped paragraph is a non-empty, stripped suffix of the paragraph with no sentence break in it. It is the whole paragraph when the paragraph has no break, and otherwise exactly what follows the whitespace run of some break. |
| Chunker.Paragraphs | src/backend/app/services/document_service.py:45-46 | Every paragraph is non-empty, has no whitespace at either end, and contains no blank line. |
| Chunker.ParagraphsEmptyIffBlank | src/backend/app/services/document_service.py:45-46 | The text has no paragraphs exactly when it is empty or all whitespace. |
| Chunker.ChunkGroupsCharacterized | src/backend/app/services/document_service.py:48-69 | The loop's output is the one and only chunking of the paragraphs: each paragraph appears in exactly one group, in order; the first group carries no overlap; a group is closed exactly when it is non-empty and its running total plus the next paragraph's estimate exceeds the budget; and the next group carries the closed group's last sentence. |
| Chunker.ChunkText | src/backend/app/services/document_service.py:37-71 | `chunk_text` returns no chunks exactly when the text is empty or all whitespace. It never returns more chunks than there are paragraphs. |
| Chunker.ChunkTextShape | src/backend/app/services/document_service.py:52-69 | No chunk is empty or has whitespace at either end. When there is a paragraph, there are between one chunk and as many chunks as paragraphs. |
| Chunker.UnoverlapRecoversParagraphs | src/backend/app/services/document_service.py:52-66 | Each paragraph lands in exactly one chunk, in input order. Dropping the carried sentence from each chunk that has one and concatenating the chunks' pieces gives back the paragraph list. |
| Chunker.CarriedSentence | src/backend/app/services/document_service.py:55-63 | For every close, the paragraph that triggered it is the first paragraph after those of the earlier chunks, and the closed chunk's total plus that paragraph's estimate exceeds the budget. The next chunk starts with the last sentence of the closed chunk's last piece, when that sentence is not empty, followed by the triggering paragraph. Otherwise the triggering paragraph comes first. |
| Chunker.SingleParagraphIsOneChunk | src/backend/app/services/document_service.py:55-69 | A paragraph is never split, however far over the budget it is. Text with one paragraph gives exactly that paragraph as its one chunk. |
| Chunker.CleanParagraphIsOneChunk | src/backend/app/services/document_service.py:55-69 | A single clean paragraph, whatever its length and budget, is its own only paragraph and comes back unchanged as the one chunk. |
| Cache.CacheKey | src/backend/app/services/cache_service.py:47-52 | The key is the tenant's prefix `ka:query:{tenant}:` followed by the 16-character digest of the normalised question. It has a fixed length beyond the tenant. |
| Cache.KeysSeparateTenants | src/backend/app/services/cache_service.py:51-52 | Two different tenants never share a key, whatever their questions are. |
| Cache.KeyIgnoresPadding | src/backend/app/services/cache_service.py:50 | Whitespace around a question does not change its key. |
| Cache.KeyIgnoresCase | src/backend/app/services/cache_service.py:50 | Questions that agree once lower-cased have the same key. |
| Cache.NormalizeKeepsInnerSpace | src/backend/app/services/cache_service.py:50 | A question that neither starts nor ends with whitespace is only lower-cased: the whitespace inside it is kept whatever it is. So "a b" and "a  b" normalise to different strings (`Cache.InnerSpaceExamples`). |
| Cache.LowerStrip | src/backend/app/services/cache_service.py:50 | Lower-casing and stripping commute. |
| Cache.Get | src/backend/app/services/cache_service.py:56-69 | A lookup finds a payload exactly when all of these hold: there is a connection, the store answers this lookup, the key is present, the value is not empty, and the value decodes. A found payload is the decoded value. Every other case, store errors included, is a miss and not an error. |
| Cache.Set | src/backend/app/services/cache_service.py:71-88 | With no connection, or a store that fails this write, nothing changes and nothing is reported. Otherwise the key holds the encoded payload and every other entry is unchanged. |
| Cache.Invalidate | src/backend/app/services/cache_service.py:90-100 | With no connection the call returns 0 and changes nothing. A store that fails the scan raises to the caller. Otherwise the call deletes exactly the keys that carry the tenant's prefix, keeps every other entry as it was, and returns how many keys it deleted. |
| Cache.SetThenGet | src/backend/app/services/cache_service.py:61-83 | Round trip: after a set that the store answers, a get that the store answers, for the same tenant and any question with the same normal form returns the payload. This needs a codec that reads back what it writes and never writes the empty text. |
| Cache.SetIsolatesTenants | src/backend/app/services/cache_service.py:52-83 | A set for one tenant leaves every other tenant's answers as they were. |
| Cache.PrefixIsolatesTenants | src/backend/app/services/cache_service.py:52-94 | A key of one tenant never carries another tenant's prefix, because tenant ids are UUIDs. |
| Cache.InvalidateThenMiss | src/backend/app/services/cache_service.py:94-98 | After a successful invalidation, every question of the tenant misses. |
| Cache.InvalidateIsolatesTenants | src/backend/app/services/cache_service.py:94-98 | Invalidating one tenant leaves every other tenant's answers as they were. |
| Corpus.NewChunks | src/backend/app/services/document_service.py:115-124 | One chunk row per pair of `zip(text_chunks, embeddings)`, so `min` of the two lengths. Row i has index i, the chunk's text, its vector and its token estimate, and is stamped with the document, the tenant and the title. |
| Corpus.Ingest | src/backend/app/services/document_service.py:85-138 | Ingesting under a taken document id fails. A successful ingestion appends exactly the new document, with the given tenant, title, content and type. Its summary names that document and title and counts at most one row per chunk of the content. Blank content adds no chunk rows. |
| Corpus.Record | src/backend/app/services/document_service.py:95-138 | A taken document id, a failing embedder, a vector that does not fit the column, and a failing cache each fail the whole call. A dimension mismatch means a new row's vector does not fit the column. The call succeeds whenever none of these four happens. On success, the document and the new chunk rows are appended, the tenant's cache is invalidated, and the summary reports the row count and the sum of the rows' token counts. |
| Corpus.IngestStoresChunks | src/backend/app/services/document_service.py:106-137 | A successful ingestion appends the document and, after the existing rows, one row per chunk of `chunk_text(content)` that got a vector. The rows have indices 0, 1, … in chunk order and the right document, tenant, title, text and estimate. The summary counts at most as many rows as there are chunks, and at least as many tokens as rows. |
| Corpus.RecordTotalAtLeastCount | src/backend/app/services/document_service.py:121-137 | `total_tokens` is at least `chunk_count`, since every chunk is estimated at one token or more. |
| Corpus.Delete | src/backend/app/services/document_service.py:171-184 | When no document has both the id and the tenant, nothing changes, the cache is untouched, and the call returns false. When one does and the invalidation succeeds, the call succeeds and returns true; exactly that document and its chunks go, every other row stays, and the tenant's cache is invalidated. An invalidation error reaches the caller. |
| Corpus.ListDocuments | src/backend/app/services/document_service.py:141-168 | The listing holds the tenant's documents, each with its chunk count, newest first. It is a permutation of those rows, so no other tenant's documents appear. |
| Corpus.ListingIsTenantScoped | src/backend/app/services/document_service.py:152-154 | Every row of a listing is a document of the requesting tenant, carrying that document's chunk count. |
| Corpus.RecordKeepsWellFormed | src/backend/app/services/document_service.py:102-126 | Ingestion keeps document ids distinct and keeps every chunk pointing at an existing document. |
| Corpus.DeleteKeepsWellFormed | src/backend/app/services/document_service.py:175-179 | Deletion, with the cascade to chunks, keeps document ids distinct and every chunk pointing at an existing document. |
| Corpus.DeleteUndoesRecord | src/backend/app/services/document_service.py:95-183 | Deleting a freshly ingested document, as its tenant, succeeds exactly when its own invalidation does. Then it deletes a row and gives back the store as it was before the ingestion. |
| Corpus.RecordThenList | src/backend/app/services/document_service.py:133-164 | A freshly ingested document is listed for its tenant, with the chunk count that ingestion reported. |
| Corpus.RecordInvalidatesTenant | src/backend/app/services/document_service.py:130-131 | After an ingestion, every cached answer of the tenant misses, and other tenants' cached answers are unchanged. |
| Corpus.DeleteInvalidatesTenant | src/backend/app/services/document_service.py:181-184 | A deletion that removed a row leaves the tenant no cached answer. One that removed nothing leaves the cache as it was. |
| Retrieval.TitleOf | src/backend/app/services/query_service.py:79-82 | The join finds a title exactly when some document has the chunk's document id, and the title is that document's title. |
| Retrieval.CandidatesSound | src/backend/app/services/query_service.py:81-84 | Every candidate row comes from a chunk of the store. That chunk belongs to the tenant, is above the threshold, and has a document. |
| Retrieval.CandidatesComplete | src/backend/app/services/query_service.py:81-84 | Every chunk of the tenant that is above the threshold and has a document is a candidate. |
| Retrieval.Retrieve | src/backend/app/services/query_service.py:72-99 | The search with ties kept in store order is a correct retrieval. So `IsRetrieval` can always be met. |
| Retrieval.RetrievalIsTenantScoped | src/backend/app/services/query_service.py:82-84 | Every row of any correct retrieval is a chunk of the requesting tenant above the threshold. The row carries that chunk's content, similarity and document title. |
| Retrieval.RetrievalBounds | src/backend/app/services/query_service.py:30-86 | A correct retrieval has at most 5 rows, all with similarity strictly above 0.3. It is empty exactly when no chunk is admitted. |
| Retrieval.CandidatesIgnoreOtherTenants | src/backend/app/services/query_service.py:83 | Adding another tenant's chunks to the store never changes what a tenant retrieves. |
| Prompts.NatToString | src/backend/app/prompts/templates.py:53 | A document number is rendered as non-empty decimal digits with no leading zero. |
| Prompts.ParseNatToString | src/backend/app/prompts/templates.py:50-53 | Reading a rendered number back gives the number. So distinct documents get distinct numbers (`Prompts.NumeralsDiffer`). |
| Prompts.NumeralsDiffer | src/backend/app/prompts/templates.py:50-53 | Distinct numbers render differently. |
| Prompts.ContextParts | src/backend/app/prompts/templates.py:49-53 | There is one part per context chunk, numbered from 1 in input order. |
| Prompts.UserPrompt | src/backend/app/prompts/templates.py:47-68 | The user prompt opens with the context heading and ends with the closing instruction. Its length is the sum of its five parts' lengths. |
| Prompts.UserPromptReadsBack | src/backend/app/prompts/templates.py:61-68 | The prompt can be read back. It opens with the context heading and then the context block. The question follows the question heading verbatim. The prompt ends with the fixed closing instruction. |
| Prompts.UserPromptDeterminesQuestion | src/backend/app/prompts/templates.py:61-68 | For the same context, equal prompts come only from equal questions. |
| Prompts.EmptyContextNotice | src/backend/app/prompts/templates.py:55-59 | Without context, the prompt carries "(No context documents available)". |
| Prompts.EntryInPrompt | src/backend/app/prompts/templates.py:49-57 | Each context chunk appears in the prompt as its numbered part, whatever the other chunks are. |
| Prompts.MissingFieldsDefault | src/backend/app/prompts/templates.py:51-53 | A missing title renders as "Unknown" and missing content as nothing. |
| Prompts.SystemPrompt | src/backend/app/prompts/templates.py:13-44 | The system prompt opens with the assistant's role statement and ends with the refusal schema. |
| Prompts.SystemPromptSchemas | src/backend/app/prompts/templates.py:13-44 | The system prompt contains both the answer schema and the refusal schema. |
| Prompts.AnswerSchemaNotRefused | src/backend/app/prompts/templates.py:29-35 | The answer schema declares `"refused": false`. |
| Prompts.RefusalSchemaRefused | src/backend/app/prompts/templates.py:38-44 | The refusal schema declares `"refused": true`. |
| Generation.StubGenerate | src/backend/app/services/llm_service.py:42-85 | Without context, the stub refuses with its fixed reason, an empty answer and zero tokens. With context, it answers with no reason. Either way the model is "stub-model-v1". The total is the word count of answer and question, and prompt and completion tokens are each half of it, rounded down. |
| Generation.StubNamesEveryTitle | src/backend/app/services/llm_service.py:61-66 | The stub's answer names the title of every context chunk, whatever order the set built from the titles lists them in, as long as it lists each distinct title once. |
| Generation.StubQuotesExcerpt | src/backend/app/services/llm_service.py:62-68 | Each of the first three chunks appears in the answer as a bullet, cut to 200 characters. |
| Generation.StubReadsFirstExcerptsOnly | src/backend/app/services/llm_service.py:61-68 | Only the titles in context order and the first three chunks' contents matter. Two contexts that agree on those get the same stub result, whatever their ids, similarities and later contents. |
| Generation.StubTokenSplit | src/backend/app/services/llm_service.py:75-83 | Prompt plus completion tokens is the total, or one less than it. |
| Generation.RawText | src/backend/app/services/llm_service.py:115 | The raw reply is never empty. It is the message content when that is non-empty, and `{}` otherwise. |
| Generation.MapReply | src/backend/app/services/llm_service.py:116-133 | A reply that is not JSON becomes an answer: the raw text, not refused, with no reason. A JSON value that is not an object raises. In an object: a missing `answer` is the raw text and `null` is no answer; a present `refused` is copied and a missing one is false; a missing `refused_reason` is no reason. Missing usage gives zero tokens. The model is the configured one. |
| Generation.MapReplyReadsBack | src/backend/app/services/llm_service.py:123-133 | Round trip: a reply object that carries every field of a result, with `null` for an absent answer or reason, and the result's usage and model, maps back to that same result. |
| Generation.UnparseableReplyIsAnswer | src/backend/app/services/llm_service.py:118-126 | An external reply that does not parse is taken as the answer text and is not a refusal. |
| Generation.ExternalGenerate | src/backend/app/services/llm_service.py:100-133 | The external provider sends the system prompt and the user prompt built from the question and the context. It fails with a request error exactly when the completion call raises. Otherwise it fails exactly when the reply is JSON but not an object. A result always carries the configured model. |
| Generation.ExternalNeedNotRefuse | src/backend/app/services/llm_service.py:49-133 | On empty context the stub refuses, but the external provider need not: a reply of `{}` is an answer. |
| Generation.SelectProvider | src/backend/app/services/llm_service.py:139-142 | The external provider is chosen exactly for the setting "openai", and the stub for every other setting. |
| Generation.Generate | src/backend/app/services/llm_service.py:48-85 | The stub provider never fails, and gives the stub's result. |
| Query.CachedPayload | src/backend/app/services/query_service.py:43-44 | The pipeline takes the hit path exactly when the cache lookup returns a truthy payload. |
| Query.HitRecord | src/backend/app/services/query_service.py:46-55 | The audit row of a hit is marked cached and has no tokens. It takes the answer, sources and status from the payload, with defaults "", empty and "completed". A cached `null` status becomes the column default "pending", because the ORM leaves a `None` attribute out of the insert. It has a model exactly when the payload names one, and then it is that model. The latency is the one measured when the row is written. |
| Query.HitPath | src/backend/app/services/query_service.py:43-62 | A hit appends one audit row and leaves the cache alone. It returns the payload with the row's id, `cached` set, and the latency. |
| Query.Context | src/backend/app/services/query_service.py:65-99 | Without a vector for the question, the call fails as not embedded. Otherwise it fails exactly when the requesting tenant's search for the first vector raises, and the context is that search's rows. |
| Query.Sources | src/backend/app/services/query_service.py:122-130 | There is one source per context chunk, in context order. Each carries the chunk's id and title, the rounded similarity, and the first 300 characters of its content. |
| Query.StatusOf | src/backend/app/services/query_service.py:132 | Status is "refused" exactly when the generator refused, and "completed" otherwise. |
| Query.MissRecord | src/backend/app/services/query_service.py:136-149 | The audit row of a generated response is not cached. Its answer is absent on a refusal and is the generator's answer otherwise. It copies the reason, the three token counts and the model, and has the status and the sources. The latency is the one measured when the row is written. |
| Query.MissPayload | src/backend/app/services/query_service.py:153-168 | The response answer is the generator's answer, or "" when there is none. The response copies the reason and the token counts, says it is not cached, and carries the request id, the question, the status and the sources. |
| Query.Respond | src/backend/app/services/query_service.py:117-174 | A generator error reaches the caller. Otherwise one audit row is appended, and the cache is written with the response exactly when the generator did not refuse. |
| Query.Ask | src/backend/app/services/query_service.py:34-174 | A truthy cached payload takes the hit path. On a miss, the call fails when the question gets no vector or the search raises, and otherwise responds from the retrieved context, writing to the cache under the write's own availability. |
| Query.AskAuditsOnce | src/backend/app/services/query_service.py:46-151 | Every call that returns appends exactly one audit row with the tenant and the given id and keeps the earlier rows. The response carries that id. The row and the response agree on `cached`, which is true exactly on a hit. |
| Query.HitSkipsPipeline | src/backend/app/services/query_service.py:43-62 | A hit never embeds, searches or generates: replacing those collaborators changes nothing. A hit never fails and leaves the cache as it was. |
| Query.MissStatus | src/backend/app/services/query_service.py:132-157 | On a miss, the status is "refused" exactly when the generator refused. A refusal leaves no answer in the audit row, and an answer is copied there. The response answer is the generator's answer or "". The row is not cached. |
| Query.RefusalIsNotCached | src/backend/app/services/query_service.py:170-172 | A refused response never changes the cache. |
| Query.RefusalMissesAgain | src/backend/app/services/query_service.py:170-172 | After a refusal, a later lookup finds what it would have found before the call. So when the first lookup reached the store and missed, asking again misses again, whether or not the store answers the second lookup. |
| Query.AnswerIsCached | src/backend/app/services/query_service.py:43-172 | Asking again after an answer, with the same question up to case and surrounding whitespace, is a hit. It returns the first response with the new id, `cached` set and the new latency. This needs a connection, a store that answers the write and the later lookup, and a codec that reads back the response it wrote. |
| Query.SourcesAreTenantScoped | src/backend/app/services/query_service.py:72-130 | Given a search that, whenever it answers, answers correctly for every tenant and vector, every source of a response comes from a chunk of the requesting tenant whose similarity to the question's vector is above 0.3. There are at most 5 sources, in non-increasing similarity. |
| Query.StubRefusesWithoutContext | src/backend/app/services/query_service.py:117-172 | With the stub and nothing retrieved, the response is a refusal with an empty answer, no sources and the stub's reason, and the cache is unchanged. |

## Left out

- SHA-256 and JSON: they are collaborators. The digest is any function onto 16-character strings. The codec is any encode/decode pair, and the lemmas that need it to round-trip say so.
- TTL expiry of cached answers (`setex`): time-dependent. An entry stays until it is invalidated.
- The clock: the two latency readings are a `Timing` parameter.
- Database-assigned values: the ids of new rows and the creation time are parameters. Chunk row ids come from a `mint` parameter.
- Cosine distance and `round(similarity, 4)`: floating point. Similarity is an abstract real-valued score and rounding is a parameter. The search itself is a parameter, related to the store by `IsRetrieval`.
- Tie order: the search and the listing order only by similarity and by creation time. `IsRetrieval` and `IsListing` therefore admit any order among equal keys. `Retrieval.Retrieve` and `Corpus.ListDocuments` pick store order, which is one admitted order.
- Embedding: `embedding_service` is not part of this model. The embedder is a function from texts to vectors, or `None` when it raises.
- Metadata: a document's free-form `metadata` is not stored. The chunk metadata keeps only `document_title`.
- `validate_tenant` and the HTTP layer: tenant ids are UUIDs by type. Request validation (question length, rating range) and routing are outside this model.
- Transactions: a failed ingestion or deletion leaves the store as it was, since the session is rolled back. In the model a failure carries no new store, so the caller keeps the old one. The session itself is not modelled.
- Concurrency: every call runs alone. Two cold-cache requests racing to fill the cache are not modelled.
- `scan_iter` internals: the scan is modelled as visiting exactly the keys with the tenant's prefix. A store failing half-way through the deletions is modelled as failing before any.
- Unicode case mapping: `Text.Lower` maps only ASCII letters. Python's `str.lower` maps every cased character.
- Reply field types: the reply object's `answer`, `refused` and `refused_reason` are modelled as absent, `null`, or a value of the expected type. Other JSON types, and the truthiness of a non-boolean `refused`, are not modelled.
- Cached payload shapes: a cached value is decoded to a `Payload` or to nothing. A cached JSON value that is not an object is not modelled. Keys the service never writes are kept only as a set of names (`others`): they make the payload truthy, but their values are not modelled.
- Set iteration order: the stub lists the titles through a Python set. Its order depends on string hashes, which are fixed for a process, and on the insertion order. It is a parameter `order` from the inserted titles, in insertion order, to the listing. The lemmas that need it require only that it lists each distinct title once.
- Query.HitRecord: column widths are not enforced. A cached status longer than 20 characters, or a cached model name longer than 100, makes the audit insert fail in the service, but the model records the row. On the miss path the status is always "completed" or "refused", and the model name comes from the configuration, whose length is not checked either. The non-null constraints of the audit table are not enforced either.
- Vector width: the `Vector(384)` column is modelled only as a check. A vector of any other width fails the ingestion with `DimensionMismatch`.
- The system prompt is a constant. Its rule text is held verbatim, and only the two schemas are proved to be inside it.
- Generation.Generate: its contract covers only the stub. The external path is stated by `Generation.MapReply`, `Generation.RawText` and `Generation.UnparseableReplyIsAnswer`.
