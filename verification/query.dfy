/** The question pipeline `ask_question`, as a state machine over the cache
    and the append-only audit log: a cache hit is audited and returned; a
    miss embeds the question, searches the tenant's chunks, generates,
    audits, and caches the response only when it is an answer.

    The collaborators are parameters: the embedder, the vector search, the
    generator, the rounding of similarities to four places, the id the audit
    row is given, the two clock readings the latency is taken from, and
    whether the store answers each of the call's two cache commands. */
module Query {

  import opened Wrappers
  import opened Identifiers
  import opened Text
  import opened Corpus
  import opened Cache
  import opened Retrieval
  import opened Generation

  /** Sources quote at most this many characters of a chunk. */
  const ExcerptLimit: nat := 300

  const Completed: string := "completed"
  const Refused: string := "refused"

  /** The declared default of the audit `status` column. The ORM leaves an
      attribute set to `None` out of the insert, so the default fills it. */
  const Pending: string := "pending"

  /** An entry of the response's `sources`. */
  datatype Source = Source(chunkId: Uuid, documentTitle: string, relevanceScore: real, excerpt: string)

  /** The response dictionary, which is also what the cache stores. A cached
      payload is whatever the codec decodes, so any key may be missing, and
      it may carry keys the service never writes: `others` names them (their
      values are never read). */
  datatype Payload = Payload(
    requestId: Member<string>,
    question: Member<string>,
    answer: Member<string>,
    sources: Member<seq<Source>>,
    status: Member<string>,
    refusedReason: Member<string>,
    cached: Member<bool>,
    modelUsed: Member<string>,
    latencyMs: Member<nat>,
    tokenUsage: Member<Usage>,
    others: set<string>)

  /** `str(ai_req.id)`. */
  function IdText(id: Uuid): string {
    id
  }

  /** A dictionary is truthy when it has at least one key. */
  predicate Truthy(p: Payload) {
    || !p.requestId.Missing? || !p.question.Missing? || !p.answer.Missing?
    || !p.sources.Missing? || !p.status.Missing? || !p.refusedReason.Missing?
    || !p.cached.Missing? || !p.modelUsed.Missing? || !p.latencyMs.Missing?
    || !p.tokenUsage.Missing? || p.others != {}
  }

  /** A row of `ai_requests`. Columns the call leaves unset take their
      declared defaults (no reason, zero tokens). */
  datatype AuditRecord = AuditRecord(
    id: Uuid,
    tenant: TenantId,
    question: string,
    answer: Option<string>,
    sources: Option<seq<Source>>,
    status: Option<string>,
    refusedReason: Option<string>,
    promptTokens: nat,
    completionTokens: nat,
    totalTokens: nat,
    modelUsed: Option<string>,
    latencyMs: nat,
    cached: bool)

  /** What the pipeline changes: the cache and the audit log. */
  datatype World = World(cache: Conn, audit: seq<AuditRecord>)

  /** The collaborators. `search` answers the vector search for a tenant
      and a query vector, or `None` when the query raises (a database error,
      or a query vector the column rejects); `similarity` is the score the
      search orders by. */
  datatype Env = Env(
    digest: string -> Digest,
    codec: Codec<Payload>,
    embed: seq<string> -> Option<seq<Vector>>,
    similarity: (Vector, Vector) -> real,
    search: (TenantId, Vector) -> Option<seq<Hit>>,
    round4: real -> real,
    provider: Provider,
    order: seq<string> -> seq<string>)

  /** The elapsed milliseconds at the two readings the hit path takes; the
      miss path reads the clock once. */
  datatype Timing = Timing(first: nat, second: nat)

  /** Whether the store answers the call's two commands: the lookup at the
      start and the write at the end. The store fails command by command. */
  datatype Reach = Reach(lookup: bool, write: bool)

  datatype AskError =
    | QuestionNotEmbedded              // the embedder fails or returns no vector
    | SearchFailed                     // the vector search raises
    | GenerationError(e: GenerationError)

  /** Whenever the search answers, it answers correctly over `store`, for
      every tenant and every query vector. */
  ghost predicate SearchesStore(env: Env, store: Store) {
    forall t, v :: env.search(t, v).Some? ==>
      IsRetrieval(Candidates(store.documents, store.chunks, t, ScoreAgainst(env.similarity, v)), env.search(t, v).value)
  }

  // ---------------------------------------------------------------------
  // Cache hit

  /** The cached payload, when the lookup finds a truthy one. `up` is
      whether the store answers the lookup. */
  function CachedPayload(world: World, up: bool, env: Env, tenant: TenantId, question: string): (r: Option<Payload>)
    ensures r.Some? <==> Get(world.cache, up, env.digest, env.codec, tenant, question).Some? && Truthy(Get(world.cache, up, env.digest, env.codec, tenant, question).value)
    ensures r.Some? ==> r == Get(world.cache, up, env.digest, env.codec, tenant, question)
  {
    match Get(world.cache, up, env.digest, env.codec, tenant, question)
    case Some(p) => if Truthy(p) then Some(p) else None
    case None => None
  }

  /** The audit row of a cache hit: the payload's answer, sources, status
      and model, with defaults for missing keys. A cached `"status": null`
      becomes the column default. */
  function HitRecord(p: Payload, tenant: TenantId, question: string, id: Uuid, latency: nat): (a: AuditRecord)
    ensures a.id == id && a.tenant == tenant && a.question == question
    ensures a.cached
    ensures a.answer == p.answer.Lookup("")
    ensures a.sources == p.sources.Lookup([])
    ensures p.status.Missing? ==> a.status == Some(Completed)
    ensures p.status.Null? ==> a.status == Some(Pending)
    ensures p.status.Value? ==> a.status == Some(p.status.v)
    ensures p.modelUsed.Value? <==> a.modelUsed.Some?
    ensures p.modelUsed.Value? ==> a.modelUsed == Some(p.modelUsed.v)
    ensures a.latencyMs == latency
    ensures a.refusedReason == None && a.promptTokens == a.completionTokens == a.totalTokens == 0
  {
    AuditRecord(id, tenant, question, p.answer.Lookup(""), p.sources.Lookup([]), Some(p.status.Lookup(Completed).GetOr(Pending)),
      None, 0, 0, 0, if p.modelUsed.Value? then Some(p.modelUsed.v) else None, latency, true)
  }

  /** The hit path: one audit row, and the payload returned with the row's
      id, `cached` set, and the latency of the second reading. */
  function HitPath(world: World, p: Payload, tenant: TenantId, question: string, id: Uuid, clock: Timing): (r: (World, Payload))
    ensures r.0.cache == world.cache
    ensures r.0.audit == world.audit + [HitRecord(p, tenant, question, id, clock.first)]
    ensures r.1 == p.(requestId := Value(IdText(id)), cached := Value(true), latencyMs := Value(clock.second))
  {
    (World(world.cache, world.audit + [HitRecord(p, tenant, question, id, clock.first)]),
     p.(requestId := Value(IdText(id)), cached := Value(true), latencyMs := Value(clock.second)))
  }

  // ---------------------------------------------------------------------
  // Cache miss

  /** The question has a vector: the embedder answers with at least one. */
  predicate Embedded(env: Env, question: string) {
    env.embed([question]).Some? && env.embed([question]).value != []
  }

  /** The retrieved context: the tenant's search for the question's first
      vector. */
  function Context(env: Env, tenant: TenantId, question: string): (r: Result<seq<Hit>, AskError>)
    ensures !Embedded(env, question) <==> r == Failure(QuestionNotEmbedded)
    ensures Embedded(env, question) ==>
      var found := env.search(tenant, env.embed([question]).value[0]);
      && (found.None? <==> r == Failure(SearchFailed))
      && (found.Some? <==> r.Success?)
      && (r.Success? ==> r.value == found.value)
  {
    match env.embed([question])
    case None => Failure(QuestionNotEmbedded)
    case Some(vs) =>
      if vs == [] then Failure(QuestionNotEmbedded)
      else
        match env.search(tenant, vs[0])
        case None => Failure(SearchFailed)
        case Some(hits) => Success(hits)
  }

  /** The sources of a response: one per context chunk, in context order. */
  function Sources(ctx: seq<Hit>, round4: real -> real): (ss: seq<Source>)
    ensures |ss| == |ctx|
    ensures forall i :: 0 <= i < |ctx| ==>
      ss[i] == Source(ctx[i].chunkId, ctx[i].title, round4(ctx[i].similarity), Prefix(ctx[i].content, ExcerptLimit))
  {
    seq(|ctx|, i requires 0 <= i < |ctx| =>
      Source(ctx[i].chunkId, ctx[i].title, round4(ctx[i].similarity), Prefix(ctx[i].content, ExcerptLimit)))
  }

  function StatusOf(g: LLMResult): (s: string)
    ensures s == Refused <==> g.refused
    ensures s == Completed <==> !g.refused
  {
    if g.refused then Refused else Completed
  }

  function ReasonMember(reason: Option<string>): (m: Member<string>)
    ensures m.Value? <==> reason.Some?
    ensures reason.Some? ==> m.v == reason.value
    ensures !m.Missing?
  {
    match reason
    case Some(s) => Value(s)
    case None => Null
  }

  /** The audit row of a generated response. */
  function MissRecord(g: LLMResult, sources: seq<Source>, tenant: TenantId, question: string, id: Uuid, latency: nat): (a: AuditRecord)
    ensures a.id == id && a.tenant == tenant && a.question == question
    ensures !a.cached
    ensures a.status == Some(StatusOf(g))
    ensures a.answer == (if g.refused then None else g.answer)
    ensures a.refusedReason == g.refusedReason
    ensures a.sources == Some(sources)
    ensures a.promptTokens == g.promptTokens && a.completionTokens == g.completionTokens && a.totalTokens == g.totalTokens
    ensures a.modelUsed == Some(g.model)
    ensures a.latencyMs == latency
  {
    AuditRecord(id, tenant, question, if g.refused then None else g.answer, Some(sources), Some(StatusOf(g)),
      g.refusedReason, g.promptTokens, g.completionTokens, g.totalTokens, Some(g.model), latency, false)
  }

  /** The response of a generated answer. */
  function MissPayload(g: LLMResult, sources: seq<Source>, question: string, id: Uuid, latency: nat): (p: Payload)
    ensures Truthy(p)
    ensures p.requestId == Value(IdText(id)) && p.question == Value(question)
    ensures p.answer == Value(g.answer.GetOr(""))
    ensures p.sources == Value(sources)
    ensures p.status == Value(StatusOf(g))
    ensures p.refusedReason == ReasonMember(g.refusedReason)
    ensures p.cached == Value(false)
    ensures p.modelUsed == Value(g.model) && p.latencyMs == Value(latency)
    ensures p.tokenUsage == Value(Usage(g.promptTokens, g.completionTokens, g.totalTokens))
    ensures p.others == {}
  {
    Payload(Value(IdText(id)), Value(question), Value(g.answer.GetOr("")), Value(sources), Value(StatusOf(g)),
      ReasonMember(g.refusedReason), Value(false), Value(g.model), Value(latency),
      Value(Usage(g.promptTokens, g.completionTokens, g.totalTokens)), {})
  }

  /** Steps 4 to 7 once the context is known: generate, audit, and cache
      only an answer. */
  function Respond(world: World, env: Env, tenant: TenantId, question: string, ctx: seq<Hit>, id: Uuid, clock: Timing, write: bool): (r: Result<(World, Payload), AskError>)
    ensures r.Failure? <==> Generate(env.provider, env.order, question, ctx).Failure?
    ensures r.Success? ==>
      var g := Generate(env.provider, env.order, question, ctx).value;
      var sources := Sources(ctx, env.round4);
      var p := MissPayload(g, sources, question, id, clock.first);
      && r.value.1 == p
      && r.value.0.audit == world.audit + [MissRecord(g, sources, tenant, question, id, clock.first)]
      && r.value.0.cache == (if g.refused then world.cache else Set(world.cache, write, env.digest, env.codec, tenant, question, p))
  {
    match Generate(env.provider, env.order, question, ctx)
    case Failure(e) => Failure(GenerationError(e))
    case Success(g) =>
      var sources := Sources(ctx, env.round4);
      var record := MissRecord(g, sources, tenant, question, id, clock.first);
      var p := MissPayload(g, sources, question, id, clock.first);
      var cache := if StatusOf(g) == Completed then Set(world.cache, write, env.digest, env.codec, tenant, question, p) else world.cache;
      Success((World(world.cache, world.audit + [record]).(cache := cache), p))
  }

  // ---------------------------------------------------------------------
  // The pipeline

  /** `ask_question`. */
  function Ask(world: World, env: Env, tenant: TenantId, question: string, id: Uuid, clock: Timing, reach: Reach): (r: Result<(World, Payload), AskError>)
    ensures CachedPayload(world, reach.lookup, env, tenant, question).Some? ==>
      r == Success(HitPath(world, CachedPayload(world, reach.lookup, env, tenant, question).value, tenant, question, id, clock))
    ensures CachedPayload(world, reach.lookup, env, tenant, question).None? && Context(env, tenant, question).Failure? ==>
      r == Failure(Context(env, tenant, question).error)
    ensures CachedPayload(world, reach.lookup, env, tenant, question).None? && Context(env, tenant, question).Success? ==>
      r == Respond(world, env, tenant, question, Context(env, tenant, question).value, id, clock, reach.write)
  {
    match CachedPayload(world, reach.lookup, env, tenant, question)
    case Some(p) => Success(HitPath(world, p, tenant, question, id, clock))
    case None =>
      match Context(env, tenant, question)
      case Failure(e) => Failure(e)
      case Success(ctx) => Respond(world, env, tenant, question, ctx, id, clock, reach.write)
  }

  // ---------------------------------------------------------------------
  // Properties

  /** Every call that returns appends exactly one audit row, with the given
      id, and keeps the earlier rows; the returned payload carries that id
      and says whether it came from the cache. */
  lemma AskAuditsOnce(world: World, env: Env, tenant: TenantId, question: string, id: Uuid, clock: Timing, reach: Reach)
    requires Ask(world, env, tenant, question, id, clock, reach).Success?
    ensures var (w, p) := Ask(world, env, tenant, question, id, clock, reach).value;
      && |w.audit| == |world.audit| + 1
      && w.audit[..|world.audit|] == world.audit
      && w.audit[|world.audit|].id == id
      && w.audit[|world.audit|].tenant == tenant
      && p.requestId == Value(IdText(id))
      && p.cached == Value(w.audit[|world.audit|].cached)
      && (w.audit[|world.audit|].cached <==> CachedPayload(world, reach.lookup, env, tenant, question).Some?)
  {
    var (w, p) := Ask(world, env, tenant, question, id, clock, reach).value;
    assert w.audit[..|world.audit|] == world.audit;
  }

  /** A cache hit never embeds, searches or generates: replacing those
      collaborators changes nothing, and the cache is left as it was. */
  lemma HitSkipsPipeline(world: World, env: Env, tenant: TenantId, question: string, id: Uuid, clock: Timing, reach: Reach,
                         embed: seq<string> -> Option<seq<Vector>>, search: (TenantId, Vector) -> Option<seq<Hit>>, provider: Provider)
    requires CachedPayload(world, reach.lookup, env, tenant, question).Some?
    ensures Ask(world, env, tenant, question, id, clock, reach) == Ask(world, env.(embed := embed, search := search, provider := provider), tenant, question, id, clock, reach)
    ensures Ask(world, env, tenant, question, id, clock, reach).Success?
    ensures Ask(world, env, tenant, question, id, clock, reach).value.0.cache == world.cache
  {
    var env' := env.(embed := embed, search := search, provider := provider);
    assert CachedPayload(world, reach.lookup, env', tenant, question) == CachedPayload(world, reach.lookup, env, tenant, question);
  }

  /** Without a cache hit, status is "refused" exactly when the generator
      refused; a refusal leaves no answer in the audit row. */
  lemma MissStatus(world: World, env: Env, tenant: TenantId, question: string, id: Uuid, clock: Timing, reach: Reach)
    requires CachedPayload(world, reach.lookup, env, tenant, question).None?
    requires Ask(world, env, tenant, question, id, clock, reach).Success?
    ensures var (w, p) := Ask(world, env, tenant, question, id, clock, reach).value;
      var g := Generate(env.provider, env.order, question, Context(env, tenant, question).value).value;
      && Context(env, tenant, question).Success?
      && (p.status == Value(Refused) <==> g.refused)
      && (p.status == Value(Completed) <==> !g.refused)
      && (g.refused ==> w.audit[|world.audit|].answer == None)
      && (!g.refused ==> w.audit[|world.audit|].answer == g.answer)
      && p.answer == Value(g.answer.GetOr(""))
      && !w.audit[|world.audit|].cached
  {
  }

  /** A refusal is never cached. */
  lemma RefusalIsNotCached(world: World, env: Env, tenant: TenantId, question: string, id: Uuid, clock: Timing, reach: Reach)
    requires Ask(world, env, tenant, question, id, clock, reach).Success?
    requires Ask(world, env, tenant, question, id, clock, reach).value.1.status == Value(Refused)
    ensures Ask(world, env, tenant, question, id, clock, reach).value.0.cache == world.cache
  {
  }

  /** Asking again after a refusal finds what the first lookup would have
      found; so when the first lookup reached the store and missed, the
      second misses too, whether or not the store answers it. */
  lemma RefusalMissesAgain(world: World, env: Env, tenant: TenantId, question: string, id: Uuid, clock: Timing, reach: Reach, up: bool)
    requires CachedPayload(world, reach.lookup, env, tenant, question).None?
    requires Ask(world, env, tenant, question, id, clock, reach).Success?
    requires Ask(world, env, tenant, question, id, clock, reach).value.1.status == Value(Refused)
    ensures var w := Ask(world, env, tenant, question, id, clock, reach).value.0;
      && CachedPayload(w, up, env, tenant, question) == CachedPayload(world, up, env, tenant, question)
      && (reach.lookup ==> CachedPayload(w, up, env, tenant, question).None?)
  {
  }

  /** An answer is cached: when the store answers the write and the later
      lookup, and the codec reads back the response it writes, asking the
      same question again (up to case and surrounding whitespace) is a hit
      that returns the first response with the new id, `cached` set and the
      new latency. */
  lemma AnswerIsCached(world: World, env: Env, tenant: TenantId, question: string, again: string,
                       id: Uuid, clock: Timing, reach: Reach, id2: Uuid, clock2: Timing, reach2: Reach)
    requires world.cache.Online? && reach.write && reach2.lookup
    requires NormalizeQuestion(again) == NormalizeQuestion(question)
    requires CachedPayload(world, reach.lookup, env, tenant, question).None?
    requires Ask(world, env, tenant, question, id, clock, reach).Success?
    requires var p := Ask(world, env, tenant, question, id, clock, reach).value.1;
      env.codec.encode(p) != "" && env.codec.decode(env.codec.encode(p)) == Some(p)
    requires Ask(world, env, tenant, question, id, clock, reach).value.1.status == Value(Completed)
    ensures var (w, p) := Ask(world, env, tenant, question, id, clock, reach).value;
      Ask(w, env, tenant, again, id2, clock2, reach2).Success?
      && Ask(w, env, tenant, again, id2, clock2, reach2).value.1 == p.(requestId := Value(IdText(id2)), cached := Value(true), latencyMs := Value(clock2.second))
  {
    var (w, p) := Ask(world, env, tenant, question, id, clock, reach).value;
    SetThenGet(world.cache, env.digest, env.codec, tenant, question, again, p);
    assert CachedPayload(w, reach2.lookup, env, tenant, again) == Some(p);
  }

  /** The context comes from the search over the requesting tenant's own
      chunks: with a search that answers correctly for every tenant, every
      source is a chunk of the tenant that asked, above the similarity
      threshold, there are at most `TopK` of them, and they are ordered by
      similarity. */
  lemma SourcesAreTenantScoped(world: World, env: Env, store: Store, tenant: TenantId, question: string, id: Uuid, clock: Timing, reach: Reach, i: nat)
    requires SearchesStore(env, store)
    requires CachedPayload(world, reach.lookup, env, tenant, question).None?
    requires Ask(world, env, tenant, question, id, clock, reach).Success?
    ensures var ctx := Context(env, tenant, question).value;
      && Ask(world, env, tenant, question, id, clock, reach).value.1.sources == Value(Sources(ctx, env.round4))
      && |ctx| <= TopK
      && (forall a, b :: 0 <= a < b < |ctx| ==> ctx[a].similarity >= ctx[b].similarity)
      && (i < |ctx| ==> exists k :: (0 <= k < |store.chunks|
          && store.chunks[k].tenant == tenant
          && store.chunks[k].id == ctx[i].chunkId
          && store.chunks[k].content == ctx[i].content
          && env.similarity(store.chunks[k].embedding, env.embed([question]).value[0]) == ctx[i].similarity
          && ctx[i].similarity > SimilarityThreshold))
  {
    var v := env.embed([question]).value[0];
    var score := ScoreAgainst(env.similarity, v);
    var ctx := Context(env, tenant, question).value;
    assert IsRetrieval(Candidates(store.documents, store.chunks, tenant, score), ctx);
    RetrievalBounds(store, tenant, score, ctx);
    if i < |ctx| {
      RetrievalIsTenantScoped(store, tenant, score, ctx, i);
    }
  }

  /** With the stub and nothing retrieved, the call refuses with the stub's
      reason and writes nothing to the cache. */
  lemma StubRefusesWithoutContext(world: World, env: Env, tenant: TenantId, question: string, id: Uuid, clock: Timing, reach: Reach)
    requires env.provider == Stub
    requires CachedPayload(world, reach.lookup, env, tenant, question).None?
    requires Context(env, tenant, question) == Success([])
    ensures var r := Ask(world, env, tenant, question, id, clock, reach);
      && r.Success?
      && r.value.1.status == Value(Refused)
      && r.value.1.answer == Value("")
      && r.value.1.sources == Value([])
      && r.value.1.refusedReason == Value(NoContextReason)
      && r.value.0.cache == world.cache
  {
  }
}
