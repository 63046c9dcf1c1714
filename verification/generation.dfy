/** Answer generation: the result record, the deterministic stub generator,
    the mapping of an external chat-completion reply onto the result, and the
    choice of provider.

    The external service is a parameter: `complete` stands for the chat
    completion call (`None` when it raises) and `parse` for `json.loads`.
    The stub lists the distinct document titles through a Python set built
    from the context's titles in context order. The set's iteration order is
    unspecified: it depends on the strings' hashes and on the order in which
    they were inserted. `order` stands for it, as a function of the inserted
    titles in insertion order, and is only assumed to list each distinct title
    once. */
module Generation {

  import opened Wrappers
  import opened Text
  import opened Prompts
  import opened Retrieval

  /** `LLMResult`. `answer` is absent when the reply's `answer` field is
      JSON `null`; `refused` is the truth value the caller tests. */
  datatype LLMResult = LLMResult(
    answer: Option<string>,
    refused: bool,
    refusedReason: Option<string>,
    promptTokens: nat,
    completionTokens: nat,
    totalTokens: nat,
    model: string)

  // ---------------------------------------------------------------------
  // Stub provider

  const StubModel: string := "stub-model-v1"
  const NoContextReason: string := "No relevant context found in the knowledge base to answer this question."

  /** The stub quotes the first `ExcerptCount` chunks, each cut to
      `ExcerptLength` characters. */
  const ExcerptCount: nat := 3
  const ExcerptLength: nat := 200

  /** `xs` lists the set `s`: each member once, nothing else. */
  predicate IsSetListing(xs: seq<string>, s: set<string>) {
    && |xs| == |s|
    && (forall i :: 0 <= i < |xs| ==> xs[i] in s)
    && (forall t :: t in s ==> t in xs)
  }

  /** The titles of the context, in context order: what the set
      comprehension inserts, one after the other. */
  function Titles(ctx: seq<Hit>): (ts: seq<string>)
    ensures |ts| == |ctx|
    ensures forall i :: 0 <= i < |ctx| ==> ts[i] == ctx[i].title
  {
    seq(|ctx|, i requires 0 <= i < |ctx| => ctx[i].title)
  }

  function TitleSet(ctx: seq<Hit>): set<string> {
    set i | 0 <= i < |ctx| :: ctx[i].title
  }

  function Excerpts(ctx: seq<Hit>): (es: seq<string>)
    ensures |es| == Min(ExcerptCount, |ctx|)
    ensures forall k :: 0 <= k < |es| ==> es[k] == Prefix(ctx[k].content, ExcerptLength)
  {
    seq(Min(ExcerptCount, |ctx|), k requires 0 <= k < Min(ExcerptCount, |ctx|) => Prefix(ctx[k].content, ExcerptLength))
  }

  function Bullets(es: seq<string>): (bs: seq<string>)
    ensures |bs| == |es|
    ensures forall k :: 0 <= k < |es| ==> bs[k] == "- " + es[k]
  {
    seq(|es|, k requires 0 <= k < |es| => "- " + es[k])
  }

  const StubLead: string := "Based on the available documentation ("
  const StubBridge: string := "), here is what I found regarding your question:\n\n"

  function StubAnswer(titles: seq<string>, excerpts: seq<string>): string {
    StubLead + JoinWith(", ", titles) + StubBridge + JoinWith("\n\n", Bullets(excerpts))
  }

  /** `StubLLMProvider.generate`. Without context it refuses with a fixed
      reason and no tokens; with context it answers from the titles and the
      first excerpts, and estimates tokens from the word counts. */
  function StubGenerate(order: seq<string> -> seq<string>, question: string, ctx: seq<Hit>): (r: LLMResult)
    ensures r.model == StubModel
    ensures r.refused <==> ctx == []
    ensures ctx == [] ==> r == LLMResult(Some(""), true, Some(NoContextReason), 0, 0, 0, StubModel)
    ensures ctx != [] ==>
      && r.answer.Some? && r.refusedReason == None
      && r.totalTokens == WordCount(r.answer.value) + WordCount(question)
    ensures r.promptTokens == r.completionTokens == r.totalTokens / 2
  {
    if ctx == [] then
      LLMResult(Some(""), true, Some(NoContextReason), 0, 0, 0, StubModel)
    else
      var answer := StubAnswer(order(Titles(ctx)), Excerpts(ctx));
      var estimated := WordCount(answer) + WordCount(question);
      LLMResult(Some(answer), false, None, estimated / 2, estimated / 2, estimated, StubModel)
  }

  /** The stub's answer names the title of every context chunk, not only of
      the quoted ones. */
  lemma StubNamesEveryTitle(order: seq<string> -> seq<string>, question: string, ctx: seq<Hit>, i: nat)
    requires IsSetListing(order(Titles(ctx)), TitleSet(ctx))
    requires i < |ctx|
    ensures IsInfix(ctx[i].title, StubGenerate(order, question, ctx).answer.value)
  {
    var titles := order(Titles(ctx));
    assert ctx[i].title in TitleSet(ctx);
    var j :| 0 <= j < |titles| && titles[j] == ctx[i].title;
    var excerpts := Excerpts(ctx);
    JoinedPieceIsInfix(", ", titles, j);
    InfixOfRight(ctx[i].title, StubLead, JoinWith(", ", titles));
    InfixOfLeft(ctx[i].title, StubLead + JoinWith(", ", titles), StubBridge + JoinWith("\n\n", Bullets(excerpts)));
    assert StubAnswer(titles, excerpts) == (StubLead + JoinWith(", ", titles)) + (StubBridge + JoinWith("\n\n", Bullets(excerpts)));
  }

  /** The stub's answer quotes each of the first three chunks, cut to 200
      characters, as a bullet. */
  lemma StubQuotesExcerpt(order: seq<string> -> seq<string>, question: string, ctx: seq<Hit>, k: nat)
    requires k < |ctx| && k < ExcerptCount
    ensures IsInfix("- " + Prefix(ctx[k].content, ExcerptLength), StubGenerate(order, question, ctx).answer.value)
  {
    var titles := order(Titles(ctx));
    var bullets := Bullets(Excerpts(ctx));
    JoinedPieceIsInfix("\n\n", bullets, k);
    InfixOfRight(bullets[k], StubLead + JoinWith(", ", titles) + StubBridge, JoinWith("\n\n", bullets));
  }

  /** Only the first three chunks' contents and the titles, in context order,
      matter: two contexts that agree on those get the same stub result,
      whatever their ids, similarities and later contents. */
  lemma StubReadsFirstExcerptsOnly(order: seq<string> -> seq<string>, question: string, c1: seq<Hit>, c2: seq<Hit>)
    requires c1 != [] && c2 != []
    requires Titles(c1) == Titles(c2)
    requires Min(ExcerptCount, |c1|) == Min(ExcerptCount, |c2|)
    requires forall k :: 0 <= k < Min(ExcerptCount, |c1|) ==> c1[k].content == c2[k].content
    ensures StubGenerate(order, question, c1) == StubGenerate(order, question, c2)
  {
    assert Excerpts(c1) == Excerpts(c2);
  }

  /** The stub halves its estimate, rounding down, for both the prompt and
      the completion, so their sum is the total or one less. */
  lemma StubTokenSplit(order: seq<string> -> seq<string>, question: string, ctx: seq<Hit>)
    ensures var r := StubGenerate(order, question, ctx);
      r.promptTokens + r.completionTokens == r.totalTokens || r.promptTokens + r.completionTokens == r.totalTokens - 1
  {
  }

  // ---------------------------------------------------------------------
  // External provider

  /** A field of the reply object: absent, JSON `null`, or a value. */
  datatype Member<T> = Missing | Null | Value(v: T)
  {
    /** `d.get(key, default)`: the default when absent, nothing for `null`. */
    function Lookup(default: T): (r: Option<T>)
      ensures Missing? ==> r == Some(default)
      ensures Null? ==> r == None
      ensures Value? ==> r == Some(v)
    {
      match this
      case Missing => Some(default)
      case Null => None
      case Value(x) => Some(x)
    }
  }

  /** The fields of the reply object the service reads. */
  datatype ReplyObject = ReplyObject(answer: Member<string>, refused: Member<bool>, refusedReason: Member<string>)

  /** What `json.loads` makes of the reply text. */
  datatype Parsed = NotJson | NotObject | Object(reply: ReplyObject)

  datatype Usage = Usage(promptTokens: nat, completionTokens: nat, totalTokens: nat)

  /** The first choice's message content (possibly `None`) and the usage
      block (possibly absent). */
  datatype Completion = Completion(content: Option<string>, usage: Option<Usage>)

  /** The configured model name and the two collaborators. */
  datatype Client = Client(
    model: string,
    complete: (string, string) -> Option<Completion>,
    parse: string -> Parsed)

  datatype GenerationError =
    | RequestFailed    // the completion call raises
    | ReplyNotObject   // the reply is JSON but not an object, so `.get` raises

  /** `response.choices[0].message.content or "{}"`. */
  function RawText(c: Completion): (raw: string)
    ensures raw != ""
    ensures c.content.Some? && c.content.value != "" ==> raw == c.content.value
    ensures !(c.content.Some? && c.content.value != "") ==> raw == "{}"
  {
    match c.content
    case Some(s) => if s != "" then s else "{}"
    case None => "{}"
  }

  /** The reply mapping of `OpenAILLMProvider.generate`. */
  function MapReply(raw: string, parsed: Parsed, usage: Option<Usage>, model: string): (r: Result<LLMResult, GenerationError>)
    ensures r.Failure? <==> parsed.NotObject?
    ensures r.Success? ==> r.value.model == model
    ensures parsed.NotJson? ==> r.Success? && r.value.answer == Some(raw) && !r.value.refused && r.value.refusedReason == None
    ensures parsed.Object? && !parsed.reply.refused.Value? ==> r.Success? && !r.value.refused
    ensures parsed.Object? && parsed.reply.answer.Missing? ==> r.Success? && r.value.answer == Some(raw)
    ensures parsed.Object? && parsed.reply.answer.Value? ==> r.Success? && r.value.answer == Some(parsed.reply.answer.v)
    ensures parsed.Object? && parsed.reply.answer.Null? ==> r.Success? && r.value.answer == None
    ensures parsed.Object? && parsed.reply.refused.Value? ==> r.Success? && r.value.refused == parsed.reply.refused.v
    ensures parsed.Object? && parsed.reply.refusedReason.Value? ==> r.Success? && r.value.refusedReason == Some(parsed.reply.refusedReason.v)
    ensures parsed.Object? && !parsed.reply.refusedReason.Value? ==> r.Success? && r.value.refusedReason == None
    ensures usage.None? && r.Success? ==> r.value.promptTokens == r.value.completionTokens == r.value.totalTokens == 0
    ensures usage.Some? && r.Success? ==>
      && r.value.promptTokens == usage.value.promptTokens
      && r.value.completionTokens == usage.value.completionTokens
      && r.value.totalTokens == usage.value.totalTokens
  {
    var (p, c, t) := match usage
      case Some(u) => (u.promptTokens, u.completionTokens, u.totalTokens)
      case None => (0, 0, 0);
    match parsed
    case NotJson => Success(LLMResult(Some(raw), false, None, p, c, t, model))
    case NotObject => Failure(ReplyNotObject)
    case Object(o) =>
      var answer := match o.answer
        case Missing => Some(raw)
        case Null => None
        case Value(s) => Some(s);
      var refused := match o.refused
        case Value(b) => b
        case _ => false;
      var reason := match o.refusedReason
        case Value(s) => Some(s)
        case _ => None;
      Success(LLMResult(answer, refused, reason, p, c, t, model))
  }

  /** The reply object a model writes for a result when it follows the
      system prompt's schemas: every field present, `null` for an absent
      answer or reason. */
  function ReplyOf(r: LLMResult): ReplyObject {
    var answer := match r.answer
      case Some(a) => Value(a)
      case None => Null;
    var reason := match r.refusedReason
      case Some(s) => Value(s)
      case None => Null;
    ReplyObject(answer, Value(r.refused), reason)
  }

  /** Round trip: mapping the reply object written for a result, with the
      result's usage and model, gives the result back, whatever the raw
      text. */
  lemma MapReplyReadsBack(r: LLMResult, raw: string)
    ensures MapReply(raw, Object(ReplyOf(r)), Some(Usage(r.promptTokens, r.completionTokens, r.totalTokens)), r.model) == Success(r)
  {
  }

  /** How a context chunk is handed to the template. */
  function EntryOf(h: Hit): PromptEntry {
    PromptEntry(Some(h.title), Some(h.content))
  }

  function Entries(ctx: seq<Hit>): (es: seq<PromptEntry>)
    ensures |es| == |ctx|
    ensures forall k :: 0 <= k < |ctx| ==> es[k] == EntryOf(ctx[k])
  {
    seq(|ctx|, k requires 0 <= k < |ctx| => EntryOf(ctx[k]))
  }

  /** `OpenAILLMProvider.generate`: sends the system prompt and the user
      prompt, then maps the reply. */
  function ExternalGenerate(client: Client, question: string, ctx: seq<Hit>): (r: Result<LLMResult, GenerationError>)
    ensures var sent := client.complete(SystemPrompt(), UserPrompt(question, Entries(ctx)));
      && (sent.None? <==> r == Failure(RequestFailed))
      && (sent.Some? ==> (r == Failure(ReplyNotObject) <==> client.parse(RawText(sent.value)).NotObject?))
      && (r.Success? ==> r.value.model == client.model)
  {
    match client.complete(SystemPrompt(), UserPrompt(question, Entries(ctx)))
    case None => Failure(RequestFailed)
    case Some(c) =>
      var raw := RawText(c);
      MapReply(raw, client.parse(raw), c.usage, client.model)
  }

  // ---------------------------------------------------------------------
  // Provider selection

  datatype Provider = Stub | External(client: Client)

  /** `get_llm_provider`: the external provider for the setting "openai",
      the stub for every other setting. */
  function SelectProvider(setting: string, client: Client): (p: Provider)
    ensures p.External? <==> setting == "openai"
    ensures p.External? ==> p.client == client
  {
    if setting == "openai" then External(client) else Stub
  }

  /** `llm.generate(question, context_chunks)`. The stub never fails. */
  function Generate(provider: Provider, order: seq<string> -> seq<string>, question: string, ctx: seq<Hit>): (r: Result<LLMResult, GenerationError>)
    ensures provider.Stub? ==> r == Success(StubGenerate(order, question, ctx))
  {
    match provider
    case Stub => Success(StubGenerate(order, question, ctx))
    case External(client) => ExternalGenerate(client, question, ctx)
  }

  /** The stub refuses on empty context, but the external provider does not
      have to: a reply of `{}` to an empty context is an answer, not a
      refusal. */
  lemma ExternalNeedNotRefuse(order: seq<string> -> seq<string>, question: string, model: string)
    ensures var client := Client(model, (s: string, u: string) => Some(Completion(Some("{}"), None)), (t: string) => Object(ReplyObject(Missing, Missing, Missing)));
      && Generate(Stub, order, question, []).value.refused
      && Generate(External(client), order, question, []) == Success(LLMResult(Some("{}"), false, None, 0, 0, 0, model))
  {
  }

  /** An external reply that is not JSON at all is taken as the answer text. */
  lemma UnparseableReplyIsAnswer(client: Client, question: string, ctx: seq<Hit>, c: Completion)
    requires client.complete(SystemPrompt(), UserPrompt(question, Entries(ctx))) == Some(c)
    requires client.parse(RawText(c)) == NotJson
    ensures var r := ExternalGenerate(client, question, ctx);
      r.Success? && r.value.answer == Some(RawText(c)) && !r.value.refused && r.value.refusedReason == None
  {
  }
}
