/** The prompt templates: the fixed system prompt and the user prompt that
    frames the retrieved context and the question. */
module Prompts {

  import opened Wrappers
  import opened Text

  // ---------------------------------------------------------------------
  // Decimal numerals, for the document numbers of the user prompt

  function DigitChar(d: nat): (c: char)
    requires d < 10
    ensures '0' <= c <= '9'
  {
    ['0', '1', '2', '3', '4', '5', '6', '7', '8', '9'][d]
  }

  function DigitValue(c: char): nat {
    if '0' <= c <= '9' then (c as int - '0' as int) else 0
  }

  predicate IsDigits(s: string) {
    forall i :: 0 <= i < |s| ==> '0' <= s[i] <= '9'
  }

  /** `str(n)` for a natural number: its decimal digits, most significant
      first, without leading zeros. */
  function NatToString(n: nat): (s: string)
    ensures s != "" && IsDigits(s)
    ensures |s| > 1 ==> s[0] != '0'
    decreases n
  {
    if n < 10 then [DigitChar(n)]
    else
      var front := NatToString(n / 10);
      front + [DigitChar(n % 10)]
  }

  /** Reads a string of decimal digits back as a number. */
  function ParseNat(s: string): nat
    decreases |s|
  {
    if s == [] then 0 else 10 * ParseNat(s[..|s| - 1]) + DigitValue(s[|s| - 1])
  }

  /** Reading the numeral of `n` gives `n` back, so distinct documents get
      distinct numbers. */
  lemma {:induction false} ParseNatToString(n: nat)
    ensures ParseNat(NatToString(n)) == n
    decreases n
  {
    var s := NatToString(n);
    if n < 10 {
      assert s[..0] == [];
      assert DigitValue(DigitChar(n)) == n;
    } else {
      ParseNatToString(n / 10);
      assert s[..|s| - 1] == NatToString(n / 10);
      assert DigitValue(DigitChar(n % 10)) == n % 10;
    }
  }

  lemma NumeralsDiffer(m: nat, n: nat)
    requires m != n
    ensures NatToString(m) != NatToString(n)
  {
    ParseNatToString(m);
    ParseNatToString(n);
  }

  // ---------------------------------------------------------------------
  // build_user_prompt

  /** A context chunk as the template reads it: `chunk.get("document_title",
      "Unknown")` and `chunk.get("content", "")`, so either may be absent. */
  datatype PromptEntry = PromptEntry(title: Option<string>, content: Option<string>)

  const NoContext: string := "(No context documents available)"
  const ContextHeading: string := "## CONTEXT DOCUMENTS\n"
  const QuestionHeading: string := "\n\n## EMPLOYEE QUESTION\n"
  const Closing: string := "\n\nAnswer the question based ONLY on the context documents above.\nIf the context is insufficient, refuse and explain why."

  /** The part of the `i`-th context chunk (numbered from 1). */
  function ContextPart(i: nat, e: PromptEntry): string {
    "--- Document " + NatToString(i) + ": " + e.title.GetOr("Unknown") + " ---\n" + e.content.GetOr("") + "\n"
  }

  /** One part per entry, numbered 1, 2, ... in input order. */
  function ContextParts(es: seq<PromptEntry>): (ps: seq<string>)
    ensures |ps| == |es|
    ensures forall k :: 0 <= k < |es| ==> ps[k] == ContextPart(k + 1, es[k])
  {
    seq(|es|, k requires 0 <= k < |es| => ContextPart(k + 1, es[k]))
  }

  /** The context block: the parts joined with newlines, or a fixed notice
      when there is no context. */
  function ContextBlock(es: seq<PromptEntry>): string {
    if es == [] then NoContext else JoinWith("\n", ContextParts(es))
  }

  /** `build_user_prompt`. */
  function UserPrompt(question: string, es: seq<PromptEntry>): (p: string)
    ensures |p| == |ContextHeading| + |ContextBlock(es)| + |QuestionHeading| + |question| + |Closing|
    ensures HasPrefix(p, ContextHeading)
    ensures |Closing| <= |p| && p[|p| - |Closing|..] == Closing
  {
    var p1 := ContextHeading + ContextBlock(es);
    var p2 := p1 + QuestionHeading;
    var p3 := p2 + question;
    PrefixOfLonger(ContextHeading, ContextHeading, ContextBlock(es));
    PrefixOfLonger(p1, ContextHeading, QuestionHeading);
    PrefixOfLonger(p2, ContextHeading, question);
    PrefixOfLonger(p3, ContextHeading, Closing);
    SuffixOfConcat(p3, Closing);
    p3 + Closing
  }

  /** The prompt can be read back: it opens with the context heading and the
      block, the question follows the question heading verbatim, and it ends
      with the fixed closing instruction. */
  lemma UserPromptReadsBack(question: string, es: seq<PromptEntry>)
    ensures var p := UserPrompt(question, es);
      var qStart := |ContextHeading| + |ContextBlock(es)| + |QuestionHeading|;
      && p[..|ContextHeading|] == ContextHeading
      && p[|ContextHeading|..|ContextHeading| + |ContextBlock(es)|] == ContextBlock(es)
      && p[qStart - |QuestionHeading|..qStart] == QuestionHeading
      && p[qStart..qStart + |question|] == question
      && p[|p| - |Closing|..] == Closing
  {
    FiveParts(ContextHeading, ContextBlock(es), QuestionHeading, question, Closing);
  }

  lemma FiveParts(a: string, b: string, c: string, d: string, e: string)
    ensures var p := a + b + c + d + e;
      var n := |a| + |b| + |c|;
      && p[..|a|] == a
      && p[|a|..|a| + |b|] == b
      && p[n - |c|..n] == c
      && p[n..n + |d|] == d
      && p[|p| - |e|..] == e
  {
    var p := a + b + c + d + e;
    var n := |a| + |b| + |c|;
    assert p == a + (b + (c + (d + e)));
    assert p[|a|..] == b + (c + (d + e));
    assert p[n - |c|..] == c + (d + e);
    assert p[n..] == d + e;
  }

  /** Two prompts with the same context are equal only for the same
      question. */
  lemma UserPromptDeterminesQuestion(q1: string, q2: string, es: seq<PromptEntry>)
    requires UserPrompt(q1, es) == UserPrompt(q2, es)
    ensures q1 == q2
  {
    UserPromptReadsBack(q1, es);
    UserPromptReadsBack(q2, es);
  }

  /** Without context the prompt carries the fixed notice. */
  lemma EmptyContextNotice(question: string)
    ensures IsInfix(NoContext, UserPrompt(question, []))
  {
    var p := UserPrompt(question, []);
    assert p == ContextHeading + NoContext + (QuestionHeading + question + Closing);
    assert OccursAt(NoContext, p, |ContextHeading|);
  }

  /** With context, the `k`-th entry appears in the prompt as its numbered
      part, whatever the other entries are. */
  lemma EntryInPrompt(question: string, es: seq<PromptEntry>, k: nat)
    requires k < |es|
    ensures IsInfix(ContextPart(k + 1, es[k]), UserPrompt(question, es))
  {
    var b := ContextBlock(es);
    JoinedPieceIsInfix("\n", ContextParts(es), k);
    InfixOfRight(ContextPart(k + 1, es[k]), ContextHeading, b);
    InfixOfLeft(ContextPart(k + 1, es[k]), ContextHeading + b, QuestionHeading + question + Closing);
    assert UserPrompt(question, es) == (ContextHeading + b) + (QuestionHeading + question + Closing);
  }

  /** A missing title is rendered as "Unknown" and missing content as
      nothing. */
  lemma MissingFieldsDefault(i: nat)
    ensures ContextPart(i, PromptEntry(None, None)) == "--- Document " + NatToString(i) + ": Unknown ---\n\n"
  {
  }

  // ---------------------------------------------------------------------
  // build_system_prompt

  const SystemIntro: string :=
    "You are an Internal Knowledge Assistant for a company.\n"
    + "Your role is to answer employee questions using ONLY the provided context documents."

  const SystemRules: string :=
    "## STRICT RULES\n"
    + "1. Answer ONLY based on the provided context. Do NOT use external knowledge.\n"
    + "2. If the context does not contain enough information to answer the question,\n"
    + "   you MUST refuse to answer and explain why.\n"
    + "3. Always cite which document(s) your answer is based on.\n"
    + "4. Keep answers concise, professional, and actionable.\n"
    + "5. Never fabricate information, policies, dates, or numbers.\n"
    + "6. If the question is ambiguous, state your interpretation before answering."

  /** The shape of an answer the model is asked for, up to its `refused`
      field. */
  const AnswerSchemaHead: string :=
    "{\n"
    + "  \"answer\": \"Your answer text here\",\n"
    + "  \"confidence\": \"high | medium | low\",\n"
    + "  \"sources_used\": [\"Document Title 1\", \"Document Title 2\"],\n"
    + "  "

  /** The shape of an answer the model is asked for. */
  const AnswerSchema: string :=
    AnswerSchemaHead
    + "\"refused\": false"
    + ",\n  \"refused_reason\": null\n"
    + "}"

  /** The shape of a refusal the model is asked for, up to its `refused`
      field. */
  const RefusalSchemaHead: string :=
    "{\n"
    + "  \"answer\": \"\",\n"
    + "  \"confidence\": \"none\",\n"
    + "  \"sources_used\": [],\n"
    + "  "

  /** The shape of a refusal the model is asked for. */
  const RefusalSchema: string :=
    RefusalSchemaHead
    + "\"refused\": true"
    + ",\n  \"refused_reason\": \"Explanation of why the context is insufficient\"\n"
    + "}"

  const FormatHeading: string := "\n\n## OUTPUT FORMAT\nRespond with valid JSON matching this schema:\n"
  const RefusalHeading: string := "\n\nIf you cannot answer from context:\n"

  /** `build_system_prompt`: a constant. */
  function SystemPrompt(): (p: string)
    ensures HasPrefix(p, SystemIntro)
    ensures |RefusalSchema| <= |p| && p[|p| - |RefusalSchema|..] == RefusalSchema
  {
    var p1 := SystemIntro + "\n\n";
    var p2 := p1 + SystemRules;
    var p3 := p2 + FormatHeading;
    var p4 := p3 + AnswerSchema;
    var p5 := p4 + RefusalHeading;
    PrefixOfLonger(SystemIntro, SystemIntro, "\n\n");
    PrefixOfLonger(p1, SystemIntro, SystemRules);
    PrefixOfLonger(p2, SystemIntro, FormatHeading);
    PrefixOfLonger(p3, SystemIntro, AnswerSchema);
    PrefixOfLonger(p4, SystemIntro, RefusalHeading);
    PrefixOfLonger(p5, SystemIntro, RefusalSchema);
    SuffixOfConcat(p5, RefusalSchema);
    p5 + RefusalSchema
  }

  /** The system prompt carries both the answer schema and the refusal
      schema. */
  lemma SystemPromptSchemas()
    ensures IsInfix(AnswerSchema, SystemPrompt())
    ensures IsInfix(RefusalSchema, SystemPrompt())
  {
    var front := SystemIntro + "\n\n" + SystemRules + FormatHeading;
    InfixOfSelf(AnswerSchema);
    InfixOfRight(AnswerSchema, front, AnswerSchema);
    InfixOfLeft(AnswerSchema, front + AnswerSchema, RefusalHeading);
    InfixOfLeft(AnswerSchema, front + AnswerSchema + RefusalHeading, RefusalSchema);
    InfixOfSelf(RefusalSchema);
    InfixOfRight(RefusalSchema, front + AnswerSchema + RefusalHeading, RefusalSchema);
  }

  /** The answer schema declares `"refused": false`. */
  lemma AnswerSchemaNotRefused()
    ensures IsInfix("\"refused\": false", AnswerSchema)
  {
    assert OccursAt("\"refused\": false", AnswerSchema, |AnswerSchemaHead|);
  }

  /** The refusal schema declares `"refused": true`. */
  lemma RefusalSchemaRefused()
    ensures IsInfix("\"refused\": true", RefusalSchema)
  {
    assert OccursAt("\"refused\": true", RefusalSchema, |RefusalSchemaHead|);
  }
}
