/** The paragraph chunker of the document service (`chunk_text` and
    `_estimate_tokens`).

    The text is stripped and split on blank lines; the stripped, non-empty
    pieces are the paragraphs. Paragraphs are appended to a running chunk
    while the running token estimate stays within the budget. When the next
    paragraph would push the estimate over the budget and the running chunk is
    not empty, the chunk is closed and the next one starts with the last
    sentence of the closed chunk's last paragraph, then the paragraph that
    triggered the close.

    The running chunk is kept as a `Group`: the carried-over sentence, if any,
    and the paragraphs appended after it. Its items are exactly the list
    `current` of the source. */
module Chunker {

  import opened Wrappers
  import opened Text
  import opened Splitting

  /** MAX_CHUNK_TOKENS, the default budget. */
  const MaxChunkTokens: int := 500

  // ---------------------------------------------------------------------
  // Token estimate

  /** `_estimate_tokens`: `max(1, int(len(text.split()) / 0.75))`. The body
      uses integer arithmetic; the contract states the source's real-valued
      formula, and that the estimate is never below one. */
  function EstimateTokens(text: string): (n: nat)
    ensures n >= 1
    ensures var q := (WordCount(text) as real / 0.75).Floor;
      n == if q >= 1 then q else 1
  {
    var w := WordCount(text);
    if 4 * w / 3 >= 1 then 4 * w / 3 else 1
  }

  // ---------------------------------------------------------------------
  // Paragraphs

  /** `[p.strip() for p in pieces if p.strip()]`. */
  function Tidy(pieces: seq<string>): (ps: seq<string>)
    requires forall j :: 0 <= j < |pieces| ==> NoBlank(pieces[j])
    ensures |ps| <= |pieces|
    ensures forall j :: 0 <= j < |ps| ==> IsClean(ps[j])
    decreases |pieces|
  {
    if pieces == [] then []
    else
      var p := Strip(pieces[0]);
      StripKeepsNoBlank(pieces[0]);
      (if p != "" then [p] else []) + Tidy(pieces[1..])
  }

  lemma StripKeepsNoBlank(s: string)
    requires NoBlank(s)
    ensures NoBlank(Strip(s))
  {
    var r := Strip(s);
    var a := |s| - |TrimStart(s)|;
    assert r == s[a..a + |r|];
    SliceKeepsNoBlank(s, a, a + |r|);
  }

  lemma SliceKeepsNoBlank(s: string, a: nat, b: nat)
    requires NoBlank(s) && a <= b <= |s|
    ensures NoBlank(s[a..b])
  {
    forall i | 0 <= i < b - a ensures !BlankAt(s[a..b], i) {
      assert !BlankAt(s, a + i);
    }
  }

  /** The paragraphs of `text`: lines 45-46 of the source. */
  function Paragraphs(text: string): (ps: seq<string>)
    ensures forall j :: 0 <= j < |ps| ==> IsClean(ps[j])
  {
    Tidy(SplitBlankLines(Strip(text)))
  }

  /** Every piece is empty or all whitespace. */
  predicate AllBlank(pieces: seq<string>) {
    forall j :: 0 <= j < |pieces| ==> AllSpace(pieces[j])
  }

  /** The tidy pieces are none exactly when every piece is blank. */
  lemma {:induction false} TidyEmpty(pieces: seq<string>)
    requires forall j :: 0 <= j < |pieces| ==> NoBlank(pieces[j])
    ensures Tidy(pieces) == [] <==> AllBlank(pieces)
    decreases |pieces|
  {
    if pieces != [] {
      TidyEmpty(pieces[1..]);
      StripEmptyIff(pieces[0]);
      AllBlankCons(pieces);
    }
  }

  lemma AllBlankCons(pieces: seq<string>)
    requires pieces != []
    ensures AllBlank(pieces) <==> AllSpace(pieces[0]) && AllBlank(pieces[1..])
  {
    if AllSpace(pieces[0]) && AllBlank(pieces[1..]) {
      forall j | 0 <= j < |pieces| ensures AllSpace(pieces[j]) {
        if j > 0 {
          assert pieces[j] == pieces[1..][j - 1];
        }
      }
    }
  }

  /** A string with a non-space character keeps one in some blank-line piece,
      since the cut-out separators are all newlines. */
  lemma {:induction false} SplitKeepsText(s: string)
    requires !AllSpace(s)
    ensures exists j :: 0 <= j < |SplitBlankLines(s)| && !AllSpace(SplitBlankLines(s)[j])
    decreases |s|
  {
    var ps := SplitBlankLines(s);
    var k := FindBlank(s, 0);
    if k == |s| {
      assert ps[0] == s;
    } else {
      var j := NewlineRunEnd(s, k);
      var i :| 0 <= i < |s| && !IsSpace(s[i]);
      if i < k {
        assert s[..k][i] == s[i];
        assert !AllSpace(ps[0]);
      } else {
        assert i >= j;
        assert s[j..][i - j] == s[i];
        SplitKeepsText(s[j..]);
        var m :| 0 <= m < |SplitBlankLines(s[j..])| && !AllSpace(SplitBlankLines(s[j..])[m]);
        assert ps[m + 1] == SplitBlankLines(s[j..])[m];
      }
    }
  }

  /** There are no paragraphs exactly when the text is empty or all
      whitespace. */
  lemma ParagraphsEmptyIffBlank(text: string)
    ensures Paragraphs(text) == [] <==> AllSpace(text)
  {
    var t := Strip(text);
    var pieces := SplitBlankLines(t);
    TidyEmpty(pieces);
    if AllSpace(text) {
      assert t == "";
      assert FindBlank(t, 0) == 0;
      assert pieces == [""];
    } else {
      assert t != "" && !IsSpace(t[0]);
      SplitKeepsText(t);
    }
  }

  // ---------------------------------------------------------------------
  // Groups: the running chunk

  /** What the loop is run with: the budget, the token estimator and the
      function that picks the sentence carried into the next chunk. The loop
      and its proofs are stated for any estimator and any picker;
      `chunk_text` is the loop run with `SourcePolicy`. */
  datatype Policy = Policy(maxTokens: int, estimate: string -> nat, lastSentence: string -> string)

  /** The estimator and picker of the source, under the budget `maxTokens`. */
  function SourcePolicy(maxTokens: int): Policy {
    Policy(maxTokens, EstimateTokens, LastSentence)
  }

  /** A chunk before it is joined: the carried-over sentence, if any, and the
      paragraphs appended after it. */
  datatype Group = Group(overlap: Option<string>, paras: seq<string>)

  /** The source's list `current` for this group. */
  function Items(g: Group): seq<string> {
    (if g.overlap.Some? then [g.overlap.value] else []) + g.paras
  }

  /** `"\n\n".join(current)`. */
  function Render(g: Group): string {
    JoinWith("\n\n", Items(g))
  }

  /** `current_tokens` while the group holds the overlap and the first `n`
      paragraphs of `ps`: the estimate of the joined text once the group is
      seeded, then one paragraph estimate per append. */
  function Tally(pol: Policy, overlap: Option<string>, ps: seq<string>, n: nat): int
    requires n <= |ps|
  {
    if n == 0 then 0
    else if n == 1 then pol.estimate(Render(Group(overlap, [ps[0]])))
    else Tally(pol, overlap, ps, n - 1) + pol.estimate(ps[n - 1])
  }

  /** The overlap carried from a closed group: the last sentence of its last
      item, when that sentence is not empty. */
  function OverlapAfter(pol: Policy, g: Group): Option<string>
    requires Items(g) != []
  {
    var ov := pol.lastSentence(Items(g)[|Items(g)| - 1]);
    if ov != "" then Some(ov) else None
  }

  /** The loop state: the chunks closed so far, the running chunk, and
      `current_tokens`. */
  datatype Pending = Pending(closed: seq<Group>, current: Group, tokens: int)

  const Start: Pending := Pending([], Group(None, []), 0)

  /** One iteration of the loop at lines 52-66. */
  function Step(st: Pending, para: string, pol: Policy): Pending {
    var paraTokens := pol.estimate(para);
    if st.tokens + paraTokens > pol.maxTokens && Items(st.current) != [] then
      var next := Group(OverlapAfter(pol, st.current), [para]);
      Pending(st.closed + [st.current], next, pol.estimate(Render(next)))
    else
      Pending(st.closed, Group(st.current.overlap, st.current.paras + [para]), st.tokens + paraTokens)
  }

  /** The loop state after the paragraphs `paras`, in order. */
  function Accumulate(paras: seq<string>, pol: Policy): Pending
    decreases |paras|
  {
    if paras == [] then Start
    else Step(Accumulate(paras[..|paras| - 1], pol), paras[|paras| - 1], pol)
  }

  /** The groups the chunker emits: the closed ones, then the running one if
      it is not empty (lines 68-69). */
  function ChunkGroups(paras: seq<string>, pol: Policy): seq<Group> {
    var st := Accumulate(paras, pol);
    if Items(st.current) != [] then st.closed + [st.current] else st.closed
  }

  function RenderAll(gs: seq<Group>): (cs: seq<string>)
    ensures |cs| == |gs|
    ensures forall k :: 0 <= k < |gs| ==> cs[k] == Render(gs[k])
  {
    seq(|gs|, k requires 0 <= k < |gs| => Render(gs[k]))
  }

  /** The chunks of a list of paragraphs under the budget `maxTokens`. */
  function ChunkParagraphs(paras: seq<string>, maxTokens: int): seq<string> {
    RenderAll(ChunkGroups(paras, SourcePolicy(maxTokens)))
  }

  /** `chunk_text(text, max_tokens)`. */
  function ChunkText(text: string, maxTokens: int): (cs: seq<string>)
    ensures cs == [] <==> AllSpace(text)
    ensures |cs| <= |Paragraphs(text)|
  {
    ParagraphsEmptyIffBlank(text);
    LoopChunkCount(Paragraphs(text), SourcePolicy(maxTokens));
    ChunkParagraphs(Paragraphs(text), maxTokens)
  }

  // ---------------------------------------------------------------------
  // What a chunking is, independently of the loop

  /** The paragraphs of the groups, in order. */
  function Flatten(gs: seq<Group>): seq<string>
    decreases |gs|
  {
    if gs == [] then [] else Flatten(gs[..|gs| - 1]) + gs[|gs| - 1].paras
  }

  /** A group holds at least one paragraph, and every paragraph after its first
      fitted the budget when it was appended. */
  predicate GroupFits(g: Group, pol: Policy) {
    && g.paras != []
    && forall i :: 1 <= i < |g.paras| ==> Tally(pol, g.overlap, g.paras, i) + pol.estimate(g.paras[i]) <= pol.maxTokens
  }

  /** `next` was opened by closing `prev`: the first paragraph of `next` did
      not fit after `prev`, and `next` carries the overlap of `prev`. */
  predicate Closes(prev: Group, next: Group, pol: Policy) {
    && prev.paras != [] && next.paras != []
    && next.overlap == OverlapAfter(pol, prev)
    && Tally(pol, prev.overlap, prev.paras, |prev.paras|) + pol.estimate(next.paras[0]) > pol.maxTokens
  }

  predicate AllFit(gs: seq<Group>, pol: Policy) {
    forall k :: 0 <= k < |gs| ==> GroupFits(gs[k], pol)
  }

  predicate AllClose(gs: seq<Group>, pol: Policy) {
    forall k :: 1 <= k < |gs| ==> Closes(gs[k - 1], gs[k], pol)
  }

  /** `gs` chunks `paras` under the budget: every paragraph in exactly one
      group, in order; the first group carries no overlap; groups are closed
      exactly when the next paragraph does not fit. */
  predicate IsChunking(paras: seq<string>, pol: Policy, gs: seq<Group>) {
    && Flatten(gs) == paras
    && (gs != [] ==> gs[0].overlap == None)
    && AllFit(gs, pol)
    && AllClose(gs, pol)
  }

  /** The loop invariant: the state after `done` is a chunking of `done` whose
      running total is the running group's tally. */
  predicate Consistent(done: seq<string>, pol: Policy, st: Pending) {
    && st.tokens == Tally(pol, st.current.overlap, st.current.paras, |st.current.paras|)
    && (done == [] ==> st == Start)
    && (done != [] ==> IsChunking(done, pol, st.closed + [st.current]))
  }

  lemma FlattenSnoc(gs: seq<Group>, g: Group)
    ensures Flatten(gs + [g]) == Flatten(gs) + g.paras
  {
    assert (gs + [g])[..|gs|] == gs;
  }

  lemma AllFitSnoc(gs: seq<Group>, g: Group, pol: Policy)
    ensures AllFit(gs + [g], pol) <==> AllFit(gs, pol) && GroupFits(g, pol)
  {
    assert forall k :: 0 <= k < |gs| ==> (gs + [g])[k] == gs[k];
    assert (gs + [g])[|gs|] == g;
  }

  lemma AllCloseSnoc(gs: seq<Group>, g: Group, pol: Policy)
    requires gs != []
    ensures AllClose(gs + [g], pol) <==> AllClose(gs, pol) && Closes(gs[|gs| - 1], g, pol)
  {
    assert forall k :: 0 <= k < |gs| ==> (gs + [g])[k] == gs[k];
    assert (gs + [g])[|gs|] == g;
  }

  /** The conditions for `gs + [g]` to chunk `paras`, stated on `gs` and `g`. */
  predicate SnocParts(paras: seq<string>, pol: Policy, gs: seq<Group>, g: Group) {
    && Flatten(gs) + g.paras == paras
    && (gs == [] ==> g.overlap == None)
    && (gs != [] ==> gs[0].overlap == None && Closes(gs[|gs| - 1], g, pol))
    && AllFit(gs, pol) && AllClose(gs, pol)
    && GroupFits(g, pol)
  }

  /** A chunking split into its groups before the last one and the last one. */
  lemma ChunkingSnoc(paras: seq<string>, pol: Policy, gs: seq<Group>, g: Group)
    ensures IsChunking(paras, pol, gs + [g]) <==> SnocParts(paras, pol, gs, g)
  {
    FlattenSnoc(gs, g);
    AllFitSnoc(gs, g, pol);
    if gs != [] {
      AllCloseSnoc(gs, g, pol);
      assert (gs + [g])[0] == gs[0];
    } else {
      assert gs + [g] == [g];
    }
  }

  lemma TallyOne(pol: Policy, overlap: Option<string>, p: string)
    ensures Tally(pol, overlap, [p], 1) == pol.estimate(Render(Group(overlap, [p])))
  {
  }

  /** The tally of the first `n` paragraphs does not look past them. */
  lemma {:induction false} TallyPrefixOnly(pol: Policy, overlap: Option<string>, ps: seq<string>, qs: seq<string>, n: nat)
    requires n <= |ps| && n <= |qs| && ps[..n] == qs[..n]
    ensures Tally(pol, overlap, ps, n) == Tally(pol, overlap, qs, n)
  {
    if n > 1 {
      assert ps[..n - 1] == qs[..n - 1];
      assert ps[n - 1] == qs[n - 1];
      TallyPrefixOnly(pol, overlap, ps, qs, n - 1);
    } else if n == 1 {
      assert ps[0] == qs[0];
    }
  }

  lemma TallySnoc(pol: Policy, overlap: Option<string>, ps: seq<string>, p: string)
    requires ps != []
    ensures Tally(pol, overlap, ps + [p], |ps| + 1) == Tally(pol, overlap, ps, |ps|) + pol.estimate(p)
  {
    assert (ps + [p])[..|ps|] == ps[..|ps|];
    TallyPrefixOnly(pol, overlap, ps + [p], ps, |ps|);
  }

  /** Appending a paragraph that fits keeps the group fitting. */
  lemma {:induction false} AppendFits(g: Group, p: string, pol: Policy)
    requires GroupFits(g, pol)
    requires Tally(pol, g.overlap, g.paras, |g.paras|) + pol.estimate(p) <= pol.maxTokens
    ensures GroupFits(Group(g.overlap, g.paras + [p]), pol)
  {
    var ps := g.paras + [p];
    forall i | 1 <= i < |ps|
      ensures Tally(pol, g.overlap, ps, i) + pol.estimate(ps[i]) <= pol.maxTokens
    {
      assert ps[..i] == g.paras[..i];
      TallyPrefixOnly(pol, g.overlap, ps, g.paras, i);
      if i < |g.paras| {
        assert ps[i] == g.paras[i];
      }
    }
  }

  /** Removing the last paragraph of a fitting group with two or more keeps it
      fitting. */
  lemma {:induction false} DropLastFits(g: Group, pol: Policy)
    requires GroupFits(g, pol) && |g.paras| >= 2
    ensures GroupFits(Group(g.overlap, g.paras[..|g.paras| - 1]), pol)
  {
    var ps := g.paras[..|g.paras| - 1];
    forall i | 1 <= i < |ps|
      ensures Tally(pol, g.overlap, ps, i) + pol.estimate(ps[i]) <= pol.maxTokens
    {
      assert ps[..i] == g.paras[..i];
      TallyPrefixOnly(pol, g.overlap, ps, g.paras, i);
      assert ps[i] == g.paras[i];
    }
  }

  lemma {:induction false} StepClosesConsistent(done: seq<string>, para: string, pol: Policy, st: Pending)
    requires done != [] && Consistent(done, pol, st)
    requires st.tokens + pol.estimate(para) > pol.maxTokens
    ensures Consistent(done + [para], pol, Step(st, para, pol))
  {
    var cur := st.current;
    var gs := st.closed + [cur];
    ChunkingSnoc(done, pol, st.closed, cur);
    assert Items(cur) != [];
    var next := Group(OverlapAfter(pol, cur), [para]);
    assert Step(st, para, pol) == Pending(gs, next, pol.estimate(Render(next)));
    TallyOne(pol, next.overlap, para);
    assert Closes(cur, next, pol);
    AllFitSnoc(st.closed, cur, pol);
    if st.closed != [] {
      AllCloseSnoc(st.closed, cur, pol);
    }
    assert GroupFits(next, pol);
    ChunkingSnoc(done + [para], pol, gs, next);
    assert gs[0].overlap == None by {
      if st.closed == [] { assert gs[0] == cur; } else { assert gs[0] == st.closed[0]; }
    }
  }

  /** Appending a paragraph that fits to the last group of a chunking gives a
      chunking of the longer input. */
  lemma AppendKeepsChunking(done: seq<string>, para: string, pol: Policy, closed: seq<Group>, cur: Group)
    requires IsChunking(done, pol, closed + [cur])
    requires Tally(pol, cur.overlap, cur.paras, |cur.paras|) + pol.estimate(para) <= pol.maxTokens
    ensures IsChunking(done + [para], pol, closed + [Group(cur.overlap, cur.paras + [para])])
  {
    var cur' := Group(cur.overlap, cur.paras + [para]);
    ChunkingSnoc(done, pol, closed, cur);
    AppendFits(cur, para, pol);
    if closed != [] {
      assert cur'.paras[0] == cur.paras[0];
      assert Closes(closed[|closed| - 1], cur', pol);
    }
    ChunkingSnoc(done + [para], pol, closed, cur');
  }

  lemma StepAppendsConsistent(done: seq<string>, para: string, pol: Policy, st: Pending)
    requires done != [] && Consistent(done, pol, st)
    requires st.tokens + pol.estimate(para) <= pol.maxTokens
    ensures Consistent(done + [para], pol, Step(st, para, pol))
  {
    var cur := st.current;
    var cur' := Group(cur.overlap, cur.paras + [para]);
    LastGroupFits(done, pol, st.closed, cur);
    StepAppends(st, para, pol);
    TallySnoc(pol, cur.overlap, cur.paras, para);
    AppendKeepsChunking(done, para, pol, st.closed, cur);
    ConsistentFrom(done + [para], pol, st.closed, cur', st.tokens + pol.estimate(para));
  }

  lemma LastGroupFits(done: seq<string>, pol: Policy, closed: seq<Group>, cur: Group)
    requires IsChunking(done, pol, closed + [cur])
    ensures GroupFits(cur, pol)
  {
    assert (closed + [cur])[|closed|] == cur;
  }

  lemma ConsistentFrom(done: seq<string>, pol: Policy, closed: seq<Group>, cur: Group, tokens: int)
    requires done != [] && IsChunking(done, pol, closed + [cur])
    requires tokens == Tally(pol, cur.overlap, cur.paras, |cur.paras|)
    ensures Consistent(done, pol, Pending(closed, cur, tokens))
  {
  }

  lemma StepAppends(st: Pending, para: string, pol: Policy)
    requires st.tokens + pol.estimate(para) <= pol.maxTokens
    ensures Step(st, para, pol) == Pending(st.closed, Group(st.current.overlap, st.current.paras + [para]), st.tokens + pol.estimate(para))
  {
  }

  lemma StepFromStart(para: string, pol: Policy)
    ensures Consistent([para], pol, Step(Start, para, pol))
  {
    var g := Group(None, [para]);
    assert Items(Start.current) == [];
    assert Start.current.paras + [para] == [para];
    assert Step(Start, para, pol) == Pending([], g, pol.estimate(para));
    assert Render(g) == para;
    TallyOne(pol, None, para);
    ChunkingSnoc([para], pol, [], g);
    assert [] + [g] == [g];
  }

  lemma {:induction false} StepKeepsConsistent(done: seq<string>, para: string, pol: Policy, st: Pending)
    requires Consistent(done, pol, st)
    ensures Consistent(done + [para], pol, Step(st, para, pol))
  {
    if done == [] {
      StepFromStart(para, pol);
      assert done + [para] == [para];
    } else if st.tokens + pol.estimate(para) > pol.maxTokens {
      StepClosesConsistent(done, para, pol, st);
    } else {
      StepAppendsConsistent(done, para, pol, st);
    }
  }

  lemma {:induction false} AccumulateConsistent(paras: seq<string>, pol: Policy)
    ensures Consistent(paras, pol, Accumulate(paras, pol))
    decreases |paras|
  {
    if paras != [] {
      var init := paras[..|paras| - 1];
      var p := paras[|paras| - 1];
      assert init + [p] == paras;
      AccumulateConsistent(init, pol);
      AccumulateSnoc(init, p, pol);
    }
  }

  /** One more paragraph is one more step of the loop. */
  lemma AccumulateSnoc(init: seq<string>, p: string, pol: Policy)
    requires Consistent(init, pol, Accumulate(init, pol))
    ensures Consistent(init + [p], pol, Accumulate(init + [p], pol))
  {
    var st := Accumulate(init, pol);
    assert (init + [p])[..|init|] == init;
    assert Accumulate(init + [p], pol) == Step(st, p, pol);
    StepKeepsConsistent(init, p, pol, st);
  }

  /** After at least one paragraph the running group is not empty. */
  lemma AccumulateCurrent(paras: seq<string>, pol: Policy)
    requires paras != []
    ensures var st := Accumulate(paras, pol);
      Items(st.current) != [] && IsChunking(paras, pol, st.closed + [st.current])
  {
    AccumulateConsistent(paras, pol);
    var st := Accumulate(paras, pol);
    ChunkingSnoc(paras, pol, st.closed, st.current);
  }

  /** The loop computes a chunking in the sense of `IsChunking`. */
  lemma ChunkGroupsIsChunking(paras: seq<string>, pol: Policy)
    ensures IsChunking(paras, pol, ChunkGroups(paras, pol))
  {
    if paras != [] {
      AccumulateCurrent(paras, pol);
    }
  }

  lemma {:induction false} FlattenCoversGroups(gs: seq<Group>)
    requires forall k :: 0 <= k < |gs| ==> gs[k].paras != []
    ensures |Flatten(gs)| >= |gs|
    decreases |gs|
  {
    if gs != [] {
      FlattenCoversGroups(gs[..|gs| - 1]);
    }
  }

  /** Each group's paragraphs are a slice of the flattened sequence. */
  lemma {:induction false} GroupParasInFlatten(gs: seq<Group>, k: nat, i: nat)
    requires k < |gs| && i < |gs[k].paras|
    ensures gs[k].paras[i] in Flatten(gs)
    decreases |gs|
  {
    if k < |gs| - 1 {
      GroupParasInFlatten(gs[..|gs| - 1], k, i);
    } else {
      assert Flatten(gs)[|Flatten(gs[..|gs| - 1])| + i] == gs[k].paras[i];
    }
  }

  /** The paragraphs of the groups before `k` are a prefix of the flattened
      sequence, and the first paragraph of group `k` comes right after it. */
  lemma {:induction false} FlattenBefore(gs: seq<Group>, k: nat)
    requires k < |gs| && gs[k].paras != []
    ensures var j := |Flatten(gs[..k])|;
      && j < |Flatten(gs)|
      && Flatten(gs)[..j] == Flatten(gs[..k])
      && Flatten(gs)[j] == gs[k].paras[0]
    decreases |gs|
  {
    var front := gs[..|gs| - 1];
    assert Flatten(gs) == Flatten(front) + gs[|gs| - 1].paras;
    if k < |gs| - 1 {
      FlattenBefore(front, k);
      assert front[..k] == gs[..k];
      assert front[k] == gs[k];
    } else {
      assert front == gs[..k];
    }
  }

  lemma ChunkingGroupsNonEmpty(paras: seq<string>, pol: Policy, gs: seq<Group>)
    requires IsChunking(paras, pol, gs)
    ensures forall k :: 0 <= k < |gs| ==> gs[k].paras != []
  {
    forall k | 0 <= k < |gs| ensures gs[k].paras != [] { assert GroupFits(gs[k], pol); }
  }

  /** A chunking whose last group was opened by the last paragraph: the groups
      before it chunk the rest of the input. */
  lemma ChunkingOpenedLast(paras: seq<string>, pol: Policy, front: seq<Group>, last: Group)
    requires IsChunking(paras, pol, front + [last]) && |last.paras| == 1
    ensures paras != [] && Flatten(front) == paras[..|paras| - 1]
    ensures front == [] ==> last == Group(None, [paras[|paras| - 1]])
    ensures front != [] ==> IsChunking(paras[..|paras| - 1], pol, front)
  {
    ChunkingSnoc(paras, pol, front, last);
    if front != [] {
      ChunkingSnoc(paras[..|paras| - 1], pol, front[..|front| - 1], front[|front| - 1]);
      assert front[..|front| - 1] + [front[|front| - 1]] == front;
    }
  }

  /** A chunking whose last group holds two or more paragraphs: dropping the
      last paragraph leaves a chunking of the rest of the input. */
  lemma ChunkingExtendedLast(paras: seq<string>, pol: Policy, front: seq<Group>, last: Group)
    requires IsChunking(paras, pol, front + [last]) && |last.paras| >= 2
    ensures var shorter := Group(last.overlap, last.paras[..|last.paras| - 1]);
      && paras != [] && last.paras == shorter.paras + [paras[|paras| - 1]]
      && IsChunking(paras[..|paras| - 1], pol, front + [shorter])
      && Tally(pol, shorter.overlap, shorter.paras, |shorter.paras|) + pol.estimate(paras[|paras| - 1]) <= pol.maxTokens
  {
    ChunkingSnoc(paras, pol, front, last);
    var shorter := Group(last.overlap, last.paras[..|last.paras| - 1]);
    DropLast(Flatten(front), last.paras);
    SplitLast(last.paras);
    DropLastFits(last, pol);
    if front != [] {
      assert shorter.paras[0] == last.paras[0];
      assert Closes(front[|front| - 1], shorter, pol);
    }
    ChunkingSnoc(paras[..|paras| - 1], pol, front, shorter);
    var i := |shorter.paras|;
    assert last.paras[..i] == shorter.paras[..i];
    TallyPrefixOnly(pol, last.overlap, last.paras, shorter.paras, i);
  }

  /** The last element and the front of a concatenation with a non-empty
      right part come from that part. */
  lemma DropLast<T>(xs: seq<T>, ys: seq<T>)
    requires ys != []
    ensures (xs + ys)[|xs + ys| - 1] == ys[|ys| - 1]
    ensures (xs + ys)[..|xs + ys| - 1] == xs + ys[..|ys| - 1]
  {
  }

  /** A non-empty sequence is its front followed by its last element. */
  lemma SplitLast<T>(ys: seq<T>)
    requires ys != []
    ensures ys == ys[..|ys| - 1] + [ys[|ys| - 1]]
  {
  }

  /** The last step of the loop, when the chunking's last group was opened by
      the last paragraph and the groups before it are the loop's. */
  lemma LoopClosesLast(paras: seq<string>, pol: Policy, front: seq<Group>, last: Group)
    requires IsChunking(paras, pol, front + [last]) && |last.paras| == 1
    requires front != [] && paras != [] && front == ChunkGroups(paras[..|paras| - 1], pol)
    ensures front + [last] == ChunkGroups(paras, pol)
  {
    var init := paras[..|paras| - 1];
    var p := paras[|paras| - 1];
    var st := Accumulate(init, pol);
    assert Accumulate(paras, pol) == Step(st, p, pol);
    AccumulateCurrent(init, pol);
    AccumulateConsistent(init, pol);
    ChunkingSnoc(paras, pol, front, last);
    assert st.closed + [st.current] == front;
    assert st.current == front[|front| - 1];
    FlattenSnoc(front, last);
    assert last.paras == [p];
    assert Step(st, p, pol) == Pending(front, last, pol.estimate(Render(last)));
  }

  /** The last step of the loop, when the chunking's last group grew by the
      last paragraph and the groups before that are the loop's. */
  lemma LoopAppendsLast(paras: seq<string>, pol: Policy, front: seq<Group>, last: Group)
    requires paras != [] && |last.paras| >= 2
    requires last.paras[|last.paras| - 1] == paras[|paras| - 1]
    requires var shorter := Group(last.overlap, last.paras[..|last.paras| - 1]);
      && front + [shorter] == ChunkGroups(paras[..|paras| - 1], pol)
      && Tally(pol, shorter.overlap, shorter.paras, |shorter.paras|) + pol.estimate(paras[|paras| - 1]) <= pol.maxTokens
    ensures front + [last] == ChunkGroups(paras, pol)
  {
    var init := paras[..|paras| - 1];
    var p := paras[|paras| - 1];
    var shorter := Group(last.overlap, last.paras[..|last.paras| - 1]);
    var st := Accumulate(init, pol);
    assert Accumulate(paras, pol) == Step(st, p, pol);
    AccumulateCurrent(init, pol);
    AccumulateConsistent(init, pol);
    assert st.current == shorter && st.closed == front;
    SplitLast(last.paras);
    assert Step(st, p, pol) == Pending(front, last, st.tokens + pol.estimate(p));
  }

  /** The loop's groups are the only chunking: whatever satisfies
      `IsChunking` is what the loop computes. */
  lemma {:induction false} ChunkingIsUnique(paras: seq<string>, pol: Policy, gs: seq<Group>)
    requires IsChunking(paras, pol, gs)
    ensures gs == ChunkGroups(paras, pol)
    decreases |paras|
  {
    ChunkingGroupsNonEmpty(paras, pol, gs);
    FlattenCoversGroups(gs);
    if paras != [] {
      var front := gs[..|gs| - 1];
      var last := gs[|gs| - 1];
      assert gs == front + [last];
      var init := paras[..|paras| - 1];
      if |last.paras| == 1 {
        ChunkingOpenedLast(paras, pol, front, last);
        if front == [] {
          assert init == [];
          assert Accumulate(paras, pol) == Step(Start, paras[0], pol);
        } else {
          ChunkingIsUnique(init, pol, front);
          LoopClosesLast(paras, pol, front, last);
        }
      } else {
        ChunkingExtendedLast(paras, pol, front, last);
        var shorter := Group(last.overlap, last.paras[..|last.paras| - 1]);
        ChunkingIsUnique(init, pol, front + [shorter]);
        LoopAppendsLast(paras, pol, front, last);
      }
    }
  }

  /** Both directions: `gs` is what the loop emits exactly when it is a
      chunking of the paragraphs under the budget. */
  lemma ChunkGroupsCharacterized(paras: seq<string>, pol: Policy, gs: seq<Group>)
    ensures gs == ChunkGroups(paras, pol) <==> IsChunking(paras, pol, gs)
  {
    ChunkGroupsIsChunking(paras, pol);
    if IsChunking(paras, pol, gs) {
      ChunkingIsUnique(paras, pol, gs);
    }
  }

  // ---------------------------------------------------------------------
  // The chunks as strings

  /** The blank-line pieces of a chunk that are its own: when the chunk before
      it (`prev`) ends in a piece whose last sentence `pick` is not empty, that
      sentence was carried over and is dropped. */
  function OwnPieces(pick: string -> string, prev: Option<string>, chunk: string): seq<string> {
    var ps := SplitBlankLines(chunk);
    if prev.Some? && |ps| >= 1 then
      var before := SplitBlankLines(prev.value);
      if pick(before[|before| - 1]) != "" then ps[1..] else ps
    else ps
  }

  /** Undoing the overlap: every chunk's own pieces, in order. */
  function Unoverlap(pick: string -> string, chunks: seq<string>): seq<string>
    decreases |chunks|
  {
    var n := |chunks|;
    if n == 0 then []
    else Unoverlap(pick, chunks[..n - 1]) + OwnPieces(pick, if n > 1 then Some(chunks[n - 2]) else None, chunks[n - 1])
  }

  /** The picker turns clean paragraphs into clean sentences. */
  ghost predicate KeepsClean(pol: Policy) {
    forall s :: IsClean(s) ==> IsClean(pol.lastSentence(s))
  }

  lemma SourceKeepsClean(maxTokens: int)
    ensures KeepsClean(SourcePolicy(maxTokens))
  {
    forall s | IsClean(s) ensures IsClean(LastSentence(s)) {
      LastSentenceIsClean(s);
    }
  }

  predicate AllClean(ps: seq<string>) {
    forall i :: 0 <= i < |ps| ==> IsClean(ps[i])
  }

  /** Every item of every group of a chunking of clean paragraphs is clean:
      the paragraphs by assumption, the carried sentences because the picker
      keeps clean text clean. */
  lemma {:induction false} ItemsClean(gs: seq<Group>, pol: Policy, k: nat)
    requires k < |gs| && KeepsClean(pol)
    requires forall j :: 0 <= j < |gs| ==> AllClean(gs[j].paras)
    requires gs[0].overlap == None && AllClose(gs, pol)
    ensures AllClean(Items(gs[k]))
    decreases k
  {
    var g := gs[k];
    assert AllClean(g.paras);
    if g.overlap.Some? {
      assert k > 0;
      ItemsClean(gs, pol, k - 1);
      assert Closes(gs[k - 1], g, pol);
      var prevItems := Items(gs[k - 1]);
      assert IsClean(prevItems[|prevItems| - 1]);
      assert Items(g)[0] == g.overlap.value;
      forall i | 1 <= i < |Items(g)| ensures IsClean(Items(g)[i]) {
        assert Items(g)[i] == g.paras[i - 1];
      }
    } else {
      assert Items(g) == g.paras;
    }
  }

  /** What the loop hands back for clean paragraphs: non-empty groups whose
      items are all clean. */
  lemma LoopGroups(paras: seq<string>, pol: Policy)
    requires AllClean(paras) && KeepsClean(pol)
    ensures var gs := ChunkGroups(paras, pol);
      forall k :: 0 <= k < |gs| ==> gs[k].paras != [] && AllClean(Items(gs[k]))
  {
    var gs := ChunkGroups(paras, pol);
    ChunkGroupsIsChunking(paras, pol);
    ChunkingGroupsNonEmpty(paras, pol, gs);
    if gs != [] {
      forall j | 0 <= j < |gs| ensures AllClean(gs[j].paras) {
        forall i | 0 <= i < |gs[j].paras| ensures IsClean(gs[j].paras[i]) {
          GroupParasInFlatten(gs, j, i);
        }
      }
      forall k | 0 <= k < |gs| ensures AllClean(Items(gs[k])) {
        ItemsClean(gs, pol, k);
      }
    }
  }

  /** A rendered group splits back into its items. */
  lemma RenderSplits(g: Group)
    requires Items(g) != [] && AllClean(Items(g))
    ensures SplitBlankLines(Render(g)) == Items(g)
  {
    SplitJoinBlankLines(Items(g));
  }

  /** The own pieces of a rendered group that follows `prev` are its
      paragraphs. */
  lemma OwnPiecesAfter(prev: Group, g: Group, pol: Policy)
    requires Closes(prev, g, pol)
    requires AllClean(Items(prev)) && AllClean(Items(g))
    ensures OwnPieces(pol.lastSentence, Some(Render(prev)), Render(g)) == g.paras
  {
    RenderSplits(g);
    RenderSplits(prev);
    if g.overlap.Some? {
      assert Items(g)[1..] == g.paras;
    } else {
      assert Items(g) == g.paras;
    }
  }

  /** The own pieces of a rendered first group are its paragraphs. */
  lemma OwnPiecesFirst(g: Group, pick: string -> string)
    requires g.paras != [] && g.overlap == None && AllClean(Items(g))
    ensures OwnPieces(pick, None, Render(g)) == g.paras
  {
    RenderSplits(g);
    assert Items(g) == g.paras;
  }

  /** Undoing the overlap of the rendered groups of a chunking gives back the
      paragraphs. */
  lemma {:induction false} UnoverlapRendered(gs: seq<Group>, pol: Policy)
    requires forall k :: 0 <= k < |gs| ==> gs[k].paras != [] && AllClean(Items(gs[k]))
    requires gs != [] ==> gs[0].overlap == None
    requires AllClose(gs, pol)
    ensures Unoverlap(pol.lastSentence, RenderAll(gs)) == Flatten(gs)
    decreases |gs|
  {
    var n := |gs|;
    if n > 0 {
      var cs := RenderAll(gs);
      var front := gs[..n - 1];
      assert RenderAll(front) == cs[..n - 1];
      assert AllClose(front, pol) by {
        forall k | 1 <= k < |front| ensures Closes(front[k - 1], front[k], pol) {
          assert Closes(gs[k - 1], gs[k], pol);
        }
      }
      UnoverlapRendered(front, pol);
      if n > 1 {
        assert Closes(gs[n - 2], gs[n - 1], pol);
        OwnPiecesAfter(gs[n - 2], gs[n - 1], pol);
      } else {
        OwnPiecesFirst(gs[0], pol.lastSentence);
      }
    }
  }

  /** A rendered group of clean items is non-empty and has no whitespace at
      either end. */
  lemma RenderedEnds(g: Group)
    requires g.paras != [] && AllClean(Items(g))
    ensures var c := Render(g); c != "" && !IsSpace(c[0]) && !IsSpace(c[|c| - 1])
  {
    var items := Items(g);
    assert IsClean(items[0]) && IsClean(items[|items| - 1]);
    JoinStartsWith("\n\n", items);
    JoinEndsWith("\n\n", items);
  }

  /** No chunk of clean paragraphs is empty or has whitespace at either end,
      for any estimator and any picker that keeps clean text clean. */
  lemma LoopChunkEnds(paras: seq<string>, pol: Policy)
    requires AllClean(paras) && KeepsClean(pol)
    ensures var cs := RenderAll(ChunkGroups(paras, pol));
      forall k :: 0 <= k < |cs| ==> cs[k] != "" && !IsSpace(cs[k][0]) && !IsSpace(cs[k][|cs[k]| - 1])
  {
    var gs := ChunkGroups(paras, pol);
    var cs := RenderAll(gs);
    LoopGroups(paras, pol);
    forall k | 0 <= k < |cs| ensures cs[k] != "" && !IsSpace(cs[k][0]) && !IsSpace(cs[k][|cs[k]| - 1]) {
      RenderedEnds(gs[k]);
    }
  }

  /** There is at most one chunk per paragraph, and no chunk exactly when
      there is no paragraph. */
  lemma LoopChunkCount(paras: seq<string>, pol: Policy)
    ensures var n := |ChunkGroups(paras, pol)|;
      n <= |paras| && (n == 0 <==> paras == [])
  {
    var gs := ChunkGroups(paras, pol);
    ChunkGroupsIsChunking(paras, pol);
    ChunkingGroupsNonEmpty(paras, pol, gs);
    FlattenCoversGroups(gs);
    if gs == [] {
      assert Flatten(gs) == [];
    }
  }

  /** Undoing the overlap of the chunks of clean paragraphs gives them back. */
  lemma LoopUnoverlap(paras: seq<string>, pol: Policy)
    requires AllClean(paras) && KeepsClean(pol)
    ensures Unoverlap(pol.lastSentence, RenderAll(ChunkGroups(paras, pol))) == paras
  {
    var gs := ChunkGroups(paras, pol);
    LoopGroups(paras, pol);
    ChunkGroupsIsChunking(paras, pol);
    UnoverlapRendered(gs, pol);
  }

  /** The pieces of a group opened by closing `prev`: the carried sentence,
      when it is not empty, then the paragraph that triggered the close. */
  lemma CarryPieces(prev: Group, g: Group, pol: Policy)
    requires Closes(prev, g, pol) && AllClean(Items(prev)) && AllClean(Items(g))
    ensures var before := SplitBlankLines(Render(prev));
      var ov := pol.lastSentence(before[|before| - 1]);
      var ps := SplitBlankLines(Render(g));
      && (ov != "" ==> |ps| >= 2 && ps[0] == ov && ps[1] == g.paras[0])
      && (ov == "" ==> ps[0] == g.paras[0])
  {
    RenderSplits(prev);
    RenderSplits(g);
  }

  /** The chunk after a close, for any estimator and any picker that keeps
      clean text clean. */
  lemma LoopCarries(paras: seq<string>, pol: Policy, k: nat)
    requires AllClean(paras) && KeepsClean(pol)
    requires 1 <= k < |ChunkGroups(paras, pol)|
    ensures var gs := ChunkGroups(paras, pol);
      var cs := RenderAll(gs);
      var before := SplitBlankLines(cs[k - 1]);
      var ov := pol.lastSentence(before[|before| - 1]);
      var ps := SplitBlankLines(cs[k]);
      && gs[k].paras != [] && gs[k].paras[0] in paras
      && (ov != "" ==> |ps| >= 2 && ps[0] == ov && ps[1] == gs[k].paras[0])
      && (ov == "" ==> ps[0] == gs[k].paras[0])
  {
    var gs := ChunkGroups(paras, pol);
    LoopGroups(paras, pol);
    LoopClosesAt(paras, pol, k);
    CarryPieces(gs[k - 1], gs[k], pol);
  }

  /** Chunk `k` was opened by a close: the earlier chunks hold exactly the
      first `j` paragraphs, paragraph `j` did not fit after chunk `k - 1`, and
      chunk `k` starts with the sentence carried from chunk `k - 1` (when it
      is not empty) followed by paragraph `j`. */
  predicate OpensWithNext(paras: seq<string>, pol: Policy, k: nat)
    requires 1 <= k < |ChunkGroups(paras, pol)|
  {
    var gs := ChunkGroups(paras, pol);
    var cs := RenderAll(gs);
    var before := SplitBlankLines(cs[k - 1]);
    var ov := pol.lastSentence(before[|before| - 1]);
    var ps := SplitBlankLines(cs[k]);
    var j := |Flatten(gs[..k])|;
    && j < |paras| && paras[..j] == Flatten(gs[..k])
    && Tally(pol, gs[k - 1].overlap, gs[k - 1].paras, |gs[k - 1].paras|) + pol.estimate(paras[j]) > pol.maxTokens
    && (ov != "" ==> |ps| >= 2 && ps[0] == ov && ps[1] == paras[j])
    && (ov == "" ==> ps[0] == paras[j])
  }

  /** For any estimator and any picker that keeps clean text clean, every
      chunk after the first is opened by a close. */
  lemma LoopCarriesNext(paras: seq<string>, pol: Policy, k: nat)
    requires AllClean(paras) && KeepsClean(pol)
    requires 1 <= k < |ChunkGroups(paras, pol)|
    ensures OpensWithNext(paras, pol, k)
  {
    var gs := ChunkGroups(paras, pol);
    LoopCarries(paras, pol, k);
    LoopClosesAt(paras, pol, k);
    ChunkGroupsIsChunking(paras, pol);
    FlattenBefore(gs, k);
  }

  /** Every group after the first was opened by closing the one before it,
      with a paragraph of the input. */
  lemma LoopClosesAt(paras: seq<string>, pol: Policy, k: nat)
    requires 1 <= k < |ChunkGroups(paras, pol)|
    ensures var gs := ChunkGroups(paras, pol);
      Closes(gs[k - 1], gs[k], pol) && gs[k].paras[0] in paras
  {
    var gs := ChunkGroups(paras, pol);
    ChunkGroupsIsChunking(paras, pol);
    assert Closes(gs[k - 1], gs[k], pol);
    GroupParasInFlatten(gs, k, 0);
  }

  /** No chunk is empty or starts or ends with whitespace, and there are
      between one chunk and one chunk per paragraph. */
  lemma ChunkTextShape(text: string, maxTokens: int)
    ensures var cs := ChunkText(text, maxTokens);
      && (forall k :: 0 <= k < |cs| ==> cs[k] != "" && !IsSpace(cs[k][0]) && !IsSpace(cs[k][|cs[k]| - 1]))
      && |cs| <= |Paragraphs(text)|
      && (Paragraphs(text) != [] ==> |cs| >= 1)
  {
    SourceKeepsClean(maxTokens);
    LoopChunkEnds(Paragraphs(text), SourcePolicy(maxTokens));
    LoopChunkCount(Paragraphs(text), SourcePolicy(maxTokens));
  }

  /** Each paragraph lands in exactly one chunk, in order: dropping the carried
      sentence from every chunk that has one and concatenating the pieces gives
      the paragraphs back. */
  lemma UnoverlapRecoversParagraphs(text: string, maxTokens: int)
    ensures Unoverlap(LastSentence, ChunkText(text, maxTokens)) == Paragraphs(text)
  {
    SourceKeepsClean(maxTokens);
    LoopUnoverlap(Paragraphs(text), SourcePolicy(maxTokens));
  }

  /** After a close, the next chunk starts with the last sentence of the
      closed chunk's last paragraph (when that sentence is not empty), then the
      paragraph that triggered the close. Stated for the chunks of any clean
      paragraphs, which is what `ChunkText` chunks. */
  lemma CarriedSentence(paras: seq<string>, maxTokens: int, k: nat)
    requires AllClean(paras)
    requires 1 <= k < |ChunkParagraphs(paras, maxTokens)|
    ensures OpensWithNext(paras, SourcePolicy(maxTokens), k)
  {
    SourceKeepsClean(maxTokens);
    LoopCarriesNext(paras, SourcePolicy(maxTokens), k);
  }

  /** A paragraph is never split, however far over the budget it is: text
      with one paragraph is one chunk, that paragraph. */
  lemma SingleParagraphIsOneChunk(text: string, maxTokens: int)
    requires |Paragraphs(text)| == 1
    ensures ChunkText(text, maxTokens) == Paragraphs(text)
  {
    var paras := Paragraphs(text);
    assert paras == [paras[0]];
    OneParagraphOneChunk(paras[0], SourcePolicy(maxTokens));
  }

  /** The same for a single clean paragraph given as the whole text: it is
      its own only paragraph, so it comes back as the one chunk. */
  lemma CleanParagraphIsOneChunk(p: string, maxTokens: int)
    requires IsClean(p)
    ensures ChunkText(p, maxTokens) == [p]
  {
    CleanIsOwnParagraph(p);
    OneParagraphOneChunk(p, SourcePolicy(maxTokens));
  }

  lemma CleanIsOwnParagraph(p: string)
    requires IsClean(p)
    ensures Paragraphs(p) == [p]
  {
    SpaceEndIs(p, 0, 0);
    SpaceStartIs(p, |p|, |p|);
    assert Strip(p) == p;
    SplitClean(p);
    assert [p][1..] == [];
  }

  lemma OneParagraphOneChunk(p: string, pol: Policy)
    ensures RenderAll(ChunkGroups([p], pol)) == [p]
  {
    var g := Group(None, [p]);
    assert [p][..0] == [];
    assert Accumulate([p], pol) == Step(Start, p, pol);
    assert Start.current.paras + [p] == [p];
    assert Step(Start, p, pol).current == g && Step(Start, p, pol).closed == [];
    assert ChunkGroups([p], pol) == [g];
    assert Render(g) == p;
  }
}
