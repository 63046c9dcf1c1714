/** The string primitives the services lean on, written to match Python's
    `str` methods: `isspace`, `strip`, `lower`, `split()`, `sep.join` and
    slicing with `s[:n]`. Strings are sequences of code points, as in Python. */
module Text {

  import opened Wrappers

  /** Python's `str.isspace`. The same set of characters is what `str.split()`,
      `str.strip()` and the `\s` class of `re` treat as whitespace. */
  predicate IsSpace(c: char) {
    || ('\t' <= c <= '\r')
    || ('\U{1C}' <= c <= ' ')
    || c == '\U{85}' || c == '\U{A0}' || c == '\U{1680}'
    || ('\U{2000}' <= c <= '\U{200A}')
    || c == '\U{2028}' || c == '\U{2029}' || c == '\U{202F}' || c == '\U{205F}'
    || c == '\U{3000}'
  }

  predicate AllSpace(s: string) {
    forall i :: 0 <= i < |s| ==> IsSpace(s[i])
  }

  predicate NoSpace(s: string) {
    forall i :: 0 <= i < |s| ==> !IsSpace(s[i])
  }

  // ---------------------------------------------------------------------
  // strip

  /** The end of the whitespace run that starts at `i`. */
  function SpaceEnd(s: string, i: nat): (k: nat)
    requires i <= |s|
    ensures i <= k <= |s|
    ensures forall j :: i <= j < k ==> IsSpace(s[j])
    ensures k < |s| ==> !IsSpace(s[k])
    decreases |s| - i
  {
    if i < |s| && IsSpace(s[i]) then SpaceEnd(s, i + 1) else i
  }

  /** The start of the whitespace run that ends at `j`. */
  function SpaceStart(s: string, j: nat): (k: nat)
    requires j <= |s|
    ensures k <= j
    ensures forall i :: k <= i < j ==> IsSpace(s[i])
    ensures k > 0 ==> !IsSpace(s[k - 1])
    decreases j
  {
    if j > 0 && IsSpace(s[j - 1]) then SpaceStart(s, j - 1) else j
  }

  /** A run of whitespace ending at a non-space character or at the end is
      the one `SpaceEnd` finds. */
  lemma SpaceEndIs(s: string, i: nat, k: nat)
    requires i <= k <= |s|
    requires forall j :: i <= j < k ==> IsSpace(s[j])
    requires k < |s| ==> !IsSpace(s[k])
    ensures SpaceEnd(s, i) == k
  {
  }

  /** A run of whitespace starting after a non-space character or at the
      start is the one `SpaceStart` finds. */
  lemma SpaceStartIs(s: string, j: nat, k: nat)
    requires k <= j <= |s|
    requires forall i :: k <= i < j ==> IsSpace(s[i])
    requires k > 0 ==> !IsSpace(s[k - 1])
    ensures SpaceStart(s, j) == k
  {
  }

  /** `s.lstrip()`: the suffix of `s` left after its leading whitespace. */
  function TrimStart(s: string): (r: string)
    ensures |r| <= |s| && r == s[|s| - |r|..]
    ensures AllSpace(s[..|s| - |r|])
    ensures r == "" || !IsSpace(r[0])
  {
    var k := SpaceEnd(s, 0);
    assert forall j :: 0 <= j < k ==> s[..k][j] == s[j];
    s[k..]
  }

  /** `s.rstrip()`: the prefix of `s` left before its trailing whitespace. */
  function TrimEnd(s: string): (r: string)
    ensures |r| <= |s| && r == s[..|r|]
    ensures AllSpace(s[|r|..])
    ensures r == "" || !IsSpace(r[|r| - 1])
  {
    var k := SpaceStart(s, |s|);
    assert forall j :: 0 <= j < |s| - k ==> s[k..][j] == s[k + j];
    s[..k]
  }

  /** `s.strip()`, that is `s.lstrip().rstrip()`. The result is a slice of
      `s`, starts and ends with a non-space character, and is empty exactly
      when `s` is all whitespace. */
  function Strip(s: string): (r: string)
    ensures |r| <= |s|
    ensures r != "" ==> !IsSpace(r[0]) && !IsSpace(r[|r| - 1])
    ensures r == "" <==> SpaceEnd(s, 0) == |s|
    ensures SpaceEnd(s, 0) + |r| <= |s| && r == s[SpaceEnd(s, 0)..SpaceEnd(s, 0) + |r|]
  {
    var a := SpaceEnd(s, 0);
    if a == |s| then
      ""
    else
      var b := SpaceStart(s, |s|);
      assert !IsSpace(s[a]);
      assert b > a;
      s[a..b]
  }

  /** `strip` leaves nothing exactly of whitespace-only text. */
  lemma StripEmptyIff(s: string)
    ensures Strip(s) == "" <==> AllSpace(s)
  {
    if !AllSpace(s) {
      var i :| 0 <= i < |s| && !IsSpace(s[i]);
    }
  }

  /** `Strip` is `lstrip` followed by `rstrip`. */
  lemma StripTrims(s: string)
    ensures Strip(s) == TrimEnd(TrimStart(s))
  {
    var a := SpaceEnd(s, 0);
    var t := s[a..];
    if a < |s| {
      SpaceStartIs(t, |t|, SpaceStart(s, |s|) - a);
    } else {
      assert t == "";
    }
  }

  /** Whitespace around a string does not change what `strip` returns. */
  lemma StripIgnoresPadding(front: string, s: string, back: string)
    requires AllSpace(front) && AllSpace(back)
    ensures Strip(front + s + back) == Strip(s)
  {
    ConcatAssoc(front, s, back);
    StripIgnoresFront(front, s + back);
    StripIgnoresBack(s, back);
  }

  lemma ConcatAssoc<T>(a: seq<T>, b: seq<T>, c: seq<T>)
    ensures a + b + c == a + (b + c)
  {
  }

  lemma StripIgnoresFront(front: string, t: string)
    requires AllSpace(front)
    ensures Strip(front + t) == Strip(t)
  {
    FrontSpans(front, t);
    StripShift(front + t, t, |front|);
  }

  lemma StripIgnoresBack(s: string, back: string)
    requires AllSpace(back)
    ensures Strip(s + back) == Strip(s)
  {
    BackSpans(s, back);
    StripShift(s + back, s, 0);
  }

  /** Leading whitespace shifts both runs of `t` by its length. */
  lemma FrontSpans(front: string, t: string)
    requires AllSpace(front)
    ensures Spans(front + t, t, |front|)
  {
    SpaceEndAfterSpace(front, t);
    ShiftSpans(front, t);
  }

  /** Once the leading run of `front + t` is known to end where that of `t`
      does, shifted, the rest of `Spans` follows from `t` alone. */
  lemma ShiftSpans(front: string, t: string)
    requires SpaceEnd(front + t, 0) == |front| + SpaceEnd(t, 0)
    ensures Spans(front + t, t, |front|)
  {
    var a := SpaceEnd(t, 0);
    if a < |t| {
      var b := SpaceStart(t, |t|);
      RunsOrdered(t);
      SpaceStartAfterSpace(front, t);
      SliceAfter(front, t, a, b);
      SpansIntro(front + t, t, |front|, a, b);
    }
  }

  /** Trailing whitespace moves neither run of `s` once `s` has text. */
  lemma BackSpans(s: string, back: string)
    requires AllSpace(back)
    ensures Spans(s + back, s, 0)
  {
    var p := s + back;
    SpaceEndBeforeSpace(s, back);
    var a := SpaceEnd(s, 0);
    if a < |s| {
      var b := SpaceStart(s, |s|);
      RunsOrdered(s);
      SpaceStartBeforeSpace(s, back);
      SliceBefore(s, back, a, b);
      SpansIntro(p, s, 0, a, b);
    }
  }

  /** `p` holds the text of `t` at offset `n` with only whitespace around it:
      both are blank, or the runs of `p` are those of `t` shifted by `n` and
      the text between them is the same. */
  predicate Spans(p: string, t: string, n: nat) {
    && (SpaceEnd(t, 0) == |t| ==> SpaceEnd(p, 0) == |p|)
    && (SpaceEnd(t, 0) < |t| ==>
      && SpaceEnd(p, 0) == n + SpaceEnd(t, 0)
      && SpaceEnd(t, 0) < SpaceStart(t, |t|)
      && n + SpaceStart(t, |t|) <= |p|
      && SpaceStart(p, |p|) == n + SpaceStart(t, |t|)
      && SameText(p, n + SpaceEnd(t, 0), t, SpaceEnd(t, 0), SpaceStart(t, |t|)))
  }

  lemma SpansIntro(p: string, t: string, n: nat, a: nat, b: nat)
    requires a == SpaceEnd(t, 0) && a < |t| && b == SpaceStart(t, |t|) && a < b
    requires SpaceEnd(p, 0) == n + a && SpaceStart(p, |p|) == n + b && n + b <= |p|
    requires SameText(p, n + a, t, a, b)
    ensures Spans(p, t, n)
  {
  }

  /** `p` holds `t` at offset `n` with only whitespace around it, as far as
      `Strip` can tell: both strip to the same string. */
  lemma StripShift(p: string, t: string, n: nat)
    requires Spans(p, t, n)
    ensures Strip(p) == Strip(t)
  {
    var a := SpaceEnd(t, 0);
    if a < |t| {
      var b := SpaceStart(t, |t|);
      StripAt(t, a, b);
      StripAt(p, n + a, n + b);
    } else {
      BothBlank(p, t);
    }
  }

  /** With a non-space character, `Strip` is the span from the end of the
      leading run to the start of the trailing run. */
  lemma StripAt(x: string, from: nat, to: nat)
    requires from < |x| && SpaceEnd(x, 0) == from && SpaceStart(x, |x|) == to
    ensures from < to <= |x| && Strip(x) == x[from..to]
  {
    StripSpan(x);
  }

  /** With a non-space character, the leading run ends before the trailing
      run starts. */
  lemma RunsOrdered(x: string)
    requires SpaceEnd(x, 0) < |x|
    ensures SpaceEnd(x, 0) < SpaceStart(x, |x|)
  {
    assert !IsSpace(x[SpaceEnd(x, 0)]);
  }

  lemma BothBlank(x: string, y: string)
    requires SpaceEnd(x, 0) == |x| && SpaceEnd(y, 0) == |y|
    ensures Strip(x) == Strip(y) == ""
  {
  }

  /** `p` holds the text `t[a..b]` at offset `i`. */
  predicate SameText(p: string, i: nat, t: string, a: nat, b: nat) {
    a <= b <= |t| && i + (b - a) <= |p| && p[i..i + (b - a)] == t[a..b]
  }

  lemma SliceAfter(front: string, t: string, a: nat, b: nat)
    requires a <= b <= |t|
    ensures SameText(front + t, |front| + a, t, a, b)
  {
    var p := front + t;
    forall j | 0 <= j < b - a ensures p[|front| + a..|front| + b][j] == t[a..b][j] {
      assert p[|front| + a + j] == t[a + j];
    }
  }

  lemma SliceBefore(s: string, back: string, a: nat, b: nat)
    requires a <= b <= |s|
    ensures SameText(s + back, a, s, a, b)
  {
    var p := s + back;
    forall j | 0 <= j < b - a ensures p[a..b][j] == s[a..b][j] {
      assert p[a + j] == s[a + j];
    }
  }

  /** `Strip` cuts from the end of the leading run to the start of the
      trailing run. */
  lemma StripSpan(s: string)
    ensures SpaceEnd(s, 0) == |s| ==> Strip(s) == ""
    ensures SpaceEnd(s, 0) < |s| ==> SpaceEnd(s, 0) < SpaceStart(s, |s|) && Strip(s) == s[SpaceEnd(s, 0)..SpaceStart(s, |s|)]
  {
  }

  lemma SpaceEndAfterSpace(front: string, t: string)
    requires AllSpace(front)
    ensures SpaceEnd(front + t, 0) == |front| + SpaceEnd(t, 0)
  {
    var p := front + t;
    var k := SpaceEnd(t, 0);
    forall j | 0 <= j < |front| + k ensures IsSpace(p[j]) {
      if j < |front| { assert p[j] == front[j]; } else { assert p[j] == t[j - |front|]; }
    }
    if |front| + k < |p| {
      assert p[|front| + k] == t[k];
    }
    SpaceEndIs(p, 0, |front| + k);
  }

  lemma SpaceEndBeforeSpace(t: string, back: string)
    requires AllSpace(back)
    ensures SpaceEnd(t + back, 0) == if SpaceEnd(t, 0) < |t| then SpaceEnd(t, 0) else |t| + |back|
  {
    var p := t + back;
    var k := SpaceEnd(t, 0);
    var e := if k < |t| then k else |p|;
    forall j | 0 <= j < e ensures IsSpace(p[j]) {
      if j < |t| { assert p[j] == t[j]; } else { assert p[j] == back[j - |t|]; }
    }
    if e < |p| {
      assert p[e] == t[k];
    }
    SpaceEndIs(p, 0, e);
  }

  lemma SpaceStartBeforeSpace(t: string, back: string)
    requires AllSpace(back)
    ensures SpaceStart(t + back, |t| + |back|) == SpaceStart(t, |t|)
  {
    var p := t + back;
    var k := SpaceStart(t, |t|);
    forall j | k <= j < |p| ensures IsSpace(p[j]) {
      if j < |t| { assert p[j] == t[j]; } else { assert p[j] == back[j - |t|]; }
    }
    if k > 0 {
      assert p[k - 1] == t[k - 1];
    }
    SpaceStartIs(p, |p|, k);
  }

  lemma SpaceStartAfterSpace(front: string, t: string)
    requires SpaceStart(t, |t|) > 0
    ensures SpaceStart(front + t, |front| + |t|) == |front| + SpaceStart(t, |t|)
  {
    var p := front + t;
    var k := SpaceStart(t, |t|);
    forall j | |front| + k <= j < |p| ensures IsSpace(p[j]) {
      assert p[j] == t[j - |front|];
    }
    assert p[|front| + k - 1] == t[k - 1];
    SpaceStartIs(p, |p|, |front| + k);
  }

  // ---------------------------------------------------------------------
  // lower

  /** `lower` on one character. Only the ASCII letters are mapped; the full
      Unicode case mapping of Python's `str.lower` is not modelled. */
  function LowerChar(c: char): char {
    if 'A' <= c <= 'Z' then (c as int + 32) as char else c
  }

  function Lower(s: string): (r: string)
    ensures |r| == |s|
    ensures forall i :: 0 <= i < |s| ==> r[i] == LowerChar(s[i])
  {
    seq(|s|, i requires 0 <= i < |s| => LowerChar(s[i]))
  }

  // ---------------------------------------------------------------------
  // split()

  /** The first index at or after `i` holding whitespace, or `|s|`. */
  function WordEnd(s: string, i: nat): (k: nat)
    requires i <= |s|
    ensures i <= k <= |s|
    ensures NoSpace(s[i..k])
    ensures k < |s| ==> IsSpace(s[k])
    decreases |s| - i
  {
    if i < |s| && !IsSpace(s[i]) then
      var k := WordEnd(s, i + 1);
      assert s[i..k] == [s[i]] + s[i + 1..k];
      k
    else i
  }

  /** Python's `s.split()` with no argument: the maximal runs of
      non-whitespace characters, in order. */
  function Words(s: string): seq<string>
    decreases |s|
  {
    var t := TrimStart(s);
    if t == "" then []
    else
      var k := WordEnd(t, 0);
      assert k != 0 by {
        assert !IsSpace(t[0]);
      }
      [t[..k]] + Words(t[k..])
  }

  /** Every word is a non-empty run of non-whitespace characters. */
  lemma {:induction false} WordsAreWords(s: string)
    ensures forall j :: 0 <= j < |Words(s)| ==> Words(s)[j] != "" && NoSpace(Words(s)[j])
    decreases |s|
  {
    var t := TrimStart(s);
    if t != "" {
      var k := WordEnd(t, 0);
      assert !IsSpace(t[0]);
      assert t[..k] == t[0..k];
      WordsAreWords(t[k..]);
      var ws := Words(s);
      assert ws == [t[..k]] + Words(t[k..]);
      forall j | 0 <= j < |ws| ensures ws[j] != "" && NoSpace(ws[j]) {
        if j > 0 {
          assert ws[j] == Words(t[k..])[j - 1];
        }
      }
    }
  }

  /** `len(s.split())`. */
  function WordCount(s: string): nat {
    |Words(s)|
  }

  /** `split()` finds no word exactly in blank text. */
  lemma WordsEmptyIffBlank(s: string)
    ensures Words(s) == [] <==> AllSpace(s)
    ensures WordCount(s) == 0 <==> AllSpace(s)
  {
    var e := SpaceEnd(s, 0);
    if AllSpace(s) {
      SpaceEndIs(s, 0, |s|);
    } else {
      assert e < |s|;
    }
  }

  /** A run of non-whitespace characters is one word, itself. */
  lemma WordsOfWord(s: string)
    requires s != "" && NoSpace(s)
    ensures Words(s) == [s] && WordCount(s) == 1
  {
    WordRun(s);
    WordsStep(s);
    WholeSlices(s);
    WordsEmptyIffBlank([]);
  }

  lemma WordRun(s: string)
    requires s != "" && NoSpace(s)
    ensures SpaceEnd(s, 0) == 0 && WordEnd(s, 0) == |s|
  {
    SpaceEndIs(s, 0, 0);
    WordEndIs(s, 0, |s|);
  }

  lemma WholeSlices(s: string)
    ensures s[0..|s|] == s && s[|s|..] == []
  {
  }

  /** A whitespace character separates words: the words of the text on
      either side of it, in order. */
  lemma {:induction false} WordsSplitAtSpace(a: string, c: char, b: string)
    requires IsSpace(c)
    ensures Words(a + [c] + b) == Words(a) + Words(b)
    ensures WordCount(a + [c] + b) == WordCount(a) + WordCount(b)
    decreases |a|
  {
    if AllSpace(a) {
      WordsEmptyIffBlank(a);
      WordsAfterBlank(a, c, b);
    } else {
      var e := SpaceEnd(a, 0);
      assert e < |a|;
      var k := WordEnd(a, e);
      FirstWordNonEmpty(a, e);
      WordsSplitAtSpace(a[k..], c, b);
      RunsBeforeSpace(a, c, b, e);
      WordsSplitStep(a, c, b);
    }
  }

  /** Blank text and a whitespace character in front of `b` leave the words
      of `b`. */
  lemma WordsAfterBlank(a: string, c: char, b: string)
    requires AllSpace(a) && IsSpace(c)
    ensures Words(a + [c] + b) == Words(b)
  {
    assert AllSpace(a + [c]);
    assert a + [c] + b == (a + [c]) + b;
    WordsAfterSpace(a + [c], b);
  }

  /** The step of the split: `a`'s first word is the first word of the whole,
      and the rest is split the same way. */
  lemma WordsSplitStep(a: string, c: char, b: string)
    requires SpaceEnd(a, 0) < |a|
    requires SpaceEnd(a + [c] + b, 0) == SpaceEnd(a, 0)
    requires WordEnd(a + [c] + b, SpaceEnd(a, 0)) == WordEnd(a, SpaceEnd(a, 0))
    requires var k := WordEnd(a, SpaceEnd(a, 0));
      Words(a[k..] + [c] + b) == Words(a[k..]) + Words(b)
    ensures Words(a + [c] + b) == Words(a) + Words(b)
  {
    var e := SpaceEnd(a, 0);
    var k := WordEnd(a, e);
    WordsStep(a);
    WordsStep(a + [c] + b);
    SlicesBeforeSpace(a, c, b, e, k);
    ConcatAssoc([a[e..k]], Words(a[k..]), Words(b));
  }

  lemma SlicesBeforeSpace(a: string, c: char, b: string, e: nat, k: nat)
    requires e <= k <= |a|
    ensures (a + [c] + b)[e..k] == a[e..k]
    ensures (a + [c] + b)[k..] == a[k..] + [c] + b
  {
  }

  /** The first word runs from the end of the leading whitespace to the next
      whitespace; the other words are those of the rest. */
  lemma WordsStep(s: string)
    requires SpaceEnd(s, 0) < |s|
    ensures var e := SpaceEnd(s, 0);
      var k := WordEnd(s, e);
      e < k && Words(s) == [s[e..k]] + Words(s[k..])
  {
    WordsUnfold(s);
    FirstWordAt(s);
  }

  lemma WordsUnfold(s: string)
    requires SpaceEnd(s, 0) < |s|
    ensures var t := TrimStart(s);
      var k := WordEnd(t, 0);
      Words(s) == [t[..k]] + Words(t[k..])
  {
  }

  /** The first word and the rest, read off `s` itself rather than off its
      left-stripped copy. */
  lemma FirstWordAt(s: string)
    requires SpaceEnd(s, 0) < |s|
    ensures var e := SpaceEnd(s, 0);
      var k := WordEnd(s, e);
      var t := TrimStart(s);
      var n := WordEnd(t, 0);
      e < k && t[..n] == s[e..k] && t[n..] == s[k..]
  {
    var e := SpaceEnd(s, 0);
    FirstWordNonEmpty(s, e);
    WordEndShift(s, e, 0);
    SliceOfSuffix(s, e, WordEnd(s, e), TrimStart(s), WordEnd(TrimStart(s), 0));
  }

  lemma FirstWordNonEmpty(s: string, e: nat)
    requires e < |s| && !IsSpace(s[e])
    ensures e < WordEnd(s, e)
  {
  }

  lemma SliceOfSuffix(s: string, e: nat, k: nat, t: string, n: int)
    requires e <= k <= |s| && t == s[e..] && n == k - e
    ensures t[..n] == s[e..k] && t[n..] == s[k..]
  {
  }

  /** `WordEnd` on a suffix is `WordEnd` on the whole, shifted. */
  lemma {:induction false} WordEndShift(s: string, e: nat, i: nat)
    requires e + i <= |s|
    ensures WordEnd(s[e..], i) == WordEnd(s, e + i) - e
    decreases |s| - e - i
  {
    if e + i < |s| {
      assert s[e..][i] == s[e + i];
      if !IsSpace(s[e + i]) {
        WordEndShift(s, e, i + 1);
      }
    }
  }

  /** Before a whitespace character, the leading whitespace and the first word
      of `a` are found the same in `a + [c] + b` as in `a`. */
  lemma RunsBeforeSpace(a: string, c: char, b: string, e: nat)
    requires IsSpace(c) && e == SpaceEnd(a, 0) && e < |a|
    ensures SpaceEnd(a + [c] + b, 0) == e
    ensures WordEnd(a + [c] + b, e) == WordEnd(a, e)
  {
    var s := a + [c] + b;
    var k := WordEnd(a, e);
    SpaceEndIs(s, 0, e);
    forall j | e <= j < k ensures !IsSpace(s[j]) {
      assert s[j] == a[e..k][j - e];
    }
    WordEndIs(s, e, k);
  }

  /** Leading whitespace does not change the words. */
  lemma WordsAfterSpace(front: string, t: string)
    requires AllSpace(front)
    ensures Words(front + t) == Words(t)
  {
    SpaceEndAfterSpace(front, t);
    var e := SpaceEnd(t, 0);
    assert (front + t)[|front| + e..] == t[e..];
    assert TrimStart(front + t) == TrimStart(t);
  }

  /** A run of non-whitespace ending at whitespace or at the end is the one
      `WordEnd` finds. */
  lemma {:induction false} WordEndIs(s: string, i: nat, k: nat)
    requires i <= k <= |s|
    requires forall j :: i <= j < k ==> !IsSpace(s[j])
    requires k < |s| ==> IsSpace(s[k])
    ensures WordEnd(s, i) == k
    decreases k - i
  {
    if i < k {
      WordEndIs(s, i + 1, k);
    }
  }

  // ---------------------------------------------------------------------
  // join and slicing

  /** Python's `sep.join(xs)`. */
  function JoinWith(sep: string, xs: seq<string>): string
    decreases |xs|
  {
    if |xs| == 0 then ""
    else if |xs| == 1 then xs[0]
    else xs[0] + sep + JoinWith(sep, xs[1..])
  }

  /** Python's `s[:n]` for `n >= 0`. */
  function Prefix(s: string, n: nat): (r: string)
    ensures |r| == Min(|s|, n)
    ensures r == s[..|r|]
  {
    if |s| <= n then s else s[..n]
  }

  predicate HasPrefix(s: string, p: string) {
    |p| <= |s| && s[..|p|] == p
  }

  /** A prefix of `s` stays a prefix when `s` is extended. */
  lemma PrefixOfLonger(s: string, p: string, t: string)
    requires HasPrefix(s, p)
    ensures HasPrefix(s + t, p)
  {
    assert (s + t)[..|p|] == s[..|p|];
  }

  lemma SuffixOfConcat(s: string, t: string)
    ensures |t| <= |s + t| && (s + t)[|s + t| - |t|..] == t
  {
  }

  predicate OccursAt(t: string, s: string, i: nat) {
    i + |t| <= |s| && s[i..i + |t|] == t
  }

  /** `t in s` for strings: `t` occurs somewhere inside `s`. */
  ghost predicate IsInfix(t: string, s: string) {
    exists i: nat :: OccursAt(t, s, i)
  }

  lemma InfixOfLeft(t: string, a: string, b: string)
    requires IsInfix(t, a)
    ensures IsInfix(t, a + b)
  {
    var i: nat :| OccursAt(t, a, i);
    assert (a + b)[i..i + |t|] == a[i..i + |t|];
    assert OccursAt(t, a + b, i);
  }

  lemma InfixOfRight(t: string, a: string, b: string)
    requires IsInfix(t, b)
    ensures IsInfix(t, a + b)
  {
    var i: nat :| OccursAt(t, b, i);
    assert (a + b)[|a| + i..|a| + i + |t|] == b[i..i + |t|];
    assert OccursAt(t, a + b, |a| + i);
  }

  lemma InfixOfSelf(t: string)
    ensures IsInfix(t, t)
  {
    assert OccursAt(t, t, 0);
  }

  /** Every piece of `sep.join(xs)` occurs in the joined string. */
  lemma {:induction false} JoinedPieceIsInfix(sep: string, xs: seq<string>, j: nat)
    requires j < |xs|
    ensures IsInfix(xs[j], JoinWith(sep, xs))
    decreases |xs|
  {
    if |xs| == 1 {
      InfixOfSelf(xs[0]);
    } else if j == 0 {
      InfixOfSelf(xs[0]);
      InfixOfLeft(xs[0], xs[0], sep + JoinWith(sep, xs[1..]));
      assert xs[0] + sep + JoinWith(sep, xs[1..]) == xs[0] + (sep + JoinWith(sep, xs[1..]));
    } else {
      JoinedPieceIsInfix(sep, xs[1..], j - 1);
      InfixOfRight(xs[j], xs[0] + sep, JoinWith(sep, xs[1..]));
    }
  }
}
