/** The two regular-expression splits of the chunker, written out as scans:
    `re.split(r"\n{2,}", s)` (paragraph breaks) and
    `re.split(r"(?<=[.!?])\s+", s)` (sentence breaks). `re.split` scans left
    to right and takes each match greedily, so both splits cut at maximal runs. */
module Splitting {

  import opened Text

  // ---------------------------------------------------------------------
  // \n{2,}

  /** `s` has a blank line (two consecutive newlines) starting at `i`. */
  predicate BlankAt(s: string, i: int) {
    0 <= i && i + 1 < |s| && s[i] == '\n' && s[i + 1] == '\n'
  }

  /** `s` contains no two consecutive newlines. */
  predicate NoBlank(s: string) {
    forall i :: 0 <= i < |s| ==> !BlankAt(s, i)
  }

  /** The first position at or after `i` where a blank line starts, or `|s|`. */
  function FindBlank(s: string, i: nat): (k: nat)
    requires i <= |s|
    ensures i <= k <= |s|
    ensures k < |s| ==> BlankAt(s, k)
    ensures forall j :: i <= j < k ==> !BlankAt(s, j)
    decreases |s| - i
  {
    if i == |s| then |s|
    else if BlankAt(s, i) then i
    else FindBlank(s, i + 1)
  }

  /** The end of the run of newlines starting at `i`. */
  function NewlineRunEnd(s: string, i: nat): (j: nat)
    requires i <= |s|
    ensures i <= j <= |s|
    ensures forall k :: i <= k < j ==> s[k] == '\n'
    ensures j < |s| ==> s[j] != '\n'
    decreases |s| - i
  {
    if i < |s| && s[i] == '\n' then NewlineRunEnd(s, i + 1) else i
  }

  /** `re.split(r"\n{2,}", s)`: the pieces between maximal runs of two or
      more newlines. There is always at least one piece, and no piece holds a
      blank line. */
  function SplitBlankLines(s: string): (ps: seq<string>)
    ensures |ps| >= 1
    ensures forall j :: 0 <= j < |ps| ==> NoBlank(ps[j])
    decreases |s|
  {
    var k := FindBlank(s, 0);
    if k == |s| then
      assert NoBlank(s) by {
        forall i | 0 <= i < |s| ensures !BlankAt(s, i) { }
      }
      [s]
    else
      var j := NewlineRunEnd(s, k);
      assert j >= k + 2;
      assert NoBlank(s[..k]) by {
        forall i | 0 <= i < k ensures !BlankAt(s[..k], i) {
          assert !BlankAt(s, i);
        }
      }
      [s[..k]] + SplitBlankLines(s[j..])
  }

  /** A paragraph as the chunker keeps it: non-empty, stripped, and free of
      blank lines. */
  predicate IsClean(p: string) {
    && p != ""
    && !IsSpace(p[0]) && !IsSpace(p[|p| - 1])
    && NoBlank(p)
  }

  lemma JoinStartsWith(sep: string, ps: seq<string>)
    requires |ps| >= 1 && ps[0] != ""
    ensures |JoinWith(sep, ps)| > 0 && JoinWith(sep, ps)[0] == ps[0][0]
  {
  }

  lemma JoinEndsWith(sep: string, ps: seq<string>)
    requires |ps| >= 1 && ps[|ps| - 1] != ""
    ensures |JoinWith(sep, ps)| >= |ps[|ps| - 1]|
    ensures JoinWith(sep, ps)[|JoinWith(sep, ps)| - 1] == ps[|ps| - 1][|ps[|ps| - 1]| - 1]
    decreases |ps|
  {
    if |ps| > 1 {
      JoinEndsWith(sep, ps[1..]);
    }
  }

  /** Round trip: splitting a `"\n\n".join` of clean paragraphs on blank lines
      gives the paragraphs back. */
  lemma {:induction false} SplitJoinBlankLines(ps: seq<string>)
    requires |ps| >= 1
    requires forall j :: 0 <= j < |ps| ==> IsClean(ps[j])
    ensures SplitBlankLines(JoinWith("\n\n", ps)) == ps
    decreases |ps|
  {
    if |ps| == 1 {
      SplitClean(ps[0]);
    } else {
      var rest := JoinWith("\n\n", ps[1..]);
      assert JoinWith("\n\n", ps) == ps[0] + "\n\n" + rest;
      JoinStartsWith("\n\n", ps[1..]);
      SplitAfterClean(ps[0], rest);
      SplitJoinBlankLines(ps[1..]);
      assert ps == [ps[0]] + ps[1..];
    }
  }

  /** A clean paragraph splits to itself. */
  lemma SplitClean(p: string)
    requires IsClean(p)
    ensures SplitBlankLines(p) == [p]
  {
    FindBlankIs(p, 0, |p|);
  }

  /** A clean paragraph, a blank line, and text that does not start with a
      newline split into the paragraph and the split of the text. */
  lemma SplitAfterClean(p: string, rest: string)
    requires IsClean(p) && rest != "" && rest[0] != '\n'
    ensures SplitBlankLines(p + "\n\n" + rest) == [p] + SplitBlankLines(rest)
  {
    var s := p + "\n\n" + rest;
    forall i | 0 <= i < |p| ensures !BlankAt(s, i) {
      if i + 1 < |p| {
        assert s[i] == p[i] && s[i + 1] == p[i + 1];
        assert !BlankAt(p, i);
      } else {
        assert s[i] == p[|p| - 1];
      }
    }
    assert BlankAt(s, |p|);
    FindBlankIs(s, 0, |p|);
    assert s[|p| + 2] == rest[0];
    NewlineRunEndIs(s, |p|, |p| + 2);
    assert s[..|p|] == p;
    assert s[|p| + 2..] == rest;
  }

  lemma FindBlankIs(s: string, i: nat, k: nat)
    requires i <= k <= |s|
    requires forall j :: i <= j < k ==> !BlankAt(s, j)
    requires k < |s| ==> BlankAt(s, k)
    ensures FindBlank(s, i) == k
  {
  }

  lemma NewlineRunEndIs(s: string, i: nat, k: nat)
    requires i <= k <= |s|
    requires forall j :: i <= j < k ==> s[j] == '\n'
    requires k < |s| ==> s[k] != '\n'
    ensures NewlineRunEnd(s, i) == k
  {
  }

  // ---------------------------------------------------------------------
  // (?<=[.!?])\s+

  predicate IsTerminator(c: char) {
    c == '.' || c == '!' || c == '?'
  }

  /** A sentence break starts at `i`: whitespace right after `.`, `!` or `?`. */
  predicate BreakAt(s: string, i: int) {
    1 <= i < |s| && IsTerminator(s[i - 1]) && IsSpace(s[i])
  }

  /** The first sentence break at or after `i`, or `|s|`. */
  function FindBreak(s: string, i: nat): (k: nat)
    requires i <= |s|
    ensures i <= k <= |s|
    ensures k < |s| ==> BreakAt(s, k)
    ensures forall j :: i <= j < k ==> !BreakAt(s, j)
    decreases |s| - i
  {
    if i == |s| then |s|
    else if BreakAt(s, i) then i
    else FindBreak(s, i + 1)
  }

  /** `re.split(r"(?<=[.!?])\s+", s)`. After a match the scan resumes at a
      non-space character, so the look-behind never looks back into the run
      just consumed and splitting the remainder on its own is the same scan. */
  function SplitSentences(s: string): (ps: seq<string>)
    ensures |ps| >= 1
    decreases |s|
  {
    var k := FindBreak(s, 0);
    if k == |s| then [s]
    else
      var j := SpaceEnd(s, k);
      [s[..k]] + SplitSentences(s[j..])
  }

  /** `re.split(r"(?<=[.!?])\s+", p)[-1]`: the last sentence of `p`. */
  function LastSentence(p: string): string {
    var ss := SplitSentences(p);
    ss[|ss| - 1]
  }

  /** The last sentence of a stripped, non-empty paragraph is a non-empty,
      stripped suffix of it that holds no further sentence break: the whole
      paragraph when it has no break, otherwise the text right after the
      whitespace of a break. */
  lemma {:induction false} LastSentenceIsStrippedSuffix(p: string)
    requires p != "" && !IsSpace(p[0]) && !IsSpace(p[|p| - 1])
    ensures var r := LastSentence(p);
      && r != "" && |r| <= |p| && r == p[|p| - |r|..]
      && !IsSpace(r[0]) && !IsSpace(r[|r| - 1])
      && (forall i :: 0 <= i < |r| ==> !BreakAt(r, i))
      && FollowsBreak(p, |r|)
  {
    LastSentenceShape(p);
    LastSentenceFollowsBreak(p);
  }

  /** The shape part of the lemma above, by induction over the breaks. */
  lemma {:induction false} LastSentenceShape(p: string)
    requires p != "" && !IsSpace(p[0]) && !IsSpace(p[|p| - 1])
    ensures var r := LastSentence(p);
      && r != "" && |r| <= |p| && r == p[|p| - |r|..]
      && !IsSpace(r[0]) && !IsSpace(r[|r| - 1])
      && (forall i :: 0 <= i < |r| ==> !BreakAt(r, i))
    decreases |p|
  {
    var k := FindBreak(p, 0);
    if k < |p| {
      var j := SpaceEnd(p, k);
      SentenceStep(p, k, j);
      var rest := p[j..];
      LastSentenceShape(rest);
      var r := LastSentence(rest);
      assert r == p[|p| - |r|..];
    } else {
      assert SplitSentences(p) == [p];
    }
  }

  /** The last sentence starts where the paragraph starts or right after the
      whitespace of a sentence break; with the lemma above, it is the text
      after the final break. */
  lemma {:induction false} LastSentenceFollowsBreak(p: string)
    requires p != "" && !IsSpace(p[0]) && !IsSpace(p[|p| - 1])
    ensures |LastSentence(p)| <= |p| && FollowsBreak(p, |LastSentence(p)|)
    decreases |p|
  {
    var k := FindBreak(p, 0);
    if k < |p| {
      var j := SpaceEnd(p, k);
      SentenceStep(p, k, j);
      LastSentenceFollowsBreak(p[j..]);
      FollowsBreakStep(p, k, j, |LastSentence(p)|);
    } else {
      assert SplitSentences(p) == [p];
    }
  }

  /** The last `n` characters of `p` are either all of `p` or start right
      after the whitespace of a sentence break. */
  predicate FollowsBreak(p: string, n: nat) {
    n == |p| || exists k :: 0 <= k < |p| && BreakAt(p, k) && SpaceEnd(p, k) + n == |p|
  }

  lemma FollowsBreakStep(p: string, k: nat, j: nat, n: nat)
    requires k < |p| && BreakAt(p, k) && j == SpaceEnd(p, k)
    requires n <= |p| - j && FollowsBreak(p[j..], n)
    ensures FollowsBreak(p, n)
  {
    var rest := p[j..];
    if n != |rest| {
      var k' :| 0 <= k' < |rest| && BreakAt(rest, k') && SpaceEnd(rest, k') + n == |rest|;
      BreakInSuffix(p, j, k');
    }
  }

  /** A break of a suffix is a break of the whole, and its whitespace ends
      at the same place. */
  lemma BreakInSuffix(p: string, j: nat, k: nat)
    requires j <= |p| && k < |p| - j && BreakAt(p[j..], k)
    ensures BreakAt(p, j + k) && SpaceEnd(p, j + k) == j + SpaceEnd(p[j..], k)
  {
    var rest := p[j..];
    var e := SpaceEnd(rest, k);
    assert forall i :: k <= i < e ==> p[j + i] == rest[i];
    SpaceEndIs(p, j + k, j + e);
  }

  /** After the first break, the last sentence is that of the remainder,
      which is again stripped and non-empty. */
  lemma SentenceStep(p: string, k: nat, j: nat)
    requires p != "" && !IsSpace(p[|p| - 1])
    requires k == FindBreak(p, 0) && k < |p| && j == SpaceEnd(p, k)
    ensures k < j < |p|
    ensures LastSentence(p) == LastSentence(p[j..])
    ensures p[j..] != "" && !IsSpace(p[j..][0]) && !IsSpace(p[j..][|p| - j - 1])
  {
    assert IsSpace(p[k]);
    var rest := p[j..];
    var ss := SplitSentences(p);
    assert ss == [p[..k]] + SplitSentences(rest);
    assert ss[|ss| - 1] == SplitSentences(rest)[|SplitSentences(rest)| - 1];
  }

  /** The carried-over sentence of a clean paragraph is itself clean. */
  lemma LastSentenceIsClean(p: string)
    requires IsClean(p)
    ensures IsClean(LastSentence(p))
  {
    LastSentenceShape(p);
    var r := LastSentence(p);
    forall i | 0 <= i < |r| ensures !BlankAt(r, i) {
      assert !BlankAt(p, |p| - |r| + i);
    }
  }
}
