/** The row operations the services' SQL asks of the database: `WHERE`
    (`Filter`), `ORDER BY ... DESC` (`SortDesc`) and `LIMIT` (`Take`). The two
    orderings are `created_at DESC` and ascending cosine distance, which is
    descending similarity. SQL promises nothing about rows with equal keys, so
    the contracts speak only of the key order and of the rows kept;
    `SortDesc` is one stable ordering that meets them. */
module Rows {

  import opened Wrappers

  /** Keys never increase from left to right. */
  predicate SortedDesc<T>(xs: seq<T>, key: T -> real) {
    forall i, j :: 0 <= i < j < |xs| ==> key(xs[i]) >= key(xs[j])
  }

  /** Puts `x` into the sorted `xs`, in front of the first element whose key
      is not larger than its own. */
  function InsertDesc<T>(x: T, xs: seq<T>, key: T -> real): (r: seq<T>)
    requires SortedDesc(xs, key)
    ensures SortedDesc(r, key)
    ensures multiset(r) == multiset(xs) + multiset{x}
    ensures |r| == |xs| + 1
    decreases |xs|
  {
    if xs == [] || key(x) >= key(xs[0]) then
      [x] + xs
    else
      var rest := InsertDesc(x, xs[1..], key);
      InsertBehindHead(x, xs, rest, key);
      [xs[0]] + rest
  }

  /** The step of `InsertDesc` that keeps the head in front. */
  lemma InsertBehindHead<T>(x: T, xs: seq<T>, rest: seq<T>, key: T -> real)
    requires xs != [] && SortedDesc(xs, key) && key(x) < key(xs[0])
    requires SortedDesc(rest, key) && multiset(rest) == multiset(xs[1..]) + multiset{x}
    ensures SortedDesc([xs[0]] + rest, key)
    ensures multiset([xs[0]] + rest) == multiset(xs) + multiset{x}
  {
    var r := [xs[0]] + rest;
    forall i | 0 <= i < |rest| ensures key(xs[0]) >= key(rest[i]) {
      assert rest[i] in multiset(rest);
      if rest[i] != x {
        assert rest[i] in multiset(xs[1..]);
        var k :| 0 <= k < |xs[1..]| && xs[1..][k] == rest[i];
        assert xs[1 + k] == rest[i];
      }
    }
    forall i, j | 0 <= i < j < |r| ensures key(r[i]) >= key(r[j]) {
      assert r[j] == rest[j - 1];
      if i > 0 {
        assert r[i] == rest[i - 1];
      }
    }
    assert xs == [xs[0]] + xs[1..];
  }

  /** Insertion sort, largest key first; of two elements with equal keys the
      one earlier in `xs` stays earlier. */
  function SortDesc<T>(xs: seq<T>, key: T -> real): (r: seq<T>)
    ensures SortedDesc(r, key)
    ensures multiset(r) == multiset(xs)
    ensures |r| == |xs|
    decreases |xs|
  {
    if xs == [] then []
    else
      assert xs == [xs[0]] + xs[1..];
      InsertDesc(xs[0], SortDesc(xs[1..], key), key)
  }

  /** `WHERE p`: the elements of `xs` that satisfy `p`, in their order. */
  function Filter<T>(xs: seq<T>, p: T -> bool): (r: seq<T>)
    ensures |r| <= |xs|
    ensures forall i :: 0 <= i < |r| ==> r[i] in xs && p(r[i])
    ensures forall i :: 0 <= i < |xs| && p(xs[i]) ==> xs[i] in r
    decreases |xs|
  {
    if xs == [] then []
    else if p(xs[0]) then [xs[0]] + Filter(xs[1..], p)
    else Filter(xs[1..], p)
  }

  lemma {:induction false} FilterAppend<T>(xs: seq<T>, ys: seq<T>, p: T -> bool)
    ensures Filter(xs + ys, p) == Filter(xs, p) + Filter(ys, p)
    decreases |xs|
  {
    if xs == [] {
      assert xs + ys == ys;
    } else {
      assert (xs + ys)[1..] == xs[1..] + ys;
      FilterAppend(xs[1..], ys, p);
    }
  }

  /** Filtering with a condition every element meets changes nothing. */
  lemma {:induction false} FilterAll<T>(xs: seq<T>, p: T -> bool)
    requires forall i :: 0 <= i < |xs| ==> p(xs[i])
    ensures Filter(xs, p) == xs
    decreases |xs|
  {
    if xs != [] {
      FilterAll(xs[1..], p);
      assert [xs[0]] + xs[1..] == xs;
    }
  }

  /** Filtering with a condition no element meets leaves nothing. */
  lemma {:induction false} FilterNone<T>(xs: seq<T>, p: T -> bool)
    requires forall i :: 0 <= i < |xs| ==> !p(xs[i])
    ensures Filter(xs, p) == []
    decreases |xs|
  {
    if xs != [] {
      FilterNone(xs[1..], p);
    }
  }

  /** Filtering a sequence whose front all passes and whose tail all fails
      gives the front. */
  lemma FilterDropsTail<T>(xs: seq<T>, ys: seq<T>, p: T -> bool)
    requires forall i :: 0 <= i < |xs| ==> p(xs[i])
    requires forall i :: 0 <= i < |ys| ==> !p(ys[i])
    ensures Filter(xs + ys, p) == xs
  {
    FilterAppend(xs, ys, p);
    FilterAll(xs, p);
    FilterNone(ys, p);
    assert xs + [] == xs;
  }

  /** Filtering keeps a key that is unique across `xs` unique. */
  lemma {:induction false} FilterKeepsDistinct<T, K>(xs: seq<T>, p: T -> bool, key: T -> K)
    requires forall i, j :: 0 <= i < j < |xs| ==> key(xs[i]) != key(xs[j])
    ensures forall i, j :: 0 <= i < j < |Filter(xs, p)| ==> key(Filter(xs, p)[i]) != key(Filter(xs, p)[j])
    decreases |xs|
  {
    if xs != [] {
      var rest := Filter(xs[1..], p);
      FilterKeepsDistinct(xs[1..], p, key);
      if p(xs[0]) {
        forall j | 0 <= j < |rest| ensures key(xs[0]) != key(rest[j]) {
          var k :| 0 <= k < |xs[1..]| && xs[1..][k] == rest[j];
          assert xs[k + 1] == rest[j];
        }
      }
    }
  }

  /** `LIMIT n`: the first `n` rows, or all of them when there are fewer. */
  function Take<T>(xs: seq<T>, n: nat): (r: seq<T>)
    ensures |r| == Min(n, |xs|)
    ensures r == xs[..|r|]
  {
    if |xs| <= n then xs else xs[..n]
  }

  /** A sequence already sorted comes back from the sort unchanged: the sort
      only moves an element past elements with strictly larger keys. */
  lemma {:induction false} SortKeepsSorted<T>(xs: seq<T>, key: T -> real)
    requires SortedDesc(xs, key)
    ensures SortDesc(xs, key) == xs
    decreases |xs|
  {
    if xs != [] {
      assert SortedDesc(xs[1..], key) by {
        forall i, j | 0 <= i < j < |xs[1..]| ensures key(xs[1..][i]) >= key(xs[1..][j]) {
          assert xs[1..][i] == xs[i + 1] && xs[1..][j] == xs[j + 1];
        }
      }
      SortKeepsSorted(xs[1..], key);
      assert SortDesc(xs, key) == InsertDesc(xs[0], xs[1..], key);
      if |xs| > 1 {
        assert key(xs[0]) >= key(xs[1..][0]);
      }
      assert InsertDesc(xs[0], xs[1..], key) == [xs[0]] + xs[1..];
      assert [xs[0]] + xs[1..] == xs;
    }
  }

  /** Every element left behind by a sorted prefix has a key no larger than
      the last key kept. */
  lemma SortedTailBelowPrefix<T>(xs: seq<T>, key: T -> real, n: nat)
    requires SortedDesc(xs, key) && 0 < n <= |xs|
    ensures forall y :: y in multiset(xs[n..]) ==> key(y) <= key(xs[n - 1])
  {
    forall y | y in multiset(xs[n..]) ensures key(y) <= key(xs[n - 1]) {
      var k :| 0 <= k < |xs[n..]| && xs[n..][k] == y;
      assert xs[n + k] == y;
    }
  }

  /** A prefix of a sorted sequence is sorted. */
  lemma PrefixSortedDesc<T>(xs: seq<T>, key: T -> real, n: nat)
    requires SortedDesc(xs, key) && n <= |xs|
    ensures SortedDesc(xs[..n], key)
  {
    forall i, j | 0 <= i < j < n ensures key(xs[..n][i]) >= key(xs[..n][j]) {
      assert xs[..n][i] == xs[i] && xs[..n][j] == xs[j];
    }
  }

  /** What a sorted prefix leaves out has keys no larger than the last key
      kept. */
  lemma LeftOutBelow<T>(xs: seq<T>, key: T -> real, n: nat)
    requires SortedDesc(xs, key) && 0 < n <= |xs|
    ensures forall y :: y in multiset(xs) - multiset(xs[..n]) ==> key(y) <= key(xs[n - 1])
  {
    TakeSplitsMultiset(xs, n);
    assert multiset(xs) - multiset(xs[..n]) == multiset(xs[n..]);
    SortedTailBelowPrefix(xs, key, n);
  }

  /** Splitting a sequence splits its multiset. */
  lemma TakeSplitsMultiset<T>(xs: seq<T>, n: nat)
    requires n <= |xs|
    ensures multiset(xs) == multiset(xs[..n]) + multiset(xs[n..])
  {
    assert xs == xs[..n] + xs[n..];
  }
}
