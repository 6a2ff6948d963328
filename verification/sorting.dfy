/**
 * Scored pairs `(key, score)` and the two list operations the engine applies to them:
 * Python's stable `sorted(..., key=lambda x: x[1], reverse=True)` and the slice `xs[:n]`.
 *
 * A stable sort has exactly one possible result, so the model sorts by insertion and
 * proves that its output is that result: ordered by non-increasing score, and, for every
 * score value, holding the elements with that score in their original order.
 */
module Sorting {

  /** An `(item_id, score)` prediction, or a `(row, similarity)` neighbour candidate. */
  datatype Scored<K> = Scored(key: K, score: real)

  /** Ordered by non-increasing score. */
  ghost predicate Descending<K>(xs: seq<Scored<K>>)
  {
    forall i, j :: 0 <= i < j < |xs| ==> xs[i].score >= xs[j].score
  }

  /** The subsequence of `xs` whose score is exactly `v`, in the order of `xs`. */
  function WithScore<K>(xs: seq<Scored<K>>, v: real): (ys: seq<Scored<K>>)
    ensures |ys| <= |xs|
  {
    if |xs| == 0 then []
    else if xs[0].score == v then [xs[0]] + WithScore(xs[1..], v)
    else WithScore(xs[1..], v)
  }

  /** `ys` is what a stable sort of `xs` by descending score returns. */
  ghost predicate IsStableDescendingSort<K>(ys: seq<Scored<K>>, xs: seq<Scored<K>>)
  {
    && Descending(ys)
    && forall v :: WithScore(ys, v) == WithScore(xs, v)
  }

  /** The keys of a list of scored pairs, in order. */
  function Keys<K>(xs: seq<Scored<K>>): (ks: seq<K>)
    ensures |ks| == |xs|
    ensures forall i :: 0 <= i < |xs| ==> ks[i] == xs[i].key
  {
    seq(|xs|, i requires 0 <= i < |xs| => xs[i].key)
  }

  /** Putting one entry in front shifts every other entry up by one position. */
  lemma Prepend<K>(x: Scored<K>, rest: seq<Scored<K>>)
    ensures Keys([x] + rest) == [x.key] + Keys(rest)
    ensures forall t :: 1 <= t <= |rest| ==> ([x] + rest)[t] == rest[t - 1]
  {
  }

  /** Places `x` in front of every element of `s` whose score is not greater than its own. */
  function Insert<K>(x: Scored<K>, s: seq<Scored<K>>): (r: seq<Scored<K>>)
    requires Descending(s)
    ensures |r| == |s| + 1
    ensures Descending(r)
    ensures multiset(r) == multiset(s) + multiset{x}
    ensures forall i :: 0 <= i < |r| ==> r[i] == x || r[i] in s
  {
    if |s| == 0 || x.score >= s[0].score then
      [x] + s
    else
      var rest := Insert(x, s[1..]);
      InsertStep(x, s, rest);
      [s[0]] + rest
  }

  /** Keeping the head of `s` in front of `x` inserted into the tail keeps the list ordered. */
  lemma InsertStep<K>(x: Scored<K>, s: seq<Scored<K>>, rest: seq<Scored<K>>)
    requires Descending(s) && |s| > 0 && x.score < s[0].score
    requires Descending(rest) && |rest| == |s|
    requires multiset(rest) == multiset(s[1..]) + multiset{x}
    requires forall i :: 0 <= i < |rest| ==> rest[i] == x || rest[i] in s[1..]
    ensures Descending([s[0]] + rest)
    ensures multiset([s[0]] + rest) == multiset(s) + multiset{x}
    ensures forall i :: 0 <= i < |rest| + 1 ==> ([s[0]] + rest)[i] == x || ([s[0]] + rest)[i] in s
  {
    assert forall i :: 0 <= i < |rest| ==> s[0].score >= rest[i].score;
    assert s == [s[0]] + s[1..];
  }

  /** Inserting `x` adds it at the front of the elements that share its score, and nowhere else. */
  lemma {:induction false} InsertWithScore<K>(x: Scored<K>, s: seq<Scored<K>>, v: real)
    requires Descending(s)
    ensures WithScore(Insert(x, s), v) == if x.score == v then [x] + WithScore(s, v) else WithScore(s, v)
  {
    if |s| == 0 || x.score >= s[0].score {
      assert ([x] + s)[1..] == s;
    } else {
      var rest := Insert(x, s[1..]);
      assert ([s[0]] + rest)[1..] == rest;
      InsertWithScore(x, s[1..], v);
    }
  }

  /** Python's `sorted(xs, key=lambda p: p[1], reverse=True)`, built by insertion from the back. */
  function SortDesc<K>(xs: seq<Scored<K>>): (ys: seq<Scored<K>>)
    ensures |ys| == |xs|
    ensures multiset(ys) == multiset(xs)
    ensures forall i :: 0 <= i < |ys| ==> ys[i] in xs
    ensures IsStableDescendingSort(ys, xs)
  {
    if |xs| == 0 then []
    else
      var tail := SortDesc(xs[1..]);
      SortStepKeeps(xs, tail);
      SortStepStable(xs, tail);
      Insert(xs[0], tail)
  }

  /** Inserting the head of `xs` into a permutation of its tail gives a permutation of `xs`. */
  lemma SortStepKeeps<K>(xs: seq<Scored<K>>, tail: seq<Scored<K>>)
    requires |xs| > 0 && Descending(tail)
    requires multiset(tail) == multiset(xs[1..])
    requires forall i :: 0 <= i < |tail| ==> tail[i] in xs[1..]
    ensures multiset(Insert(xs[0], tail)) == multiset(xs)
    ensures forall i :: 0 <= i < |Insert(xs[0], tail)| ==> Insert(xs[0], tail)[i] in xs
  {
    assert xs == [xs[0]] + xs[1..];
  }

  /** Inserting the head of `xs` into a stable sort of its tail gives a stable sort of `xs`. */
  lemma SortStepStable<K>(xs: seq<Scored<K>>, tail: seq<Scored<K>>)
    requires |xs| > 0
    requires IsStableDescendingSort(tail, xs[1..])
    ensures IsStableDescendingSort(Insert(xs[0], tail), xs)
  {
    var ys := Insert(xs[0], tail);
    forall v
      ensures WithScore(ys, v) == WithScore(xs, v)
    {
      InsertWithScore(xs[0], tail, v);
    }
  }

  /** The first element of a non-empty list is among those with its own score. */
  lemma WithScoreOfHead<K>(xs: seq<Scored<K>>)
    ensures |xs| > 0 ==> WithScore(xs, xs[0].score) == [xs[0]] + WithScore(xs[1..], xs[0].score)
  {
  }

  /** A non-empty descending list starts with a score no smaller than any score it holds. */
  lemma {:induction false} HeadIsMaximal<K>(xs: seq<Scored<K>>, v: real)
    requires Descending(xs)
    requires WithScore(xs, v) != []
    ensures |xs| > 0 && xs[0].score >= v
  {
    if xs[0].score != v {
      HeadIsMaximal(xs[1..], v);
    }
  }

  /**
   * A stable descending sort has only one possible result: two descending lists that hold
   * the same elements with each score in the same order are equal.
   */
  lemma {:induction false} StableSortUnique<K>(ys: seq<Scored<K>>, zs: seq<Scored<K>>)
    requires Descending(ys) && Descending(zs)
    requires forall v :: WithScore(ys, v) == WithScore(zs, v)
    ensures ys == zs
  {
    WithScoreOfHead(ys);
    WithScoreOfHead(zs);
    if |ys| > 0 && |zs| > 0 {
      assert WithScore(ys, zs[0].score) == WithScore(zs, zs[0].score) != [];
      assert WithScore(zs, ys[0].score) == WithScore(ys, ys[0].score) != [];
      HeadIsMaximal(ys, zs[0].score);
      HeadIsMaximal(zs, ys[0].score);
      var v := ys[0].score;
      assert WithScore(ys, v) == [ys[0]] + WithScore(ys[1..], v);
      assert WithScore(zs, v) == [zs[0]] + WithScore(zs[1..], v);
      forall w
        ensures WithScore(ys[1..], w) == WithScore(zs[1..], w)
      {
        if w == v {
          assert WithScore(ys[1..], w) == WithScore(ys, v)[1..];
          assert WithScore(zs[1..], w) == WithScore(zs, v)[1..];
        } else {
          assert WithScore(ys, w) == WithScore(ys[1..], w);
          assert WithScore(zs, w) == WithScore(zs[1..], w);
        }
      }
      StableSortUnique(ys[1..], zs[1..]);
      assert ys == [ys[0]] + ys[1..];
      assert zs == [zs[0]] + zs[1..];
    }
  }

  /** The only stable descending sort of `xs` is `SortDesc(xs)`. */
  lemma StableSortIsSortDesc<K>(ys: seq<Scored<K>>, xs: seq<Scored<K>>)
    requires IsStableDescendingSort(ys, xs)
    ensures ys == SortDesc(xs)
  {
    var zs := SortDesc(xs);
    forall v
      ensures WithScore(ys, v) == WithScore(zs, v)
    {
    }
    StableSortUnique(ys, zs);
  }

  /** Python's slice `xs[:n]`: the first `n` elements, or all but the last `-n` when `n` is negative. */
  function Take<T>(xs: seq<T>, n: int): (ys: seq<T>)
    ensures ys <= xs
    ensures 0 <= n ==> |ys| == if n <= |xs| then n else |xs|
    ensures n < 0 ==> |ys| == if -n <= |xs| then |xs| + n else 0
  {
    if 0 <= n then
      if n <= |xs| then xs[..n] else xs
    else
      if -n <= |xs| then xs[..|xs| + n] else []
  }

  /** A prefix of a descending list holds the highest scores: none of what is cut off outscores it. */
  lemma TakeKeepsHighest<K>(ys: seq<Scored<K>>, n: int, i: int, j: int)
    requires Descending(ys)
    requires 0 <= i < |Take(ys, n)| <= j < |ys|
    ensures Take(ys, n)[i].score >= ys[j].score
  {
  }

  /**
   * The top `n` of a stable descending sort: an element of `xs` that did not make the cut
   * scores no higher than any element that did.
   */
  lemma TopKeepsHighest<K>(xs: seq<Scored<K>>, n: int, x: Scored<K>, t: int)
    requires x in xs && x !in Take(SortDesc(xs), n)
    requires 0 <= t < |Take(SortDesc(xs), n)|
    ensures Take(SortDesc(xs), n)[t].score >= x.score
  {
    var sorted := SortDesc(xs);
    var top := Take(sorted, n);
    assert x in multiset(xs);
    assert x in multiset(sorted);
    var j :| 0 <= j < |sorted| && sorted[j] == x;
    assert forall l :: 0 <= l < |top| ==> top[l] == sorted[l];
    TakeKeepsHighest(sorted, n, t, j);
  }
}
