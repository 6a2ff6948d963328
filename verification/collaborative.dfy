/**
 * The `Colaboratiu` strategy: user-user collaborative filtering. Every row that differs
 * from the user's row is a candidate neighbour, scored by cosine similarity over the items
 * both rated; the `k` most similar (ties in row order) predict each item as the user's mean
 * plus the similarity-weighted, mean-centred ratings of the neighbours who rated it.
 */
module Collaborative {
  import opened Numeric
  import opened Sorting
  import opened Datasets
  import opened Predictions

  /** The co-rated support of two rows: each row's entries where both rows hold a rating. */
  function CoRated(u: seq<real>, r: seq<real>): (p: (seq<real>, seq<real>))
    requires |u| == |r|
    ensures |p.0| == |p.1| <= |u|
    ensures forall i :: 0 <= i < |p.0| ==> p.0[i] != Unrated && p.1[i] != Unrated
  {
    if |u| == 0 then ([], [])
    else
      var rest := CoRated(u[1..], r[1..]);
      if u[0] != Unrated && r[0] != Unrated then ([u[0]] + rest.0, [r[0]] + rest.1) else rest
  }

  /**
   * The cosine similarity of two rows over their co-rated support, defined as 0 when the
   * support is empty or the product of the two norms is 0.
   */
  function Similarity(u: seq<real>, r: seq<real>, sqrt: real -> real): real
    requires |u| == |r|
  {
    var p := CoRated(u, r);
    if |p.0| == 0 then 0.0 else Cosine(p.0, p.1, sqrt)
  }

  /**
   * The loop over the rows from `i` on: every row that is not equal to `u` becomes a
   * `(row, similarity)` candidate, in row order.
   */
  function Candidates(m: seq<seq<real>>, u: seq<real>, sqrt: real -> real, i: nat): (cs: seq<Scored<nat>>)
    requires IsMatrix(m, |u|) && i <= |m|
    ensures forall t :: 0 <= t < |cs| ==>
      && i <= cs[t].key < |m|
      && m[cs[t].key] != u
      && cs[t].score == Similarity(u, m[cs[t].key], sqrt)
    ensures forall t, l :: 0 <= t < l < |cs| ==> cs[t].key < cs[l].key
    ensures forall row :: i <= row < |m| && m[row] != u ==> row in Keys(cs)
    decreases |m| - i
  {
    if i == |m| then []
    else if m[i] == u then Candidates(m, u, sqrt, i + 1)
    else
      var rest := Candidates(m, u, sqrt, i + 1);
      var x := Scored(i, Similarity(u, m[i], sqrt));
      Prepend(x, rest);
      [x] + rest
  }

  /** The first `k` candidates once stably sorted by descending similarity. */
  function Neighbours(m: seq<seq<real>>, u: seq<real>, k: int, sqrt: real -> real): (ns: seq<Scored<nat>>)
    requires IsMatrix(m, |u|)
    ensures |ns| <= |Candidates(m, u, sqrt, 0)|
    ensures 0 <= k ==> |ns| <= k
    ensures Descending(ns)
    ensures forall t :: 0 <= t < |ns| ==> ns[t] in Candidates(m, u, sqrt, 0)
  {
    var sorted := SortDesc(Candidates(m, u, sqrt, 0));
    Take(sorted, k)
  }

  /** The neighbours' rows are rows of `m`, each wide enough to hold column `c`. */
  ghost predicate RowsOf(m: seq<seq<real>>, ns: seq<Scored<nat>>, c: nat)
  {
    forall t :: 0 <= t < |ns| ==> ns[t].key < |m| && c < |m[ns[t].key]|
  }

  /** A row's mean over its rated entries, or 0 when it has none. */
  function RowMean(r: seq<real>): real
  {
    MeanOrZero(Rated(r))
  }

  /** One neighbour's share of the numerator: `sim·(rating − neighbour mean)` if it rated column `c`. */
  function Term(r: seq<real>, sim: real, c: nat): real
    requires c < |r|
  {
    if r[c] != Unrated then sim * (r[c] - RowMean(r)) else 0.0
  }

  /** One neighbour's share of the denominator: `|sim|` if it rated column `c`. */
  function Weight(r: seq<real>, sim: real, c: nat): real
    requires c < |r|
  {
    if r[c] != Unrated then Abs(sim) else 0.0
  }

  /** Each neighbour's term, in neighbour order. */
  function Terms(m: seq<seq<real>>, ns: seq<Scored<nat>>, c: nat): (ts: seq<real>)
    requires RowsOf(m, ns, c)
    ensures |ts| == |ns|
  {
    seq(|ns|, t requires 0 <= t < |ns| => Term(m[ns[t].key], ns[t].score, c))
  }

  /** Each neighbour's weight, in neighbour order. */
  function Weights(m: seq<seq<real>>, ns: seq<Scored<nat>>, c: nat): (ws: seq<real>)
    requires RowsOf(m, ns, c)
    ensures |ws| == |ns|
  {
    seq(|ns|, t requires 0 <= t < |ns| => Weight(m[ns[t].key], ns[t].score, c))
  }

  /** `Σ sim·(rating − neighbour mean)` over the neighbours who rated column `c`. */
  function Deviations(m: seq<seq<real>>, ns: seq<Scored<nat>>, c: nat): real
    requires RowsOf(m, ns, c)
  {
    Sum(Terms(m, ns, c))
  }

  /** `Σ |sim|` over the neighbours who rated column `c`. */
  function SimilarityMass(m: seq<seq<real>>, ns: seq<Scored<nat>>, c: nat): real
    requires RowsOf(m, ns, c)
  {
    Sum(Weights(m, ns, c))
  }

  /** The prediction for column `c`, falling back to the user's mean when the mass is 0. */
  function Predict(m: seq<seq<real>>, ns: seq<Scored<nat>>, c: nat, userMean: real): real
    requires RowsOf(m, ns, c)
  {
    var denominator := SimilarityMass(m, ns, c);
    if denominator != 0.0 then userMean + Deviations(m, ns, c) / denominator else userMean
  }

  /** The predictions for every column, in column order, from a non-empty neighbour list. */
  function PredictAll(m: seq<seq<real>>, itemIds: seq<string>, ns: seq<Scored<nat>>, userMean: real): (preds: seq<Prediction>)
    requires forall c :: 0 <= c < |itemIds| ==> RowsOf(m, ns, c)
    ensures |preds| == |itemIds|
    ensures forall c :: 0 <= c < |itemIds| ==> preds[c] == Scored(itemIds[c], Predict(m, ns, c, userMean))
  {
    seq(|itemIds|, c requires 0 <= c < |itemIds| => Scored(itemIds[c], Predict(m, ns, c, userMean)))
  }

  /**
   * `Colaboratiu.algoritme`. It returns False when every row equals the user's row (no
   * candidate), raises when `[:k]` leaves no neighbour (numpy cannot stack zero arrays),
   * and otherwise predicts every column, in column order.
   *
   * The user's mean is NaN in the source when the user has rated nothing; that case is
   * excluded by the precondition.
   */
  function Algoritme(ds: Dataset, row: seq<real>, k: int, sqrt: real -> real): (out: Outcome)
    requires ds.Valid() && |row| == |ds.itemIds|
    requires |Rated(row)| > 0
    ensures out.Declined? <==> forall i :: 0 <= i < |ds.ratings| ==> ds.ratings[i] == row
    ensures out.Raised? <==> !out.Declined? && |Neighbours(ds.ratings, row, k, sqrt)| == 0
    ensures out.Raised? ==> out.error == NoNeighbourArrays && k <= 0
    ensures out.Emitted? ==>
      var ns := Neighbours(ds.ratings, row, k, sqrt);
      && |out.preds| == |ds.itemIds|
      && forall c :: 0 <= c < |ds.itemIds| ==>
        && RowsOf(ds.ratings, ns, c)
        && out.preds[c] == Scored(ds.itemIds[c], Predict(ds.ratings, ns, c, RowMean(row)))
  {
    Run(ds.ratings, ds.itemIds, row, k, sqrt)
  }

  /** The body of `algoritme` over the ratings matrix and the column ids. */
  function Run(m: seq<seq<real>>, itemIds: seq<string>, row: seq<real>, k: int, sqrt: real -> real): (out: Outcome)
    requires IsMatrix(m, |itemIds|) && |row| == |itemIds|
    ensures out.Declined? <==> forall i :: 0 <= i < |m| ==> m[i] == row
    ensures out.Raised? <==> !out.Declined? && |Neighbours(m, row, k, sqrt)| == 0
    ensures out.Raised? ==> out.error == NoNeighbourArrays && k <= 0
    ensures out.Emitted? ==>
      var ns := Neighbours(m, row, k, sqrt);
      && |out.preds| == |itemIds|
      && forall c :: 0 <= c < |itemIds| ==>
        && RowsOf(m, ns, c)
        && out.preds[c] == Scored(itemIds[c], Predict(m, ns, c, RowMean(row)))
  {
    NoCandidates(m, row, sqrt);
    NoNeighbours(m, row, k, sqrt);
    NeighbourRows(m, row, k, sqrt);
    if |Candidates(m, row, sqrt, 0)| == 0 then
      Declined
    else
      var ns := Neighbours(m, row, k, sqrt);
      if |ns| == 0 then Raised(NoNeighbourArrays) else Emitted(PredictAll(m, itemIds, ns, RowMean(row)))
  }

  /** There is no candidate exactly when every row equals the user's row. */
  lemma NoCandidates(m: seq<seq<real>>, u: seq<real>, sqrt: real -> real)
    requires IsMatrix(m, |u|)
    ensures |Candidates(m, u, sqrt, 0)| == 0 <==> forall i :: 0 <= i < |m| ==> m[i] == u
  {
    var cands := Candidates(m, u, sqrt, 0);
    if |cands| > 0 {
      assert m[cands[0].key] != u;
    } else {
      forall i | 0 <= i < |m|
        ensures m[i] == u
      {
        assert i !in Keys(cands);
      }
    }
  }

  /** Only a slice bound `k <= 0` can leave no neighbour out of a non-empty candidate list. */
  lemma NoNeighbours(m: seq<seq<real>>, u: seq<real>, k: int, sqrt: real -> real)
    requires IsMatrix(m, |u|)
    ensures 0 < k && 0 < |Candidates(m, u, sqrt, 0)| ==> 0 < |Neighbours(m, u, k, sqrt)|
  {
    assert Neighbours(m, u, k, sqrt) == Take(SortDesc(Candidates(m, u, sqrt, 0)), k);
  }

  /** Every neighbour is a row of the matrix, so each of its columns can be read. */
  lemma NeighbourRows(m: seq<seq<real>>, u: seq<real>, k: int, sqrt: real -> real)
    requires IsMatrix(m, |u|)
    ensures forall c :: 0 <= c < |u| ==> RowsOf(m, Neighbours(m, u, k, sqrt), c)
  {
    var ns := Neighbours(m, u, k, sqrt);
    forall t | 0 <= t < |ns|
      ensures ns[t].key < |m| && |m[ns[t].key]| == |u|
    {
      assert ns[t] in Candidates(m, u, sqrt, 0);
    }
  }

  // ---------------------------------------------------------------------------
  // Similarity

  lemma {:induction false} CoRatedSwap(u: seq<real>, r: seq<real>)
    requires |u| == |r|
    ensures CoRated(r, u) == (CoRated(u, r).1, CoRated(u, r).0)
  {
    if |u| > 0 {
      CoRatedSwap(u[1..], r[1..]);
    }
  }

  lemma {:induction false} CoRatedWithSelf(u: seq<real>)
    ensures CoRated(u, u) == (Rated(u), Rated(u))
  {
    if |u| > 0 {
      CoRatedWithSelf(u[1..]);
    }
  }

  lemma {:induction false} DotSymmetric(a: seq<real>, b: seq<real>)
    requires |a| == |b|
    ensures Dot(a, b) == Dot(b, a)
  {
    if |a| > 0 {
      DotSymmetric(a[1..], b[1..]);
    }
  }

  /** Similarity does not depend on which of the two rows is the user's. */
  lemma SimilaritySymmetric(u: seq<real>, r: seq<real>, sqrt: real -> real)
    requires |u| == |r|
    ensures Similarity(u, r, sqrt) == Similarity(r, u, sqrt)
  {
    CoRatedSwap(u, r);
    var a, b := CoRated(u, r).0, CoRated(u, r).1;
    DotSymmetric(a, b);
    assert sqrt(SumSq(a)) * sqrt(SumSq(b)) == sqrt(SumSq(b)) * sqrt(SumSq(a));
  }

  /** Under a true square root, every similarity lies in [-1, 1]. */
  lemma SimilarityBounded(u: seq<real>, r: seq<real>, sqrt: real -> real)
    requires IsSqrt(sqrt) && |u| == |r|
    ensures -1.0 <= Similarity(u, r, sqrt) <= 1.0
  {
    CosineBounded(CoRated(u, r).0, CoRated(u, r).1, sqrt);
  }

  /**
   * Under a true square root, the similarity is 0 when either row is all zeros on the
   * co-rated support.
   */
  lemma SimilarityZeroNorm(u: seq<real>, r: seq<real>, sqrt: real -> real)
    requires IsSqrt(sqrt) && |u| == |r|
    requires SumSq(CoRated(u, r).0) == 0.0 || SumSq(CoRated(u, r).1) == 0.0
    ensures Similarity(u, r, sqrt) == 0.0
  {
    CosineZeroNorm(CoRated(u, r).0, CoRated(u, r).1, sqrt);
  }

  /** Under a true square root, a row with a non-zero rated part is fully similar to itself. */
  lemma SimilarityWithSelf(u: seq<real>, sqrt: real -> real)
    requires IsSqrt(sqrt)
    requires SumSq(Rated(u)) != 0.0
    ensures Similarity(u, u, sqrt) == 1.0
  {
    CoRatedWithSelf(u);
    CosineWithSelf(Rated(u), sqrt);
    assert |Rated(u)| > 0;
  }

  // ---------------------------------------------------------------------------
  // Neighbour selection and scoring

  /**
   * The neighbours are the most similar candidates: a candidate left out is never more
   * similar than any neighbour kept.
   */
  lemma NeighboursAreMostSimilar(m: seq<seq<real>>, u: seq<real>, k: int, sqrt: real -> real, x: Scored<nat>, t: int)
    requires IsMatrix(m, |u|)
    requires x in Candidates(m, u, sqrt, 0) && x !in Neighbours(m, u, k, sqrt)
    requires 0 <= t < |Neighbours(m, u, k, sqrt)|
    ensures Neighbours(m, u, k, sqrt)[t].score >= x.score
  {
    TopKeepsHighest(Candidates(m, u, sqrt, 0), k, x, t);
  }

  /** Each neighbour is another user's row, scored by its similarity to the user's row. */
  lemma NeighboursAreOtherRows(m: seq<seq<real>>, u: seq<real>, k: int, sqrt: real -> real, t: int)
    requires IsMatrix(m, |u|)
    requires 0 <= t < |Neighbours(m, u, k, sqrt)|
    ensures var n := Neighbours(m, u, k, sqrt)[t];
      n.key < |m| && m[n.key] != u && n.score == Similarity(u, m[n.key], sqrt)
  {
    var n := Neighbours(m, u, k, sqrt)[t];
    assert n in Candidates(m, u, sqrt, 0);
  }

  /** Every neighbour who rated column `c` deviates from its own mean there by at most `bound`. */
  ghost predicate DeviationsWithin(m: seq<seq<real>>, ns: seq<Scored<nat>>, c: nat, bound: real)
    requires RowsOf(m, ns, c)
  {
    forall t :: 0 <= t < |ns| && m[ns[t].key][c] != Unrated ==>
      Abs(m[ns[t].key][c] - RowMean(m[ns[t].key])) <= bound
  }

  /** A single neighbour's term is at most `bound` times its weight. */
  lemma TermBounded(r: seq<real>, sim: real, c: nat, bound: real)
    requires c < |r| && 0.0 <= bound
    requires r[c] != Unrated ==> Abs(r[c] - RowMean(r)) <= bound
    ensures Abs(Term(r, sim, c)) <= bound * Weight(r, sim, c)
  {
    if r[c] != Unrated {
      var d := r[c] - RowMean(r);
      AbsProduct(sim, d);
      ProductNonNegative(Abs(sim), bound - Abs(d));
      assert Abs(sim) * (bound - Abs(d)) == Abs(sim) * bound - Abs(sim) * Abs(d);
    } else {
      assert bound * 0.0 == 0.0;
    }
  }

  /** Each rated neighbour's term is at most `bound` times its weight. */
  lemma TermsBounded(m: seq<seq<real>>, ns: seq<Scored<nat>>, c: nat, bound: real)
    requires RowsOf(m, ns, c) && 0.0 <= bound
    requires DeviationsWithin(m, ns, c, bound)
    ensures Dominated(Terms(m, ns, c), Weights(m, ns, c), bound)
  {
    var ts, ws := Terms(m, ns, c), Weights(m, ns, c);
    forall t | 0 <= t < |ns|
      ensures Abs(ts[t]) <= bound * ws[t]
    {
      var r, sim := m[ns[t].key], ns[t].score;
      TermBounded(r, sim, c, bound);
      assert ts[t] == Term(r, sim, c);
      assert ws[t] == Weight(r, sim, c);
    }
    DominatedPointwise(ts, ws, bound);
  }

  /** `|Σ sim·dev|` is at most `bound · Σ|sim|` when every rated neighbour's deviation is at most `bound`. */
  lemma DeviationsBounded(m: seq<seq<real>>, ns: seq<Scored<nat>>, c: nat, bound: real)
    requires RowsOf(m, ns, c) && 0.0 <= bound
    requires DeviationsWithin(m, ns, c, bound)
    ensures Abs(Deviations(m, ns, c)) <= bound * SimilarityMass(m, ns, c)
  {
    TermsBounded(m, ns, c, bound);
    SumAbsBound(Terms(m, ns, c), Weights(m, ns, c), bound);
  }

  /** The similarity mass is a sum of absolute values, hence never negative. */
  lemma SimilarityMassNonNegative(m: seq<seq<real>>, ns: seq<Scored<nat>>, c: nat)
    requires RowsOf(m, ns, c)
    ensures 0.0 <= SimilarityMass(m, ns, c)
  {
    SumNonNegative(Weights(m, ns, c));
  }

  /**
   * The mass is 0 exactly when every neighbour who rated column `c` has similarity 0,
   * which is when the prediction falls back to the user's mean.
   */
  lemma SimilarityMassZero(m: seq<seq<real>>, ns: seq<Scored<nat>>, c: nat)
    requires RowsOf(m, ns, c)
    ensures SimilarityMass(m, ns, c) == 0.0 <==>
      forall t :: 0 <= t < |ns| && m[ns[t].key][c] != Unrated ==> ns[t].score == 0.0
  {
    var ws := Weights(m, ns, c);
    SumNonNegative(ws);
    assert forall t :: 0 <= t < |ns| ==> (ws[t] == 0.0 <==> (m[ns[t].key][c] != Unrated ==> ns[t].score == 0.0));
  }

  /**
   * Every prediction lies within `bound` of the user's mean when every rated neighbour's
   * deviation from its own mean at that column does.
   */
  lemma PredictionNearUserMean(m: seq<seq<real>>, ns: seq<Scored<nat>>, c: nat, userMean: real, bound: real)
    requires RowsOf(m, ns, c)
    requires 0.0 <= bound
    requires DeviationsWithin(m, ns, c, bound)
    ensures Abs(Predict(m, ns, c, userMean) - userMean) <= bound
  {
    var den := SimilarityMass(m, ns, c);
    if den != 0.0 {
      DeviationsBounded(m, ns, c, bound);
      SimilarityMassNonNegative(m, ns, c);
      QuotientAbsBound(Deviations(m, ns, c), den, bound);
    }
  }
}
