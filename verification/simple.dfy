/**
 * The `Simple` strategy: a shrinkage estimate per item, blending the item's own mean with
 * the mean of the whole matrix in proportion to how many votes the item has, for every
 * item whose vote count reaches the `min_vots` threshold.
 */
module SimpleStrategy {
  import opened Numeric
  import opened Sorting
  import opened Datasets
  import opened Predictions

  /** `get_num_vots`: how many users rated column `c`. */
  function NumVots(m: seq<seq<real>>, c: nat): nat
    requires forall r :: 0 <= r < |m| ==> c < |m[r]|
  {
    |Rated(Column(m, c))|
  }

  /** `get_avg`: the mean rating of column `c`, or 0 when nobody rated it. */
  function AvgItem(m: seq<seq<real>>, c: nat): real
    requires forall r :: 0 <= r < |m| ==> c < |m[r]|
  {
    MeanOrZero(Rated(Column(m, c)))
  }

  /** The mean of every rating in the matrix, or 0 when there is none. */
  function AvgGlobal(m: seq<seq<real>>): real
  {
    MeanOrZero(Rated(Flatten(m)))
  }

  /** `v/(v+m)·avg_item + m/(v+m)·avg_global`. */
  function Shrunk(votes: nat, minVots: int, avgItem: real, avgGlobal: real): real
    requires votes + minVots != 0
  {
    var total := (votes + minVots) as real;
    (votes as real / total) * avgItem + (minVots as real / total) * avgGlobal
  }

  /** The columns from `c` on whose vote count reaches `minVots`, in column order. */
  function Eligible(m: seq<seq<real>>, minVots: int, c: nat, n: nat): (cols: seq<nat>)
    requires IsMatrix(m, n) && c <= n
    ensures forall j :: 0 <= j < |cols| ==> c <= cols[j] < n && NumVots(m, cols[j]) >= minVots
    ensures forall j, l :: 0 <= j < l < |cols| ==> cols[j] < cols[l]
    decreases n - c
  {
    if c == n then []
    else if NumVots(m, c) < minVots then Eligible(m, minVots, c + 1, n)
    else [c] + Eligible(m, minVots, c + 1, n)
  }

  /** A column is eligible exactly when it lies in range and its vote count reaches `minVots`. */
  lemma {:induction false} EligibleExactly(m: seq<seq<real>>, minVots: int, c: nat, n: nat, col: nat)
    requires IsMatrix(m, n) && c <= n
    ensures col in Eligible(m, minVots, c, n) <==> c <= col < n && NumVots(m, col) >= minVots
    decreases n - c
  {
    if c < n {
      EligibleExactly(m, minVots, c + 1, n, col);
    }
  }

  /** A column whose weights `v/(v+m)` and `m/(v+m)` divide by zero. */
  ghost predicate DividesByZero(m: seq<seq<real>>, minVots: int, col: nat)
    requires forall r :: 0 <= r < |m| ==> col < |m[r]|
  {
    NumVots(m, col) >= minVots && NumVots(m, col) + minVots == 0
  }

  /** The loop of `algoritme` from column `c` on. */
  function ScoreFrom(ds: Dataset, minVots: int, avgGlobal: real, c: nat): (out: Outcome)
    requires IsMatrix(ds.ratings, |ds.itemIds|) && c <= |ds.itemIds|
    ensures !out.Declined?
    ensures out.Raised? <==> exists col :: c <= col < |ds.itemIds| && DividesByZero(ds.ratings, minVots, col)
    ensures out.Raised? ==> out.error == ZeroDivision
    decreases |ds.itemIds| - c
  {
    if c == |ds.itemIds| then Emitted([])
    else
      var n := |ds.itemIds|;
      var votes := NumVots(ds.ratings, c);
      var tail := ScoreFrom(ds, minVots, avgGlobal, c + 1);
      if votes < minVots then
        assert !DividesByZero(ds.ratings, minVots, c);
        tail
      else if votes + minVots == 0 then
        assert DividesByZero(ds.ratings, minVots, c);
        Raised(ZeroDivision)
      else
        assert !DividesByZero(ds.ratings, minVots, c);
        match tail
        case Emitted(rest) =>
          Emitted([Scored(ds.itemIds[c], Shrunk(votes, minVots, AvgItem(ds.ratings, c), avgGlobal))] + rest)
        case other => other
  }

  /**
   * `Simple.algoritme`: one prediction per item whose vote count reaches `minVots`, in
   * column order, scored by shrinkage toward the global mean. It never returns False; it
   * raises exactly when some such item makes `votes + minVots` zero, which needs `minVots <= 0`.
   */
  function Algoritme(ds: Dataset, minVots: int): (out: Outcome)
    requires ds.Valid()
    ensures !out.Declined?
    ensures out.Raised? <==> exists col :: 0 <= col < |ds.itemIds| && DividesByZero(ds.ratings, minVots, col)
    ensures out.Raised? ==> out.error == ZeroDivision && minVots <= 0
    ensures 1 <= minVots ==> out.Emitted?
    ensures out.Emitted? ==>
      var cols := Eligible(ds.ratings, minVots, 0, |ds.itemIds|);
      && |out.preds| == |cols|
      && forall j :: 0 <= j < |cols| ==>
        && NumVots(ds.ratings, cols[j]) + minVots != 0
        && out.preds[j].key == ds.itemIds[cols[j]]
        && out.preds[j].score == Shrunk(NumVots(ds.ratings, cols[j]), minVots, AvgItem(ds.ratings, cols[j]), AvgGlobal(ds.ratings))
  {
    var out := ScoreFrom(ds, minVots, AvgGlobal(ds.ratings), 0);
    if out.Emitted? then
      ScoreFromEmitted(ds, minVots, AvgGlobal(ds.ratings));
      out
    else
      out
  }

  /** Everything the loop emits from column 0: one shrinkage score per eligible column, in order. */
  lemma ScoreFromEmitted(ds: Dataset, minVots: int, avgGlobal: real)
    requires IsMatrix(ds.ratings, |ds.itemIds|)
    requires ScoreFrom(ds, minVots, avgGlobal, 0).Emitted?
    ensures var cols := Eligible(ds.ratings, minVots, 0, |ds.itemIds|);
      var preds := ScoreFrom(ds, minVots, avgGlobal, 0).preds;
      && |preds| == |cols|
      && forall j :: 0 <= j < |cols| ==>
        && NumVots(ds.ratings, cols[j]) + minVots != 0
        && preds[j].key == ds.itemIds[cols[j]]
        && preds[j].score == Shrunk(NumVots(ds.ratings, cols[j]), minVots, AvgItem(ds.ratings, cols[j]), avgGlobal)
  {
    ScoreFromLength(ds, minVots, avgGlobal, 0);
    forall j | 0 <= j < |Eligible(ds.ratings, minVots, 0, |ds.itemIds|)| {
      ScoreFromAt(ds, minVots, avgGlobal, 0, j);
    }
  }

  /** `p` is the shrinkage score the loop gives column `col`. */
  ghost predicate ScoresColumn(ds: Dataset, minVots: int, avgGlobal: real, col: nat, p: Prediction)
    requires IsMatrix(ds.ratings, |ds.itemIds|)
  {
    && col < |ds.itemIds|
    && NumVots(ds.ratings, col) + minVots != 0
    && p == Scored(ds.itemIds[col], Shrunk(NumVots(ds.ratings, col), minVots, AvgItem(ds.ratings, col), avgGlobal))
  }

  /** The `j`-th prediction the loop emits is the shrinkage score of the `j`-th eligible column. */
  lemma {:induction false} ScoreFromAt(ds: Dataset, minVots: int, avgGlobal: real, c: nat, j: nat)
    requires IsMatrix(ds.ratings, |ds.itemIds|) && c <= |ds.itemIds|
    requires ScoreFrom(ds, minVots, avgGlobal, c).Emitted?
    requires j < |Eligible(ds.ratings, minVots, c, |ds.itemIds|)|
    ensures j < |ScoreFrom(ds, minVots, avgGlobal, c).preds|
    ensures ScoresColumn(ds, minVots, avgGlobal, Eligible(ds.ratings, minVots, c, |ds.itemIds|)[j],
                         ScoreFrom(ds, minVots, avgGlobal, c).preds[j])
    decreases |ds.itemIds| - c
  {
    var n := |ds.itemIds|;
    var m := ds.ratings;
    assert c < n;
    var here, next := ScoreFrom(ds, minVots, avgGlobal, c).preds, ScoreFrom(ds, minVots, avgGlobal, c + 1);
    var cols, nextCols := Eligible(m, minVots, c, n), Eligible(m, minVots, c + 1, n);
    if NumVots(m, c) < minVots {
      ScoreFromSkips(ds, minVots, avgGlobal, c);
      ScoreFromAt(ds, minVots, avgGlobal, c + 1, j);
      assert ScoresColumn(ds, minVots, avgGlobal, nextCols[j], next.preds[j]);
    } else {
      ScoreFromKeeps(ds, minVots, avgGlobal, c, j);
      if j > 0 {
        ScoreFromAt(ds, minVots, avgGlobal, c + 1, j - 1);
        assert ScoresColumn(ds, minVots, avgGlobal, nextCols[j - 1], next.preds[j - 1]);
      } else {
        assert ScoresColumn(ds, minVots, avgGlobal, cols[0], here[0]);
      }
    }
  }

  /** A column below the threshold is skipped: neither the output nor the eligible columns change. */
  lemma ScoreFromSkips(ds: Dataset, minVots: int, avgGlobal: real, c: nat)
    requires IsMatrix(ds.ratings, |ds.itemIds|) && c < |ds.itemIds|
    requires NumVots(ds.ratings, c) < minVots
    ensures ScoreFrom(ds, minVots, avgGlobal, c) == ScoreFrom(ds, minVots, avgGlobal, c + 1)
    ensures Eligible(ds.ratings, minVots, c, |ds.itemIds|) == Eligible(ds.ratings, minVots, c + 1, |ds.itemIds|)
  {
  }

  /**
   * A column at the threshold, when the loop emits, is scored at the head of the output, and
   * every later position `j` of the output and of the eligible columns shifts by one.
   */
  lemma ScoreFromKeeps(ds: Dataset, minVots: int, avgGlobal: real, c: nat, j: nat)
    requires IsMatrix(ds.ratings, |ds.itemIds|) && c < |ds.itemIds|
    requires NumVots(ds.ratings, c) >= minVots
    requires ScoreFrom(ds, minVots, avgGlobal, c).Emitted?
    ensures ScoreFrom(ds, minVots, avgGlobal, c + 1).Emitted?
    ensures |ScoreFrom(ds, minVots, avgGlobal, c).preds| == |ScoreFrom(ds, minVots, avgGlobal, c + 1).preds| + 1
    ensures |Eligible(ds.ratings, minVots, c, |ds.itemIds|)| == |Eligible(ds.ratings, minVots, c + 1, |ds.itemIds|)| + 1
    ensures Eligible(ds.ratings, minVots, c, |ds.itemIds|)[0] == c
    ensures ScoresColumn(ds, minVots, avgGlobal, c, ScoreFrom(ds, minVots, avgGlobal, c).preds[0])
    ensures 0 < j <= |Eligible(ds.ratings, minVots, c + 1, |ds.itemIds|)| ==>
              Eligible(ds.ratings, minVots, c, |ds.itemIds|)[j] == Eligible(ds.ratings, minVots, c + 1, |ds.itemIds|)[j - 1]
    ensures 0 < j <= |ScoreFrom(ds, minVots, avgGlobal, c + 1).preds| ==>
              ScoreFrom(ds, minVots, avgGlobal, c).preds[j] == ScoreFrom(ds, minVots, avgGlobal, c + 1).preds[j - 1]
  {
    var n := |ds.itemIds|;
    var head := Scored(ds.itemIds[c], Shrunk(NumVots(ds.ratings, c), minVots, AvgItem(ds.ratings, c), avgGlobal));
    assert ScoreFrom(ds, minVots, avgGlobal, c).preds == [head] + ScoreFrom(ds, minVots, avgGlobal, c + 1).preds;
    assert Eligible(ds.ratings, minVots, c, n) == [c] + Eligible(ds.ratings, minVots, c + 1, n);
  }

  /** The loop emits exactly one prediction per eligible column. */
  lemma {:induction false} ScoreFromLength(ds: Dataset, minVots: int, avgGlobal: real, c: nat)
    requires IsMatrix(ds.ratings, |ds.itemIds|) && c <= |ds.itemIds|
    requires ScoreFrom(ds, minVots, avgGlobal, c).Emitted?
    ensures |ScoreFrom(ds, minVots, avgGlobal, c).preds| == |Eligible(ds.ratings, minVots, c, |ds.itemIds|)|
    decreases |ds.itemIds| - c
  {
    var n := |ds.itemIds|;
    if c < n {
      ScoreFromLength(ds, minVots, avgGlobal, c + 1);
      if NumVots(ds.ratings, c) < minVots {
        assert Eligible(ds.ratings, minVots, c, n) == Eligible(ds.ratings, minVots, c + 1, n);
      } else {
        assert Eligible(ds.ratings, minVots, c, n) == [c] + Eligible(ds.ratings, minVots, c + 1, n);
      }
    }
  }

  /** The two shrinkage weights always sum to one. */
  lemma ShrinkageWeightsSumToOne(votes: nat, minVots: int)
    requires votes + minVots != 0
    ensures votes as real / (votes + minVots) as real + minVots as real / (votes + minVots) as real == 1.0
  {
    var total := (votes + minVots) as real;
    assert votes as real / total + minVots as real / total == (votes as real + minVots as real) / total;
  }

  /**
   * The estimate sits away from the item's own mean by the fraction `m/(v+m)` of the gap to
   * the global mean: the more votes, the closer it stays to the item's mean.
   */
  lemma ShrinkageTowardGlobal(votes: nat, minVots: int, avgItem: real, avgGlobal: real)
    requires votes + minVots != 0
    ensures Shrunk(votes, minVots, avgItem, avgGlobal) - avgItem
            == (minVots as real / (votes + minVots) as real) * (avgGlobal - avgItem)
  {
    ShrinkageWeightsSumToOne(votes, minVots);
    var total := (votes + minVots) as real;
    var wv, wm := votes as real / total, minVots as real / total;
    assert wv == 1.0 - wm;
    assert wv * avgItem + wm * avgGlobal - avgItem == wm * (avgGlobal - avgItem);
  }

  /** With a non-negative threshold the estimate lies between the item mean and the global mean. */
  lemma ShrinkageBetween(votes: nat, minVots: int, avgItem: real, avgGlobal: real)
    requires 0 <= minVots && votes + minVots != 0
    ensures avgItem <= avgGlobal ==> avgItem <= Shrunk(votes, minVots, avgItem, avgGlobal) <= avgGlobal
    ensures avgGlobal <= avgItem ==> avgGlobal <= Shrunk(votes, minVots, avgItem, avgGlobal) <= avgItem
  {
    ShrinkageTowardGlobal(votes, minVots, avgItem, avgGlobal);
    var total := (votes + minVots) as real;
    var w := minVots as real / total;
    assert 0.0 <= w <= 1.0 by {
      assert 0.0 < total;
      assert minVots as real <= total;
      assert w * total == minVots as real;
    }
    var gap := avgGlobal - avgItem;
    ProductNonNegative(w, gap);
    ProductNonNegative(1.0 - w, gap);
    ProductNonNegative(w, -gap);
    ProductNonNegative(1.0 - w, -gap);
    assert (1.0 - w) * gap == gap - w * gap;
    assert (1.0 - w) * (-gap) == w * gap - gap;
    assert w * (-gap) == -(w * gap);
  }

  /** With `minVots >= 1`, an item that nobody rated never receives a prediction. */
  lemma UnratedItemsNeverScored(ds: Dataset, minVots: int, j: int)
    requires ds.Valid() && 1 <= minVots
    requires Algoritme(ds, minVots).Emitted? && 0 <= j < |Algoritme(ds, minVots).preds|
    ensures exists col :: 0 <= col < |ds.itemIds| && ds.itemIds[col] == Algoritme(ds, minVots).preds[j].key
                          && NumVots(ds.ratings, col) >= 1
  {
    var cols := Eligible(ds.ratings, minVots, 0, |ds.itemIds|);
    assert NumVots(ds.ratings, cols[j]) >= 1;
  }
}
