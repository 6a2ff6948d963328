/**
 * `Avaluador`: the two accuracy metrics of a user's retained predictions against the
 * ratings the user actually gave, each stored on the evaluator as it is computed.
 *
 * The metrics work elementwise on two sequences of the same length. `np.mean` of an empty
 * array is NaN, which the model keeps apart as `Undefined`; `None` before a metric has been
 * computed is `Unset`.
 */
module Evaluator {
  import opened Numeric

  datatype Metric = Unset | Value(v: real) | Undefined

  datatype Avaluador = Avaluador(mae: Metric, rmse: Metric)

  /** `Avaluador()`: both metrics unset. */
  function New(): (a: Avaluador)
    ensures a.mae.Unset? && a.rmse.Unset?
  {
    Avaluador(Unset, Unset)
  }

  /** `|p_i - r_i|` for every position. */
  function AbsErrors(p: seq<real>, r: seq<real>): (e: seq<real>)
    requires |p| == |r|
    ensures |e| == |p|
    ensures forall i :: 0 <= i < |p| ==> e[i] == Abs(p[i] - r[i])
  {
    seq(|p|, i requires 0 <= i < |p| => Abs(p[i] - r[i]))
  }

  /** `(p_i - r_i)²` for every position. */
  function SquaredErrors(p: seq<real>, r: seq<real>): (e: seq<real>)
    requires |p| == |r|
    ensures |e| == |p|
    ensures forall i :: 0 <= i < |p| ==> e[i] == (p[i] - r[i]) * (p[i] - r[i])
  {
    seq(|p|, i requires 0 <= i < |p| => (p[i] - r[i]) * (p[i] - r[i]))
  }

  /** `np.mean`: NaN for an empty array. */
  function Mean(xs: seq<real>): (m: Metric)
    ensures m.Undefined? <==> |xs| == 0
    ensures m.Value? ==> m.v * (|xs| as real) == Sum(xs)
  {
    if |xs| == 0 then Undefined else Value(Sum(xs) / (|xs| as real))
  }

  /** The mean squared error, the quantity under the square root of `rmse`. */
  function MeanSquaredError(p: seq<real>, r: seq<real>): (m: Metric)
    requires |p| == |r|
    ensures m.Undefined? <==> |p| == 0
  {
    Mean(SquaredErrors(p, r))
  }

  /** `mae`: the mean absolute error, stored on the evaluator and returned. */
  function Mae(a: Avaluador, p: seq<real>, r: seq<real>): (res: (Avaluador, Metric))
    requires |p| == |r|
    ensures res.0.mae == res.1 && res.0.rmse == a.rmse
    ensures res.1.Undefined? <==> |p| == 0
    ensures res.1.Value? ==> 0.0 <= res.1.v
    ensures res.1.Value? ==> (res.1.v == 0.0 <==> p == r)
  {
    var m := Mean(AbsErrors(p, r));
    ErrorsVanish(p, r);
    if m.Value? then
      MeanOfNonNegative(AbsErrors(p, r));
      (a.(mae := m), m)
    else
      (a.(mae := m), m)
  }

  /**
   * `rmse`: the square root of the mean squared error, stored on the evaluator and
   * returned. The square root is the parameter `sqrt`.
   */
  function Rmse(a: Avaluador, p: seq<real>, r: seq<real>, sqrt: real -> real): (res: (Avaluador, Metric))
    requires |p| == |r|
    ensures res.0.rmse == res.1 && res.0.mae == a.mae
    ensures res.1.Undefined? <==> |p| == 0
    ensures res.1.Value? ==> MeanSquaredError(p, r).Value? && res.1.v == sqrt(MeanSquaredError(p, r).v)
  {
    var m := match MeanSquaredError(p, r)
      case Value(mse) => Value(sqrt(mse))
      case _ => Undefined;
    (a.(rmse := m), m)
  }

  // ---------------------------------------------------------------------------
  // Lemmas

  /** The mean of non-negative values is non-negative, and 0 exactly when every value is. */
  lemma MeanOfNonNegative(xs: seq<real>)
    requires |xs| > 0 && forall i :: 0 <= i < |xs| ==> 0.0 <= xs[i]
    ensures 0.0 <= Mean(xs).v
    ensures Mean(xs).v == 0.0 <==> forall i :: 0 <= i < |xs| ==> xs[i] == 0.0
  {
    SumNonNegative(xs);
    var n := |xs| as real;
    var m := Sum(xs) / n;
    assert m * n == Sum(xs);
    ProductZero(m, n);
    ProductPositive(-m, n);
  }

  /** Both error vectors are non-negative, and all zero exactly when the two sequences are equal. */
  lemma ErrorsVanish(p: seq<real>, r: seq<real>)
    requires |p| == |r|
    ensures forall i :: 0 <= i < |p| ==> 0.0 <= AbsErrors(p, r)[i] && 0.0 <= SquaredErrors(p, r)[i]
    ensures (forall i :: 0 <= i < |p| ==> AbsErrors(p, r)[i] == 0.0) <==> p == r
    ensures (forall i :: 0 <= i < |p| ==> SquaredErrors(p, r)[i] == 0.0) <==> p == r
  {
    forall i | 0 <= i < |p|
      ensures 0.0 <= SquaredErrors(p, r)[i]
      ensures SquaredErrors(p, r)[i] == 0.0 <==> p[i] == r[i]
    {
      ProductZero(p[i] - r[i], p[i] - r[i]);
      ProductNonNegative(p[i] - r[i], p[i] - r[i]);
      ProductNonNegative(r[i] - p[i], r[i] - p[i]);
      assert (r[i] - p[i]) * (r[i] - p[i]) == (p[i] - r[i]) * (p[i] - r[i]);
    }
    if forall i :: 0 <= i < |p| ==> p[i] == r[i] {
      assert p == r;
    }
  }

  /** The mean squared error is non-negative, and 0 exactly when the sequences are equal. */
  lemma MeanSquaredErrorZero(p: seq<real>, r: seq<real>)
    requires |p| == |r| && |p| > 0
    ensures 0.0 <= MeanSquaredError(p, r).v
    ensures MeanSquaredError(p, r).v == 0.0 <==> p == r
  {
    ErrorsVanish(p, r);
    MeanOfNonNegative(SquaredErrors(p, r));
  }

  /** Under a true square root, RMSE is non-negative and 0 exactly when the sequences are equal. */
  lemma RmseZero(a: Avaluador, p: seq<real>, r: seq<real>, sqrt: real -> real)
    requires IsSqrt(sqrt) && |p| == |r| && |p| > 0
    ensures Rmse(a, p, r, sqrt).1.Value?
    ensures 0.0 <= Rmse(a, p, r, sqrt).1.v
    ensures Rmse(a, p, r, sqrt).1.v == 0.0 <==> p == r
  {
    MeanSquaredErrorZero(p, r);
    var mse := MeanSquaredError(p, r).v;
    ProductZero(sqrt(mse), sqrt(mse));
  }

  /** Swapping predictions and real values changes neither error vector. */
  lemma ErrorsSymmetric(p: seq<real>, r: seq<real>)
    requires |p| == |r|
    ensures AbsErrors(p, r) == AbsErrors(r, p)
    ensures SquaredErrors(p, r) == SquaredErrors(r, p)
  {
    forall i | 0 <= i < |p|
      ensures SquaredErrors(p, r)[i] == SquaredErrors(r, p)[i]
    {
      assert (r[i] - p[i]) * (r[i] - p[i]) == (p[i] - r[i]) * (p[i] - r[i]);
    }
  }

  /** Both metrics are symmetric in their two arguments. */
  lemma MetricsSymmetric(a: Avaluador, p: seq<real>, r: seq<real>, sqrt: real -> real)
    requires |p| == |r|
    ensures Mae(a, p, r).1 == Mae(a, r, p).1
    ensures Rmse(a, p, r, sqrt).1 == Rmse(a, r, p, sqrt).1
  {
    ErrorsSymmetric(p, r);
  }

  /**
   * The mean absolute error never exceeds the square root of the mean squared error:
   * MAE² <= MSE, by Cauchy-Schwarz against the all-ones vector.
   */
  lemma MaeSquaredAtMostMse(p: seq<real>, r: seq<real>)
    requires |p| == |r| && |p| > 0
    ensures Mean(AbsErrors(p, r)).v * Mean(AbsErrors(p, r)).v <= MeanSquaredError(p, r).v
  {
    var e := AbsErrors(p, r);
    var ones := seq(|p|, i requires 0 <= i < |p| => 1.0);
    var n := |p| as real;
    CauchySchwarz(e, ones);
    DotOnes(e, ones);
    SumSqOnes(ones);
    SumSqOfAbs(p, r);
    var sum, sq := Sum(e), Sum(SquaredErrors(p, r));
    assert Dot(e, ones) == sum && SumSq(e) == sq && SumSq(ones) == n;
    assert sum * sum <= sq * n;
    ScaledSquareBound(sum, sq, n);
    assert Mean(e).v == sum / n && MeanSquaredError(p, r).v == sq / n;
  }

  /** From `s² <= q·n` with `n > 0`: `(s/n)² <= q/n`. */
  lemma ScaledSquareBound(s: real, q: real, n: real)
    requires 0.0 < n && s * s <= q * n
    ensures (s / n) * (s / n) <= q / n
  {
    var a, b := s / n, q / n;
    assert a * n == s && b * n == q;
    assert (a * s) * n == s * s by { assert (a * s) * n == (a * n) * s; }
    CancelPositive(a * s, q, n);
    assert (a * a) * n == a * s by { assert (a * a) * n == a * (a * n); }
    CancelPositive(a * a, b, n);
  }

  /** A positive factor cancels from both sides of `<=`. */
  lemma CancelPositive(x: real, y: real, c: real)
    requires 0.0 < c && x * c <= y * c
    ensures x <= y
  {
    assert x * c - y * c == (x - y) * c;
  }

  /** Under a true square root, MAE <= RMSE. */
  lemma MaeAtMostRmse(a: Avaluador, p: seq<real>, r: seq<real>, sqrt: real -> real)
    requires IsSqrt(sqrt) && |p| == |r| && |p| > 0
    ensures Mae(a, p, r).1.v <= Rmse(a, p, r, sqrt).1.v
  {
    MaeSquaredAtMostMse(p, r);
    MeanSquaredErrorZero(p, r);
    ErrorsVanish(p, r);
    MeanOfNonNegative(AbsErrors(p, r));
    var mae := Mean(AbsErrors(p, r)).v;
    var rmse := sqrt(MeanSquaredError(p, r).v);
    assert 0.0 <= mae && 0.0 <= rmse;
    assert mae * mae <= rmse * rmse;
    SquareMonotone(mae, rmse);
  }

  /** Squaring is monotone on the non-negative reals. */
  lemma SquareMonotone(x: real, y: real)
    requires 0.0 <= x && 0.0 <= y && x * x <= y * y
    ensures x <= y
  {
    ProductPositive(x - y, x + y);
    assert (x - y) * (x + y) == x * x - y * y;
  }

  /** Dotting with all ones sums. */
  lemma {:induction false} DotOnes(e: seq<real>, ones: seq<real>)
    requires |e| == |ones| && forall i :: 0 <= i < |ones| ==> ones[i] == 1.0
    ensures Dot(e, ones) == Sum(e)
  {
    if |e| > 0 {
      DotOnes(e[1..], ones[1..]);
    }
  }

  /** The squared norm of the all-ones vector is its length. */
  lemma {:induction false} SumSqOnes(ones: seq<real>)
    requires forall i :: 0 <= i < |ones| ==> ones[i] == 1.0
    ensures SumSq(ones) == |ones| as real
  {
    if |ones| > 0 {
      SumSqOnes(ones[1..]);
    }
  }

  /** The squared norm of the absolute errors is the sum of the squared errors. */
  lemma SumSqOfAbs(p: seq<real>, r: seq<real>)
    requires |p| == |r|
    ensures SumSq(AbsErrors(p, r)) == Sum(SquaredErrors(p, r))
  {
    var e, sq := AbsErrors(p, r), SquaredErrors(p, r);
    forall i | 0 <= i < |p|
      ensures e[i] * e[i] == sq[i]
    {
      AbsProduct(p[i] - r[i], p[i] - r[i]);
      var d := p[i] - r[i];
      assert Abs(d * d) == d * d by {
        ProductNonNegative(d, d);
        ProductNonNegative(-d, -d);
        assert (-d) * (-d) == d * d;
      }
    }
    SumSqIsSumOfSquares(e, sq);
  }

  lemma {:induction false} SumSqIsSumOfSquares(e: seq<real>, sq: seq<real>)
    requires |e| == |sq| && forall i :: 0 <= i < |e| ==> e[i] * e[i] == sq[i]
    ensures SumSq(e) == Sum(sq)
  {
    if |e| > 0 {
      SumSqIsSumOfSquares(e[1..], sq[1..]);
    }
  }

  /** Worked example: predictions equal to the real values have zero MAE. */
  lemma ExampleExact()
    ensures Mae(New(), [3.0, 4.0], [3.0, 4.0]).1 == Value(0.0)
  {
    assert AbsErrors([3.0, 4.0], [3.0, 4.0]) == [0.0, 0.0];
    assert Sum([0.0, 0.0]) == 0.0;
  }

  /** Worked example: predictions 2 below the real values everywhere have MAE 2 and RMSE 2. */
  lemma ExampleOffByTwo(sqrt: real -> real)
    requires IsSqrt(sqrt)
    ensures Mae(New(), [1.0, 1.0], [3.0, 3.0]).1 == Value(2.0)
    ensures Rmse(New(), [1.0, 1.0], [3.0, 3.0], sqrt).1 == Value(2.0)
  {
    assert AbsErrors([1.0, 1.0], [3.0, 3.0]) == [2.0, 2.0];
    assert Sum([2.0, 2.0]) == 4.0;
    assert SquaredErrors([1.0, 1.0], [3.0, 3.0]) == [4.0, 4.0];
    assert Sum([4.0, 4.0]) == 8.0;
    assert MeanSquaredError([1.0, 1.0], [3.0, 3.0]) == Value(4.0);
    var s := sqrt(4.0);
    assert 0.0 <= s && s * s == 4.0;
    SquareMonotone(s, 2.0);
    SquareMonotone(2.0, s);
  }
}
