/**
 * Exact arithmetic over the ratings: sums, means over rated entries, dot products,
 * and the Cauchy-Schwarz bound that keeps every cosine similarity in [-1, 1].
 *
 * Dafny's `real` is exact, so none of numpy's float16/float64 rounding appears here.
 * A square root cannot be computed exactly, so the operations that need one take it
 * as a parameter `sqrt`; the lemmas that depend on what it means require `IsSqrt(sqrt)`.
 */
module Numeric {

  /** The value a ratings matrix holds where a user has not rated an item. */
  const Unrated: real := -1.0

  function Abs(x: real): (r: real)
    ensures 0.0 <= r
    ensures r == x || r == -x
  {
    if x < 0.0 then -x else x
  }

  function Sum(xs: seq<real>): real
  {
    if |xs| == 0 then 0.0 else xs[0] + Sum(xs[1..])
  }

  /** `np.mean` of a vector, with the `0` the source substitutes when it is empty. */
  function MeanOrZero(xs: seq<real>): real
  {
    if |xs| == 0 then 0.0 else Sum(xs) / (|xs| as real)
  }

  /** The entries that hold a rating, in order: numpy's `v[v != -1]`. */
  function Rated(xs: seq<real>): (ys: seq<real>)
    ensures |ys| <= |xs|
    ensures forall i :: 0 <= i < |ys| ==> ys[i] != Unrated
    ensures |ys| == 0 <==> forall i :: 0 <= i < |xs| ==> xs[i] == Unrated
  {
    if |xs| == 0 then []
    else if xs[0] != Unrated then [xs[0]] + Rated(xs[1..])
    else Rated(xs[1..])
  }

  function Dot(a: seq<real>, b: seq<real>): real
    requires |a| == |b|
  {
    if |a| == 0 then 0.0 else a[0] * b[0] + Dot(a[1..], b[1..])
  }

  /** The squared Euclidean norm. */
  function SumSq(a: seq<real>): real
  {
    Dot(a, a)
  }

  /** What a function must satisfy to stand for `math.sqrt` / `np.sqrt` on the non-negative reals. */
  ghost predicate IsSqrt(sqrt: real -> real)
  {
    forall x: real :: 0.0 <= x ==> 0.0 <= sqrt(x) && sqrt(x) * sqrt(x) == x
  }

  lemma {:induction false} SumAppend(a: seq<real>, b: seq<real>)
    ensures Sum(a + b) == Sum(a) + Sum(b)
  {
    if |a| > 0 {
      assert (a + b)[1..] == a[1..] + b;
      SumAppend(a[1..], b);
    } else {
      assert a + b == b;
    }
  }

  lemma {:induction false} RatedAppend(a: seq<real>, b: seq<real>)
    ensures Rated(a + b) == Rated(a) + Rated(b)
  {
    if |a| > 0 {
      assert (a + b)[1..] == a[1..] + b;
      RatedAppend(a[1..], b);
    } else {
      assert a + b == b;
    }
  }

  lemma {:induction false} SumSqNonNegative(a: seq<real>)
    ensures 0.0 <= SumSq(a)
  {
    if |a| > 0 {
      SumSqNonNegative(a[1..]);
      assert 0.0 <= a[0] * a[0];
    }
  }

  /** The product of two positive reals is positive. */
  lemma ProductPositive(x: real, y: real)
    ensures 0.0 < x && 0.0 < y ==> 0.0 < x * y
  {
  }

  /** The product of two non-negative reals is non-negative. */
  lemma ProductNonNegative(x: real, y: real)
    ensures 0.0 <= x && 0.0 <= y ==> 0.0 <= x * y
  {
  }

  /** The inductive step of Cauchy-Schwarz: the cross term is dominated by the two squares. */
  lemma CrossTerm(x: real, y: real, a: real, b: real, c: real)
    requires 0.0 <= a && 0.0 <= b && c * c <= a * b
    ensures 2.0 * x * y * c <= x * x * b + y * y * a
  {
    ProductPositive(c, c);
    ProductPositive(-c, -c);
    assert (-c) * (-c) == c * c;
    assert 0.0 <= x * x * b && 0.0 <= y * y * a;
    var d := x * x * b + y * y * a - 2.0 * x * y * c;
    var e := y * a - x * c;
    assert a * d == x * x * (a * b) + (y * a) * (y * a) - 2.0 * (y * a) * (x * c);
    assert e * e == (y * a) * (y * a) - 2.0 * (y * a) * (x * c) + (x * c) * (x * c);
    assert x * x * (c * c) <= x * x * (a * b) by {
      assert 0.0 <= x * x;
    }
    assert 0.0 <= e * e;
    ProductPositive(a, -d);
    assert a * (-d) == -(a * d);
  }

  /** Cauchy-Schwarz: the squared dot product never exceeds the product of the squared norms. */
  lemma {:induction false} CauchySchwarz(a: seq<real>, b: seq<real>)
    requires |a| == |b|
    ensures Dot(a, b) * Dot(a, b) <= SumSq(a) * SumSq(b)
  {
    if |a| > 0 {
      var x, y := a[0], b[0];
      var sa, sb, c := SumSq(a[1..]), SumSq(b[1..]), Dot(a[1..], b[1..]);
      CauchySchwarz(a[1..], b[1..]);
      SumSqNonNegative(a[1..]);
      SumSqNonNegative(b[1..]);
      CrossTerm(x, y, sa, sb, c);
      assert Dot(a, b) == x * y + c;
      assert SumSq(a) == x * x + sa;
      assert SumSq(b) == y * y + sb;
      assert (x * y + c) * (x * y + c) == x * x * (y * y) + 2.0 * x * y * c + c * c;
      assert (x * x + sa) * (y * y + sb) == x * x * (y * y) + x * x * sb + y * y * sa + sa * sb;
    }
  }

  /** A quantity whose square is at most `s * s`, for `s > 0`, lies in [-s, s]. */
  lemma SquareBound(c: real, s: real)
    requires 0.0 < s && c * c <= s * s
    ensures -s <= c <= s
  {
    ProductPositive(c - s, c + s);
    ProductPositive(-c - s, s - c);
    assert (c - s) * (c + s) == c * c - s * s;
    assert (-c - s) * (s - c) == c * c - s * s;
  }

  /** A quotient `c / s` with `-s <= c <= s` and `s > 0` lies in [-1, 1]. */
  lemma QuotientBound(c: real, s: real)
    requires 0.0 < s && -s <= c <= s
    ensures -1.0 <= c / s <= 1.0
  {
    var q := c / s;
    assert q * s == c;
    ProductPositive(q - 1.0, s);
    ProductPositive(-1.0 - q, s);
    assert (q - 1.0) * s == q * s - s;
    assert (-1.0 - q) * s == -s - q * s;
  }

  /** `d / s`, or 0 when `s` is 0. */
  function Ratio(d: real, s: real): real
  {
    if s != 0.0 then d / s else 0.0
  }

  /**
   * The cosine of two vectors, `a·b / (|a|·|b|)` with the norms taken by `sqrt`, defined
   * as 0 when the product of the norms is 0.
   */
  function Cosine(a: seq<real>, b: seq<real>, sqrt: real -> real): real
    requires |a| == |b|
  {
    Ratio(Dot(a, b), sqrt(SumSq(a)) * sqrt(SumSq(b)))
  }

  /** Under a true square root, a cosine lies in [-1, 1]: Cauchy-Schwarz divided through by the norms. */
  lemma {:induction false} CosineBounded(a: seq<real>, b: seq<real>, sqrt: real -> real)
    requires IsSqrt(sqrt) && |a| == |b|
    ensures -1.0 <= Cosine(a, b, sqrt) <= 1.0
  {
    SumSqNonNegative(a);
    SumSqNonNegative(b);
    Root(sqrt, SumSq(a));
    Root(sqrt, SumSq(b));
    CosineBoundedByNorms(a, b, sqrt(SumSq(a)), sqrt(SumSq(b)), sqrt);
  }

  /** The same bound, from what the square root gives at the two squared norms only. */
  lemma {:induction false} CosineBoundedByNorms(a: seq<real>, b: seq<real>, na: real, nb: real, sqrt: real -> real)
    requires |a| == |b| && na == sqrt(SumSq(a)) && nb == sqrt(SumSq(b))
    requires 0.0 <= na && na * na == SumSq(a) && 0.0 <= nb && nb * nb == SumSq(b)
    ensures -1.0 <= Cosine(a, b, sqrt) <= 1.0
  {
    CauchySchwarz(a, b);
    RatioBound(Dot(a, b), SumSq(a), SumSq(b), na, nb);
    assert Cosine(a, b, sqrt) == Ratio(Dot(a, b), na * nb);
  }

  /** What `IsSqrt` says about one argument. */
  lemma Root(sqrt: real -> real, x: real)
    requires IsSqrt(sqrt) && 0.0 <= x
    ensures 0.0 <= sqrt(x) && sqrt(x) * sqrt(x) == x
  {
  }

  /** `d / (√x·√y)` lies in [-1, 1] when `d² <= x·y`. */
  lemma RatioBound(d: real, x: real, y: real, na: real, nb: real)
    requires 0.0 <= na && 0.0 <= nb && na * na == x && nb * nb == y
    requires d * d <= x * y
    ensures -1.0 <= Ratio(d, na * nb) <= 1.0
  {
    var s := na * nb;
    if s != 0.0 {
      ProductNonNegative(na, nb);
      assert s * s == (na * na) * (nb * nb);
      SquareBound(d, s);
      QuotientBound(d, s);
    }
  }

  /** Under a true square root, a vector with a non-zero norm has cosine 1 with itself. */
  lemma CosineWithSelf(a: seq<real>, sqrt: real -> real)
    requires IsSqrt(sqrt)
    requires SumSq(a) != 0.0
    ensures Cosine(a, a, sqrt) == 1.0
  {
    SumSqNonNegative(a);
    var den := sqrt(SumSq(a)) * sqrt(SumSq(a));
    assert den == Dot(a, a) != 0.0;
    assert Dot(a, a) / den == 1.0;
  }

  /**
   * Under a true square root, the product of two norms is 0 exactly when one of the
   * squared norms is 0.
   */
  lemma NormProductZero(a: seq<real>, b: seq<real>, sqrt: real -> real)
    requires IsSqrt(sqrt)
    ensures sqrt(SumSq(a)) * sqrt(SumSq(b)) == 0.0 <==> SumSq(a) == 0.0 || SumSq(b) == 0.0
  {
    SumSqNonNegative(a);
    SumSqNonNegative(b);
    var na, nb := sqrt(SumSq(a)), sqrt(SumSq(b));
    ProductZero(na, nb);
    ProductZero(na, na);
    ProductZero(nb, nb);
  }

  /** Under a true square root, the cosine with a zero vector is 0. */
  lemma CosineZeroNorm(a: seq<real>, b: seq<real>, sqrt: real -> real)
    requires IsSqrt(sqrt) && |a| == |b|
    requires SumSq(a) == 0.0 || SumSq(b) == 0.0
    ensures Cosine(a, b, sqrt) == 0.0
  {
    NormProductZero(a, b, sqrt);
  }

  /** The absolute value of a product is the product of the absolute values. */
  lemma AbsProduct(x: real, y: real)
    ensures Abs(x * y) == Abs(x) * Abs(y)
  {
    ProductNonNegative(x, y);
    ProductNonNegative(-x, y);
    ProductNonNegative(x, -y);
    ProductNonNegative(-x, -y);
    assert (-x) * y == -(x * y) && x * (-y) == -(x * y) && (-x) * (-y) == x * y;
  }

  /** Two terms bounded by `bound` times their weights sum to one bounded by `bound` times the total weight. */
  lemma AbsSumBound(x: real, y: real, wx: real, wy: real, bound: real, sum: real, weight: real)
    requires Abs(x) <= bound * wx && Abs(y) <= bound * wy
    requires sum == x + y && weight == wx + wy
    ensures Abs(sum) <= bound * weight
  {
    assert bound * (wx + wy) == bound * wx + bound * wy;
  }

  /** A sum of non-negative terms is non-negative, and it is zero exactly when every term is. */
  lemma {:induction false} SumNonNegative(xs: seq<real>)
    requires forall i :: 0 <= i < |xs| ==> 0.0 <= xs[i]
    ensures 0.0 <= Sum(xs)
    ensures Sum(xs) == 0.0 <==> forall i :: 0 <= i < |xs| ==> xs[i] == 0.0
  {
    if |xs| > 0 {
      var rest := xs[1..];
      assert forall i :: 0 <= i < |rest| ==> rest[i] == xs[i + 1];
      SumNonNegative(rest);
    }
  }

  /**
   * Each `xs[i]` is at most `bound · ws[i]` in absolute value. Stated by recursion so that
   * a proof unfolds it only as far as it needs.
   */
  predicate Dominated(xs: seq<real>, ws: seq<real>, bound: real)
  {
    |xs| == |ws| && (|xs| == 0 || (Abs(xs[0]) <= bound * ws[0] && Dominated(xs[1..], ws[1..], bound)))
  }

  /** The recursive statement follows from the pointwise one. */
  lemma {:induction false} DominatedPointwise(xs: seq<real>, ws: seq<real>, bound: real)
    requires |xs| == |ws|
    requires forall i :: 0 <= i < |xs| ==> Abs(xs[i]) <= bound * ws[i]
    ensures Dominated(xs, ws, bound)
  {
    if |xs| > 0 {
      var xs', ws' := xs[1..], ws[1..];
      assert forall i :: 0 <= i < |xs'| ==> xs'[i] == xs[i + 1] && ws'[i] == ws[i + 1];
      DominatedPointwise(xs', ws', bound);
    }
  }

  /** Terms each bounded by `bound` times a weight sum to at most `bound` times the total weight. */
  lemma {:induction false} SumAbsBound(xs: seq<real>, ws: seq<real>, bound: real)
    requires Dominated(xs, ws, bound)
    ensures Abs(Sum(xs)) <= bound * Sum(ws)
  {
    if |xs| == 0 {
      assert bound * 0.0 == 0.0;
    } else {
      SumAbsBound(xs[1..], ws[1..], bound);
      AbsSumBound(xs[0], Sum(xs[1..]), ws[0], Sum(ws[1..]), bound, Sum(xs), Sum(ws));
    }
  }

  /** Multiplying by a non-zero factor and dividing by it again gives back the original. */
  lemma CancelFactor(a: real, b: real, w: real)
    requires a != 0.0 && w == a * b
    ensures w / a == b
  {
  }

  /** A product of reals is zero exactly when one of the factors is. */
  lemma ProductZero(x: real, y: real)
    ensures x * y == 0.0 <==> x == 0.0 || y == 0.0
  {
    ProductPositive(Abs(x), Abs(y));
    AbsProduct(x, y);
  }

  /** Dividing a quantity bounded by `bound * den` by the positive `den` leaves it bounded by `bound`. */
  lemma QuotientAbsBound(num: real, den: real, bound: real)
    requires 0.0 < den && Abs(num) <= bound * den
    ensures Abs(num / den) <= bound
  {
    var q := num / den;
    assert q * den == num;
    AbsProduct(q, den);
    assert Abs(q) * den == Abs(num);
    ProductPositive(Abs(q) - bound, den);
    assert (Abs(q) - bound) * den == Abs(q) * den - bound * den;
  }
}
