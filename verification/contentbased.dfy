/**
 * The `BasatEnContinguts` strategy: items are described by their genre text, turned into
 * TF-IDF vectors; the user's profile is the rating-weighted mean of the vectors of the items
 * they rated, and every item with genuine genres is scored by its cosine with the profile,
 * rescaled to the rating range by `pmax`.
 *
 * The TF-IDF vectoriser is foreign code: it is a parameter giving the vocabulary size of a
 * list of documents and the weight of each term in each document, so the matrix it yields
 * always has one row per document and one column per term.
 */
module ContentBased {
  import opened Numeric
  import opened Sorting
  import opened Datasets
  import opened Predictions

  // ---------------------------------------------------------------------------
  // Genre text

  /** The genre text that marks an item as having no genres. */
  const NoGenres: string := "(no genres listed)"

  /**
   * The characters `str.strip()` removes, those for which `str.isspace()` holds: \t \n \v \f \r,
   * \x1c-\x1f, space, U+0085, U+00A0, U+1680, U+2000-U+200A, U+2028, U+2029, U+202F, U+205F
   * and U+3000.
   */
  predicate IsSpace(ch: char)
  {
    var c := ch as int;
    || (0x09 <= c <= 0x0D) || (0x1C <= c <= 0x20)
    || c == 0x85 || c == 0xA0 || c == 0x1680
    || (0x2000 <= c <= 0x200A) || c == 0x2028 || c == 0x2029 || c == 0x202F || c == 0x205F
    || c == 0x3000
  }

  /** `s` without its leading whitespace. */
  function TrimLeft(s: string): (t: string)
    ensures |t| <= |s| && t == s[|s| - |t|..]
    ensures forall i :: 0 <= i < |s| - |t| ==> IsSpace(s[i])
    ensures |t| > 0 ==> !IsSpace(t[0])
  {
    if |s| > 0 && IsSpace(s[0]) then TrimLeft(s[1..]) else s
  }

  /** `s` without its trailing whitespace. */
  function TrimRight(s: string): (t: string)
    ensures |t| <= |s| && t == s[..|t|]
    ensures forall i :: |t| <= i < |s| ==> IsSpace(s[i])
    ensures |t| > 0 ==> !IsSpace(t[|t| - 1])
  {
    if |s| > 0 && IsSpace(s[|s| - 1]) then TrimRight(s[..|s| - 1]) else s
  }

  /** `str.strip()`: `s` without its leading and trailing whitespace. */
  function Strip(s: string): (t: string)
    ensures |t| > 0 ==> !IsSpace(t[0]) && !IsSpace(t[|t| - 1])
  {
    TrimRight(TrimLeft(s))
  }

  /** What `Strip` removes is whitespace at either end, and what it keeps is one slice of `s`. */
  lemma StripIsSlice(s: string)
    ensures exists i, j ::
      && 0 <= i <= j <= |s| && Strip(s) == s[i..j]
      && (forall k :: 0 <= k < i ==> IsSpace(s[k]))
      && (forall k :: j <= k < |s| ==> IsSpace(s[k]))
  {
    var l := TrimLeft(s);
    var t := TrimRight(l);
    var i := |s| - |l|;
    assert t == s[i..i + |t|];
    assert forall k :: i + |t| <= k < |s| ==> s[k] == l[k - i];
  }

  function LowerChar(ch: char): char
  {
    if 'A' <= ch <= 'Z' then (ch as int - 'A' as int + 'a' as int) as char else ch
  }

  /** `str.lower()` on ASCII letters; every other character is left as it is. */
  function Lower(s: string): (t: string)
    ensures |t| == |s|
    ensures forall i :: 0 <= i < |s| ==> t[i] == LowerChar(s[i])
  {
    seq(|s|, i requires 0 <= i < |s| => LowerChar(s[i]))
  }

  /** An item keeps its place when its stripped, lower-cased genre text is not the "no genres" marker. */
  predicate HasGenres(genre: string)
  {
    Lower(Strip(genre)) != NoGenres
  }

  /** The positions from `i` on that hold `true`, in order. */
  function Positions(keep: seq<bool>, i: nat): (idx: seq<nat>)
    requires i <= |keep|
    ensures forall t :: 0 <= t < |idx| ==> i <= idx[t] < |keep| && keep[idx[t]]
    ensures forall t, l :: 0 <= t < l < |idx| ==> idx[t] < idx[l]
    ensures forall g :: i <= g < |keep| && keep[g] ==> g in idx
    decreases |keep| - i
  {
    if i == |keep| then []
    else if keep[i] then [i] + Positions(keep, i + 1)
    else Positions(keep, i + 1)
  }

  /** For every item, whether its genre text is genuine. */
  function Marks(genres: seq<string>): (keep: seq<bool>)
    ensures |keep| == |genres|
    ensures forall i :: 0 <= i < |genres| ==> keep[i] == HasGenres(genres[i])
  {
    seq(|genres|, i requires 0 <= i < |genres| => HasGenres(genres[i]))
  }

  /** `idx_valids`: the positions whose genre text is genuine, in order. */
  function ValidIndices(genres: seq<string>): (idx: seq<nat>)
    ensures forall t :: 0 <= t < |idx| ==> idx[t] < |genres| && HasGenres(genres[idx[t]])
    ensures forall t, l :: 0 <= t < l < |idx| ==> idx[t] < idx[l]
    ensures forall g :: 0 <= g < |genres| && HasGenres(genres[g]) ==> g in idx
  {
    Positions(Marks(genres), 0)
  }

  /** The entries of `xs` at the positions `idx`, in that order: numpy's `xs[idx]`. */
  function Select<T>(xs: seq<T>, idx: seq<nat>): (ys: seq<T>)
    requires forall t :: 0 <= t < |idx| ==> idx[t] < |xs|
    ensures |ys| == |idx|
    ensures forall t :: 0 <= t < |idx| ==> ys[t] == xs[idx[t]]
  {
    seq(|idx|, t requires 0 <= t < |idx| => xs[idx[t]])
  }

  // ---------------------------------------------------------------------------
  // TF-IDF and the profile

  /** What `TfidfVectorizer.fit_transform` yields for a list of documents. */
  datatype Vectoriser = Vectoriser(
    vocabulary: seq<string> -> nat,           // number of distinct terms kept
    weight: (seq<string>, nat, nat) -> real)  // weight of term `j` in document `i`

  /** The dense TF-IDF matrix: one row per document, one column per vocabulary term. */
  function Matrix(v: Vectoriser, docs: seq<string>): (x: seq<seq<real>>)
    ensures |x| == |docs| && IsMatrix(x, v.vocabulary(docs))
  {
    seq(|docs|, i requires 0 <= i < |docs| =>
      seq(v.vocabulary(docs), j requires 0 <= j < v.vocabulary(docs) => v.weight(docs, i, j)))
  }

  /** `Σ|r|` over the user's ratings. */
  function AbsSum(rs: seq<real>): (s: real)
    ensures 0.0 <= s
  {
    if |rs| == 0 then 0.0 else Abs(rs[0]) + AbsSum(rs[1..])
  }

  /** `Σ r_i·x_i[j]` over the rows the user rated. */
  function WeightedColumn(x: seq<seq<real>>, r: seq<real>, j: nat): real
    requires |x| == |r| && forall i :: 0 <= i < |x| ==> j < |x[i]|
  {
    if |x| == 0 then 0.0
    else (if r[0] != Unrated then r[0] * x[0][j] else 0.0) + WeightedColumn(x[1..], r[1..], j)
  }

  /** `perfil`: the rated rows, each weighted by its rating, summed and divided by `Σ|r|`. */
  function Profile(x: seq<seq<real>>, r: seq<real>, width: nat, denominator: real): (p: seq<real>)
    requires |x| == |r| && IsMatrix(x, width) && denominator != 0.0
    ensures |p| == width
    ensures forall j :: 0 <= j < width ==> p[j] == WeightedColumn(x, r, j) / denominator
  {
    seq(width, j requires 0 <= j < width => WeightedColumn(x, r, j) / denominator)
  }

  /** Some row of `x` has a zero norm. */
  predicate HasNullRow(x: seq<seq<real>>, sqrt: real -> real)
  {
    exists t :: 0 <= t < |x| && sqrt(SumSq(x[t])) == 0.0
  }

  /** `S·pmax` for row `t`: the cosine of the item with the profile, rescaled. */
  function Score(x: seq<seq<real>>, p: seq<real>, t: nat, pmax: real, sqrt: real -> real): real
    requires t < |x| && |x[t]| == |p|
  {
    Cosine(x[t], p, sqrt) * pmax
  }

  // ---------------------------------------------------------------------------
  // The algorithm

  /**
   * `preds` is what step 5 appends: for every row `t`, the id `ids[t]` with the score `S·pmax`
   * of that row against the profile of the ratings `r`, whose `Σ|r|` is not zero.
   */
  ghost predicate ScoresRows(preds: seq<Prediction>, x: seq<seq<real>>, width: nat, r: seq<real>, ids: seq<string>, pmax: real, sqrt: real -> real)
    requires |x| == |r| == |ids| && IsMatrix(x, width)
  {
    && AbsSum(Rated(r)) != 0.0
    && |preds| == |ids|
    && var p := Profile(x, r, width, AbsSum(Rated(r)));
    forall t :: 0 <= t < |ids| ==> preds[t] == Scored(ids[t], Score(x, p, t, pmax, sqrt))
  }

  /**
   * Steps 1.4 to 5 of `algoritme`, over the TF-IDF rows `x` of the surviving items, the
   * user's ratings `r` of those items and their ids.
   */
  function Rank(x: seq<seq<real>>, width: nat, r: seq<real>, ids: seq<string>, pmax: real, sqrt: real -> real): (out: Outcome)
    requires |x| == |r| == |ids| && IsMatrix(x, width)
    ensures !out.Declined?
    ensures out.Raised? && out.error == NoRatedValidItem <==> |Rated(r)| == 0
    ensures out.Raised? && out.error == ZeroRatingSum <==> |Rated(r)| > 0 && AbsSum(Rated(r)) == 0.0
    ensures out.Raised? ==> out.error in {NoRatedValidItem, ZeroRatingSum, NullVector}
    ensures out.Raised? && out.error == NullVector <==>
      && AbsSum(Rated(r)) != 0.0
      && var p := Profile(x, r, width, AbsSum(Rated(r)));
      sqrt(SumSq(p)) == 0.0 || HasNullRow(x, sqrt)
    ensures out.Emitted? ==>
      && ScoresRows(out.preds, x, width, r, ids, pmax, sqrt)
      && var p := Profile(x, r, width, AbsSum(Rated(r)));
      sqrt(SumSq(p)) != 0.0 && !HasNullRow(x, sqrt)
  {
    if |Rated(r)| == 0 then
      AbsSumEmpty(Rated(r));
      Raised(NoRatedValidItem)
    else
      var denominator := AbsSum(Rated(r));
      if denominator == 0.0 then Raised(ZeroRatingSum)
      else
        var p := Profile(x, r, width, denominator);
        if sqrt(SumSq(p)) == 0.0 || HasNullRow(x, sqrt) then Raised(NullVector)
        else Emitted(seq(|ids|, t requires 0 <= t < |ids| => Scored(ids[t], Score(x, p, t, pmax, sqrt))))
  }

  /**
   * `BasatEnContinguts.algoritme`. It returns False only when the items have no genres
   * (`get_genres` raises). It raises when no item has genuine genres, when the vectoriser
   * finds no term in their genre texts, and otherwise exactly when `Rank` raises on the TF-IDF
   * rows and the ratings of those items (`AlgoritmeRanks`). When it emits, every item with
   * genuine genres gets a prediction under its id, in column order.
   */
  function Algoritme(ds: Dataset, row: seq<real>, v: Vectoriser, sqrt: real -> real): (out: Outcome)
    requires ds.Valid() && |row| == |ds.itemIds|
    ensures out.Declined? <==> ds.genres.None?
    ensures out.Raised? && out.error == NoValidGenres <==>
      ds.genres.Some? && forall i :: 0 <= i < |ds.itemIds| ==> !HasGenres(ds.genres.value[i])
    ensures out.Raised? && out.error == NoRatedValidItem ==>
      ds.genres.Some? && forall i :: 0 <= i < |ds.itemIds| && HasGenres(ds.genres.value[i]) ==> row[i] == Unrated
    ensures out.Emitted? ==>
      && ds.genres.Some?
      && var idx := ValidIndices(ds.genres.value);
      && |out.preds| == |idx|
      && (forall t :: 0 <= t < |idx| ==> out.preds[t].key == ds.itemIds[idx[t]])
      && (forall i :: 0 <= i < |ds.itemIds| && HasGenres(ds.genres.value[i]) ==> ds.itemIds[i] in Keys(out.preds))
      && (exists i :: 0 <= i < |ds.itemIds| && HasGenres(ds.genres.value[i]) && row[i] != Unrated)
  {
    if ds.genres.None? then Declined
    else
      var keep := Marks(ds.genres.value);
      var out := Run(ds.genres.value, keep, ds.itemIds, row, ds.pmax, v, sqrt);
      RankedKeys(keep, ds.itemIds, out);
      out
  }

  /**
   * `algoritme` once `get_genres` has returned the genre texts `genres`, with `keep`
   * marking the genuine ones: it raises when none is marked or when the vectoriser finds no
   * term in the marked texts, and otherwise does what `Rank` does on them.
   */
  function Run(genres: seq<string>, keep: seq<bool>, itemIds: seq<string>, row: seq<real>, pmax: real, v: Vectoriser, sqrt: real -> real): (out: Outcome)
    requires |genres| == |keep| == |itemIds| == |row|
    ensures !out.Declined?
    ensures out.Raised? && out.error == NoValidGenres <==> forall i :: 0 <= i < |keep| ==> !keep[i]
    ensures out.Raised? && out.error == NoRatedValidItem ==>
      forall i :: 0 <= i < |keep| && keep[i] ==> row[i] == Unrated
    ensures out.Emitted? ==>
      var idx := Positions(keep, 0);
      && |out.preds| == |idx|
      && (forall t :: 0 <= t < |idx| ==> out.preds[t].key == itemIds[idx[t]])
      && (exists i :: 0 <= i < |keep| && keep[i] && row[i] != Unrated)
  {
    var idx := Positions(keep, 0);
    NoPositions(keep);
    if |idx| == 0 then Raised(NoValidGenres)
    else
      var docs := Select(genres, idx);
      var width := v.vocabulary(docs);
      if width == 0 then Raised(EmptyVocabulary)
      else
        var r := Select(row, idx);
        var out := Rank(Matrix(v, docs), width, r, Select(itemIds, idx), pmax, sqrt);
        RatedSelection(row, idx);
        out
  }

  /**
   * What `algoritme` does past step 1.3 with the items at positions `idx`: it raises for an
   * empty vocabulary exactly when the vectoriser finds no term in their genre texts, and
   * otherwise it is `Rank` on their TF-IDF rows, the user's ratings of them and their ids,
   * so that it raises "no rated item" exactly when the user rated none of them and, when it
   * emits, scores each of them `S·pmax` against the profile.
   */
  ghost predicate RanksSelection(out: Outcome, genres: seq<string>, itemIds: seq<string>, row: seq<real>, idx: seq<nat>, pmax: real, v: Vectoriser, sqrt: real -> real)
    requires |genres| == |itemIds| == |row|
    requires forall t :: 0 <= t < |idx| ==> idx[t] < |genres|
  {
    var docs := Select(genres, idx);
    && (out.Raised? && out.error == EmptyVocabulary <==> v.vocabulary(docs) == 0)
    && (v.vocabulary(docs) > 0 ==>
        && out == Rank(Matrix(v, docs), v.vocabulary(docs), Select(row, idx), Select(itemIds, idx), pmax, sqrt)
        && (out.Raised? && out.error == NoRatedValidItem <==> forall t :: 0 <= t < |idx| ==> row[idx[t]] == Unrated)
        && (out.Emitted? ==> ScoresRows(out.preds, Matrix(v, docs), v.vocabulary(docs), Select(row, idx), Select(itemIds, idx), pmax, sqrt)))
  }

  /** Once some text is marked, `Run` does what `RanksSelection` says on the marked positions. */
  lemma RunRanks(genres: seq<string>, keep: seq<bool>, itemIds: seq<string>, row: seq<real>, pmax: real, v: Vectoriser, sqrt: real -> real)
    requires |genres| == |keep| == |itemIds| == |row|
    requires |Positions(keep, 0)| > 0
    ensures RanksSelection(Run(genres, keep, itemIds, row, pmax, v, sqrt), genres, itemIds, row, Positions(keep, 0), pmax, v, sqrt)
  {
    RatedSelection(row, Positions(keep, 0));
  }

  /**
   * Over items with genres of which some are genuine, `algoritme` does what `RanksSelection`
   * says on the items with genuine genres.
   */
  lemma AlgoritmeRanks(ds: Dataset, row: seq<real>, v: Vectoriser, sqrt: real -> real)
    requires ds.Valid() && |row| == |ds.itemIds| && ds.genres.Some? && |ValidIndices(ds.genres.value)| > 0
    ensures RanksSelection(Algoritme(ds, row, v, sqrt), ds.genres.value, ds.itemIds, row, ValidIndices(ds.genres.value), ds.pmax, v, sqrt)
  {
    var g := ds.genres.value;
    var keep := Marks(g);
    assert ValidIndices(g) == Positions(keep, 0);
    assert Algoritme(ds, row, v, sqrt) == Run(g, keep, ds.itemIds, row, ds.pmax, v, sqrt);
    RunRanks(g, keep, ds.itemIds, row, ds.pmax, v, sqrt);
  }

  // ---------------------------------------------------------------------------
  // Lemmas

  /** No position survives exactly when none is marked. */
  lemma NoPositions(keep: seq<bool>)
    ensures |Positions(keep, 0)| == 0 <==> forall i :: 0 <= i < |keep| ==> !keep[i]
  {
    var idx := Positions(keep, 0);
    if |idx| > 0 {
      assert keep[idx[0]];
    }
    forall i | 0 <= i < |keep| && keep[i]
      ensures |idx| > 0
    {
      assert i in idx;
    }
  }

  lemma {:induction false} AbsSumEmpty(rs: seq<real>)
    requires |rs| == 0
    ensures AbsSum(rs) == 0.0
  {
  }

  /** Every marked item gets a prediction, under its own id. */
  lemma RankedKeys(keep: seq<bool>, itemIds: seq<string>, out: Outcome)
    requires |keep| == |itemIds|
    requires out.Emitted? ==>
      var idx := Positions(keep, 0);
      |out.preds| == |idx| && forall t :: 0 <= t < |idx| ==> out.preds[t].key == itemIds[idx[t]]
    ensures out.Emitted? ==> forall i :: 0 <= i < |itemIds| && keep[i] ==> itemIds[i] in Keys(out.preds)
  {
    if out.Emitted? {
      var idx := Positions(keep, 0);
      forall i | 0 <= i < |itemIds| && keep[i]
        ensures itemIds[i] in Keys(out.preds)
      {
        var t :| 0 <= t < |idx| && idx[t] == i;
        assert Keys(out.preds)[t] == itemIds[i];
      }
    }
  }

  /** The user rated a selected item exactly when the selected ratings are not all `-1`. */
  lemma RatedSelection(row: seq<real>, idx: seq<nat>)
    requires forall t :: 0 <= t < |idx| ==> idx[t] < |row|
    ensures |Rated(Select(row, idx))| == 0 <==> forall t :: 0 <= t < |idx| ==> row[idx[t]] == Unrated
  {
    var r := Select(row, idx);
    assert forall t :: 0 <= t < |idx| ==> r[t] == row[idx[t]];
  }

  /** Under a true square root, every score lies within `pmax` of zero. */
  lemma ScoreBounded(x: seq<seq<real>>, p: seq<real>, t: nat, pmax: real, sqrt: real -> real)
    requires IsSqrt(sqrt) && t < |x| && |x[t]| == |p|
    ensures Abs(Score(x, p, t, pmax, sqrt)) <= Abs(pmax)
  {
    var c := Cosine(x[t], p, sqrt);
    CosineBounded(x[t], p, sqrt);
    AbsProduct(c, pmax);
    ProductNonNegative(1.0 - Abs(c), Abs(pmax));
    assert (1.0 - Abs(c)) * Abs(pmax) == Abs(pmax) - Abs(c) * Abs(pmax);
  }

  /** Only row `t0` is rated, so the weighted column sum is that row's weighted entry. */
  lemma {:induction false} WeightedColumnSingle(x: seq<seq<real>>, r: seq<real>, j: nat, t0: nat)
    requires |x| == |r| && forall i :: 0 <= i < |x| ==> j < |x[i]|
    requires t0 < |r| && r[t0] != Unrated
    requires forall i :: 0 <= i < |r| && i != t0 ==> r[i] == Unrated
    ensures WeightedColumn(x, r, j) == r[t0] * x[t0][j]
  {
    if t0 == 0 {
      WeightedColumnUnrated(x[1..], r[1..], j);
    } else {
      WeightedColumnSingle(x[1..], r[1..], j, t0 - 1);
    }
  }

  /** Only entry `t0` is rated, so it is all that `Rated` keeps. */
  lemma {:induction false} RatedSingle(r: seq<real>, t0: nat)
    requires t0 < |r| && r[t0] != Unrated
    requires forall i :: 0 <= i < |r| && i != t0 ==> r[i] == Unrated
    ensures Rated(r) == [r[t0]]
  {
    if t0 == 0 {
      assert forall i :: 0 <= i < |r[1..]| ==> r[1..][i] == Unrated;
    } else {
      RatedSingle(r[1..], t0 - 1);
    }
  }

  /** With nothing rated, the weighted column sum is 0 and nothing is kept. */
  lemma {:induction false} WeightedColumnUnrated(x: seq<seq<real>>, r: seq<real>, j: nat)
    requires |x| == |r| && forall i :: 0 <= i < |x| ==> j < |x[i]|
    requires forall i :: 0 <= i < |r| ==> r[i] == Unrated
    ensures WeightedColumn(x, r, j) == 0.0
  {
    if |x| > 0 {
      WeightedColumnUnrated(x[1..], r[1..], j);
    }
  }

  /** A user who rated exactly one surviving item, positively, has that item's vector as profile. */
  lemma SoleRatingProfile(x: seq<seq<real>>, width: nat, r: seq<real>, t0: nat)
    requires |x| == |r| && IsMatrix(x, width)
    requires t0 < |r| && 0.0 < r[t0]
    requires forall i :: 0 <= i < |r| && i != t0 ==> r[i] == Unrated
    ensures AbsSum(Rated(r)) == r[t0]
    ensures Profile(x, r, width, r[t0]) == x[t0]
  {
    RatedSingle(r, t0);
    assert AbsSum([r[t0]]) == r[t0];
    var p := Profile(x, r, width, r[t0]);
    forall j | 0 <= j < width
      ensures p[j] == x[t0][j]
    {
      SoleRatingColumn(x, width, r, t0, j);
    }
  }

  /** One entry of that profile. */
  lemma SoleRatingColumn(x: seq<seq<real>>, width: nat, r: seq<real>, t0: nat, j: nat)
    requires |x| == |r| && IsMatrix(x, width) && j < width
    requires t0 < |r| && 0.0 < r[t0]
    requires forall i :: 0 <= i < |r| && i != t0 ==> r[i] == Unrated
    ensures Profile(x, r, width, r[t0])[j] == x[t0][j]
  {
    WeightedColumnSingle(x, r, j, t0);
    CancelFactor(r[t0], x[t0][j], WeightedColumn(x, r, j));
  }

  /**
   * Under a true square root, the one item such a user rated scores exactly `pmax`: it is
   * perfectly similar to the profile.
   */
  lemma SoleRatingScoresPmax(x: seq<seq<real>>, width: nat, r: seq<real>, t0: nat, pmax: real, sqrt: real -> real)
    requires |x| == |r| && IsMatrix(x, width)
    requires t0 < |r| && 0.0 < r[t0]
    requires forall i :: 0 <= i < |r| && i != t0 ==> r[i] == Unrated
    requires IsSqrt(sqrt) && SumSq(x[t0]) != 0.0
    ensures AbsSum(Rated(r)) == r[t0]
    ensures Score(x, Profile(x, r, width, AbsSum(Rated(r))), t0, pmax, sqrt) == pmax
  {
    SoleRatingProfile(x, width, r, t0);
    CosineWithSelf(x[t0], sqrt);
  }

  /** Leading whitespace in front of text that starts with a non-space is exactly what `TrimLeft` drops. */
  lemma {:induction false} TrimLeftPadding(pad: string, s: string)
    requires forall k :: 0 <= k < |pad| ==> IsSpace(pad[k])
    requires |s| > 0 && !IsSpace(s[0])
    ensures TrimLeft(pad + s) == s
  {
    if |pad| > 0 {
      assert (pad + s)[1..] == pad[1..] + s;
      TrimLeftPadding(pad[1..], s);
    } else {
      assert pad + s == s;
    }
  }

  /** Trailing whitespace after text that ends with a non-space is exactly what `TrimRight` drops. */
  lemma {:induction false} TrimRightPadding(s: string, pad: string)
    requires forall k :: 0 <= k < |pad| ==> IsSpace(pad[k])
    requires |s| > 0 && !IsSpace(s[|s| - 1])
    ensures TrimRight(s + pad) == s
  {
    if |pad| > 0 {
      assert (s + pad)[..|s + pad| - 1] == s + pad[..|pad| - 1];
      TrimRightPadding(s, pad[..|pad| - 1]);
    } else {
      assert s + pad == s;
    }
  }

  /** `Strip` removes exactly the whitespace padding around text with non-space ends. */
  lemma StripPadding(before: string, s: string, after: string)
    requires forall k :: 0 <= k < |before| ==> IsSpace(before[k])
    requires forall k :: 0 <= k < |after| ==> IsSpace(after[k])
    requires |s| > 0 && !IsSpace(s[0]) && !IsSpace(s[|s| - 1])
    ensures Strip(before + s + after) == s
  {
    assert before + s + after == before + (s + after);
    TrimLeftPadding(before, s + after);
    TrimRightPadding(s, after);
  }

  /** A genre text that differs from the marker only in case and surrounding whitespace is not genuine. */
  lemma MarkerIgnoresCaseAndSpace(before: string, s: string, after: string)
    requires forall k :: 0 <= k < |before| ==> IsSpace(before[k])
    requires forall k :: 0 <= k < |after| ==> IsSpace(after[k])
    requires Lower(s) == NoGenres
    ensures !HasGenres(before + s + after)
  {
    assert s[0] == '(' by {
      assert LowerChar(s[0]) == NoGenres[0];
    }
    assert s[|s| - 1] == ')' by {
      assert LowerChar(s[|s| - 1]) == NoGenres[|NoGenres| - 1];
    }
    StripPadding(before, s, after);
  }

  /** Genre text that, once stripped, does not open with `(` (a genre name such as `Comedy|Drama`) survives the filter. */
  lemma GenreTextSurvives(genre: string)
    requires |Strip(genre)| > 0 && Strip(genre)[0] != '('
    ensures HasGenres(genre)
  {
    assert Lower(Strip(genre))[0] != NoGenres[0];
  }
}
