/**
 * `Recomenador`: the engine shared by the three strategies. It keeps three per-user caches
 * (recommendations, retained predictions, evaluators), runs the strategy's `algoritme` for a
 * user, splits the scored items by whether the user has rated them, and evaluates the
 * retained predictions against the user's real ratings.
 *
 * The engine is an immutable record: every call returns the engine as it is afterwards, or
 * the exception that escaped together with the unchanged engine. The `input()` prompts the
 * strategies open for `min_vots` and `k` become fields of the strategy, and the square root
 * is the parameter `sqrt`.
 */
module Recomenador {
  import opened Numeric
  import opened Sorting
  import opened Datasets
  import opened Predictions
  import Evaluator
  import SimpleStrategy
  import Collaborative
  import ContentBased

  /** The subclass the engine was built as, with the value its prompt would have read. */
  datatype Strategy =
    | Simple(minVots: int)
    | Colaboratiu(k: int)
    | BasatEnContinguts(vectoriser: ContentBased.Vectoriser)

  datatype Engine = Engine(
    ds: Dataset,
    strategy: Strategy,
    recomanacions: map<string, seq<Prediction>>,
    prediccions: map<string, seq<Prediction>>,
    avaluacions: map<string, Evaluator.Avaluador>)

  /** What a call of the engine gives back: a value, or an exception, with the engine as it is afterwards. */
  datatype Call<R> = Returned(engine: Engine, value: R) | Threw(engine: Engine, error: Error)

  /** What `test` returns: the user's evaluator, or the error text. */
  datatype Answer = Evaluation(avaluador: Evaluator.Avaluador) | Message(text: string)

  const ErrorMessage: string := "Error al fer les prediccions."

  /** The number of recommendations `recomenar` keeps by default. */
  const DefaultNumR: int := 5

  /** `Recomenador(dataset)`: every cache empty. */
  function New(ds: Dataset, strategy: Strategy): (e: Engine)
    ensures e.ds == ds && e.strategy == strategy
    ensures CacheInvariant(e)
    ensures forall u :: !Cached(e, u) && u !in e.avaluacions
  {
    Engine(ds, strategy, map[], map[], map[])
  }

  /** `has_user`. */
  predicate HasUser(e: Engine, u: string)
  {
    e.ds.HasUser(u)
  }

  /** The user's recommendations and predictions are both cached, so `recomenar` stops early. */
  predicate Cached(e: Engine, u: string)
  {
    u in e.recomanacions && u in e.prediccions
  }

  /** `ratings[get_row_user(user_id)]`. */
  function UserRow(ds: Dataset, u: string): (row: seq<real>)
    requires ds.Valid() && ds.HasUser(u)
    ensures |row| == |ds.itemIds|
    ensures row == ds.ratings[ds.rowOf[u]]
  {
    ds.ratings[ds.rowOf[u]]
  }

  /** The collaborative strategy needs the user's mean, which is NaN for a user who rated nothing. */
  ghost predicate MeanDefined(e: Engine, u: string)
    requires e.ds.Valid()
  {
    e.strategy.Colaboratiu? && HasUser(e, u) ==> |Rated(UserRow(e.ds, u))| > 0
  }

  /** Every column the item map gives lies inside a row of `width` entries. */
  ghost predicate ColumnsFit(colOf: map<string, nat>, width: nat)
  {
    forall id :: id in colOf ==> colOf[id] < width
  }

  /** Every prediction names an item the dataset knows. */
  ghost predicate Known(colOf: map<string, nat>, ps: seq<Prediction>)
  {
    forall p :: p in ps ==> p.key in colOf
  }

  /** `algoritme` of the engine's strategy for the user's row. */
  function Algoritme(ds: Dataset, s: Strategy, row: seq<real>, sqrt: real -> real): (out: Outcome)
    requires ds.Valid() && |row| == |ds.itemIds|
    requires s.Colaboratiu? ==> |Rated(row)| > 0
    ensures s.Simple? ==> out == SimpleStrategy.Algoritme(ds, s.minVots)
    ensures s.Colaboratiu? ==> out == Collaborative.Algoritme(ds, row, s.k, sqrt)
    ensures s.BasatEnContinguts? ==> out == ContentBased.Algoritme(ds, row, s.vectoriser, sqrt)
  {
    match s
    case Simple(minVots) => SimpleStrategy.Algoritme(ds, minVots)
    case Colaboratiu(k) => Collaborative.Algoritme(ds, row, k, sqrt)
    case BasatEnContinguts(v) => ContentBased.Algoritme(ds, row, v, sqrt)
  }

  // ---------------------------------------------------------------------------
  // Splitting the predictions by the user's row

  /** The user has not rated the prediction's item: `user_row[get_col_item(item_id)] == -1`. */
  predicate Unseen(colOf: map<string, nat>, row: seq<real>, p: Prediction)
  {
    p.key in colOf && colOf[p.key] < |row| && row[colOf[p.key]] == Unrated
  }

  /** The predictions for items the user has not rated, in their original order. */
  function ToRecommend(colOf: map<string, nat>, row: seq<real>, ps: seq<Prediction>): (rs: seq<Prediction>)
    ensures |rs| <= |ps|
    ensures forall i :: 0 <= i < |rs| ==> Unseen(colOf, row, rs[i])
  {
    if |ps| == 0 then []
    else
      var init := ToRecommend(colOf, row, ps[..|ps| - 1]);
      if Unseen(colOf, row, ps[|ps| - 1]) then init + [ps[|ps| - 1]] else init
  }

  /** The predictions for items the user has rated, in their original order. */
  function ToRetain(colOf: map<string, nat>, row: seq<real>, ps: seq<Prediction>): (ks: seq<Prediction>)
    ensures |ks| <= |ps|
    ensures forall i :: 0 <= i < |ks| ==> !Unseen(colOf, row, ks[i])
  {
    if |ps| == 0 then []
    else
      var init := ToRetain(colOf, row, ps[..|ps| - 1]);
      if Unseen(colOf, row, ps[|ps| - 1]) then init else init + [ps[|ps| - 1]]
  }

  /** `list.remove(x)`: drops the first element equal to `x`. */
  function RemoveFirst<T(==)>(xs: seq<T>, x: T): (ys: seq<T>)
    ensures x in xs ==> |ys| == |xs| - 1
    ensures x !in xs ==> ys == xs
  {
    if |xs| == 0 then []
    else if xs[0] == x then xs[1..]
    else [xs[0]] + RemoveFirst(xs[1..], x)
  }

  /**
   * The loop of `recomenar` over a copy of the predictions: each prediction for an unrated
   * item is appended to the recommendations and removed from the predictions with
   * `list.remove`. It leaves exactly the two order-preserving filters.
   */
  method Partition(colOf: map<string, nat>, row: seq<real>, ps: seq<Prediction>) returns (recs: seq<Prediction>, kept: seq<Prediction>)
    requires Known(colOf, ps) && ColumnsFit(colOf, |row|)
    ensures recs == ToRecommend(colOf, row, ps)
    ensures kept == ToRetain(colOf, row, ps)
  {
    recs := [];
    kept := ps;
    var i := 0;
    while i < |ps|
      invariant 0 <= i <= |ps|
      invariant recs == ToRecommend(colOf, row, ps[..i])
      invariant kept == ToRetain(colOf, row, ps[..i]) + ps[i..]
    {
      var p := ps[i];
      PartitionStep(colOf, row, ps, i);
      if row[colOf[p.key]] == Unrated {
        recs := recs + [p];
        kept := RemoveFirst(kept, p);
      }
      i := i + 1;
    }
    assert ps[..i] == ps && ps[i..] == [];
    assert kept == ToRetain(colOf, row, ps) + [];
  }

  /** One turn of the loop of `Partition`: the filters grow by the next prediction, and `list.remove` takes it from where it stands. */
  lemma PartitionStep(colOf: map<string, nat>, row: seq<real>, ps: seq<Prediction>, i: nat)
    requires Known(colOf, ps) && ColumnsFit(colOf, |row|) && i < |ps|
    ensures Unseen(colOf, row, ps[i]) <==> row[colOf[ps[i].key]] == Unrated
    ensures ToRecommend(colOf, row, ps[..i + 1]) == ToRecommend(colOf, row, ps[..i]) + if Unseen(colOf, row, ps[i]) then [ps[i]] else []
    ensures Unseen(colOf, row, ps[i]) ==>
      RemoveFirst(ToRetain(colOf, row, ps[..i]) + ps[i..], ps[i]) == ToRetain(colOf, row, ps[..i + 1]) + ps[i + 1..]
    ensures !Unseen(colOf, row, ps[i]) ==>
      ToRetain(colOf, row, ps[..i]) + ps[i..] == ToRetain(colOf, row, ps[..i + 1]) + ps[i + 1..]
  {
    var p := ps[i];
    assert p in ps;
    assert ps[..i + 1][..i] == ps[..i];
    assert ps[..i + 1][i] == p;
    var retained := ToRetain(colOf, row, ps[..i]);
    assert ps[i..] == [p] + ps[i + 1..];
    if Unseen(colOf, row, p) {
      assert p !in retained;
      RemoveFirstSkips(retained, p, ps[i + 1..]);
    } else {
      assert retained + ([p] + ps[i + 1..]) == (retained + [p]) + ps[i + 1..];
    }
  }

  /** Removing an element that does not occur before position `|a|` removes it there. */
  lemma {:induction false} RemoveFirstSkips<T>(a: seq<T>, x: T, b: seq<T>)
    requires x !in a
    ensures RemoveFirst(a + ([x] + b), x) == a + b
  {
    if |a| > 0 {
      assert (a + ([x] + b))[1..] == a[1..] + ([x] + b);
      RemoveFirstSkips(a[1..], x, b);
      assert a + b == [a[0]] + (a[1..] + b);
    } else {
      assert a + ([x] + b) == [x] + b;
    }
  }

  /** The two filters split the predictions: together they are a permutation of them. */
  lemma {:induction false} SplitIsPermutation(colOf: map<string, nat>, row: seq<real>, ps: seq<Prediction>)
    ensures multiset(ToRecommend(colOf, row, ps)) + multiset(ToRetain(colOf, row, ps)) == multiset(ps)
  {
    if |ps| > 0 {
      var init, x := ps[..|ps| - 1], ps[|ps| - 1];
      SplitIsPermutation(colOf, row, init);
      assert ps == init + [x];
      SplitStep(colOf, row, init, x);
    }
  }

  /** Appending one prediction adds it to exactly one of the two filters. */
  lemma SplitStep(colOf: map<string, nat>, row: seq<real>, init: seq<Prediction>, x: Prediction)
    ensures multiset(ToRecommend(colOf, row, init + [x])) + multiset(ToRetain(colOf, row, init + [x]))
         == multiset(ToRecommend(colOf, row, init)) + multiset(ToRetain(colOf, row, init)) + multiset{x}
  {
    var ps := init + [x];
    assert ps[..|ps| - 1] == init && ps[|ps| - 1] == x;
  }

  /**
   * What `recomenar` stores for a user whose row is `row`, from the predictions `preds`:
   * `recs` holds only unrated items, `kept` only rated ones; both are in non-increasing score
   * order; `kept` is the stable sort of the rated predictions; `recs` is the first `numR` of
   * the stable sort of the unrated ones; and that full sorted list together with `kept` is a
   * permutation of `preds`.
   */
  ghost predicate Splits(colOf: map<string, nat>, row: seq<real>, preds: seq<Prediction>, numR: int, recs: seq<Prediction>, kept: seq<Prediction>)
  {
    && (forall i :: 0 <= i < |recs| ==> Unseen(colOf, row, recs[i]))
    && (forall i :: 0 <= i < |kept| ==> !Unseen(colOf, row, kept[i]))
    && Descending(recs)
    && IsStableDescendingSort(kept, ToRetain(colOf, row, preds))
    && recs == Take(SortDesc(ToRecommend(colOf, row, preds)), numR)
    && multiset(SortDesc(ToRecommend(colOf, row, preds))) + multiset(kept) == multiset(preds)
  }

  /** The stored lists are a split of the predictions. */
  lemma SortedSplit(colOf: map<string, nat>, row: seq<real>, preds: seq<Prediction>, numR: int)
    ensures Splits(colOf, row, preds, numR, Take(SortDesc(ToRecommend(colOf, row, preds)), numR), SortDesc(ToRetain(colOf, row, preds)))
  {
    var unseen := ToRecommend(colOf, row, preds);
    var sorted := SortDesc(unseen);
    var recs := Take(sorted, numR);
    SplitIsPermutation(colOf, row, preds);
    forall i | 0 <= i < |recs|
      ensures Unseen(colOf, row, recs[i])
    {
      assert recs[i] == sorted[i];
      assert sorted[i] in unseen;
    }
  }

  // ---------------------------------------------------------------------------
  // recomenar

  /**
   * What a successful `recomenar` for `u` leaves: the caches of `u` hold a split of `preds`,
   * and nothing else changed.
   */
  ghost predicate Stores(e: Engine, e': Engine, u: string, row: seq<real>, preds: seq<Prediction>, numR: int)
  {
    && e'.ds == e.ds && e'.strategy == e.strategy && e'.avaluacions == e.avaluacions
    && Cached(e', u)
    && e'.recomanacions == e.recomanacions[u := e'.recomanacions[u]]
    && e'.prediccions == e.prediccions[u := e'.prediccions[u]]
    && Splits(e.ds.colOf, row, preds, numR, e'.recomanacions[u], e'.prediccions[u])
  }

  /**
   * `recomenar(user_id, num_r)`. An unknown user gives False; a user with both lists cached
   * gives True at once; otherwise the strategy runs, and its False or exception passes
   * through, while its predictions are split and stored.
   */
  function Recomenar(e: Engine, u: string, numR: int, sqrt: real -> real): (c: Call<bool>)
    requires e.ds.Valid() && MeanDefined(e, u)
    ensures !HasUser(e, u) ==> c == Returned(e, false)
    ensures HasUser(e, u) && Cached(e, u) ==> c == Returned(e, true)
    ensures c.Threw? || !c.value ==> c.engine == e
    ensures c.Returned? && c.value ==> Cached(c.engine, u)
    ensures HasUser(e, u) && !Cached(e, u) ==>
      var row := UserRow(e.ds, u);
      var out := Algoritme(e.ds, e.strategy, row, sqrt);
      && (out.Declined? <==> c == Returned(e, false))
      && (out.Raised? <==> c.Threw?)
      && (c.Threw? ==> c.error == out.error)
      && (out.Emitted? ==> c.Returned? && c.value && Stores(e, c.engine, u, row, out.preds, numR))
  {
    if !HasUser(e, u) then Returned(e, false)
    else if Cached(e, u) then Returned(e, true)
    else
      var row := UserRow(e.ds, u);
      match Algoritme(e.ds, e.strategy, row, sqrt)
      case Declined => Returned(e, false)
      case Raised(err) => Threw(e, err)
      case Emitted(preds) =>
        var recs := Take(SortDesc(ToRecommend(e.ds.colOf, row, preds)), numR);
        var kept := SortDesc(ToRetain(e.ds.colOf, row, preds));
        SortedSplit(e.ds.colOf, row, preds, numR);
        Returned(e.(recomanacions := e.recomanacions[u := recs], prediccions := e.prediccions[u := kept]), true)
  }

  // ---------------------------------------------------------------------------
  // test

  /** The retained predictions the user has a real rating for, as `(predicted, real)` columns. */
  function Paired(colOf: map<string, nat>, row: seq<real>, ps: seq<Prediction>): (pr: (seq<real>, seq<real>))
    requires ColumnsFit(colOf, |row|)
    ensures |pr.0| == |pr.1| <= |ps|
    ensures forall i :: 0 <= i < |pr.1| ==> pr.1[i] != Unrated
  {
    if |ps| == 0 then ([], [])
    else
      var init := Paired(colOf, row, ps[..|ps| - 1]);
      var p := ps[|ps| - 1];
      if p.key in colOf && row[colOf[p.key]] != Unrated then
        (init.0 + [p.score], init.1 + [row[colOf[p.key]]])
      else
        init
  }

  /** The evaluator `test` builds: MAE, then RMSE, of the paired values. */
  function Evaluate(p: seq<real>, r: seq<real>, sqrt: real -> real): (a: Evaluator.Avaluador)
    requires |p| == |r|
    ensures a.mae == Evaluator.Mae(Evaluator.New(), p, r).1
    ensures a.rmse == Evaluator.Rmse(Evaluator.New(), p, r, sqrt).1
  {
    var a := Evaluator.Mae(Evaluator.New(), p, r).0;
    Evaluator.Rmse(a, p, r, sqrt).0
  }

  /**
   * `test(user_id)`: the user's cached evaluator; otherwise `recomenar` with the default
   * count, then an evaluator over the retained predictions the user has rated, which is
   * cached. When `recomenar` gives False, the error text, and nothing is cached.
   */
  function Test(e: Engine, u: string, sqrt: real -> real): (c: Call<Answer>)
    requires e.ds.Valid() && MeanDefined(e, u)
    ensures u in e.avaluacions ==> c == Returned(e, Evaluation(e.avaluacions[u]))
    ensures u !in e.avaluacions ==>
      var step := Recomenar(e, u, DefaultNumR, sqrt);
      && (step.Threw? ==> c == Threw(e, step.error))
      && (step.Returned? && !step.value ==> c == Returned(e, Message(ErrorMessage)))
      && (step.Returned? && step.value ==>
            && HasUser(e, u) && u in step.engine.prediccions
            && var pr := Paired(e.ds.colOf, UserRow(e.ds, u), step.engine.prediccions[u]);
            && c.Returned? && c.value.Evaluation?
            && c.engine == step.engine.(avaluacions := step.engine.avaluacions[u := c.value.avaluador])
            && c.value.avaluador.mae == Evaluator.Mae(Evaluator.New(), pr.0, pr.1).1
            && c.value.avaluador.rmse == Evaluator.Rmse(Evaluator.New(), pr.0, pr.1, sqrt).1)
    ensures c.Returned? && c.value.Evaluation? ==> c.engine.avaluacions[u] == c.value.avaluador
    ensures c.Threw? || c.value.Message? ==> c.engine == e
  {
    if u in e.avaluacions then Returned(e, Evaluation(e.avaluacions[u]))
    else
      match Recomenar(e, u, DefaultNumR, sqrt)
      case Threw(e1, err) => Threw(e1, err)
      case Returned(e1, ok) =>
        if !ok then Returned(e1, Message(ErrorMessage))
        else
          assert ColumnsFit(e.ds.colOf, |UserRow(e.ds, u)|);
          var pr := Paired(e.ds.colOf, UserRow(e.ds, u), e1.prediccions[u]);
          var a := Evaluate(pr.0, pr.1, sqrt);
          Returned(e1.(avaluacions := e1.avaluacions[u := a]), Evaluation(a))
  }

  // ---------------------------------------------------------------------------
  // Lemmas

  /** Every prediction a strategy emits names one of the dataset's items. */
  lemma EmittedKeysKnown(ds: Dataset, s: Strategy, row: seq<real>, sqrt: real -> real)
    requires ds.Valid() && |row| == |ds.itemIds|
    requires s.Colaboratiu? ==> |Rated(row)| > 0
    requires Algoritme(ds, s, row, sqrt).Emitted?
    ensures Known(ds.colOf, Algoritme(ds, s, row, sqrt).preds)
  {
    match s
    case Simple(minVots) => SimpleKeysKnown(ds, minVots);
    case Colaboratiu(k) => CollaborativeKeysKnown(ds, row, k, sqrt);
    case BasatEnContinguts(v) => ContentKeysKnown(ds, row, v, sqrt);
  }

  lemma SimpleKeysKnown(ds: Dataset, minVots: int)
    requires ds.Valid()
    requires SimpleStrategy.Algoritme(ds, minVots).Emitted?
    ensures Known(ds.colOf, SimpleStrategy.Algoritme(ds, minVots).preds)
  {
    var out := SimpleStrategy.Algoritme(ds, minVots);
    ColumnKeysKnown(ds, out.preds, SimpleStrategy.Eligible(ds.ratings, minVots, 0, |ds.itemIds|));
  }

  lemma CollaborativeKeysKnown(ds: Dataset, row: seq<real>, k: int, sqrt: real -> real)
    requires ds.Valid() && |row| == |ds.itemIds| && |Rated(row)| > 0
    requires Collaborative.Algoritme(ds, row, k, sqrt).Emitted?
    ensures Known(ds.colOf, Collaborative.Algoritme(ds, row, k, sqrt).preds)
  {
    var out := Collaborative.Algoritme(ds, row, k, sqrt);
    ColumnKeysKnown(ds, out.preds, seq(|out.preds|, t => t));
  }

  lemma ContentKeysKnown(ds: Dataset, row: seq<real>, v: ContentBased.Vectoriser, sqrt: real -> real)
    requires ds.Valid() && |row| == |ds.itemIds|
    requires ContentBased.Algoritme(ds, row, v, sqrt).Emitted?
    ensures Known(ds.colOf, ContentBased.Algoritme(ds, row, v, sqrt).preds)
  {
    var out := ContentBased.Algoritme(ds, row, v, sqrt);
    ColumnKeysKnown(ds, out.preds, ContentBased.ValidIndices(ds.genres.value));
  }

  /** Predictions that each name the item of some column are known to the dataset. */
  lemma ColumnKeysKnown(ds: Dataset, ps: seq<Prediction>, cols: seq<nat>)
    requires ds.Valid() && |cols| == |ps|
    requires forall t :: 0 <= t < |cols| ==> cols[t] < |ds.itemIds| && ps[t].key == ds.itemIds[cols[t]]
    ensures Known(ds.colOf, ps)
  {
    forall p | p in ps
      ensures p.key in ds.colOf
    {
      var j :| 0 <= j < |ps| && ps[j] == p;
      assert p.key == ds.itemIds[cols[j]];
    }
  }

  /** `has_user` holds exactly for the ids of the dataset's rows. */
  lemma HasUserIsRowId(e: Engine, u: string)
    requires e.ds.Valid()
    ensures HasUser(e, u) <==> exists i :: 0 <= i < |e.ds.userIds| && e.ds.userIds[i] == u
  {
    if HasUser(e, u) {
      assert e.ds.userIds[e.ds.rowOf[u]] == u;
    }
  }

  /**
   * The engine's caches stay consistent: both lists are cached for the same users, only
   * users with a cached prediction list have an evaluator, only dataset users are cached,
   * and every cached list is in non-increasing score order.
   */
  ghost predicate CacheInvariant(e: Engine)
  {
    && e.recomanacions.Keys == e.prediccions.Keys
    && e.avaluacions.Keys <= e.prediccions.Keys
    && (forall u :: u in e.prediccions ==> e.ds.HasUser(u))
    && (forall u :: u in e.prediccions ==> Descending(e.prediccions[u]))
    && (forall u :: u in e.recomanacions ==> Descending(e.recomanacions[u]))
  }

  /** `recomenar` keeps the caches consistent. */
  lemma RecomenarPreservesInvariant(e: Engine, u: string, numR: int, sqrt: real -> real)
    requires e.ds.Valid() && MeanDefined(e, u) && CacheInvariant(e)
    ensures CacheInvariant(Recomenar(e, u, numR, sqrt).engine)
  {
    var c := Recomenar(e, u, numR, sqrt);
    if c.engine != e {
      var row := UserRow(e.ds, u);
      StoresPreservesInvariant(e, c.engine, u, row, Algoritme(e.ds, e.strategy, row, sqrt).preds, numR);
    }
  }

  /** Storing a split for a dataset user keeps the caches consistent. */
  lemma StoresPreservesInvariant(e: Engine, e': Engine, u: string, row: seq<real>, preds: seq<Prediction>, numR: int)
    requires CacheInvariant(e) && e.ds.HasUser(u)
    requires Stores(e, e', u, row, preds, numR)
    ensures CacheInvariant(e')
  {
    assert Descending(e'.prediccions[u]) && Descending(e'.recomanacions[u]);
    assert e'.recomanacions.Keys == e.recomanacions.Keys + {u};
    assert e'.prediccions.Keys == e.prediccions.Keys + {u};
  }

  /** `test` keeps the caches consistent. */
  lemma TestPreservesInvariant(e: Engine, u: string, sqrt: real -> real)
    requires e.ds.Valid() && MeanDefined(e, u) && CacheInvariant(e)
    ensures CacheInvariant(Test(e, u, sqrt).engine)
  {
    RecomenarPreservesInvariant(e, u, DefaultNumR, sqrt);
  }

  /** A second `recomenar` for a user the first one succeeded for returns True and changes nothing, whatever its count. */
  lemma RecomenarIdempotent(e: Engine, u: string, numR: int, numR': int, sqrt: real -> real, sqrt': real -> real)
    requires e.ds.Valid() && MeanDefined(e, u)
    requires Recomenar(e, u, numR, sqrt) == Returned(Recomenar(e, u, numR, sqrt).engine, true)
    ensures var e' := Recomenar(e, u, numR, sqrt).engine;
      e'.ds == e.ds && MeanDefined(e', u) && Recomenar(e', u, numR', sqrt') == Returned(e', true)
  {
  }

  /** `test` memoises: once it has evaluated a user, a second call returns the same evaluator and changes nothing. */
  lemma TestMemoised(e: Engine, u: string, sqrt: real -> real, sqrt': real -> real)
    requires e.ds.Valid() && MeanDefined(e, u)
    requires Test(e, u, sqrt).Returned? && Test(e, u, sqrt).value.Evaluation?
    ensures var c := Test(e, u, sqrt);
      c.engine.ds == e.ds && MeanDefined(c.engine, u) && Test(c.engine, u, sqrt') == Returned(c.engine, c.value)
  {
  }

  /**
   * After a successful `recomenar`, every retained prediction is paired by `test`: the
   * predicted column is the retained scores in order, the real column the user's ratings
   * of those items.
   */
  lemma {:induction false} PairedRetained(colOf: map<string, nat>, row: seq<real>, ps: seq<Prediction>)
    requires ColumnsFit(colOf, |row|) && Known(colOf, ps)
    requires forall i :: 0 <= i < |ps| ==> !Unseen(colOf, row, ps[i])
    ensures |Paired(colOf, row, ps).0| == |ps|
    ensures forall i :: 0 <= i < |ps| ==>
      Paired(colOf, row, ps).0[i] == ps[i].score && Paired(colOf, row, ps).1[i] == row[colOf[ps[i].key]]
  {
    if |ps| > 0 {
      var init := ps[..|ps| - 1];
      assert forall p :: p in init ==> p in ps;
      PairedRetained(colOf, row, init);
      assert ps[|ps| - 1] in ps;
    }
  }

  /** A fresh engine satisfies the cache invariant for any dataset. */
  lemma NewIsConsistent(ds: Dataset, s: Strategy, u: string)
    ensures CacheInvariant(New(ds, s)) && !Cached(New(ds, s), u)
  {
  }

  /** An unknown user never reaches the strategy: `recomenar` returns False and `test` the error text, caching nothing. */
  lemma UnknownUser(e: Engine, u: string, numR: int, sqrt: real -> real)
    requires e.ds.Valid() && !HasUser(e, u) && u !in e.avaluacions
    ensures Recomenar(e, u, numR, sqrt) == Returned(e, false)
    ensures Test(e, u, sqrt) == Returned(e, Message(ErrorMessage))
  {
  }
}
