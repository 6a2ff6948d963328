/**
 * What a recommendation strategy hands back to the engine: the `(item_id, score)` pairs it
 * appended to `llista_prediccions` and returned `True`, a `False` return, or an exception.
 */
module Predictions {
  import opened Sorting

  /** An `(item_id, score)` tuple. */
  type Prediction = Scored<string>

  /** The exceptions the strategies let escape, by cause. */
  datatype Error =
    | ZeroDivision       // Simple: `num_vots + min_vots == 0` in the shrinkage weights
    | NoNeighbourArrays  // Colaboratiu: `np.column_stack` over an empty neighbour list
    | NoValidGenres      // BasatEnContinguts: every genre text is "(no genres listed)"
    | EmptyVocabulary    // BasatEnContinguts: the TF-IDF vectoriser found no term
    | NoRatedValidItem   // BasatEnContinguts: the user rated none of the surviving items
    | ZeroRatingSum      // BasatEnContinguts: the user's ratings of those items sum to 0 in absolute value
    | NullVector         // BasatEnContinguts: the profile or some item vector has norm 0

  datatype Outcome =
    | Emitted(preds: seq<Prediction>)  // `algoritme` returned True
    | Declined                         // `algoritme` returned False
    | Raised(error: Error)             // `algoritme` raised
}
