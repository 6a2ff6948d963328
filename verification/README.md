# Recommendation engine — a Dafny model

This project models the core of a small Python recommendation system. A `Recomenador`
engine holds a dataset and a rating matrix, where rows are users, columns are items, and
`-1` marks a missing rating. The engine asks one of three strategies (`Simple`,
`Colaboratiu`, `BasatEnContinguts`) to score items for a user. It then splits the scores
into:

- recommendations: items the user has not rated;
- retained predictions: items the user has rated.

It sorts both lists, caches them per user, and evaluates the retained predictions against
the user's real ratings with an `Avaluador`, which computes MAE and RMSE.

The model also covers the item classes `Movie`, `Book` and `VideoGame`, and the price
cleaner `clean_price`.

Modules, in dependency order:

| module | file | what it holds |
|---|---|---|
| `Wrappers` | wrappers.dfy | `Option` |
| `Numeric` | numeric.dfy | sums, means over rated entries, dot products, Cauchy-Schwarz, cosine; the square root is a parameter |
| `Sorting` | sorting.dfy | `(key, score)` pairs; Python's stable `sorted(..., reverse=True)` and the slice `xs[:n]` |
| `Datasets` | datasets.dfy | the dataset as the engine reads it: ids, id→position maps, ratings, genre texts, `pmax` |
| `Predictions` | predictions.dfy | what a strategy's `algoritme` yields: predictions, `False`, or an exception |
| `SimpleStrategy` | simple.dfy | `Simple.algoritme`: a shrinkage estimate per item with enough votes |
| `Collaborative` | collaborative.dfy | `Colaboratiu.algoritme`: user-user cosine similarity and the `k` nearest neighbours |
| `ContentBased` | contentbased.dfy | `BasatEnContinguts.algoritme`: a TF-IDF profile and cosine scores rescaled by `pmax` |
| `Evaluator` | evaluator.dfy | `Avaluador`: MAE and RMSE |
| `Items` | items.dfy | the item classes, `str`/`repr` of the values they store, `get_genres` |
| `Toolkit` | toolkit.dfy | `clean_price` and the regular expression it searches with |
| `Recomenador` | engine.dfy | the engine: `recomenar`, `test`, and the per-user caches |

How the model represents the program:

- The engine is an immutable record. Each call returns the engine as it is afterwards,
  together with either a value or the exception that escaped.
- The `input()` prompts for `min_vots` and `k` become fields of the strategy.
- The square root (`math.sqrt`, `np.sqrt`, `np.linalg.norm`) is a function parameter
  `sqrt`. The lemmas that depend on its meaning require `IsSqrt(sqrt)`.
- The TF-IDF vectoriser is a parameter: a vocabulary size and a weight per term and
  document.
- Numbers are exact reals.

## Model

| member | source | states |
|---|---|---|
| Recomenador.New | recomenador.py:15-19 | a new engine keeps the dataset and the strategy, caches nothing for any user, and satisfies the cache invariant |
| Recomenador.HasUserIsRowId | recomenador.py:21-22 | `has_user` holds exactly for the ids of the dataset's rows |
| Recomenador.Partition | recomenador.py:47-51 | the loop that appends an unrated item's prediction and `remove`s it from the copy leaves exactly the in-order filter of unrated predictions, and the in-order filter of rated ones |
| Recomenador.PartitionStep | recomenador.py:48-51 | each turn adds the prediction to exactly one filter, and `list.remove` takes it from the position where it stands |
| Recomenador.SplitIsPermutation | recomenador.py:47-51 | the two filters together are a permutation of the predictions |
| Recomenador.SortedSplit | recomenador.py:55-58 | the stored recommendations are unrated, sorted, and the first `num_r` of the stable sort; the stored predictions are rated and are the stable sort of the rest; together they account for every prediction |
| Recomenador.Recomenar | recomenador.py:27-60 | an unknown user gives False and changes nothing; a user with both lists cached gives True at once; a strategy's False or exception passes through unchanged; otherwise the caches of that user hold the sorted split, and nothing else changes |
| Recomenador.RecomenarPreservesInvariant | recomenador.py:27-60 | `recomenar` keeps the caches consistent: both lists are cached for the same users, an evaluator exists only for a user with cached predictions, and every cached list is sorted |
| Recomenador.StoresPreservesInvariant | recomenador.py:57-58 | storing a split for a dataset user keeps the caches consistent |
| Recomenador.RecomenarIdempotent | recomenador.py:32-34 | once `recomenar` has succeeded for a user, a second call returns True and changes nothing, whatever its count |
| Recomenador.EmittedKeysKnown | recomenador.py:49 | every prediction a strategy emits names an item the dataset knows, so `get_col_item` never fails in the loop |
| Recomenador.SimpleKeysKnown | recomenador.py:171 | every `Simple` prediction names a known item |
| Recomenador.CollaborativeKeysKnown | recomenador.py:234 | every `Colaboratiu` prediction names a known item |
| Recomenador.ContentKeysKnown | recomenador.py:294 | every content-based prediction names a known item |
| Recomenador.ColumnKeysKnown | recomenador.py:49 | predictions that each name the item of some column are known to the dataset |
| Recomenador.Paired | recomenador.py:91-99 | the paired columns have equal length, at most one entry per retained prediction, and no real value is `-1` |
| Recomenador.PairedRetained | recomenador.py:91-99 | after a successful `recomenar`, every retained prediction is paired: the predicted column is its score and the real column the user's rating of that item |
| Recomenador.Test | recomenador.py:80-108 | a cached evaluator is returned unchanged; otherwise a successful `recomenar` is followed by an evaluator over the paired columns, which is cached; a False gives the error text and caches nothing |
| Recomenador.TestPreservesInvariant | recomenador.py:80-108 | `test` keeps the caches consistent |
| Recomenador.TestMemoised | recomenador.py:82 | once `test` has evaluated a user, a second call returns the same evaluator and changes nothing |
| Recomenador.NewIsConsistent | recomenador.py:15-19 | a new engine satisfies the cache invariant and has cached nothing for any user |
| Recomenador.UnknownUser | recomenador.py:28-30 | an unknown user never reaches the strategy: `recomenar` gives False and `test` gives the error text, and nothing is cached |
| Recomenador.RemoveFirst | recomenador.py:51 | `list.remove` shortens a list that holds the element by one, and leaves a list that does not hold it unchanged |
| Recomenador.RemoveFirstSkips | recomenador.py:51 | removing an element that does not occur before a position removes it at that position |
| SimpleStrategy.Eligible | recomenador.py:159-162 | the columns kept by the threshold are in range, reach `min_vots`, and are in column order |
| SimpleStrategy.EligibleExactly | recomenador.py:159-162 | a column is kept exactly when it is in range and its vote count reaches `min_vots` |
| SimpleStrategy.ScoreFrom | recomenador.py:159-173 | the loop from a column on never returns False, and raises ZeroDivisionError exactly when some remaining column makes `num_vots + min_vots` zero |
| SimpleStrategy.Algoritme | recomenador.py:147-173 | never False; raises exactly when a column makes `num_vots + min_vots` zero, which needs `min_vots <= 0`; with `min_vots >= 1` it always emits; when it emits, the `j`-th prediction is the shrinkage score of the `j`-th eligible column, under that column's id |
| SimpleStrategy.ScoreFromEmitted | recomenador.py:159-171 | the loop from column 0 emits one shrinkage score per eligible column, in order |
| SimpleStrategy.ScoreFromAt | recomenador.py:159-171 | the `j`-th emitted prediction is the score of the `j`-th eligible column |
| SimpleStrategy.ScoreFromSkips | recomenador.py:161-162 | a column below the threshold changes neither the output nor the eligible columns |
| SimpleStrategy.ScoreFromKeeps | recomenador.py:165-171 | a column at the threshold is scored at the head of the output, and later positions shift by one |
| SimpleStrategy.ScoreFromLength | recomenador.py:159-171 | the loop emits exactly one prediction per eligible column |
| SimpleStrategy.ShrinkageWeightsSumToOne | recomenador.py:168-169 | the two weights `v/(v+m)` and `m/(v+m)` sum to one |
| SimpleStrategy.ShrinkageTowardGlobal | recomenador.py:168-169 | the estimate moves away from the item mean by the fraction `m/(v+m)` of the gap to the global mean |
| SimpleStrategy.ShrinkageBetween | recomenador.py:168-169 | with a non-negative threshold, the estimate lies between the item mean and the global mean |
| SimpleStrategy.UnratedItemsNeverScored | recomenador.py:160-162 | with `min_vots >= 1`, every emitted prediction names a column that some user rated |
| Collaborative.CoRated | recomenador.py:189 | the co-rated supports of the two rows have equal length, and every entry in them is a rating |
| Collaborative.Candidates | recomenador.py:187-202 | the candidates are in row order, their keys are exactly the rows that differ from the user's row, and each is scored by its similarity |
| Collaborative.NoCandidates | recomenador.py:204-205 | there is no candidate exactly when every row equals the user's row |
| Collaborative.Neighbours | recomenador.py:208 | the neighbours are at most `k` candidates, in non-increasing similarity |
| Collaborative.NeighboursAreMostSimilar | recomenador.py:208 | a candidate left out is never more similar than a neighbour kept |
| Collaborative.NeighboursAreOtherRows | recomenador.py:208 | each neighbour is a row that differs from the user's row, scored by its similarity to it |
| Collaborative.NoNeighbours | recomenador.py:208 | with `k > 0` and some candidate, at least one neighbour survives the slice |
| Collaborative.NeighbourRows | recomenador.py:214 | every neighbour indexes a row of the matrix as wide as the user's row |
| Collaborative.Algoritme | recomenador.py:177-236 | False exactly when every row equals the user's row; raises exactly when the slice leaves no neighbour, which needs `k <= 0`; otherwise one prediction per column, each the user's mean plus the neighbours' similarity-weighted deviations |
| Collaborative.Run | recomenador.py:184-236 | the same, over the matrix and the column ids |
| Collaborative.SimilaritySymmetric | recomenador.py:189-200 | similarity does not depend on which row is the user's |
| Collaborative.CoRatedSwap | recomenador.py:189 | swapping the two rows swaps their co-rated supports |
| Collaborative.CoRatedWithSelf | recomenador.py:189 | a row's co-rated support with itself is its rated entries |
| Collaborative.DotSymmetric | recomenador.py:196 | the dot product is symmetric |
| Collaborative.SimilarityBounded | recomenador.py:189-200 | under a true square root, every similarity lies in [-1, 1] |
| Collaborative.SimilarityZeroNorm | recomenador.py:195-198 | under a true square root, the similarity is 0 when either row is all zeros on the co-rated support |
| Collaborative.SimilarityWithSelf | recomenador.py:189-196 | under a true square root, a row whose rated part is non-zero has similarity 1 with itself |
| Collaborative.TermBounded | recomenador.py:225-226 | one neighbour's numerator term is at most `bound` times its denominator weight |
| Collaborative.TermsBounded | recomenador.py:225-226 | every rated neighbour's term is dominated by its weight |
| Collaborative.DeviationsBounded | recomenador.py:225-226 | the numerator is at most `bound` times the denominator in absolute value |
| Collaborative.SimilarityMassNonNegative | recomenador.py:226 | the denominator is never negative |
| Collaborative.SimilarityMassZero | recomenador.py:226-232 | the denominator is zero exactly when every neighbour who rated the item has similarity 0, which is when the prediction falls back to the user's mean |
| Collaborative.PredictionNearUserMean | recomenador.py:229-232 | each prediction lies within `bound` of the user's mean when every rated neighbour deviates from its own mean by at most `bound` there |
| ContentBased.StripIsSlice | recomenador.py:252 | `strip` returns a slice of the text and removes only whitespace, as `str.isspace` defines it, at either end |
| ContentBased.Positions | recomenador.py:252 | the kept positions are in order and are exactly the marked ones |
| ContentBased.ValidIndices | recomenador.py:252 | `idx_valids` holds exactly the positions whose text is not `(no genres listed)` after `strip().lower()`, in order |
| ContentBased.MarkerIgnoresCaseAndSpace | recomenador.py:252 | the marker in any letter case, padded with any whitespace `strip` removes (tabs, newlines, no-break spaces, ideographic spaces, …), is still rejected |
| ContentBased.GenreTextSurvives | recomenador.py:252 | a text whose stripped form does not start with `(` is kept |
| ContentBased.StripPadding | recomenador.py:252 | `strip` removes exactly the whitespace padding around a text whose ends are not whitespace |
| ContentBased.TrimLeftPadding | recomenador.py:252 | stripping the left end removes exactly the leading whitespace |
| ContentBased.TrimRightPadding | recomenador.py:252 | stripping the right end removes exactly the trailing whitespace |
| ContentBased.NoPositions | recomenador.py:253-254 | no position survives exactly when no item has genuine genres |
| ContentBased.Matrix | recomenador.py:261-262 | the TF-IDF matrix has one row per document and one column per vocabulary term |
| ContentBased.Rank | recomenador.py:264-294 | raises "no rated item" exactly when the user rated none of the kept items; ZeroDivisionError exactly when those ratings sum to 0 in absolute value; "null vector" exactly when the profile or some item vector has norm 0; otherwise it emits one prediction per kept item, under its id and in order, whose score is its cosine with the profile times `pmax` |
| ContentBased.Algoritme | recomenador.py:242-296 | False exactly when the items have no genres; raises "no valid genres" exactly when no item has genuine genres; a "no rated item" raise means the user rated none of those items; when it emits, there is one prediction per item with genuine genres, under its id, in column order, and the user rated at least one of them |
| ContentBased.Run | recomenador.py:251-296 | the same, once `get_genres` has returned |
| ContentBased.RunRanks | recomenador.py:256-294 | once some text is genuine: the empty-vocabulary `ValueError` is raised exactly when the vectoriser finds no term in the genuine texts; past that the outcome is `Rank` on their TF-IDF rows, ratings and ids, "no rated item" is raised exactly when the user rated none of them, and every emitted score is the item's cosine with the profile times `pmax` |
| ContentBased.AlgoritmeRanks | recomenador.py:242-296 | the same for `algoritme` over a dataset whose items have genres, some of them genuine, in terms of `idx_valids` |
| ContentBased.RankedKeys | recomenador.py:292-294 | every item with genuine genres receives a prediction under its own id |
| ContentBased.RatedSelection | recomenador.py:265-267 | the user rated a kept item exactly when the kept ratings are not all `-1` |
| ContentBased.ScoreBounded | recomenador.py:286-289 | under a true square root, every score lies within `pmax` of zero |
| ContentBased.SoleRatingProfile | recomenador.py:273-276 | a user who rated exactly one kept item, positively, has that item's vector as profile |
| ContentBased.SoleRatingColumn | recomenador.py:276 | one entry of that profile is the item's own entry |
| ContentBased.SoleRatingScoresPmax | recomenador.py:279-289 | under a true square root, that item scores exactly `pmax` |
| ContentBased.WeightedColumnSingle | recomenador.py:276 | with one rated row, the weighted column sum is that row's weighted entry |
| ContentBased.WeightedColumnUnrated | recomenador.py:276 | with no rated row, the weighted column sum is 0 |
| ContentBased.RatedSingle | recomenador.py:269 | with one rated entry, the rated part is that entry alone |
| Evaluator.Mean | avaluador.py:14 | the mean is undefined (NaN) exactly for an empty input, and otherwise times the length gives the sum |
| Evaluator.Mae | avaluador.py:13-15 | the MAE is stored and returned, with the RMSE untouched; it is undefined exactly for empty inputs, never negative, and 0 exactly when the predictions equal the real values |
| Evaluator.Rmse | avaluador.py:17-19 | the RMSE is stored and returned, with the MAE untouched; it is undefined exactly for empty inputs, and otherwise is the square root of the mean squared error |
| Evaluator.MeanSquaredError | avaluador.py:18 | the mean squared error is undefined exactly for empty inputs |
| Evaluator.RmseZero | avaluador.py:17-19 | under a true square root, the RMSE is never negative, and 0 exactly when the predictions equal the real values |
| Evaluator.MeanSquaredErrorZero | avaluador.py:18 | the mean squared error is never negative, and 0 exactly when the sequences are equal |
| Evaluator.ErrorsVanish | avaluador.py:14 | both error vectors are non-negative, and all zero exactly when the sequences are equal |
| Evaluator.MeanOfNonNegative | avaluador.py:14 | a mean of non-negative values is non-negative, and 0 exactly when every value is |
| Evaluator.ErrorsSymmetric | avaluador.py:14 | swapping predictions and real values changes neither error vector |
| Evaluator.MetricsSymmetric | avaluador.py:13-19 | both metrics are symmetric in their two arguments |
| Evaluator.MaeSquaredAtMostMse | avaluador.py:13-19 | MAE² never exceeds the mean squared error |
| Evaluator.MaeAtMostRmse | avaluador.py:13-19 | under a true square root, MAE <= RMSE |
| Evaluator.ExampleExact | avaluador.py:13-15 | worked example: exact predictions have MAE 0 |
| Evaluator.ExampleOffByTwo | avaluador.py:13-19 | worked example: predictions 2 below everywhere have MAE 2 and RMSE 2 |
| Items.Repr | Items.py:268-272 | a list's `repr` is bracketed |
| Items.Str | Items.py:36-38 | `str` of an atom is its text, and of a list is its `repr` |
| Items.FlattenAppend | Items.py:269 | flattening distributes over concatenation |
| Items.FlattenAtoms | Items.py:269 | a list of atoms flattens to the `str` of each element, in order |
| Items.FlattenOneLevel | Items.py:269 | the elements of a nested list are `str`-converted, not flattened further |
| Items.FlattenEmpty | Items.py:269 | the flattened list is empty exactly when every category is an empty list |
| Items.CategoryExample | Items.py:268-272 | worked example: `[["Action", "RPG"], "PC", [["x"]]]` gives the four pieces `Action`, `RPG`, `PC`, `['x']` joined by vertical bars |
| Items.CategoryTextCases | Items.py:268-272 | an empty list gives the empty text, and a non-list is `str`-converted |
| Items.ReprSingleton | Items.py:269 | worked example: a list with one atom is written `[` + its `repr` + `]` |
| Items.FlattenShape | Items.py:269 | worked example: the worked example's categories flatten to four pieces |
| Items.JoinFour | Items.py:270 | worked example: joining four parts puts the separator between each consecutive pair |
| Items.Join | Items.py:270 | joining no part gives the empty text, and joining one part gives that part |
| Items.Split | dataset.py:106 | `split` never gives an empty list, and no piece holds the separator |
| Items.JoinSplit | dataset.py:106 | joining the pieces of a split gives the text back |
| Items.SplitJoin | dataset.py:106 | splitting a join of separator-free pieces gives the pieces back |
| Items.SplitPrefix | dataset.py:106 | a separator-free prefix becomes the start of the first piece |
| Items.MovieGenresRoundTrip | dataset.py:106 | under the assumed join, a movie built from a genre field split on the vertical bar gives that field back as its text |
| Items.GetGenres | Items.py:140-149 | `get_genres` raises NotImplementedError exactly for a book |
| Items.NewMovie | Items.py:102-127 | a movie stores `str` of its id and title, so `get_id` returns `str` of the id given, and `get_genres` returns its genres as given |
| Items.NewBook | Items.py:170-198 | a book is built exactly when `int(any_pub)` succeeds, storing that year, and its `get_genres` raises |
| Items.NewVideoGame | Items.py:243-278 | a video game stores `str` of its id and title, and its categories flattened and joined with vertical bars |
| Items.NewVideoGameDefaults | Items.py:243 | the defaults are brand `Unknown` and description `...` |
| Items.PyStr | Items.py:37-38 | a Python string value's `str` is the string itself |
| Items.FeatureText | Items.py:291-300 | the genre text is absent exactly when `get_genres` raises; for a video game it is the category text |
| Items.FeatureColumn | recomenador.py:245-252 | the genre column `algoritme` needs from `get_genres`, under the assumed join of a movie's list: absent exactly when some item is a book, whose `get_genres` raises; otherwise one text per item, in order, each the item's `FeatureText` |
| Toolkit.RemoveCommas | toolkit.py:18 | the result has no comma, is no longer than the input, and leaves a comma-free text unchanged |
| Toolkit.RemoveCommasIdempotent | toolkit.py:18 | removing commas twice is the same as removing them once |
| Toolkit.RemoveCommasKeeps | toolkit.py:18 | removing commas keeps every other character, in order |
| Toolkit.DigitRun | toolkit.py:18 | `\d+` takes every digit from its start |
| Toolkit.FirstDigit | toolkit.py:18 | the search starts at the first digit, and finds none exactly when there is no digit |
| Toolkit.Search | toolkit.py:18-19 | finds no match exactly when the text has no digit, and otherwise finds the leftmost greedy match of `\d+(\.\d+)?` |
| Toolkit.LeftmostGreedyUnique | toolkit.py:18 | a text has only one leftmost greedy match, so the search finds what the regular expression engine finds |
| Toolkit.Lexeme | toolkit.py:20 | `group(1)` is as long as the match |
| Toolkit.MatchValue | toolkit.py:20 | the matched number is never negative |
| Toolkit.CleanPrice | toolkit.py:12-26 | falsy values and lists give None; text gives None exactly when it has no digit after its commas are removed, and otherwise the non-negative number it first writes; a non-zero number is kept; other values go through `float` |
| Toolkit.CleanText | toolkit.py:16-20 | text whose comma-free form holds a match cleans to the exact value of that match |
| Toolkit.CommasIgnored | toolkit.py:18 | removing commas first does not change the result, unless the text was nothing but commas |
| Toolkit.CleanLeadingRun | toolkit.py:16-20 | a comma-free text whose first digit run is not followed by `.` and a digit cleans to that run alone: a `.` before the run is skipped, and a `.` after it with no digit next is not consumed |
| Toolkit.CleanRunWithFraction | toolkit.py:16-20 | a comma-free text whose first digit run is followed by `.` and digits cleans to the run plus those digits over the matching power of ten |
| Toolkit.CleanFound | toolkit.py:16-20 | a comma-free text whose match has a fraction cleans to the exact value of that lexeme |
| Toolkit.FractionSearch | toolkit.py:18 | the search finds the match that takes the first digit run, the `.` and the digits after it |
| Toolkit.ExampleDollars | toolkit.py:16-20 | worked example: `$1,299.99` cleans to 1299.99 |
| Toolkit.ExampleTrailingDot | toolkit.py:18-20 | worked example: a `.` with no digit after it is not consumed: `12.` cleans to 12 |
| Toolkit.ExampleLeadingDot | toolkit.py:18-20 | worked example: a leading `.` is skipped: `.5` cleans to 5 |
| Toolkit.ExampleNone | toolkit.py:13-14 | worked example: the empty text, None, 0 and a list give None, while 19.5 is kept |
| Toolkit.ExampleNoDigit | toolkit.py:19-22 | worked example: `Free` holds no digit, so it gives None |
| Sorting.SortDesc | recomenador.py:55-56 | the sort is a permutation, and it is the stable sort by descending score |
| Sorting.StableSortUnique | recomenador.py:55-56 | two descending lists that hold each score's elements in the same order are equal |
| Sorting.StableSortIsSortDesc | recomenador.py:55-56 | any stable descending sort of a list is `SortDesc` of it |
| Sorting.Insert | recomenador.py:55-56 | inserting into a descending list keeps it descending and adds exactly the element |
| Sorting.InsertWithScore | recomenador.py:55-56 | insertion puts the element in front of those that share its score, and nowhere else |
| Sorting.SortStepStable | recomenador.py:55-56 | inserting the head into a stable sort of the tail gives a stable sort of the whole list |
| Sorting.HeadIsMaximal | recomenador.py:55-56 | a descending list starts with its highest score |
| Sorting.Take | recomenador.py:57 | `xs[:n]` is a prefix of the first `n` elements, or all but the last `-n` when `n` is negative |
| Sorting.TakeKeepsHighest | recomenador.py:57 | a prefix of a descending list outscores what is cut off |
| Sorting.TopKeepsHighest | recomenador.py:57 | an element left out of the top `n` scores no higher than any element kept |
| Numeric.Rated | recomenador.py:139 | `v[v != -1]` keeps only ratings, and is empty exactly when every entry is `-1` |
| Numeric.CauchySchwarz | recomenador.py:191-196 | the squared dot product never exceeds the product of the squared norms |
| Numeric.CosineBounded | recomenador.py:286 | under a true square root, a cosine lies in [-1, 1] |
| Numeric.CosineWithSelf | recomenador.py:286 | under a true square root, a non-zero vector has cosine 1 with itself |
| Numeric.CosineZeroNorm | recomenador.py:195-198 | under a true square root, the cosine with a zero vector is 0 |
| Numeric.NormProductZero | recomenador.py:283 | under a true square root, the product of two norms is 0 exactly when one squared norm is 0 |
| Numeric.SumAbsBound | recomenador.py:225-226 | terms each bounded by a weight sum to at most the bound times the total weight |
| Numeric.SumNonNegative | avaluador.py:14 | a sum of non-negative terms is non-negative, and 0 exactly when every term is |
| Datasets.ValidIdsDistinct | dataset.py:93 | a valid dataset names every row and every column with a distinct id |

## Left out

- Printing, the `imprimir_*` methods, `sample_users` (randomness) and the `input()` prompts are not modelled. The values the prompts read are fields of `Strategy`. The fallbacks `min_vots = 10` and `k = 10`, used when the input is not a number, are the caller's choice of those fields.
- Loading a dataset from CSV or gzip-JSON (`dataset.py`, `toolkit.parse`, the other toolkit helpers, `tqdm`, threads) is not modelled. A dataset is an input, and `Datasets.Dataset.Valid` states what loading must establish: each id maps back to its own position, and the matrix is rectangular.
- The dataset classes in `dataset.py` define no `get_genres`. As written, the call at `recomenador.py:246` therefore raises AttributeError; the bare `except` catches it, and `algoritme` returns False. The model leaves the outcome of that call as an input: `Datasets.Dataset` carries the genre texts, or `None` when the call raises. It then models what `algoritme` does with each outcome.
- `Items.FeatureColumn`: the list-to-text join is an assumed getter, not code in the repository. `Movie.get_genres` (`Items.py:140-149`) returns the genre list itself. A dataset-level getter that passed those lists through would make `g.strip()` at `recomenador.py:252` raise AttributeError, and that line is outside the `try` at lines 245-249. The model instead assumes each movie's list is joined with `|`, as a video game's categories are (`Items.py:268-272`).
- `Items.MovieGenresRoundTrip`: holds only under that assumed join. With the lists as `Movie.get_genres` returns them, the content-based strategy would raise at `recomenador.py:252` for a movie dataset.
- The TF-IDF vectoriser (scikit-learn, including its English stop-word list) is foreign code. It is the parameter `ContentBased.Vectoriser`. Only the shape of its matrix and the `ValueError` it raises for an empty vocabulary are modelled. `ContentBased.RunRanks` and `ContentBased.AlgoritmeRanks` state when that error is raised.
- Floating point is not modelled. Ratings, means and scores are exact reals, and the `float16` rounding of stored ratings does not appear. `math.sqrt`, `np.sqrt` and `np.linalg.norm` go through the parameter `sqrt`, whose meaning is the predicate `Numeric.IsSqrt`.
- `Evaluator.Mae`: NaN from `np.mean` of an empty array is the value `Undefined`, not a float. The model takes the two inputs as sequences and subtracts them elementwise. `avaluador.py:14` subtracts two Python lists with `-`, which raises TypeError; the model treats the inputs as numpy arrays.
- `Recomenador.Test`: `recomenador.py:101` calls `Avaluador(user_id)`, but `avaluador.py:6` takes no argument, so the source raises TypeError at that line. The model builds the evaluator as evidently intended, without the argument.
- `Collaborative.Algoritme`: the user's mean (`recomenador.py:213`) is NaN when the user has rated nothing. That case is excluded by the precondition `|Rated(row)| > 0` rather than carried through as NaN.
- `Collaborative.Candidates`: a candidate is excluded when its row is equal to the user's row (`np.array_equal`). That is not the same as excluding the user, so another user with an identical row is left out too. This is modelled as written.
- `SimpleStrategy.Algoritme`: the source iterates over `get_items()`, whose order Python does not fix. The model visits the columns in order.
- Errors that only a malformed dataset could trigger (a KeyError from `get_col_item` or an IndexError) are excluded by `Datasets.Dataset.Valid`. `Recomenador.EmittedKeysKnown` shows that the strategies never produce one. The `try/except KeyError` in `test` therefore never fires, and the model has no branch for it.
- `Items.Repr`: the escaping that `repr` applies to quotes and control characters inside a string is not modelled. `Items.PyStr` wraps the text in single quotes.
- `Items.NewBook`: `int(any_pub)` is foreign conversion. The model takes its outcome as an `Option<int>`, where `None` means the conversion raised and the constructor then raises ValueError.
- `Toolkit.CleanPrice`: `float` on arbitrary objects is foreign. A `PyOther` value carries its own truthiness and `float` result. The value of a matched decimal lexeme is its exact real, not the nearest double.
- `SimpleStrategy.Eligible`: states soundness and order. Completeness, meaning every column that reaches the threshold is eligible, is the separate lemma `SimpleStrategy.EligibleExactly`.
- `ContentBased.Algoritme`: its own contract states that a "no rated item" raise means the user rated none of the genuine items, not the converse. The converse, the empty-vocabulary raise, and the scores it emits are stated in `ContentBased.AlgoritmeRanks`, through the predicate `ContentBased.RanksSelection`. The zero-sum and null-vector raises are stated in `ContentBased.Rank`, which that lemma shows `algoritme` reduces to.
- `ContentBased.Lower`: lower-cases ASCII letters only, whereas `str.lower()` also lower-cases other scripts. The difference does not change which texts match `(no genres listed)`. Every non-ASCII character lower-cases to text that still holds a non-ASCII character, except the Kelvin sign. The Kelvin sign becomes `k`, which the marker does not contain.
- Concurrency is not modelled. The core has none.
