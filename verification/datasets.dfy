/**
 * The dataset as the engine sees it: a dense ratings matrix (rows are users, columns are
 * items, `-1` where a user has not rated an item), the id <-> position maps built while
 * loading, the per-column genre text, and the maximum rating `pmax`.
 *
 * Loading from CSV or gzip-JSON is not modelled; a dataset is an input, and `Valid`
 * is what the loader is expected to establish.
 */
module Datasets {
  import opened Wrappers

  /** `ids[i]` names position `i`, and `pos` maps every name back to its own position. */
  ghost predicate Indexes<T>(ids: seq<T>, pos: map<T, nat>)
  {
    && (forall i :: 0 <= i < |ids| ==> ids[i] in pos && pos[ids[i]] == i)
    && (forall x :: x in pos ==> pos[x] < |ids| && ids[pos[x]] == x)
  }

  /** Every row of `m` has `cols` entries. */
  ghost predicate IsMatrix(m: seq<seq<real>>, cols: nat)
  {
    forall r :: 0 <= r < |m| ==> |m[r]| == cols
  }

  datatype Dataset = Dataset(
    userIds: seq<string>,        // row -> user id
    rowOf: map<string, nat>,     // user id -> row (`get_row_user`)
    itemIds: seq<string>,        // column -> item id (`get_item_id`)
    colOf: map<string, nat>,     // item id -> column (`get_col_item`)
    ratings: seq<seq<real>>,     // `get_ratings`
    genres: Option<seq<string>>, // `get_genres`, None where the items raise instead
    pmax: real)                  // `get_pmax`
  {
    ghost predicate Valid()
    {
      && Indexes(userIds, rowOf)
      && Indexes(itemIds, colOf)
      && |ratings| == |userIds|
      && IsMatrix(ratings, |itemIds|)
      && (genres.Some? ==> |genres.value| == |itemIds|)
    }

    /** `has_user`: membership in the set of loaded user ids. */
    predicate HasUser(userId: string)
    {
      userId in rowOf
    }
  }

  /** Column `c` of the matrix, top to bottom: numpy's `m[:, c]`. */
  function Column(m: seq<seq<real>>, c: nat): (col: seq<real>)
    requires forall r :: 0 <= r < |m| ==> c < |m[r]|
    ensures |col| == |m|
    ensures forall r :: 0 <= r < |m| ==> col[r] == m[r][c]
  {
    seq(|m|, r requires 0 <= r < |m| => m[r][c])
  }

  /** All entries in row-major order, as numpy's boolean indexing visits them. */
  function Flatten(m: seq<seq<real>>): seq<real>
  {
    if |m| == 0 then [] else m[0] + Flatten(m[1..])
  }

  /** A valid dataset names every column with a distinct id, and every row likewise. */
  lemma {:induction false} ValidIdsDistinct(ds: Dataset, i: int, j: int)
    requires ds.Valid()
    ensures 0 <= i < |ds.itemIds| && 0 <= j < |ds.itemIds| && ds.itemIds[i] == ds.itemIds[j] ==> i == j
    ensures 0 <= i < |ds.userIds| && 0 <= j < |ds.userIds| && ds.userIds[i] == ds.userIds[j] ==> i == j
  {
    if 0 <= i < |ds.itemIds| && 0 <= j < |ds.itemIds| {
      assert ds.colOf[ds.itemIds[i]] == i && ds.colOf[ds.itemIds[j]] == j;
    }
    if 0 <= i < |ds.userIds| && 0 <= j < |ds.userIds| {
      assert ds.rowOf[ds.userIds[i]] == i && ds.rowOf[ds.userIds[j]] == j;
    }
  }
}
