/** The `review` table, plus the statement that writes a rating into `product`. */
module ReviewDao {
  import opened Common
  import opened Entities
  import opened AutoIncrement
  import opened ProductDao

  /** The rows by primary key, and the largest key ever handed out. */
  datatype ReviewRows = ReviewRows(rows: map<int, ReviewEntity>, lastId: nat)

  /** Each row sits under its own id; no row has id 0 (it means "allocate"),
      and no key exceeds the allocation counter. */
  type ReviewTable = t: ReviewRows | forall k :: k in t.rows ==> t.rows[k].id == k && k != 0 && k <= t.lastId
    witness ReviewRows(map[], 0)

  predicate IsFor(r: ReviewEntity, userId: int, productId: int) {
    r.userId == userId && r.productId == productId
  }

  /** The keys of the reviews `userId` wrote about `productId`. */
  function ReviewsFor(t: ReviewTable, userId: int, productId: int): set<int> {
    set k | k in t.rows && IsFor(t.rows[k], userId, productId)
  }

  /** `@Insert(onConflict = REPLACE)` on an auto-generated key: a review with id 0
      gets a fresh key, any other id replaces the row under it. */
  function InsertReview(t: ReviewTable, review: ReviewEntity): (t': ReviewTable)
    ensures var k := AssignedKey(t.rows.Keys, t.lastId, review.id);
      && t'.rows.Keys == t.rows.Keys + {k}
      && t'.rows[k] == review.(id := k)
    ensures review.id != 0 ==> t'.rows[review.id] == review
    ensures review.id == 0 ==> |t'.rows| == |t.rows| + 1
    ensures forall k :: k in t.rows && k != review.id ==> t'.rows[k] == t.rows[k]
  {
    var k := AssignedKey(t.rows.Keys, t.lastId, review.id);
    ReviewRows(t.rows[k := review.(id := k)], Advance(t.lastId, k))
  }

  /** The first row, among those under `ids`, that `userId` wrote about `productId`. */
  function FirstFor(t: ReviewTable, ids: seq<int>, userId: int, productId: int): (r: Option<ReviewEntity>)
    requires forall i :: 0 <= i < |ids| ==> ids[i] in t.rows
    ensures r.None? <==> forall i :: 0 <= i < |ids| ==> !IsFor(t.rows[ids[i]], userId, productId)
    ensures r.Some? ==> exists i :: 0 <= i < |ids| && t.rows[ids[i]] == r.value && IsFor(r.value, userId, productId)
                                    && forall j :: 0 <= j < i ==> !IsFor(t.rows[ids[j]], userId, productId)
  {
    if |ids| == 0 then None
    else if IsFor(t.rows[ids[0]], userId, productId) then Some(t.rows[ids[0]])
    else
      var r := FirstFor(t, ids[1..], userId, productId);
      assert forall i :: 1 <= i < |ids| ==> ids[i] == ids[1..][i - 1];
      r
  }

  /** `SELECT * FROM review WHERE userId = :userId AND productId = :productId`,
      read as a single row: the first row of SQLite's scan in ascending id order. */
  function GetReviewByUserAndProduct(t: ReviewTable, userId: int, productId: int): (r: Option<ReviewEntity>)
    ensures r.None? <==> ReviewsFor(t, userId, productId) == {}
    ensures r.Some? ==> && r.value.id in ReviewsFor(t, userId, productId)
                        && t.rows[r.value.id] == r.value
                        && forall k :: k in ReviewsFor(t, userId, productId) ==> r.value.id <= k
  {
    var ids := SortedKeys(t.rows.Keys);
    var r := FirstFor(t, ids, userId, productId);
    FirstForIsLeastKey(t, ids, userId, productId, r);
    r
  }

  lemma FirstForIsLeastKey(t: ReviewTable, ids: seq<int>, userId: int, productId: int, r: Option<ReviewEntity>)
    requires StrictlyIncreasing(ids) && (forall x :: x in ids <==> x in t.rows)
    requires forall i :: 0 <= i < |ids| ==> ids[i] in t.rows
    requires r == FirstFor(t, ids, userId, productId)
    ensures r.None? <==> ReviewsFor(t, userId, productId) == {}
    ensures r.Some? ==> && r.value.id in ReviewsFor(t, userId, productId)
                        && t.rows[r.value.id] == r.value
                        && forall k :: k in ReviewsFor(t, userId, productId) ==> r.value.id <= k
  {
    if r.None? {
      NoneMeansNoReview(t, ids, userId, productId);
    } else {
      SomeIsLeastReview(t, ids, userId, productId, r.value);
    }
  }

  lemma NoneMeansNoReview(t: ReviewTable, ids: seq<int>, userId: int, productId: int)
    requires forall x :: x in ids <==> x in t.rows
    requires forall i :: 0 <= i < |ids| ==> ids[i] in t.rows
    requires FirstFor(t, ids, userId, productId).None?
    ensures ReviewsFor(t, userId, productId) == {}
  {
    forall k | k in t.rows
      ensures !IsFor(t.rows[k], userId, productId)
    {
      assert k in ids;
      var i :| 0 <= i < |ids| && ids[i] == k;
    }
  }

  lemma SomeIsLeastReview(t: ReviewTable, ids: seq<int>, userId: int, productId: int, found: ReviewEntity)
    requires StrictlyIncreasing(ids) && (forall x :: x in ids <==> x in t.rows)
    requires forall i :: 0 <= i < |ids| ==> ids[i] in t.rows
    requires FirstFor(t, ids, userId, productId) == Some(found)
    ensures found.id in ReviewsFor(t, userId, productId) && t.rows[found.id] == found
    ensures forall k :: k in ReviewsFor(t, userId, productId) ==> found.id <= k
  {
    var i :| 0 <= i < |ids| && t.rows[ids[i]] == found && IsFor(found, userId, productId)
             && forall j :: 0 <= j < i ==> !IsFor(t.rows[ids[j]], userId, productId);
    assert ids[i] in ids;
    assert found.id == ids[i];
    forall k | k in ReviewsFor(t, userId, productId)
      ensures found.id <= k
    {
      assert k in ids;
      var j :| 0 <= j < |ids| && ids[j] == k;
      assert IsFor(t.rows[ids[j]], userId, productId);
      assert !(j < i);
      assert i == j || ids[i] < ids[j];
    }
  }

  /** `UPDATE product SET rate = :newRate WHERE id = :productId`: the integer
      rating is widened to the column's floating type; an update never creates
      a row. */
  function UpdateProductRating(t: ProductTable, productId: int, newRate: int32): (t': ProductTable)
    ensures t'.Keys == t.Keys
    ensures productId in t ==> t'[productId].rate == Some(newRate as real) && t'[productId].favorite == t[productId].favorite
    ensures forall k :: k in t && k != productId ==> t'[k] == t[k]
    ensures productId !in t ==> t' == t
  {
    if productId in t then t[productId := t[productId].(rate := Some(newRate as real))] else t
  }
}
