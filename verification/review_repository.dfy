/** Adding or replacing a user's review of a product, and propagating a rating. */
module ReviewRepository {
  import opened Common
  import opened Entities
  import opened Domain
  import opened AutoIncrement
  import opened ReviewDao
  import opened AppDatabase

  /** `addReview`: the user's earlier review of the product, if any, is rewritten
      in place with the new rate and comment; otherwise a new review with id 0
      (allocate) is inserted. Nothing is validated, no other review changes,
      and only the review table changes. */
  function AddReview(db: Tables, userId: int, productId: int, rate: int32, comment: string): (db': Tables)
    ensures db'.products == db.products && db'.users == db.users
    ensures var r := GetReviewByUserAndProduct(db'.reviews, userId, productId);
            r.Some? && r.value.rate == rate && r.value.comment == comment
    ensures var prior := GetReviewByUserAndProduct(db.reviews, userId, productId);
            prior.Some? ==> && ReviewsFor(db'.reviews, userId, productId) == ReviewsFor(db.reviews, userId, productId)
                            && db'.reviews.rows[prior.value.id] == prior.value.(rate := rate, comment := comment)
    ensures |ReviewsFor(db.reviews, userId, productId)| <= 1 ==> |ReviewsFor(db'.reviews, userId, productId)| == 1
    ensures var prior := GetReviewByUserAndProduct(db.reviews, userId, productId);
            var newKey := AssignedKey(db.reviews.rows.Keys, db.reviews.lastId, 0);
            && (prior.Some? ==> db'.reviews.rows.Keys == db.reviews.rows.Keys)
            && (prior.None? ==> && db'.reviews.rows.Keys == db.reviews.rows.Keys + {newKey}
                                && db'.reviews.rows[newKey] == ReviewEntity(newKey, userId, productId, rate, comment))
    ensures var prior := GetReviewByUserAndProduct(db.reviews, userId, productId);
            forall k :: k in db.reviews.rows && (prior.None? || k != prior.value.id)
                        ==> k in db'.reviews.rows && db'.reviews.rows[k] == db.reviews.rows[k]
  {
    var existing := GetReviewByUserAndProduct(db.reviews, userId, productId);
    var reviews' :=
      if existing.Some? then InsertReview(db.reviews, existing.value.(rate := rate, comment := comment))
      else InsertReview(db.reviews, Review(0, userId, productId, rate, comment).ToDto());
    if existing.Some? then
      RewriteSubmits(db.reviews, existing.value, reviews', userId, productId, rate, comment);
      db.(reviews := reviews')
    else
      FreshSubmits(db.reviews, reviews', userId, productId, rate, comment);
      db.(reviews := reviews')
  }

  /** What a submission promises about the review table before (`t`) and after
      (`t'`) it. */
  predicate Submitted(t: ReviewTable, t': ReviewTable, userId: int, productId: int, rate: int32, comment: string) {
    && Carries(t', userId, productId, rate, comment)
    && RewritesPrior(t, t', userId, productId, rate, comment)
    && (|ReviewsFor(t, userId, productId)| <= 1 ==> |ReviewsFor(t', userId, productId)| == 1)
    && KeysBounded(t, t', userId, productId, rate, comment)
    && FramedOutsidePrior(t, t', userId, productId)
  }

  /** The pair's review reads back with the submitted rate and comment. */
  predicate Carries(t': ReviewTable, userId: int, productId: int, rate: int32, comment: string) {
    var r := GetReviewByUserAndProduct(t', userId, productId);
    r.Some? && r.value.rate == rate && r.value.comment == comment
  }

  /** An earlier first review is rewritten in place and the pair keeps its rows. */
  predicate RewritesPrior(t: ReviewTable, t': ReviewTable, userId: int, productId: int, rate: int32, comment: string) {
    var prior := GetReviewByUserAndProduct(t, userId, productId);
    prior.Some? ==> && ReviewsFor(t', userId, productId) == ReviewsFor(t, userId, productId)
                    && t'.rows[prior.value.id] == prior.value.(rate := rate, comment := comment)
  }

  /** No key is added when the pair had a review; otherwise exactly the next
      allocated key, holding the new review. */
  predicate KeysBounded(t: ReviewTable, t': ReviewTable, userId: int, productId: int, rate: int32, comment: string) {
    var prior := GetReviewByUserAndProduct(t, userId, productId);
    var newKey := AssignedKey(t.rows.Keys, t.lastId, 0);
    && (prior.Some? ==> t'.rows.Keys == t.rows.Keys)
    && (prior.None? ==> && t'.rows.Keys == t.rows.Keys + {newKey}
                        && t'.rows[newKey] == ReviewEntity(newKey, userId, productId, rate, comment))
  }

  /** Every row other than the pair's first review keeps its value. */
  predicate FramedOutsidePrior(t: ReviewTable, t': ReviewTable, userId: int, productId: int) {
    var prior := GetReviewByUserAndProduct(t, userId, productId);
    forall k :: k in t.rows && (prior.None? || k != prior.value.id) ==> k in t'.rows && t'.rows[k] == t.rows[k]
  }

  /** The branch that rewrites the pair's first review. */
  lemma RewriteSubmits(t: ReviewTable, prior: ReviewEntity, t': ReviewTable,
                       userId: int, productId: int, rate: int32, comment: string)
    requires GetReviewByUserAndProduct(t, userId, productId) == Some(prior)
    requires t' == InsertReview(t, prior.(rate := rate, comment := comment))
    ensures Submitted(t, t', userId, productId, rate, comment)
  {
    RewriteKeepsReviewsFor(t, prior, t', userId, productId, rate, comment);
    RewriteFrame(t, prior, t', userId, productId, rate, comment);
  }

  /** Rewriting the pair's first review adds no key and changes no other row. */
  lemma RewriteFrame(t: ReviewTable, prior: ReviewEntity, t': ReviewTable,
                     userId: int, productId: int, rate: int32, comment: string)
    requires GetReviewByUserAndProduct(t, userId, productId) == Some(prior)
    requires t' == InsertReview(t, prior.(rate := rate, comment := comment))
    ensures KeysBounded(t, t', userId, productId, rate, comment)
    ensures FramedOutsidePrior(t, t', userId, productId)
  {
    assert prior.id in t.rows && prior.id != 0;
    ReplaceUnderKey(t, prior.(rate := rate, comment := comment), t');
  }

  /** Writing a row under a key the table already holds adds no key and leaves
      the other rows. */
  lemma ReplaceUnderKey(t: ReviewTable, row: ReviewEntity, t': ReviewTable)
    requires row.id in t.rows && row.id != 0
    requires t' == InsertReview(t, row)
    ensures t'.rows.Keys == t.rows.Keys
    ensures forall k :: k in t.rows && k != row.id ==> t'.rows[k] == t.rows[k]
  {
  }

  /** The branch that inserts a first review for the pair. */
  lemma FreshSubmits(t: ReviewTable, t': ReviewTable, userId: int, productId: int, rate: int32, comment: string)
    requires GetReviewByUserAndProduct(t, userId, productId).None?
    requires t' == InsertReview(t, Review(0, userId, productId, rate, comment).ToDto())
    ensures Submitted(t, t', userId, productId, rate, comment)
  {
    FreshReviewIsTheOnlyOne(t, t', userId, productId, rate, comment);
  }

  /** Rewriting the first review of a pair keeps the pair's set of reviews, and
      the rewritten one is still the first. */
  lemma RewriteKeepsReviewsFor(t: ReviewTable, prior: ReviewEntity, t': ReviewTable,
                               userId: int, productId: int, rate: int32, comment: string)
    requires GetReviewByUserAndProduct(t, userId, productId) == Some(prior)
    requires t' == InsertReview(t, prior.(rate := rate, comment := comment))
    ensures ReviewsFor(t', userId, productId) == ReviewsFor(t, userId, productId)
    ensures GetReviewByUserAndProduct(t', userId, productId) == Some(prior.(rate := rate, comment := comment))
  {
    var updated := prior.(rate := rate, comment := comment);
    assert prior.id in t.rows && prior.id != 0;
    assert t'.rows == t.rows[prior.id := updated];
    SameMatchesAfterRewrite(t, t', prior.id, updated, userId, productId);
    var r := GetReviewByUserAndProduct(t', userId, productId);
    assert prior.id in ReviewsFor(t', userId, productId);
    assert r.value.id == prior.id;
  }

  /** Overwriting a row with one for the same pair changes no pair's review set. */
  lemma SameMatchesAfterRewrite(t: ReviewTable, t': ReviewTable, k: int, row: ReviewEntity, userId: int, productId: int)
    requires k in t.rows && IsFor(t.rows[k], userId, productId) && IsFor(row, userId, productId)
    requires t'.rows == t.rows[k := row]
    ensures ReviewsFor(t', userId, productId) == ReviewsFor(t, userId, productId)
  {
    forall x
      ensures x in ReviewsFor(t', userId, productId) <==> x in ReviewsFor(t, userId, productId)
    {
      if x != k {
        assert x in t'.rows <==> x in t.rows;
      }
    }
  }

  /** A review inserted for a pair that had none is the pair's only review. */
  lemma FreshReviewIsTheOnlyOne(t: ReviewTable, t': ReviewTable,
                                userId: int, productId: int, rate: int32, comment: string)
    requires GetReviewByUserAndProduct(t, userId, productId).None?
    requires t' == InsertReview(t, Review(0, userId, productId, rate, comment).ToDto())
    ensures var k := AssignedKey(t.rows.Keys, t.lastId, 0);
            && ReviewsFor(t', userId, productId) == {k}
            && t'.rows[k] == ReviewEntity(k, userId, productId, rate, comment)
  {
    var k := AssignedKey(t.rows.Keys, t.lastId, 0);
    var row := ReviewEntity(k, userId, productId, rate, comment);
    assert t'.rows == t.rows[k := row];
    OnlyMatchAfterFreshInsert(t, t', k, row, userId, productId);
  }

  lemma OnlyMatchAfterFreshInsert(t: ReviewTable, t': ReviewTable, k: int, row: ReviewEntity, userId: int, productId: int)
    requires ReviewsFor(t, userId, productId) == {} && IsFor(row, userId, productId)
    requires t'.rows == t.rows[k := row]
    ensures ReviewsFor(t', userId, productId) == {k}
  {
    forall x
      ensures x in ReviewsFor(t', userId, productId) <==> x == k
    {
      if x != k && x in t.rows {
        assert x !in ReviewsFor(t, userId, productId);
      }
    }
  }

  /** Submitting twice for the same pair leaves one review, with the second
      submission's rate and comment. */
  lemma SecondSubmissionReplacesFirst(db: Tables, userId: int, productId: int,
                                      rate1: int32, comment1: string, rate2: int32, comment2: string)
    requires ReviewsFor(db.reviews, userId, productId) == {}
    ensures var db2 := AddReview(AddReview(db, userId, productId, rate1, comment1), userId, productId, rate2, comment2);
            && |ReviewsFor(db2.reviews, userId, productId)| == 1
            && var r := GetReviewByUserAndProduct(db2.reviews, userId, productId);
               r.Some? && r.value.rate == rate2 && r.value.comment == comment2
  {
  }

  /** A submission leaves the reviews of every other (user, product) pair as
      they were: the same keys, holding the same rows. */
  lemma OtherPairsUntouched(db: Tables, userId: int, productId: int, rate: int32, comment: string,
                            otherUser: int, otherProduct: int)
    requires otherUser != userId || otherProduct != productId
    ensures var db' := AddReview(db, userId, productId, rate, comment);
            && ReviewsFor(db'.reviews, otherUser, otherProduct) == ReviewsFor(db.reviews, otherUser, otherProduct)
            && forall k :: k in ReviewsFor(db.reviews, otherUser, otherProduct) ==> db'.reviews.rows[k] == db.reviews.rows[k]
  {
    var t := db.reviews;
    var t' := AddReview(db, userId, productId, rate, comment).reviews;
    var prior := GetReviewByUserAndProduct(t, userId, productId);
    var k0 := if prior.Some? then prior.value.id else AssignedKey(t.rows.Keys, t.lastId, 0);
    if prior.Some? {
      assert IsFor(prior.value, userId, productId);
      assert k0 in t.rows;
    }
    OneKeyChanged(t, t', k0, otherUser, otherProduct);
  }

  /** When a write touches only the key `k0`, and neither the old nor the new
      row there belongs to a pair, that pair's reviews are kept. */
  lemma OneKeyChanged(t: ReviewTable, t': ReviewTable, k0: int, otherUser: int, otherProduct: int)
    requires t'.rows.Keys == t.rows.Keys + {k0}
    requires forall k :: k in t.rows && k != k0 ==> t'.rows[k] == t.rows[k]
    requires !IsFor(t'.rows[k0], otherUser, otherProduct)
    requires k0 in t.rows ==> !IsFor(t.rows[k0], otherUser, otherProduct)
    ensures ReviewsFor(t', otherUser, otherProduct) == ReviewsFor(t, otherUser, otherProduct)
    ensures forall k :: k in ReviewsFor(t, otherUser, otherProduct) ==> t'.rows[k] == t.rows[k]
  {
  }

  /** `updateProductRating`: forwards its arguments to the table statement;
      reviews and users are untouched. */
  function UpdateProductRating(db: Tables, productId: int, newRate: int32): (db': Tables)
    ensures db'.reviews == db.reviews && db'.users == db.users
    ensures db'.products == ReviewDao.UpdateProductRating(db.products, productId, newRate)
  {
    db.(products := ReviewDao.UpdateProductRating(db.products, productId, newRate))
  }

  /** The overlay rating becomes the submitted rate itself, whatever the
      product's earlier rating or other reviews were. */
  lemma RatingIsOverwritten(db: Tables, userId: int, productId: int, rate: int32, comment: string)
    requires productId in db.products
    ensures var db' := UpdateProductRating(AddReview(db, userId, productId, rate, comment), productId, rate);
            && db'.products[productId].rate == Some(rate as real)
            && db'.products[productId].favorite == db.products[productId].favorite
  {
  }
}
