/**
 * The owner-or-admin gate of the review routes
 * (src/endpoints/reviews/dependencies.py): the access guard, then a pass for
 * an admin token or for the author of the review named in the path.
 */
module ReviewDependencies {
  import opened Common
  import opened Http
  import opened Models
  import opened AuthUtils
  import opened RedisJti
  import opened AuthDependencies
  import ReviewService

  /**
   * `owns_review_or_admin(review_id)`: role and uid are read from the claims
   * the access guard returns; the ownership query runs only for a non-admin.
   */
  function OwnsReviewOrAdmin(reviewId: Uid, o: CodecOutcome, store: Store, now: nat, reviews: seq<Review>)
    : (r: Outcome<()>)
    ensures var guard := AccessTokenBearer(o, store, now);
      && (!guard.Done? ==> r == guard.PropagateFailure())
      && (guard.Done? ==>
            (r.Done? <==> guard.value.user.role == UserRole.Admin.Value()
                          || ReviewService.UserOwnsReview(reviews, guard.value.user.userUid, reviewId)))
      && (guard.Done? && !r.Done? ==> r == Raised(NOT_ALLOWED))
  {
    var guard := AccessTokenBearer(o, store, now);
    if !guard.Done? then guard.PropagateFailure()
    else if guard.value.user.role != UserRole.Admin.Value()
            && !ReviewService.UserOwnsReview(reviews, guard.value.user.userUid, reviewId)
    then Raised(NOT_ALLOWED)
    else Done(())
  }

  /** An admin token passes whatever the reviews table holds. */
  lemma AdminPassesWithoutLookup(reviewId: Uid, o: CodecOutcome, store: Store, now: nat,
                                 reviews1: seq<Review>, reviews2: seq<Review>)
    requires o.Valid? && !o.claims.refresh && !InBlocklist(store, o.claims.jti, now)
    requires o.claims.user.role == "admin"
    ensures OwnsReviewOrAdmin(reviewId, o, store, now, reviews1) == Done(())
    ensures OwnsReviewOrAdmin(reviewId, o, store, now, reviews1)
         == OwnsReviewOrAdmin(reviewId, o, store, now, reviews2)
  {
  }

  /**
   * The author named by a live access token passes for a review the token's
   * user has just added, while a different non-admin user is refused.
   */
  lemma AuthorPassesOthersRefused(review: Review, o: CodecOutcome, store: Store, now: nat, reviews: seq<Review>)
    requires o.Valid? && !o.claims.refresh && !InBlocklist(store, o.claims.jti, now)
    requires o.claims.user.role != "admin"
    requires review in reviews
    requires forall v :: v in reviews && v.uid == review.uid ==> v == review
    ensures OwnsReviewOrAdmin(review.uid, o, store, now, reviews).Done?
            <==> review.userUid == Some(o.claims.user.userUid)
  {
  }
}
