/**
 * The review service (src/endpoints/reviews/service.py) over the reviews
 * table. Adding a review looks up the book through the book service and the
 * author through the user service.
 */
module ReviewService {
  import opened Common
  import opened Tables
  import opened Models
  import BookService
  import UserService

  /** The body of `POST /reviews/book/{book_uid}`. */
  datatype ReviewCreate = ReviewCreate(rating: int, reviewText: string)

  /** The body of a review update. */
  datatype ReviewUpdate = ReviewUpdate(rating: int, reviewText: string)

  /** One item of the update dictionary. */
  datatype ReviewAttr = Rating(rating: int) | ReviewText(reviewText: string)

  /** `update_data.model_dump().items()`, in field order. */
  function UpdateItems(u: ReviewUpdate): seq<ReviewAttr>
  {
    [Rating(u.rating), ReviewText(u.reviewText)]
  }

  /** `setattr(review, k, v)`. */
  function SetReviewAttr(r: Review, a: ReviewAttr): Review
  {
    match a
    case Rating(v) => r.(rating := v)
    case ReviewText(v) => r.(reviewText := v)
  }

  /** The setattr loop writes both fields of the update and no other field. */
  lemma ApplyReviewUpdate(r: Review, u: ReviewUpdate)
    ensures ApplyAttrs(r, UpdateItems(u), SetReviewAttr) == r.(rating := u.rating, reviewText := u.reviewText)
  {
    assert UpdateItems(u) == [Rating(u.rating)] + [ReviewText(u.reviewText)];
    ApplyAttrsSnoc(r, [], Rating(u.rating), SetReviewAttr);
    ApplyAttrsSnoc(r, [Rating(u.rating)], ReviewText(u.reviewText), SetReviewAttr);
  }

  function ReviewNotFoundMessage(reviewUid: Uid): string
  {
    "Review with id " + reviewUid + " was not found."
  }

  function AddFailedMessage(bookUid: Uid, userEmail: string): string
  {
    "Book or user couldn't be found. Book id: " + bookUid + "  -  User email: " + userEmail
  }

  /** `get_all_reviews`: every review, newest first. */
  function GetAllReviews(reviews: seq<Review>): (r: seq<Review>)
    ensures multiset(r) == multiset(reviews)
    ensures NewestFirstOrder(r, ReviewAge)
  {
    NewestFirst(reviews, ReviewAge)
  }

  /** `get_user_reviews`: exactly the reviews written by `userUid`, newest first. */
  function GetUserReviews(reviews: seq<Review>, userUid: Uid): (r: seq<Review>)
    ensures forall v :: v in r <==> v in reviews && v.userUid == Some(userUid)
    ensures multiset(r) == multiset(Where(reviews, (v: Review) => v.userUid == Some(userUid)))
    ensures NewestFirstOrder(r, ReviewAge)
  {
    NewestWhere(reviews, (v: Review) => v.userUid == Some(userUid), ReviewAge)
  }

  /** `get_review`: the review with that uid, or ReviewNotFoundException. */
  function GetReview(reviews: seq<Review>, reviewUid: Uid): (r: Result<Review, ServiceError>)
    ensures r.Success? ==> r.value in reviews && r.value.uid == reviewUid
    ensures r.Failure? <==> forall v :: v in reviews ==> v.uid != reviewUid
    ensures r.Failure? ==> r.error == ReviewNotFound(ReviewNotFoundMessage(reviewUid))
  {
    match IndexOfKey(reviews, ReviewKey, reviewUid)
    case Some(i) => Success(reviews[i])
    case None => Failure(ReviewNotFound(ReviewNotFoundMessage(reviewUid)))
  }

  /** `user_owns_review`: some review has this uid and this author. */
  function UserOwnsReview(reviews: seq<Review>, userUid: Uid, reviewUid: Uid): (r: bool)
    ensures r <==> exists v :: v in reviews && v.uid == reviewUid && v.userUid == Some(userUid)
  {
    FirstIndex(reviews, (v: Review) => v.uid == reviewUid && v.userUid == Some(userUid)).Some?
  }

  /**
   * The two lookups of `add_review_for_book`, book first: either failure
   * becomes one ReviewException naming both the book id and the email.
   */
  function FindBookAndUser(books: seq<Book>, users: seq<User>, bookUid: Uid, userEmail: string)
    : (r: Result<(Book, User), ServiceError>)
    ensures r.Success? <==> (exists b :: b in books && b.uid == bookUid)
                            && (exists u :: u in users && u.email == userEmail)
    ensures r.Success? ==> r.value.0 == BookService.GetBook(books, bookUid).value
                           && r.value.1 == UserService.GetUserByEmail(users, userEmail).value
    ensures r.Failure? ==> r.error == ReviewFailure(AddFailedMessage(bookUid, userEmail))
  {
    var book := BookService.GetBook(books, bookUid);
    if book.Failure? then Failure(ReviewFailure(AddFailedMessage(bookUid, userEmail)))
    else
      var user := UserService.GetUserByEmail(users, userEmail);
      if user.Failure? then Failure(ReviewFailure(AddFailedMessage(bookUid, userEmail)))
      else Success((book.value, user.value))
  }

  /**
   * `add_review_for_book`: appends one review linked to the book and to the
   * user with that email, carrying the body's rating and text; when either is
   * missing, raises ReviewException and adds nothing. `uid` is the uuid4
   * drawn for the review.
   */
  method AddReviewForBook(db: Session, userEmail: string, bookUid: Uid, data: ReviewCreate,
                          uid: Uid, now: nat)
    returns (r: Result<Review, ServiceError>)
    requires db.Valid() && FreshKey(db.reviews, ReviewKey, uid)
    modifies db`reviews
    ensures db.Valid()
    ensures var found := FindBookAndUser(db.books, db.users, bookUid, userEmail);
      && (found.Failure? ==> r == Failure(found.error) && db.reviews == old(db.reviews))
      && (found.Success? ==>
            && r.Success?
            && db.reviews == old(db.reviews) + [r.value]
            && r.value == Review(uid, data.rating, data.reviewText, Some(bookUid),
                                 Some(found.value.1.uid), now, now))
  {
    var found := FindBookAndUser(db.books, db.users, bookUid, userEmail);
    if found.Failure? {
      return Failure(found.error);
    }
    var (book, user) := found.value;
    var review := Review(uid, data.rating, data.reviewText, Some(book.uid), Some(user.uid), now, now);
    AppendFreshKey(db.reviews, ReviewKey, review);
    db.reviews := db.reviews + [review];
    r := Success(review);
  }

  /**
   * `update_review`: overwrites rating and text on that one review and leaves
   * every other row as it was; ReviewNotFoundException for an unknown id.
   */
  method UpdateReview(db: Session, reviewUid: Uid, u: ReviewUpdate) returns (r: Result<Review, ServiceError>)
    requires db.Valid()
    modifies db`reviews
    ensures db.Valid()
    ensures GetReview(old(db.reviews), reviewUid).Failure? ==>
              r == GetReview(old(db.reviews), reviewUid) && db.reviews == old(db.reviews)
    ensures GetReview(old(db.reviews), reviewUid).Success? ==>
              var v := GetReview(old(db.reviews), reviewUid).value;
              && r == Success(v.(rating := u.rating, reviewText := u.reviewText))
              && |db.reviews| == |old(db.reviews)|
              && forall k :: 0 <= k < |db.reviews| ==>
                   db.reviews[k] == if old(db.reviews)[k].uid == reviewUid then r.value else old(db.reviews)[k]
  {
    var found := IndexOfKey(db.reviews, ReviewKey, reviewUid);
    if found.None? {
      return Failure(ReviewNotFound(ReviewNotFoundMessage(reviewUid)));
    }
    var i := found.value;
    var updated := SetAttrs(db.reviews[i], UpdateItems(u), SetReviewAttr);
    ApplyReviewUpdate(db.reviews[i], u);
    db.reviews := db.reviews[i := updated];
    r := Success(updated);
  }

  /** `delete_review`: removes exactly that review; ReviewNotFoundException for an unknown id. */
  method DeleteReview(db: Session, reviewUid: Uid) returns (r: Result<Review, ServiceError>)
    requires db.Valid()
    modifies db`reviews
    ensures db.Valid()
    ensures r == GetReview(old(db.reviews), reviewUid)
    ensures r.Failure? ==> db.reviews == old(db.reviews)
    ensures r.Success? ==> db.reviews == Without(old(db.reviews), ReviewKey, reviewUid)
    ensures r.Success? ==> |db.reviews| == |old(db.reviews)| - 1
  {
    var found := IndexOfKey(db.reviews, ReviewKey, reviewUid);
    if found.None? {
      return Failure(ReviewNotFound(ReviewNotFoundMessage(reviewUid)));
    }
    var i := found.value;
    r := Success(db.reviews[i]);
    RemoveAtIsWithout(db.reviews, ReviewKey, i);
    db.reviews := db.reviews[..i] + db.reviews[i + 1..];
  }

  /** The new review is owned by its author: the review gate lets that user through. */
  lemma AddedReviewIsOwned(reviews: seq<Review>, review: Review, userUid: Uid)
    requires review.userUid == Some(userUid)
    ensures UserOwnsReview(reviews + [review], userUid, review.uid)
  {
    assert review in reviews + [review];
  }
}
