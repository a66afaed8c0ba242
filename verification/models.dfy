/**
 * The rows of the users, books, reviews and tags tables, the exceptions the
 * services raise, and the database session that holds the tables.
 * Timestamps are seconds as a `nat`; relationships are kept as the foreign
 * keys they are stored by.
 */
module Models {
  import opened Common
  import opened Tables

  datatype User = User(
    uid: Uid,
    username: string,
    email: string,
    firstName: string,
    lastName: string,
    role: string,
    isVerified: bool,
    passwordHash: string,
    createdAt: nat,
    updatedAt: nat)

  datatype Date = Date(year: int, month: int, day: int)

  /** A book; `tags` holds the uids of the tags linked to it, in list order. */
  datatype Book = Book(
    uid: Uid,
    title: string,
    author: string,
    publisher: string,
    publishedDate: Date,
    pageCount: int,
    language: string,
    userUid: Option<Uid>,
    createdAt: nat,
    updatedAt: nat,
    tags: seq<Uid>)

  datatype Review = Review(
    uid: Uid,
    rating: int,
    reviewText: string,
    bookUid: Option<Uid>,
    userUid: Option<Uid>,
    createdAt: nat,
    updatedAt: nat)

  datatype Tag = Tag(uid: Uid, name: string, createdAt: nat)

  // Primary keys and creation times, as function values for the generic table operations.
  function UserKey(u: User): Uid { u.uid }
  function BookKey(b: Book): Uid { b.uid }
  function ReviewKey(r: Review): Uid { r.uid }
  function TagKey(t: Tag): Uid { t.uid }
  function BookAge(b: Book): int { b.createdAt }
  function ReviewAge(r: Review): int { r.createdAt }
  function TagAge(t: Tag): int { t.createdAt }

  /** The exceptions the services raise, with their messages. */
  datatype ServiceError =
    | UserNotFound(message: string)
    | BookNotFound(message: string)
    | ReviewNotFound(message: string)
    | ReviewFailure(message: string)
    | TagNotFound(message: string)
    | TagFailure(message: string)
    | TagAlreadyExists(message: string)
    | MultipleResultsFound
    | ValueError
  {
    /** `except TagException` also catches its two subclasses. */
    predicate IsTagException() { TagNotFound? || TagFailure? || TagAlreadyExists? }
    /** `except ReviewException` also catches ReviewNotFoundException. */
    predicate IsReviewException() { ReviewNotFound? || ReviewFailure? }
  }

  /** The database as the services see it through their session. */
  class Session {
    var users: seq<User>
    var books: seq<Book>
    var reviews: seq<Review>
    var tags: seq<Tag>

    /** Every table keeps its primary key unique. */
    ghost predicate Valid()
      reads this
    {
      && KeysDistinct(users, UserKey)
      && KeysDistinct(books, BookKey)
      && KeysDistinct(reviews, ReviewKey)
      && KeysDistinct(tags, TagKey)
    }

    constructor ()
      ensures Valid()
      ensures users == [] && books == [] && reviews == [] && tags == []
    {
      users, books, reviews, tags := [], [], [], [];
    }
  }

  /** The identifier `uid` is not yet a key of `rows`: what a uuid4 draw is assumed to give. */
  ghost predicate FreshKey<T>(rows: seq<T>, key: T -> Uid, uid: Uid)
  {
    forall k :: 0 <= k < |rows| ==> key(rows[k]) != uid
  }

  /** Appending a row with a fresh key keeps the keys distinct. */
  lemma AppendFreshKey<T>(rows: seq<T>, key: T -> Uid, x: T)
    requires KeysDistinct(rows, key) && FreshKey(rows, key, key(x))
    ensures KeysDistinct(rows + [x], key)
  {
  }
}
