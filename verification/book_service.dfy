/**
 * The book service (src/endpoints/books/service.py) over the books table.
 * The date parser (`datetime.strptime` with "%Y-%m-%d") is a parameter.
 */
module BookService {
  import opened Common
  import opened Tables
  import opened Models

  /** The body of `POST /books`. */
  datatype BookCreate = BookCreate(
    title: string,
    author: string,
    publisher: string,
    publishedDate: string,
    pageCount: int,
    language: string)

  /** The body of `PATCH /books/{id}`; every field is required. */
  datatype BookUpdate = BookUpdate(
    title: string,
    author: string,
    publisher: string,
    pageCount: int,
    language: string)

  /** One item of the update dictionary: a field name with its new value. */
  datatype BookAttr =
    | Title(title: string)
    | Author(author: string)
    | Publisher(publisher: string)
    | PageCount(pageCount: int)
    | Language(language: string)

  /** `update_data.model_dump().items()`, in field order. */
  function UpdateItems(u: BookUpdate): seq<BookAttr>
  {
    [Title(u.title), Author(u.author), Publisher(u.publisher), PageCount(u.pageCount), Language(u.language)]
  }

  /** `setattr(book, k, v)`. */
  function SetBookAttr(b: Book, a: BookAttr): Book
  {
    match a
    case Title(v) => b.(title := v)
    case Author(v) => b.(author := v)
    case Publisher(v) => b.(publisher := v)
    case PageCount(v) => b.(pageCount := v)
    case Language(v) => b.(language := v)
  }

  /** The setattr loop writes every field of the update and no other field. */
  lemma ApplyBookUpdate(b: Book, u: BookUpdate)
    ensures ApplyAttrs(b, UpdateItems(u), SetBookAttr)
         == b.(title := u.title, author := u.author, publisher := u.publisher,
               pageCount := u.pageCount, language := u.language)
  {
    var items := UpdateItems(u);
    assert items == [Title(u.title)] + [Author(u.author)] + [Publisher(u.publisher)]
                    + [PageCount(u.pageCount)] + [Language(u.language)];
    ApplyAttrsSnoc(b, [], Title(u.title), SetBookAttr);
    ApplyAttrsSnoc(b, [Title(u.title)], Author(u.author), SetBookAttr);
    ApplyAttrsSnoc(b, [Title(u.title)] + [Author(u.author)], Publisher(u.publisher), SetBookAttr);
    ApplyAttrsSnoc(b, [Title(u.title)] + [Author(u.author)] + [Publisher(u.publisher)],
                   PageCount(u.pageCount), SetBookAttr);
    ApplyAttrsSnoc(b, [Title(u.title)] + [Author(u.author)] + [Publisher(u.publisher)]
                      + [PageCount(u.pageCount)], Language(u.language), SetBookAttr);
  }

  function BookNotFoundMessage(bookUid: Uid): string
  {
    "Book with id " + bookUid + " was not found."
  }

  /** `get_all_books`: every book, newest first. */
  function GetAllBooks(books: seq<Book>): (r: seq<Book>)
    ensures multiset(r) == multiset(books)
    ensures NewestFirstOrder(r, BookAge)
  {
    NewestFirst(books, BookAge)
  }

  /** `get_user_books`: exactly the books whose owner is `userUid`, newest first. */
  function GetUserBooks(books: seq<Book>, userUid: Uid): (r: seq<Book>)
    ensures forall b :: b in r <==> b in books && b.userUid == Some(userUid)
    ensures multiset(r) == multiset(Where(books, (b: Book) => b.userUid == Some(userUid)))
    ensures NewestFirstOrder(r, BookAge)
  {
    NewestWhere(books, (b: Book) => b.userUid == Some(userUid), BookAge)
  }

  /** `user_owns_book`: some book has this uid and this owner. */
  function UserOwnsBook(books: seq<Book>, userUid: Uid, bookUid: Uid): (r: bool)
    ensures r <==> exists b :: b in books && b.uid == bookUid && b.userUid == Some(userUid)
  {
    FirstIndex(books, (b: Book) => b.uid == bookUid && b.userUid == Some(userUid)).Some?
  }

  /** `get_book`: the book with that uid, or BookNotFoundException. */
  function GetBook(books: seq<Book>, bookUid: Uid): (r: Result<Book, ServiceError>)
    ensures r.Success? ==> r.value in books && r.value.uid == bookUid
    ensures r.Failure? <==> forall b :: b in books ==> b.uid != bookUid
    ensures r.Failure? ==> r.error == BookNotFound(BookNotFoundMessage(bookUid))
  {
    match IndexOfKey(books, BookKey, bookUid)
    case Some(i) => Success(books[i])
    case None => Failure(BookNotFound(BookNotFoundMessage(bookUid)))
  }

  /**
   * `create_book`: parses the published date (a ValueError escapes when it
   * does not parse) and appends a book owned by `userUid`; `uid` is the
   * uuid4 drawn for it.
   */
  method CreateBook(db: Session, data: BookCreate, userUid: Uid, uid: Uid, now: nat,
                    strptime: string -> Option<Date>)
    returns (r: Result<Book, ServiceError>)
    requires db.Valid() && FreshKey(db.books, BookKey, uid)
    modifies db`books
    ensures db.Valid()
    ensures strptime(data.publishedDate).None? ==> r == Failure(ValueError) && db.books == old(db.books)
    ensures strptime(data.publishedDate).Some? ==>
              && r.Success?
              && db.books == old(db.books) + [r.value]
              && r.value.uid == uid && r.value.userUid == Some(userUid)
              && r.value.publishedDate == strptime(data.publishedDate).value
              && r.value.title == data.title && r.value.author == data.author
              && r.value.publisher == data.publisher && r.value.pageCount == data.pageCount
              && r.value.language == data.language
              && r.value.createdAt == now && r.value.updatedAt == now && r.value.tags == []
  {
    var date := strptime(data.publishedDate);
    if date.None? {
      return Failure(ValueError);
    }
    var book := Book(uid, data.title, data.author, data.publisher, date.value, data.pageCount,
                     data.language, Some(userUid), now, now, []);
    AppendFreshKey(db.books, BookKey, book);
    db.books := db.books + [book];
    r := Success(book);
  }

  /**
   * `update_book`: overwrites the update's fields on that one book and
   * leaves every other row as it was; BookNotFoundException for an unknown id.
   */
  method UpdateBook(db: Session, bookUid: Uid, u: BookUpdate) returns (r: Result<Book, ServiceError>)
    requires db.Valid()
    modifies db`books
    ensures db.Valid()
    ensures GetBook(old(db.books), bookUid).Failure? ==>
              r == GetBook(old(db.books), bookUid) && db.books == old(db.books)
    ensures GetBook(old(db.books), bookUid).Success? ==>
              var b := GetBook(old(db.books), bookUid).value;
              && r == Success(b.(title := u.title, author := u.author, publisher := u.publisher,
                                 pageCount := u.pageCount, language := u.language))
              && |db.books| == |old(db.books)|
              && forall k :: 0 <= k < |db.books| ==>
                   db.books[k] == if old(db.books)[k].uid == bookUid then r.value else old(db.books)[k]
  {
    var found := IndexOfKey(db.books, BookKey, bookUid);
    if found.None? {
      return Failure(BookNotFound(BookNotFoundMessage(bookUid)));
    }
    var i := found.value;
    var updated := SetAttrs(db.books[i], UpdateItems(u), SetBookAttr);
    ApplyBookUpdate(db.books[i], u);
    db.books := db.books[i := updated];
    r := Success(updated);
  }

  /** `delete_book`: removes exactly that book; BookNotFoundException for an unknown id. */
  method DeleteBook(db: Session, bookUid: Uid) returns (r: Result<Book, ServiceError>)
    requires db.Valid()
    modifies db`books
    ensures db.Valid()
    ensures r == GetBook(old(db.books), bookUid)
    ensures r.Failure? ==> db.books == old(db.books)
    ensures r.Success? ==> db.books == Without(old(db.books), BookKey, bookUid)
    ensures r.Success? ==> |db.books| == |old(db.books)| - 1
  {
    var found := IndexOfKey(db.books, BookKey, bookUid);
    if found.None? {
      return Failure(BookNotFound(BookNotFoundMessage(bookUid)));
    }
    var i := found.value;
    r := Success(db.books[i]);
    RemoveAtIsWithout(db.books, BookKey, i);
    db.books := db.books[..i] + db.books[i + 1..];
  }

  /** After a delete no book with that uid is left, so a second lookup raises. */
  lemma DeletedBookIsGone(books: seq<Book>, bookUid: Uid)
    ensures GetBook(Without(books, BookKey, bookUid), bookUid).Failure?
  {
  }
}
