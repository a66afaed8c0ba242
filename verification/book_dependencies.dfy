/**
 * The owner-or-admin gate of the book routes
 * (src/endpoints/books/dependencies.py): the access guard, then a pass for
 * an admin token or for the owner of the book named in the path.
 */
module BookDependencies {
  import opened Common
  import opened Http
  import opened Models
  import opened AuthUtils
  import opened RedisJti
  import opened AuthDependencies
  import BookService

  /**
   * `owns_book_or_admin(book_id)`: role and uid are read from the claims the
   * access guard returns; the ownership query runs only for a non-admin.
   */
  function OwnsBookOrAdmin(bookId: Uid, o: CodecOutcome, store: Store, now: nat, books: seq<Book>)
    : (r: Outcome<()>)
    ensures var guard := AccessTokenBearer(o, store, now);
      && (!guard.Done? ==> r == guard.PropagateFailure())
      && (guard.Done? ==>
            (r.Done? <==> guard.value.user.role == UserRole.Admin.Value()
                          || BookService.UserOwnsBook(books, guard.value.user.userUid, bookId)))
      && (guard.Done? && !r.Done? ==> r == Raised(NOT_ALLOWED))
  {
    var guard := AccessTokenBearer(o, store, now);
    if !guard.Done? then guard.PropagateFailure()
    else if guard.value.user.role != UserRole.Admin.Value()
            && !BookService.UserOwnsBook(books, guard.value.user.userUid, bookId)
    then Raised(NOT_ALLOWED)
    else Done(())
  }

  /**
   * An admin token passes whatever the books table holds, even for a book
   * that does not exist: the ownership query is never consulted.
   */
  lemma AdminPassesWithoutLookup(bookId: Uid, o: CodecOutcome, store: Store, now: nat,
                                 books1: seq<Book>, books2: seq<Book>)
    requires o.Valid? && !o.claims.refresh && !InBlocklist(store, o.claims.jti, now)
    requires o.claims.user.role == "admin"
    ensures OwnsBookOrAdmin(bookId, o, store, now, books1) == Done(())
    ensures OwnsBookOrAdmin(bookId, o, store, now, books1) == OwnsBookOrAdmin(bookId, o, store, now, books2)
  {
  }

  /** A refresh token, a revoked token or an undecodable token never reaches the ownership test. */
  lemma GuardRejectsFirst(bookId: Uid, o: CodecOutcome, store: Store, now: nat, books: seq<Book>)
    requires !o.Valid? || o.claims.refresh || InBlocklist(store, o.claims.jti, now)
    ensures !OwnsBookOrAdmin(bookId, o, store, now, books).Done?
    ensures OwnsBookOrAdmin(bookId, o, store, now, books) != Raised(NOT_ALLOWED)
  {
    var guard := AccessTokenBearer(o, store, now);
    assert !guard.Done?;
    if o.Valid? && o.claims.refresh {
      assert guard == Raised(ACCESS_TOKEN_EXPECTED);
    } else if o.Valid? {
      assert guard == Raised(TOKEN_REVOKED);
    } else if o.OtherInvalid? {
      assert guard.Crashed?;
    } else {
      assert guard == Raised(INVALID_TOKEN);
    }
  }
}
