# bookly-api authentication, authorization and tables — a Dafny model

This project models the decision logic of the bookly-api web service (a FastAPI
book-review API) and proves properties of it:

- **Token issuing** (`AuthUtils`): the claims of an access or refresh token
  (`user`, `exp`, `jti`, `refresh`), their fixed lifetimes of 3600 s and
  172800 s, the token pair returned by login and refresh, and what
  `decode_token` makes of the JWT library's verdict on a token.
- **The guard chain** (`AuthDependencies`): the base bearer (decode), the
  access bearer (decode, kind check, revocation check), the refresh bearer
  (decode, kind check), `get_current_user` and `RoleChecker`.
- **The revocation blocklist** (`RedisJti`): a class holding a map from jti to
  an entry with an expiry time, with `AddJtiToBlocklist` and
  `TokenInBlocklist` taking the current time as a parameter.
- **The auth flows** (`AuthRoutes`): signup, login, refresh and logout, and the
  two user services they build on (`AuthService`, which returns None for an
  unknown email, and `UserService`, which raises).
- **The owner-or-admin gates** for books and reviews (`BookDependencies`,
  `ReviewDependencies`).
- **The book, review and tag services** (`BookService`, `ReviewService`,
  `TagService`) over a `Models.Session` that holds the users, books, reviews
  and tags tables as sequences of rows in insertion order, with unique
  primary keys as the session invariant. `Tables` gives the query shapes the
  services use: first match, `one_or_none`, filter, newest-first ordering,
  delete by key, and the `setattr` update loop.
- **The request schemas** of signup and login (`AuthSchemas`) and the outward
  form of a user, which never includes the password hash.

The JWT codec, bcrypt, uuid4, the clock and date parsing are parameters:

- a `Jwt` stands for the signed string of its claims;
- what `jwt.decode` reports for a presented token is a `CodecOutcome`:
  `Valid(claims)`, `ExpiredSignature`, `JwkError` or `OtherInvalid`;
- `DecodeGenuine` says what the library reports for a token this service
  signed, read at time `now` (expired once `exp <= now`), and is used only by
  the end-to-end lemmas;
- time is a `now: nat` in seconds;
- uuid4 is a supply `uuid4: nat -> Uid` or a `uid` argument assumed fresh;
- password hashing and checking are the functions `hash` and `verify`;
- `strptime` is a function from string to `Option<Date>`.

The outcome of a handler or dependency is an `Http.Outcome`: `Done(value)`,
`Raised(HttpError)` for an HTTPException, `Unprocessable` when request-body
validation fails (422), or `Crashed` when another exception escapes (500).

Two details of the code shape the model:

- `decode_token` catches only `jwt.PyJWKError` and `jwt.ExpiredSignatureError`
  (src/endpoints/auth/utils.py:65). Any other `InvalidTokenError`, such as a bad
  signature or a malformed token, escapes, so the model ends it in `Crashed`.
- `RoleChecker` tests the role stored in the users table for the token's
  email, not the role written into the token.

## Model

| member | source | states |
|---|---|---|
| AuthUtils.RoleFromValue | src/endpoints/auth/utils.py:15-17 | `UserRoles(value)` yields the role with that value, and nothing exactly when no role has it |
| AuthUtils.RolesAreAdminAndUser | src/endpoints/auth/utils.py:15-17 | the role values are exactly "admin" and "user", they differ, and each value maps back to its role |
| AuthUtils.Payload | src/endpoints/auth/utils.py:40-45 | the signed payload has exactly the keys `user`, `exp`, `jti`, `refresh`, each holding the corresponding claim |
| AuthUtils.PayloadRoundTrip | src/endpoints/auth/utils.py:40-45 | reading the payload back gives exactly the claims that were signed |
| AuthUtils.CreateAccessToken | src/endpoints/auth/utils.py:33-51 | the token carries the caller's user data unchanged, the given refresh flag and the drawn jti; `exp` is now + 3600 for an access token and now + 172800 for a refresh token |
| AuthUtils.CreateTokenPair | src/endpoints/auth/utils.py:76-85 | both tokens carry the same user data; the access token has refresh false and the refresh token true; each takes the next uuid draw as jti; the body has token type "Bearer", access_exp 3600, refresh_exp 172800 |
| AuthUtils.PairJtisDistinct | src/endpoints/auth/utils.py:76-78 | with a supply of distinct uuids, the two tokens of a pair have different jtis |
| AuthUtils.DecodeGenuine | src/endpoints/auth/utils.py:54-64 | a token this service signed decodes to its own claims while `now < exp`, and to an expired-signature error afterwards |
| AuthUtils.DecodeToken | src/endpoints/auth/utils.py:54-73 | claims on success; None exactly for an expired signature or a JWK error; any other decode error escapes; it never raises an HTTP error |
| RedisJti.InBlocklist | src/redis/redis_jti.py:23-25 | the answer of `token_in_blocklist`: listed exactly when `GET jti` returns a value, that is, while the key is present and unexpired |
| RedisJti.WithJti | src/redis/redis_jti.py:15-20 | setting a jti stores the empty string under it, expiring at now + 3600, adds no other key and changes no other entry |
| RedisJti.Blocklist.AddJtiToBlocklist | src/redis/redis_jti.py:15-20 | the new store is the old store with that jti set |
| RedisJti.Blocklist.TokenInBlocklist | src/redis/redis_jti.py:23-25 | true exactly when the jti is present and unexpired at `now`; the store is not modified |
| RedisJti.BlockedUntilExpiry | src/redis/redis_jti.py:15-25 | after adding a jti at time t, it is reported blocklisted exactly while now < t + JTI_EXPIRY |
| RedisJti.AddLeavesOthers | src/redis/redis_jti.py:15-20 | adding one jti does not change the answer for any other jti |
| RedisJti.AddTwiceResetsExpiry | src/redis/redis_jti.py:15-20 | adding a jti again equals adding it once at the later time: it stays listed and only its expiry is reset |
| RedisJti.EntryLifetimeIsAccessLifetime | src/redis/redis_jti.py:4 | a blocklist entry lives exactly as long as an access token, 3600 s |
| AuthDependencies.TokenBearer | src/endpoints/auth/dependencies.py:17-37 | passes exactly valid tokens, returning their claims; a None from `decode_token` is the 403 "Invalid or expired token"; other decode errors escape |
| AuthDependencies.AccessTokenBearer | src/endpoints/auth/dependencies.py:40-62 | passes exactly a valid, non-refresh, non-blocklisted token and returns its claims unchanged; decode failure rejects first, then a refresh token is rejected before any blocklist lookup, then a revoked jti is rejected |
| AuthDependencies.RefreshTokenBearer | src/endpoints/auth/dependencies.py:65-78 | passes exactly a valid refresh token and returns its claims; an access token gets its own 403; it takes no blocklist at all |
| AuthDependencies.GetCurrentUser | src/endpoints/auth/dependencies.py:81-98 | on a passing access token, succeeds exactly when some user has the token's email, returning the user that `get_user_by_email` returns, which is the first user with that email; otherwise 403 "Missing or invalid email"; guard failures pass through unchanged |
| AuthDependencies.RoleChecker | src/endpoints/auth/dependencies.py:101-110 | passes exactly when the current user's stored role is among the allowed roles, otherwise 403 "You are not allowed to perform this action"; failures of the current-user lookup pass through |
| AuthSchemas.ValidUserCreate | src/schemas/auth_schemas.py:19-24 | a signup body is accepted exactly when every field obeys its declared `Field` constraint: username, email, first and last name at most 16, 32, 32, 32 characters, password at least 8 |
| AuthSchemas.ValidUserLogin | src/schemas/auth_schemas.py:27-29 | a login body is accepted exactly when the email has at most 32 characters and the password at least 8, as declared |
| AuthSchemas.SignupCredentialsAreLoginValid | src/schemas/auth_schemas.py:19-29 | the email and password of a valid signup body (username at most 16 characters, email and names at most 32, password at least 8) make a valid login body (email at most 32, password at least 8) |
| AuthSchemas.SerializeUser | src/schemas/auth_schemas.py:7-16 | the outward user has exactly the eight declared fields and never `password_hash` |
| AuthSchemas.SerializeIgnoresPasswordHash | src/schemas/auth_schemas.py:14 | two users that differ only in their password hash serialise identically |
| UserService.GetUserByEmail | src/endpoints/auth/service.py:19-28 | the first user with that email, or UserNotFoundException with message "User with email … was not found." exactly when no user has it |
| UserService.UserExists | src/endpoints/auth/service.py:30-35 | true exactly when some user has that email, i.e. the lookup does not raise |
| UserService.NewUser | src/endpoints/auth/service.py:40-43 | the new user takes the body's fields, the hash in place of the password, and the role "user" whatever the body says |
| UserService.CreateUser | src/endpoints/auth/service.py:37-48 | appends exactly that one new user, hashing the password and forcing role "user"; existing users are unchanged and keys stay unique |
| AuthService.GetUserByEmail | src/auth/service.py:10-14 | the first user with that email, or None exactly when no user has it |
| AuthService.UserExists | src/auth/service.py:16-18 | true exactly when some user has that email, i.e. the lookup is not None |
| AuthService.LookupsAgree | src/auth/service.py:10-14 | the None-returning and the raising lookup find the same user, and fail on the same emails |
| AuthService.CreateUser | src/auth/service.py:20-31 | appends exactly one user built from the body, with hash(password) and role "user" |
| AuthRoutes.ClaimFor | src/auth/routes.py:63-67 | the login `user` claim is the stored user's email, uid and role |
| AuthRoutes.CreateUserAccount | src/auth/routes.py:23-38 | an invalid body is refused with 422; an existing email gets 403 "User with email already exists" and creates nothing; otherwise exactly one user is created through the user service |
| AuthRoutes.LoginUser | src/auth/routes.py:41-69 | succeeds exactly for a known email whose stored hash verifies the password, with a pair built from that user's email, uid and role; every other valid body gets 403 "Invalid email or password." |
| AuthRoutes.LoginFailuresLookAlike | src/auth/routes.py:49-61 | an unknown email and a wrong password produce the identical 403 |
| AuthRoutes.GetNewAccessToken | src/auth/routes.py:72-78 | succeeds exactly for a token passing the refresh guard, with a new pair built from that token's `user` claim unchanged |
| AuthRoutes.RevokeToken | src/auth/routes.py:81-93 | for a token passing the access guard, sets exactly its jti on the blocklist and answers "Logged out successfully"; a rejected token leaves the blocklist as it was |
| AuthRoutes.IssuedPairPassesTheRightGuards | src/auth/routes.py:63-78 | before expiry and revocation, a fresh access token passes only the access guard and a fresh refresh token only the refresh guard |
| AuthRoutes.LogoutCoversLifetime | src/auth/routes.py:81-86 | after logout the logged-out access token is refused at every later time: as revoked while unexpired, as expired afterwards; this reads `exp` and the blocklist expiry on one clock, whereas the source writes naive local `datetime.now()` into `exp` (src/endpoints/auth/utils.py:42) |
| AuthRoutes.LogoutLeavesOtherTokens | src/auth/routes.py:85-86 | logout does not change the access guard's answer for any token with another jti |
| AuthRoutes.RefreshAfterLogout | src/auth/routes.py:72-86 | after logging out a pair's access token, its refresh token still yields a new pair whose access token passes the access guard |
| AuthRoutes.SignupThenLogin | src/auth/routes.py:23-69 | a user who has just signed up can log in with the same credentials and gets tokens naming the new uid and role "user" |
| BookDependencies.OwnsBookOrAdmin | src/endpoints/books/dependencies.py:12-26 | after a passing access guard, passes exactly an admin token or the owner of the book per the token's uid, otherwise 403; guard failures pass through |
| BookDependencies.AdminPassesWithoutLookup | src/endpoints/books/dependencies.py:19-21 | an admin token passes whatever the books table holds |
| BookDependencies.GuardRejectsFirst | src/endpoints/books/dependencies.py:15-18 | refresh, revoked and undecodable tokens are refused by the access guard, never by the ownership test |
| BookService.ApplyBookUpdate | src/endpoints/books/service.py:82-84 | the setattr loop over the update writes each of its five fields and no other |
| BookService.GetAllBooks | src/endpoints/books/service.py:20-24 | every book exactly once, newest first |
| BookService.GetUserBooks | src/endpoints/books/service.py:26-34 | exactly the books owned by that user, each as often as it occurs in the table (the same multiset as the filter), newest first |
| BookService.UserOwnsBook | src/endpoints/books/service.py:36-42 | true exactly when some book has that uid and that owner |
| BookService.GetBook | src/endpoints/books/service.py:44-53 | the book with that uid, or BookNotFoundException "Book with id … was not found." exactly when there is none |
| BookService.CreateBook | src/endpoints/books/service.py:55-72 | appends one book owned by the caller with the parsed date and the body's fields; a date that does not parse raises ValueError and adds nothing |
| BookService.UpdateBook | src/endpoints/books/service.py:74-87 | overwrites the update's fields on that one book, leaves every other row as it was, and raises not-found for an unknown id without changing anything |
| BookService.DeleteBook | src/endpoints/books/service.py:89-96 | removes exactly the book with that uid and returns it; raises not-found for an unknown id without changing anything |
| BookService.DeletedBookIsGone | src/endpoints/books/service.py:89-96 | after deleting a book, looking it up raises not-found |
| ReviewDependencies.OwnsReviewOrAdmin | src/endpoints/reviews/dependencies.py:12-26 | after a passing access guard, passes exactly an admin token or the author of the review per the token's uid, otherwise 403; guard failures pass through |
| ReviewDependencies.AdminPassesWithoutLookup | src/endpoints/reviews/dependencies.py:19-21 | an admin token passes whatever the reviews table holds |
| ReviewDependencies.AuthorPassesOthersRefused | src/endpoints/reviews/dependencies.py:17-26 | for a non-admin, the gate passes exactly when the token's uid is the review's author |
| ReviewService.ApplyReviewUpdate | src/endpoints/reviews/service.py:104-106 | the setattr loop writes rating and text and no other field |
| ReviewService.GetAllReviews | src/endpoints/reviews/service.py:26-30 | every review exactly once, newest first |
| ReviewService.GetUserReviews | src/endpoints/reviews/service.py:32-40 | exactly that user's reviews, each as often as it occurs in the table (the same multiset as the filter), newest first |
| ReviewService.GetReview | src/endpoints/reviews/service.py:42-51 | the review with that uid, or ReviewNotFoundException exactly when there is none |
| ReviewService.UserOwnsReview | src/endpoints/reviews/service.py:53-61 | true exactly when some review has that uid and that author |
| ReviewService.FindBookAndUser | src/endpoints/reviews/service.py:73-80 | succeeds exactly when the book and the user both exist, with the ones the two services return; otherwise one ReviewException naming the book id and the email |
| ReviewService.AddReviewForBook | src/endpoints/reviews/service.py:63-93 | appends one review linked to that book and that user with the body's rating and text; adds nothing and raises ReviewException when either is missing |
| ReviewService.UpdateReview | src/endpoints/reviews/service.py:95-109 | overwrites rating and text on that one review and leaves every other row; not-found for an unknown id changes nothing |
| ReviewService.DeleteReview | src/endpoints/reviews/service.py:111-119 | removes exactly that review; not-found for an unknown id changes nothing |
| ReviewService.AddedReviewIsOwned | src/endpoints/reviews/service.py:82-93 | the author of a newly added review owns it |
| TagService.TagNamed | src/endpoints/tags/service.py:67-69 | `one_or_none` by name: no row exactly when no tag has the name, an error exactly when two do, otherwise the only tag with that name |
| TagService.LinkedNames | src/endpoints/tags/service.py:57 | the names of the tags linked to the book, and with unique keys every linked tag's name |
| TagService.Wanted | src/endpoints/tags/service.py:63-65 | the requested names kept by the loop are exactly those not already on the book |
| TagService.Collect | src/endpoints/tags/service.py:63-74 | the loop over the requested names as a recursion; its only failure is MultipleResultsFound from `one_or_none` (the lemmas below state the rest) |
| TagService.RepeatedNewNameMakesTwoTags | src/endpoints/tags/service.py:63-74 | a name no tag has, requested twice, yields two new tags with that name, so tag names stop being distinct |
| TagService.CollectedNames | src/endpoints/tags/service.py:61-74 | the collected list carries exactly the requested names not already on the book, in request order |
| TagService.CollectedReusedOrNew | src/endpoints/tags/service.py:67-74 | every collected tag is an existing tag or a new one, and every new tag is collected |
| TagService.ReusedTagIsOnlyOne | src/endpoints/tags/service.py:67-69 | a reused tag is the only tag of the table with its name |
| TagService.NewTagsFromSupply | src/endpoints/tags/service.py:70-71 | a new tag is made for a name no tag has, at `now`, with the next uuid draw |
| TagService.CollectFailsIff | src/endpoints/tags/service.py:63-74 | the loop fails exactly when a name it looks up is carried by two tags |
| TagService.DistinctNamesCollect | src/endpoints/tags/service.py:63-74 | with distinct tag names in the table the loop never fails |
| TagService.CollectTags | src/endpoints/tags/service.py:61-74 | the loop computes exactly the recursive collection |
| TagService.AddTagsForBook | src/endpoints/tags/service.py:46-81 | an unknown book raises TagException with the book error's message; otherwise the book's tag list is replaced by exactly the collected list, the new tags join the table, and no other row changes |
| TagService.PreviousTagsDetached | src/endpoints/tags/service.py:57-76 | none of the tags attached before the call stays attached, including requested ones |
| TagService.GetAllTags | src/endpoints/tags/service.py:29-33 | every tag exactly once, newest first |
| TagService.GetTag | src/endpoints/tags/service.py:35-44 | the tag with that uid, or TagNotFoundException exactly when there is none |
| TagService.CreateTag | src/endpoints/tags/service.py:83-97 | an existing name raises and adds nothing (TagAlreadyExistsException when names are distinct); a new name adds one tag; pairwise-distinct names are preserved |
| TagService.UpdateTag | src/endpoints/tags/service.py:99-113 | renames that one tag and leaves every other row; not-found for an unknown id changes nothing |
| TagService.DeleteTag | src/endpoints/tags/service.py:115-123 | removes exactly that tag; not-found for an unknown id changes nothing |
| Tables.SetAttrs | src/endpoints/books/service.py:82-84 | the `setattr` loop applies the update items in order; the same loop serves `update_review` (src/endpoints/reviews/service.py:104-106) and `update_tag` (src/endpoints/tags/service.py:108-110) |

## Left out

- JWT signing and verification: a token is its claims; which error the library reports is an input.
- The `logging.exception` call that `decode_token` makes before returning None (src/endpoints/auth/utils.py:66-72) is not modelled: logging has no effect on any outcome.
- bcrypt hashing and checking: `hash` and `verify` are parameters.
- uuid4: new rows take a `uid` argument assumed fresh, and the token and tag paths take a supply assumed injective.
- The clock: time is a `nat` of seconds; the naive local `datetime.now()` written into `exp` is not modelled.
- `strptime`: a parameter from string to an optional date.
- The Redis connection and its configuration: the blocklist is a map; a store that cannot be reached is not modelled.
- Sessions, commits, lazy relationships and cascades: tables are sequences. Deleting a book does not model what happens to its reviews and tag links, and deleting a user or tag does not touch other tables.
- AddTagsForBook: does not keep tag names distinct, as `create_tag` does; a new name requested twice makes two tags with that name (TagService.RepeatedNewNameMakesTwoTags).
- AddTagsForBook: a tag list holding the same tag twice is kept as a sequence; the duplicate link row the database would refuse at commit is not modelled.
- HTTP plumbing: routing, dependency injection, response construction and the extraction of the bearer header, which the library performs.
- The `GET /current_user` route only returns what `get_current_user` returns; it is covered by AuthDependencies.GetCurrentUser.
- The tag route at src/endpoints/tags/routes.py:40-44 passes an argument the service does not accept, so that route is not modelled; the service operation is.
- Middleware (src/middleware/main.py) and application wiring.
- async/await: each call is one sequential step.
- src/schemas/books_schemas.py, src/schemas/reviews_schemas.py and src/db/models/tags_models.py are not part of this model. The book update fields follow src/books/schemas.py, and the review update is taken to carry rating and text.
- Request-body validation of book, review and tag bodies, including the rating range 1 to 5, is not modelled; only the signup and login bodies are validated.
- CreateTag: under a table that already has two tags with the name, the source raises MultipleResultsFound; the contract names TagAlreadyExistsException only when names are distinct.
