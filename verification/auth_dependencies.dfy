/**
 * The request guards (src/endpoints/auth/dependencies.py). A bearer takes
 * what the JWT library made of the presented token, checks its kind and,
 * for access tokens, the revocation blocklist; it returns the claims or
 * rejects. The bearer header itself is parsed by the framework: the model
 * starts from the decoded token. The guards read the blocklist as a value
 * and so cannot change it.
 */
module AuthDependencies {
  import opened Common
  import opened Http
  import opened Models
  import opened AuthUtils
  import opened RedisJti
  import UserService

  const INVALID_TOKEN: HttpError :=
    HttpError(FORBIDDEN, ErrorResolution("Invalid or expired token", "Please get a new token"))
  const ACCESS_TOKEN_EXPECTED: HttpError :=
    HttpError(FORBIDDEN, ErrorResolution("Received a refresh token but expected an access token",
                                         "Please provide an access token"))
  const TOKEN_REVOKED: HttpError :=
    HttpError(FORBIDDEN, ErrorResolution("This token has been revoked", "Please get a new token"))
  const REFRESH_TOKEN_EXPECTED: HttpError :=
    HttpError(FORBIDDEN, ErrorResolution("Received an access token but expected a refresh token",
                                         "Please provide a refresh token"))
  const MISSING_EMAIL: HttpError :=
    HttpError(FORBIDDEN, ErrorResolution("Missing or invalid email",
                                         "Please make sure your user email is correct and up to date "
                                         + "or try to contact support"))
  const NOT_ALLOWED: HttpError :=
    HttpError(FORBIDDEN, Text("You are not allowed to perform this action"))

  /** `TokenBearer.__call__`: decode, and reject when decode_token returns None. */
  function TokenBearer(o: CodecOutcome): (r: Outcome<Claims>)
    ensures r.Done? <==> o.Valid?
    ensures o.Valid? ==> r.value == o.claims
    ensures r == Raised(INVALID_TOKEN) <==> DecodeToken(o) == Done(None)
    ensures r.Crashed? <==> o.OtherInvalid?
    ensures !r.Unprocessable?
  {
    var decoded := DecodeToken(o);
    if decoded.Crashed? then Crashed(decoded.exception)
    else if decoded.Done? && decoded.value.Some? then Done(decoded.value.value)
    else Raised(INVALID_TOKEN)
  }

  /**
   * `AccessTokenBearer.__call__`: the base check, then the kind check, then
   * the blocklist lookup for the token's jti at time `now`.
   */
  function AccessTokenBearer(o: CodecOutcome, store: Store, now: nat): (r: Outcome<Claims>)
    ensures r.Done? <==> o.Valid? && !o.claims.refresh && !InBlocklist(store, o.claims.jti, now)
    ensures r.Done? ==> r.value == o.claims
    ensures o.ExpiredSignature? || o.JwkError? ==> r == Raised(INVALID_TOKEN)
    ensures o.OtherInvalid? ==> r.Crashed?
    ensures o.Valid? && o.claims.refresh ==> r == Raised(ACCESS_TOKEN_EXPECTED)
    ensures o.Valid? && !o.claims.refresh && InBlocklist(store, o.claims.jti, now) ==>
              r == Raised(TOKEN_REVOKED)
  {
    var t := TokenBearer(o);
    if !t.Done? then t
    else if t.value.refresh then Raised(ACCESS_TOKEN_EXPECTED)
    else if InBlocklist(store, t.value.jti, now) then Raised(TOKEN_REVOKED)
    else t
  }

  /** `RefreshTokenBearer.__call__`: the base check, then the kind check; no blocklist lookup. */
  function RefreshTokenBearer(o: CodecOutcome): (r: Outcome<Claims>)
    ensures r.Done? <==> o.Valid? && o.claims.refresh
    ensures r.Done? ==> r.value == o.claims
    ensures o.ExpiredSignature? || o.JwkError? ==> r == Raised(INVALID_TOKEN)
    ensures o.OtherInvalid? ==> r.Crashed?
    ensures o.Valid? && !o.claims.refresh ==> r == Raised(REFRESH_TOKEN_EXPECTED)
  {
    var t := TokenBearer(o);
    if !t.Done? then t
    else if !t.value.refresh then Raised(REFRESH_TOKEN_EXPECTED)
    else t
  }

  /** `get_current_user`: the access guard, then the user whose email the token names. */
  function GetCurrentUser(o: CodecOutcome, store: Store, now: nat, users: seq<User>): (r: Outcome<User>)
    ensures r.Done? ==> AccessTokenBearer(o, store, now).Done?
    ensures r.Done? ==> r.value in users && r.value.email == o.claims.user.email
    ensures r.Done? ==> UserService.GetUserByEmail(users, o.claims.user.email) == Success(r.value)
    ensures AccessTokenBearer(o, store, now).Done? ==>
              (r.Done? <==> exists u :: u in users && u.email == o.claims.user.email)
    ensures AccessTokenBearer(o, store, now).Done? ==>
              (r == Raised(MISSING_EMAIL) <==> forall u :: u in users ==> u.email != o.claims.user.email)
    ensures !AccessTokenBearer(o, store, now).Done? ==>
              r == AccessTokenBearer(o, store, now).PropagateFailure()
  {
    var t := AccessTokenBearer(o, store, now);
    if !t.Done? then t.PropagateFailure()
    else
      match UserService.GetUserByEmail(users, t.value.user.email)
      case Success(u) => Done(u)
      case Failure(_) => Raised(MISSING_EMAIL)
  }

  /**
   * `RoleChecker(allowed_roles)` called as a dependency: the current user,
   * then a test of the role stored for that user against `allowedRoles`.
   */
  function RoleChecker(allowedRoles: seq<string>, o: CodecOutcome, store: Store, now: nat,
                       users: seq<User>): (r: Outcome<()>)
    ensures var cur := GetCurrentUser(o, store, now, users);
      && (r.Done? <==> cur.Done? && cur.value.role in allowedRoles)
      && (cur.Done? && cur.value.role !in allowedRoles ==> r == Raised(NOT_ALLOWED))
      && (!cur.Done? ==> r == cur.PropagateFailure())
  {
    var cur := GetCurrentUser(o, store, now, users);
    if !cur.Done? then cur.PropagateFailure()
    else if cur.value.role !in allowedRoles then Raised(NOT_ALLOWED)
    else Done(())
  }
}
