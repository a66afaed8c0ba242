/**
 * The auth endpoints (src/auth/routes.py): signup, login, refresh and
 * logout, over the users table and the revocation blocklist. Request-body
 * validation happens before a handler runs; a body that fails it ends in
 * `Unprocessable`. Password hashing and checking are the parameters `hash`
 * and `verify`.
 */
module AuthRoutes {
  import opened Common
  import opened Http
  import opened Models
  import opened AuthSchemas
  import opened AuthUtils
  import opened RedisJti
  import opened AuthDependencies
  import AuthService
  import UserService

  const USER_ALREADY_EXISTS: HttpError := HttpError(FORBIDDEN, Text("User with email already exists"))
  const INVALID_CREDENTIALS: HttpError := HttpError(FORBIDDEN, Text("Invalid email or password."))
  const LOGGED_OUT: string := "Logged out successfully"

  /** The `user` claim login puts in its tokens: email, uid and stored role of the user. */
  function ClaimFor(u: User): (d: UserData)
    ensures d.email == u.email && d.userUid == u.uid && d.role == u.role
  {
    UserData(u.email, u.uid, u.role)
  }

  /**
   * `POST /signup`: 403 when a user has the email, otherwise one new user
   * with role "user" and the hash of the password; `uid` is the uuid4 drawn
   * for it.
   */
  method CreateUserAccount(db: Session, body: UserCreate, hash: string -> string, uid: Uid, now: nat)
    returns (r: Outcome<User>)
    requires db.Valid() && FreshKey(db.users, UserKey, uid)
    modifies db`users
    ensures db.Valid()
    ensures !ValidUserCreate(body) ==> r == Unprocessable && db.users == old(db.users)
    ensures ValidUserCreate(body) && AuthService.UserExists(old(db.users), body.email) ==>
              r == Raised(USER_ALREADY_EXISTS) && db.users == old(db.users)
    ensures ValidUserCreate(body) && !AuthService.UserExists(old(db.users), body.email) ==>
              && r == Done(UserService.NewUser(body, hash(body.password), uid, now))
              && db.users == old(db.users) + [r.value]
  {
    if !ValidUserCreate(body) {
      return Unprocessable;
    }
    if AuthService.UserExists(db.users, body.email) {
      return Raised(USER_ALREADY_EXISTS);
    }
    var u := AuthService.CreateUser(db, body, hash, uid, now);
    r := Done(u);
  }

  /**
   * `POST /login`: the same 403 for an unknown email and for a wrong
   * password; otherwise a fresh token pair for the stored user, drawing
   * `uuid4(draw)` and `uuid4(draw + 1)`.
   */
  function LoginUser(users: seq<User>, body: UserLogin, verify: (string, string) -> bool,
                     now: nat, uuid4: nat -> Uid, draw: nat): (r: Outcome<TokenPair>)
    ensures !ValidUserLogin(body) ==> r == Unprocessable
    ensures var found := AuthService.GetUserByEmail(users, body.email);
      && (r.Done? <==> ValidUserLogin(body) && found.Some? && verify(body.password, found.value.passwordHash))
      && (r.Done? ==> r.value == CreateTokenPair(ClaimFor(found.value), now, uuid4, draw))
    ensures ValidUserLogin(body) && !r.Done? ==> r == Raised(INVALID_CREDENTIALS)
  {
    if !ValidUserLogin(body) then Unprocessable
    else
      match AuthService.GetUserByEmail(users, body.email)
      case None => Raised(INVALID_CREDENTIALS)
      case Some(u) =>
        if !verify(body.password, u.passwordHash) then Raised(INVALID_CREDENTIALS)
        else Done(CreateTokenPair(ClaimFor(u), now, uuid4, draw))
  }

  /** An unknown email and a wrong password for a known one give the caller the same answer. */
  lemma LoginFailuresLookAlike(users: seq<User>, unknown: UserLogin, wrong: UserLogin,
                               verify: (string, string) -> bool, now: nat, uuid4: nat -> Uid, draw: nat)
    requires ValidUserLogin(unknown) && ValidUserLogin(wrong)
    requires forall u :: u in users ==> u.email != unknown.email
    requires exists u :: u in users && u.email == wrong.email
    requires !verify(wrong.password, AuthService.GetUserByEmail(users, wrong.email).value.passwordHash)
    ensures LoginUser(users, unknown, verify, now, uuid4, draw)
         == LoginUser(users, wrong, verify, now, uuid4, draw)
         == Raised(INVALID_CREDENTIALS)
  {
  }

  /**
   * `GET /refresh_token`: a new pair built from the `user` claim of a token
   * that passes the refresh guard, unchanged.
   */
  function GetNewAccessToken(o: CodecOutcome, now: nat, uuid4: nat -> Uid, draw: nat): (r: Outcome<TokenPair>)
    ensures r.Done? <==> o.Valid? && o.claims.refresh
    ensures r.Done? ==> r.value == CreateTokenPair(o.claims.user, now, uuid4, draw)
    ensures !r.Done? ==> r == RefreshTokenBearer(o).PropagateFailure()
  {
    var t := RefreshTokenBearer(o);
    if !t.Done? then t.PropagateFailure()
    else Done(CreateTokenPair(t.value.user, now, uuid4, draw))
  }

  /**
   * `GET /logout`: for a token that passes the access guard, puts exactly its
   * jti on the blocklist at time `now`; a rejected token changes nothing.
   */
  method RevokeToken(blocklist: Blocklist, o: CodecOutcome, now: nat) returns (r: Outcome<string>)
    modifies blocklist
    ensures var guard := AccessTokenBearer(o, old(blocklist.store), now);
      && (guard.Done? ==> r == Done(LOGGED_OUT) && blocklist.store == WithJti(old(blocklist.store), o.claims.jti, now))
      && (!guard.Done? ==> r == guard.PropagateFailure() && blocklist.store == old(blocklist.store))
  {
    var guard := AccessTokenBearer(o, blocklist.store, now);
    if !guard.Done? {
      return guard.PropagateFailure();
    }
    blocklist.AddJtiToBlocklist(guard.value.jti, now);
    r := Done(LOGGED_OUT);
  }

  /**
   * A freshly issued pair, read back before it expires and while its access
   * jti is not blocklisted: the access token passes the access guard with
   * its claims and is refused by the refresh guard, and the refresh token the
   * other way round.
   */
  lemma IssuedPairPassesTheRightGuards(userData: UserData, issuedAt: nat, uuid4: nat -> Uid, draw: nat,
                                       store: Store, now: nat)
    requires now < issuedAt + ACCESS_TOKEN_EXPIRY
    requires !InBlocklist(store, uuid4(draw), now)
    ensures var p := CreateTokenPair(userData, issuedAt, uuid4, draw);
      && AccessTokenBearer(DecodeGenuine(p.accessToken, now), store, now) == Done(p.accessToken.claims)
      && RefreshTokenBearer(DecodeGenuine(p.accessToken, now)) == Raised(REFRESH_TOKEN_EXPECTED)
      && RefreshTokenBearer(DecodeGenuine(p.refreshToken, now)) == Done(p.refreshToken.claims)
      && AccessTokenBearer(DecodeGenuine(p.refreshToken, now), store, now) == Raised(ACCESS_TOKEN_EXPECTED)
  {
  }

  /**
   * After logout at time t, the logged-out access token is refused for as
   * long as it would otherwise be accepted, and from then on for good: while
   * it is unexpired the blocklist refuses it, afterwards its expiry does.
   */
  lemma LogoutCoversLifetime(userData: UserData, issuedAt: nat, uuid4: nat -> Uid,
                             draw: nat, store: Store, t: nat, now: nat)
    requires issuedAt <= t <= now
    ensures var access := CreateTokenPair(userData, issuedAt, uuid4, draw).accessToken;
      var after := WithJti(store, access.claims.jti, t);
      && !AccessTokenBearer(DecodeGenuine(access, now), after, now).Done?
      && (now < issuedAt + ACCESS_TOKEN_EXPIRY ==>
            AccessTokenBearer(DecodeGenuine(access, now), after, now) == Raised(TOKEN_REVOKED))
      && (now >= issuedAt + ACCESS_TOKEN_EXPIRY ==>
            AccessTokenBearer(DecodeGenuine(access, now), after, now) == Raised(INVALID_TOKEN))
  {
    var access := CreateTokenPair(userData, issuedAt, uuid4, draw).accessToken;
    var after := WithJti(store, access.claims.jti, t);
    if now < issuedAt + ACCESS_TOKEN_EXPIRY {
      BlockedUntilExpiry(store, access.claims.jti, t, now);
      EntryLifetimeIsAccessLifetime();
      assert InBlocklist(after, access.claims.jti, now);
    }
  }

  /** Logout changes the access guard's answer for no token with another jti. */
  lemma LogoutLeavesOtherTokens(store: Store, jti: string, t: nat, other: CodecOutcome, now: nat)
    requires other.Valid? ==> other.claims.jti != jti
    ensures AccessTokenBearer(other, WithJti(store, jti, t), now) == AccessTokenBearer(other, store, now)
  {
    if other.Valid? {
      AddLeavesOthers(store, jti, t, other.claims.jti, now);
    }
  }

  /**
   * After logging out the access token of a pair, its refresh token still
   * passes the refresh guard until it expires, and the access token of the
   * pair it is exchanged for passes the access guard: with distinct uuid
   * draws, its jti is not the revoked one.
   */
  lemma RefreshAfterLogout(userData: UserData, issuedAt: nat, uuid4: nat -> Uid, draw: nat,
                           store: Store, t: nat, now: nat, draw2: nat)
    requires Injective(uuid4) && draw2 != draw
    requires issuedAt <= t <= now < issuedAt + REFRESH_TOKEN_EXPIRY
    requires !InBlocklist(store, uuid4(draw2), now)
    ensures var p := CreateTokenPair(userData, issuedAt, uuid4, draw);
      var after := WithJti(store, p.accessToken.claims.jti, t);
      var renewed := GetNewAccessToken(DecodeGenuine(p.refreshToken, now), now, uuid4, draw2);
      && renewed == Done(CreateTokenPair(userData, now, uuid4, draw2))
      && AccessTokenBearer(DecodeGenuine(renewed.value.accessToken, now), after, now)
         == Done(renewed.value.accessToken.claims)
  {
    var p := CreateTokenPair(userData, issuedAt, uuid4, draw);
    var renewed := CreateTokenPair(userData, now, uuid4, draw2);
    assert uuid4(draw2) != uuid4(draw);
    AddLeavesOthers(store, p.accessToken.claims.jti, t, renewed.accessToken.claims.jti, now);
  }

  /**
   * A user who has just signed up can log in with the same email and
   * password, when `verify` accepts a password against its own hash, and
   * receives tokens naming the new uid and the role "user".
   */
  lemma SignupThenLogin(users: seq<User>, body: UserCreate, hash: string -> string,
                        verify: (string, string) -> bool, uid: Uid, createdAt: nat,
                        now: nat, uuid4: nat -> Uid, draw: nat)
    requires ValidUserCreate(body) && !AuthService.UserExists(users, body.email)
    requires verify(body.password, hash(body.password))
    ensures var users' := users + [UserService.NewUser(body, hash(body.password), uid, createdAt)];
      LoginUser(users', UserLogin(body.email, body.password), verify, now, uuid4, draw)
        == Done(CreateTokenPair(UserData(body.email, uid, "user"), now, uuid4, draw))
  {
    var u := UserService.NewUser(body, hash(body.password), uid, createdAt);
    var users' := users + [u];
    SignupCredentialsAreLoginValid(body);
    var found := AuthService.GetUserByEmail(users', body.email);
    assert u in users';
    assert found.Some?;
    var i :| 0 <= i < |users'| && users'[i] == found.value
             && forall k :: 0 <= k < i ==> users'[k].email != body.email;
    assert found.value == u;
  }
}
