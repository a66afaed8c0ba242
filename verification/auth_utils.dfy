/**
 * Token issuing and decoding (src/endpoints/auth/utils.py).
 *
 * Signing is abstracted: a `Jwt` stands for the string `jwt.encode` produces
 * for its claims under the configured secret and algorithm. What `jwt.decode`
 * reports for a token string is an input (`CodecOutcome`). The clock is a
 * `now: nat` parameter and uuid4 is a supply `uuid4: nat -> Uid`.
 */
module AuthUtils {
  import opened Common
  import opened Http

  const ACCESS_TOKEN_EXPIRY: nat := 60 * 60
  const REFRESH_TOKEN_EXPIRY: nat := 60 * 60 * 24 * 2

  /** The `UserRoles` enum. */
  datatype UserRole = Admin | RegularUser
  {
    function Value(): string
    {
      match this
      case Admin => "admin"
      case RegularUser => "user"
    }
  }

  /** `UserRoles(value)`: the member with that value, if any. */
  function RoleFromValue(s: string): (r: Option<UserRole>)
    ensures r.Some? ==> r.value.Value() == s
    ensures r.None? <==> forall role: UserRole :: role.Value() != s
  {
    if s == "admin" then Some(Admin)
    else if s == "user" then Some(RegularUser)
    else None
  }

  /** The roles are exactly "admin" and "user", and the two values differ. */
  lemma RolesAreAdminAndUser(role: UserRole)
    ensures role.Value() == "admin" || role.Value() == "user"
    ensures RoleFromValue(role.Value()) == Some(role)
    ensures Admin.Value() != RegularUser.Value()
  {
  }

  /** The identity snapshot a token carries under its `user` claim. */
  datatype UserData = UserData(email: string, userUid: string, role: string)

  /** The claims of a token: `{"user", "exp", "jti", "refresh"}`. */
  datatype Claims = Claims(user: UserData, exp: nat, jti: string, refresh: bool)

  /** A signed token, standing for the string `jwt.encode` returns for `claims`. */
  datatype Jwt = Jwt(claims: Claims)

  /** The pair response body of the login and refresh endpoints. */
  datatype TokenPair = TokenPair(
    accessToken: Jwt,
    refreshToken: Jwt,
    tokenType: string,
    accessExp: nat,
    refreshExp: nat)

  function UserDataJson(u: UserData): map<string, JsonValue>
  {
    map["email" := JString(u.email), "user_uid" := JString(u.userUid), "role" := JString(u.role)]
  }

  /** The JSON payload that is signed: the wire form of the claims. */
  function Payload(c: Claims): (p: map<string, JsonValue>)
    ensures p.Keys == {"user", "exp", "jti", "refresh"}
    ensures p["user"] == JObject(UserDataJson(c.user)) && p["refresh"] == JBool(c.refresh)
    ensures p["jti"] == JString(c.jti) && p["exp"] == JInt(c.exp)
  {
    map["user" := JObject(UserDataJson(c.user)), "exp" := JInt(c.exp),
        "jti" := JString(c.jti), "refresh" := JBool(c.refresh)]
  }

  function ParseUserData(m: map<string, JsonValue>): Option<UserData>
  {
    if "email" in m && m["email"].JString? && "user_uid" in m && m["user_uid"].JString?
       && "role" in m && m["role"].JString?
    then Some(UserData(m["email"].s, m["user_uid"].s, m["role"].s))
    else None
  }

  /** Reads claims back from a payload; None when a key is missing or ill-typed. */
  function ParseClaims(p: map<string, JsonValue>): Option<Claims>
  {
    if "user" in p && p["user"].JObject? && "exp" in p && p["exp"].JInt? && p["exp"].n >= 0
       && "jti" in p && p["jti"].JString? && "refresh" in p && p["refresh"].JBool?
    then
      match ParseUserData(p["user"].fields)
      case None => None
      case Some(u) => Some(Claims(u, p["exp"].n, p["jti"].s, p["refresh"].b))
    else None
  }

  /** Reading a payload back gives the claims that were signed. */
  lemma PayloadRoundTrip(c: Claims)
    ensures ParseClaims(Payload(c)) == Some(c)
  {
  }

  /** `create_access_token(user_data, refresh)`, called at time `now` with `jti` the uuid4 drawn. */
  function CreateAccessToken(userData: UserData, refresh: bool, now: nat, jti: Uid): (t: Jwt)
    ensures t.claims.user == userData && t.claims.refresh == refresh && t.claims.jti == jti
    ensures !refresh ==> t.claims.exp == now + 3600
    ensures refresh ==> t.claims.exp == now + 172800
    ensures Payload(t.claims).Keys == {"user", "exp", "jti", "refresh"}
  {
    var expiry := if refresh then REFRESH_TOKEN_EXPIRY else ACCESS_TOKEN_EXPIRY;
    Jwt(Claims(userData, now + expiry, jti, refresh))
  }

  /**
   * `create_access_token_pair_from_user_data(user_data)`: two calls, each
   * drawing the next uuid4 (`uuid4(draw)` then `uuid4(draw + 1)`).
   */
  function CreateTokenPair(userData: UserData, now: nat, uuid4: nat -> Uid, draw: nat): (p: TokenPair)
    ensures p.accessToken.claims.user == userData && p.refreshToken.claims.user == userData
    ensures !p.accessToken.claims.refresh && p.refreshToken.claims.refresh
    ensures p.accessToken.claims.exp == now + 3600 && p.refreshToken.claims.exp == now + 172800
    ensures p.accessToken.claims.jti == uuid4(draw) && p.refreshToken.claims.jti == uuid4(draw + 1)
    ensures p.tokenType == "Bearer" && p.accessExp == 3600 && p.refreshExp == 172800
  {
    var accessToken := CreateAccessToken(userData, false, now, uuid4(draw));
    var refreshToken := CreateAccessToken(userData, true, now, uuid4(draw + 1));
    TokenPair(accessToken, refreshToken, "Bearer", ACCESS_TOKEN_EXPIRY, REFRESH_TOKEN_EXPIRY)
  }

  /** With a supply of distinct uuids, the two tokens of a pair have different jtis. */
  lemma PairJtisDistinct(userData: UserData, now: nat, uuid4: nat -> Uid, draw: nat)
    requires Injective(uuid4)
    ensures var p := CreateTokenPair(userData, now, uuid4, draw);
      p.accessToken.claims.jti != p.refreshToken.claims.jti
  {
    var _ := CreateTokenPair(userData, now, uuid4, draw);
    assert draw != draw + 1;
  }

  /** What `jwt.decode` does with a token string. */
  datatype CodecOutcome =
    | Valid(claims: Claims)   // signature and expiry check out
    | ExpiredSignature        // jwt.ExpiredSignatureError
    | JwkError                // jwt.PyJWKError
    | OtherInvalid            // any other jwt.InvalidTokenError: bad signature, malformed, wrong algorithm

  /**
   * What `jwt.decode` yields for a token this service signed, read at time
   * `now`: PyJWT treats a token as expired once `exp <= now`.
   */
  function DecodeGenuine(t: Jwt, now: nat): (o: CodecOutcome)
    ensures o.Valid? <==> now < t.claims.exp
    ensures o.Valid? ==> o.claims == t.claims
    ensures !o.Valid? ==> o == ExpiredSignature
  {
    if now < t.claims.exp then Valid(t.claims) else ExpiredSignature
  }

  /**
   * `decode_token(token)`: the claims on success, None for the two caught
   * error classes, and any other decode error propagates out of the call.
   */
  function DecodeToken(o: CodecOutcome): (r: Outcome<Option<Claims>>)
    ensures r.Done? && r.value.Some? <==> o.Valid?
    ensures o.Valid? ==> r == Done(Some(o.claims))
    ensures r == Done(None) <==> o.ExpiredSignature? || o.JwkError?
    ensures r.Crashed? <==> o.OtherInvalid?
    ensures !r.Raised? && !r.Unprocessable?
  {
    match o
    case Valid(c) => Done(Some(c))
    case ExpiredSignature => Done(None)
    case JwkError => Done(None)
    case OtherInvalid => Crashed("jwt.InvalidTokenError")
  }
}
