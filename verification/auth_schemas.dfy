/**
 * The request and response schemas of the auth endpoints
 * (src/schemas/auth_schemas.py): field-length constraints that the framework
 * checks before a handler runs, and the outward form of a user record.
 * Lengths count characters, as the schema library does.
 */
module AuthSchemas {
  import opened Common
  import opened Models

  /** The body of `POST /signup`. */
  datatype UserCreate = UserCreate(
    username: string,
    email: string,
    firstName: string,
    lastName: string,
    password: string)

  /** The body of `POST /login`. */
  datatype UserLogin = UserLogin(email: string, password: string)

  /** A `Field(max_length=n)` or `Field(min_length=n)` constraint on a string field. */
  datatype LengthRule = MaxLength(n: nat) | MinLength(n: nat)

  predicate Obeys(s: string, rule: LengthRule)
  {
    match rule
    case MaxLength(n) => |s| <= n
    case MinLength(n) => |s| >= n
  }

  /** The fields of `UserCreate` with the constraints declared on them. */
  function UserCreateRules(d: UserCreate): seq<(string, LengthRule)>
  {
    [(d.username, MaxLength(16)), (d.email, MaxLength(32)), (d.firstName, MaxLength(32)),
     (d.lastName, MaxLength(32)), (d.password, MinLength(8))]
  }

  /** The fields of `UserLogin` with the constraints declared on them. */
  function UserLoginRules(d: UserLogin): seq<(string, LengthRule)>
  {
    [(d.email, MaxLength(32)), (d.password, MinLength(8))]
  }

  /** A signup body passes validation exactly when every field obeys its declared constraint. */
  function ValidUserCreate(d: UserCreate): (r: bool)
    ensures r <==> forall rule :: rule in UserCreateRules(d) ==> Obeys(rule.0, rule.1)
  {
    var rules := UserCreateRules(d);
    assert rules[0] in rules && rules[1] in rules && rules[2] in rules && rules[3] in rules && rules[4] in rules;
    && |d.username| <= 16
    && |d.email| <= 32
    && |d.firstName| <= 32
    && |d.lastName| <= 32
    && |d.password| >= 8
  }

  /** A login body passes validation exactly when both fields obey their declared constraints. */
  function ValidUserLogin(d: UserLogin): (r: bool)
    ensures r <==> forall rule :: rule in UserLoginRules(d) ==> Obeys(rule.0, rule.1)
  {
    var rules := UserLoginRules(d);
    assert rules[0] in rules && rules[1] in rules;
    |d.email| <= 32 && |d.password| >= 8
  }

  /** The credentials of a valid signup body also make a valid login body. */
  lemma SignupCredentialsAreLoginValid(d: UserCreate)
    requires ValidUserCreate(d)
    ensures ValidUserLogin(UserLogin(d.email, d.password))
  {
  }

  /** The outward `User` schema; `password_hash` is declared with `exclude=True`. */
  function SerializeUser(u: User): (r: map<string, JsonValue>)
    ensures "password_hash" !in r
    ensures r.Keys == {"uid", "username", "email", "first_name", "last_name",
                       "is_verified", "created_at", "updated_at"}
    ensures r["uid"] == JString(u.uid) && r["email"] == JString(u.email)
  {
    map[
      "uid" := JString(u.uid),
      "username" := JString(u.username),
      "email" := JString(u.email),
      "first_name" := JString(u.firstName),
      "last_name" := JString(u.lastName),
      "is_verified" := JBool(u.isVerified),
      "created_at" := JInt(u.createdAt),
      "updated_at" := JInt(u.updatedAt)
    ]
  }

  /** Nothing about the password hash can be read from a serialised user. */
  lemma SerializeIgnoresPasswordHash(u: User, otherHash: string)
    ensures SerializeUser(u) == SerializeUser(u.(passwordHash := otherHash))
  {
  }
}
