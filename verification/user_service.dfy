/**
 * The user service of the endpoints tree (src/endpoints/auth/service.py):
 * a lookup by email that raises UserNotFoundException, an existence test,
 * and the insert that the signup flow performs.
 */
module UserService {
  import opened Common
  import opened Tables
  import opened Models
  import opened AuthSchemas
  import AuthUtils

  function UserNotFoundMessage(email: string): string
  {
    "User with email " + email + " was not found."
  }

  /** `get_user_by_email`: the first user with that email, or UserNotFoundException. */
  function GetUserByEmail(users: seq<User>, email: string): (r: Result<User, ServiceError>)
    ensures r.Success? ==> r.value in users && r.value.email == email
    ensures r.Success? ==> exists i :: 0 <= i < |users| && users[i] == r.value
                                       && forall k :: 0 <= k < i ==> users[k].email != email
    ensures r.Failure? <==> forall u :: u in users ==> u.email != email
    ensures r.Failure? ==> r.error == UserNotFound(UserNotFoundMessage(email))
  {
    match FirstIndex(users, (u: User) => u.email == email)
    case Some(i) => Success(users[i])
    case None => Failure(UserNotFound(UserNotFoundMessage(email)))
  }

  /** `user_exists`: the lookup does not raise exactly when some user has that email. */
  function UserExists(users: seq<User>, email: string): (r: bool)
    ensures r <==> exists u :: u in users && u.email == email
  {
    GetUserByEmail(users, email).Success?
  }

  /**
   * The record `create_user` builds: the body without its password, plus
   * `password_hash` and the role "user"; uid, verified flag and timestamps
   * take their column defaults.
   */
  function NewUser(data: UserCreate, passwordHash: string, uid: Uid, now: nat): (u: User)
    ensures u.role == AuthUtils.UserRole.RegularUser.Value()
    ensures u.passwordHash == passwordHash && u.uid == uid
    ensures u.email == data.email && u.username == data.username
    ensures u.firstName == data.firstName && u.lastName == data.lastName
    ensures !u.isVerified && u.createdAt == now && u.updatedAt == now
  {
    User(uid, data.username, data.email, data.firstName, data.lastName,
         AuthUtils.UserRole.RegularUser.Value(), false, passwordHash, now, now)
  }

  /**
   * `create_user`: inserts one user whose hash is `hash(password)` and whose
   * role is "user"; `uid` is the uuid4 drawn for it.
   */
  method CreateUser(db: Session, data: UserCreate, hash: string -> string, uid: Uid, now: nat)
    returns (u: User)
    requires db.Valid() && FreshKey(db.users, UserKey, uid)
    modifies db`users
    ensures db.Valid()
    ensures u == NewUser(data, hash(data.password), uid, now)
    ensures db.users == old(db.users) + [u]
  {
    u := NewUser(data, hash(data.password), uid, now);
    AppendFreshKey(db.users, UserKey, u);
    db.users := db.users + [u];
  }
}
