/**
 * The user service of the older tree (src/auth/service.py), which the auth
 * routes use: its lookup returns None instead of raising.
 */
module AuthService {
  import opened Common
  import opened Tables
  import opened Models
  import opened AuthSchemas
  import UserService

  /** `get_user_by_email`: the first user with that email, or None. */
  function GetUserByEmail(users: seq<User>, email: string): (r: Option<User>)
    ensures r.Some? ==> r.value in users && r.value.email == email
    ensures r.Some? ==> exists i :: 0 <= i < |users| && users[i] == r.value
                                    && forall k :: 0 <= k < i ==> users[k].email != email
    ensures r.None? <==> forall u :: u in users ==> u.email != email
  {
    match FirstIndex(users, (u: User) => u.email == email)
    case Some(i) => Some(users[i])
    case None => None
  }

  /** `user_exists`: true exactly when the lookup is not None. */
  function UserExists(users: seq<User>, email: string): (r: bool)
    ensures r <==> exists u :: u in users && u.email == email
  {
    GetUserByEmail(users, email).Some?
  }

  /** The two lookups find the same user, one returning None where the other raises. */
  lemma LookupsAgree(users: seq<User>, email: string)
    ensures GetUserByEmail(users, email).None? <==> UserService.GetUserByEmail(users, email).Failure?
    ensures GetUserByEmail(users, email).Some? ==>
      UserService.GetUserByEmail(users, email) == Success(GetUserByEmail(users, email).value)
  {
    var a := GetUserByEmail(users, email);
    var b := UserService.GetUserByEmail(users, email);
    if a.Some? && b.Success? {
      var i :| 0 <= i < |users| && users[i] == a.value && forall k :: 0 <= k < i ==> users[k].email != email;
      var j :| 0 <= j < |users| && users[j] == b.value && forall k :: 0 <= k < j ==> users[k].email != email;
      assert i == j;
    }
  }

  /** `create_user`: the same insert as the endpoints service. */
  method CreateUser(db: Session, data: UserCreate, hash: string -> string, uid: Uid, now: nat)
    returns (u: User)
    requires db.Valid() && FreshKey(db.users, UserKey, uid)
    modifies db`users
    ensures db.Valid()
    ensures u == UserService.NewUser(data, hash(data.password), uid, now)
    ensures db.users == old(db.users) + [u]
  {
    u := UserService.CreateUser(db, data, hash, uid, now);
  }
}
