/**
 * login: the credential check and the token it issues. Hash comparison and
 * token signing are foreign code, passed in as functions; the cookie that
 * carries the token is transport and not modelled. Login reads the store and
 * never writes it.
 */
module Session {
  import opened Schema
  import opened Errors
  import opened Guards
  import opened Tables

  datatype AuthPayload = AuthPayload(token: string, user: User)

  const INVALID_CREDENTIALS := Error(Unauthenticated, "Invalid credentials")

  /** The token payload of a user: its id, username and role. */
  function IdentityOf(u: User): Identity
  {
    Identity(u.id, u.username, u.role)
  }

  /** `k` is the position of the first user named `username`. */
  predicate FirstNamed(us: seq<User>, k: int, username: string) {
    0 <= k < |us| && us[k].username == username && forall j :: 0 <= j < k ==> us[j].username != username
  }

  /**
   * Looks the user up by username (the first one in storage order) and checks
   * the password with `matches`. An unknown username and a wrong password
   * fail identically.
   */
  function Login(db: Db, username: string, password: string,
                 matches: (string, string) -> bool, sign: Identity -> string): (r: Result<AuthPayload>)
    ensures r.Err? ==> r.error == INVALID_CREDENTIALS
    ensures r.Ok? <==> exists k :: FirstNamed(db.users, k, username) && matches(password, db.users[k].password)
    ensures r.Ok? ==> exists k :: FirstNamed(db.users, k, username) && r.value.user == db.users[k]
    ensures r.Ok? ==> r.value.token == sign(IdentityOf(r.value.user)) && matches(password, r.value.user.password)
  {
    match UsernameIndex(db.users, username)
    case None => Err(INVALID_CREDENTIALS)
    case Some(k) =>
      assert FirstNamed(db.users, k, username);
      var u := db.users[k];
      if !matches(password, u.password) then Err(INVALID_CREDENTIALS)
      else Ok(AuthPayload(sign(IdentityOf(u)), u))
  }
}
