/** The per-request identity and the two authorization guards. */
module Guards {
  import opened Wrappers
  import opened Schema
  import opened Errors

  /** The decoded session payload: exactly what login signs into the token. */
  datatype Identity = Identity(id: Id, username: string, role: string)

  /** A request context: the identity is absent when there is no valid token. */
  datatype Context = Context(user: Option<Identity>)

  const NOT_AUTHENTICATED := Error(Unauthenticated, "Not authenticated")
  const ADMIN_REQUIRED := Error(Forbidden, "Not authorized. Admin access required.")

  /** Fails, with UNAUTHENTICATED, exactly when the context carries no identity. */
  function CheckAuth(ctx: Context): (r: Option<Error>)
    ensures r.Some? <==> ctx.user.None?
    ensures r.Some? ==> r.value.code == Unauthenticated
  {
    if ctx.user.None? then Some(NOT_AUTHENTICATED) else None
  }

  /**
   * Runs CheckAuth first; an authenticated caller is then refused with
   * FORBIDDEN exactly when its role is not "ADMIN".
   */
  function CheckAdmin(ctx: Context): (r: Option<Error>)
    ensures r.Some? && r.value.code == Unauthenticated <==> ctx.user.None?
    ensures r.Some? && r.value.code == Forbidden <==> ctx.user.Some? && ctx.user.value.role != ADMIN
    ensures r.None? <==> ctx.user.Some? && ctx.user.value.role == ADMIN
    ensures r.None? ==> CheckAuth(ctx).None?
  {
    match CheckAuth(ctx)
    case Some(e) => Some(e)
    case None => if ctx.user.value.role != ADMIN then Some(ADMIN_REQUIRED) else None
  }
}
