/**
 * The read-only queries. Each runs its guard and then reads the tables; none
 * of them can change the store, since they are functions of it.
 */
module Queries {
  import opened Wrappers
  import opened Schema
  import opened Errors
  import opened Guards
  import opened Tables

  /** What a resolver raises when it reads `members` of a team that does not exist. */
  const NULL_TEAM := Error(InternalServerError, "Cannot read properties of null (reading 'members')")

  /** me: the caller's own user record, or null when the token's id names no user. */
  function Me(ctx: Context, db: Db): (r: Result<Option<User>>)
    ensures r.Err? <==> ctx.user.None?
    ensures r.Err? ==> r.error == NOT_AUTHENTICATED
    ensures r.Ok? ==> (r.value.None? <==> forall u :: u in db.users ==> u.id != ctx.user.value.id)
    ensures r.Ok? && r.value.Some? ==> r.value.value in db.users && r.value.value.id == ctx.user.value.id
  {
    match CheckAuth(ctx)
    case Some(e) => Err(e)
    case None =>
      match UserIndex(db.users, ctx.user.value.id)
      case None => Ok(None)
      case Some(k) => Ok(Some(db.users[k]))
  }

  /** viewTeamDetails: any authenticated caller may read any team, member or not. */
  function ViewTeamDetails(ctx: Context, db: Db, teamId: Id): (r: Result<Option<Team>>)
    ensures r.Err? <==> ctx.user.None?
    ensures r.Err? ==> r.error == NOT_AUTHENTICATED
    ensures r.Ok? ==> (r.value.None? <==> forall t :: t in db.teams ==> t.id != teamId)
    ensures r.Ok? && r.value.Some? ==> r.value.value in db.teams && r.value.value.id == teamId
  {
    match CheckAuth(ctx)
    case Some(e) => Err(e)
    case None =>
      match TeamIndex(db.teams, teamId)
      case None => Ok(None)
      case Some(k) => Ok(Some(db.teams[k]))
  }

  /** viewMyTeams: exactly the teams whose member list holds the caller. */
  function ViewMyTeams(ctx: Context, db: Db): (r: Result<seq<Team>>)
    ensures r.Err? <==> ctx.user.None?
    ensures r.Err? ==> r.error == NOT_AUTHENTICATED
    ensures r.Ok? ==> forall t :: t in r.value <==> t in db.teams && ctx.user.value.id in t.members
  {
    match CheckAuth(ctx)
    case Some(e) => Err(e)
    case None => Ok(TeamsWithMember(db.teams, ctx.user.value.id))
  }

  /**
   * viewAssignedProjects: exactly the projects whose team list names some
   * team the caller is a member of.
   */
  function ViewAssignedProjects(ctx: Context, db: Db): (r: Result<seq<Project>>)
    ensures r.Err? <==> ctx.user.None?
    ensures r.Err? ==> r.error == NOT_AUTHENTICATED
    ensures r.Ok? ==> |r.value| <= |db.projects|
    ensures r.Ok? ==> forall p :: p in r.value <==>
      p in db.projects && exists t :: t in db.teams && ctx.user.value.id in t.members && t.id in p.teams
  {
    match CheckAuth(ctx)
    case Some(e) => Err(e)
    case None =>
      var uid := ctx.user.value.id;
      var mine := TeamsWithMember(db.teams, uid);
      var tids := TeamIds(mine);
      var r := ProjectsOnTeams(db.projects, tids);
      assert forall p :: p in r <==>
        p in db.projects && exists t :: t in db.teams && uid in t.members && t.id in p.teams by {
        forall p: Project
          ensures Intersects(p.teams, tids) <==> exists t :: t in db.teams && uid in t.members && t.id in p.teams
        {
          if Intersects(p.teams, tids) {
            var id :| id in p.teams && id in tids;
            var t :| t in mine && t.id == id;
            assert t in db.teams && uid in t.members && t.id in p.teams;
          }
          if exists t :: t in db.teams && uid in t.members && t.id in p.teams {
            var t :| t in db.teams && uid in t.members && t.id in p.teams;
            assert t in mine;
            assert t.id in tids;
          }
        }
      }
      Ok(r)
  }

  /** viewUsers (admin): every user, in storage order. */
  function ViewUsers(ctx: Context, db: Db): (r: Result<seq<User>>)
    ensures r.Err? <==> CheckAdmin(ctx).Some?
    ensures r.Err? ==> r.error == CheckAdmin(ctx).value
    ensures r.Ok? ==> r.value == db.users
  {
    match CheckAdmin(ctx)
    case Some(e) => Err(e)
    case None => Ok(db.users)
  }

  /** listTeams (admin): every team, in storage order. */
  function ListTeams(ctx: Context, db: Db): (r: Result<seq<Team>>)
    ensures r.Err? <==> CheckAdmin(ctx).Some?
    ensures r.Err? ==> r.error == CheckAdmin(ctx).value
    ensures r.Ok? ==> r.value == db.teams
  {
    match CheckAdmin(ctx)
    case Some(e) => Err(e)
    case None => Ok(db.teams)
  }

  /** listProjects (admin): every project, in storage order. */
  function ListProjects(ctx: Context, db: Db): (r: Result<seq<Project>>)
    ensures r.Err? <==> CheckAdmin(ctx).Some?
    ensures r.Err? ==> r.error == CheckAdmin(ctx).value
    ensures r.Ok? ==> r.value == db.projects
  {
    match CheckAdmin(ctx)
    case Some(e) => Err(e)
    case None => Ok(db.projects)
  }

  /**
   * listMembers (admin): the users the team's member list refers to, in list
   * order, repeats kept and dangling ids dropped. A missing team is not
   * reported as NOT_FOUND: the resolver dereferences null.
   */
  function ListMembers(ctx: Context, db: Db, teamId: Id): (r: Result<seq<User>>)
    ensures CheckAdmin(ctx).Some? ==> r == Err(CheckAdmin(ctx).value)
    ensures CheckAdmin(ctx).None? ==> (r.Err? <==> forall t :: t in db.teams ==> t.id != teamId)
    ensures CheckAdmin(ctx).None? && r.Err? ==> r.error == NULL_TEAM
    ensures r.Ok? ==> exists t :: t in db.teams && t.id == teamId && r.value == PopulateUsers(t.members, db.users)
    ensures r.Ok? ==> forall u :: u in r.value ==>
      u in db.users && exists t :: t in db.teams && t.id == teamId && u.id in t.members
    ensures r.Ok? ==>
      exists t :: t in db.teams && t.id == teamId &&
        forall k :: 0 <= k < |db.users| && UserIndex(db.users, db.users[k].id) == Some(k) ==>
          multiset(r.value)[db.users[k]] == multiset(t.members)[db.users[k].id]
  {
    match CheckAdmin(ctx)
    case Some(e) => Err(e)
    case None =>
      match TeamIndex(db.teams, teamId)
      case None => Err(NULL_TEAM)
      case Some(k) =>
        PopulateCounts(db.teams[k].members, db.users);
        Ok(PopulateUsers(db.teams[k].members, db.users))
  }
}
