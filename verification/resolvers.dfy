/**
 * The store as the resolvers see it: three collections that the mutations
 * update in place (insert a document, or overwrite one field of one
 * document found by id). Each method is proved to do what the matching
 * function in Mutations specifies; the queries and login only read, and are
 * the functions of Queries and Session applied to State().
 */
module Resolvers {
  import opened Wrappers
  import opened Schema
  import opened Errors
  import opened Guards
  import opened Tables
  import opened Queries
  import M = Mutations

  class Store {
    var users: seq<User>
    var teams: seq<Team>
    var projects: seq<Project>
    var nextId: Id
    /** The admin registration code of the environment, fixed at start-up (absent when unset). */
    const adminCode: Option<string>

    /** The whole store as a value. */
    function State(): Db
      reads this
    {
      Db(users, teams, projects, nextId)
    }

    ghost predicate Valid()
      reads this
    {
      Consistent(State())
    }

    constructor (adminCode: Option<string>)
      ensures Valid() && State() == EMPTY && this.adminCode == adminCode
    {
      users, teams, projects, nextId := [], [], [], 0;
      this.adminCode := adminCode;
    }

    method Register(username: string, email: string, password: string, registrationCode: Option<string>)
      returns (r: Result<User>)
      requires Valid()
      modifies this
      ensures Valid()
      ensures M.Step(r, State()) == M.Register(old(State()), username, email, password, registrationCode, adminCode)
    {
      var clash := ClashIndex(users, username, email);
      if clash.Some? {
        r := Err(if users[clash.value].username == username then M.USERNAME_TAKEN else M.EMAIL_TAKEN);
        return;
      }
      var u := User(nextId, username, email, password, M.RegisteredRole(registrationCode, adminCode));
      users := users + [u];
      nextId := nextId + 1;
      r := Ok(u);
    }

    method UpdateProjectStatus(ctx: Context, projectId: Id, status: string) returns (r: Result<Option<Project>>)
      requires Valid()
      modifies this
      ensures Valid()
      ensures M.Step(r, State()) == M.UpdateProjectStatus(ctx, old(State()), projectId, status)
    {
      var denied := CheckAuth(ctx);
      if denied.Some? {
        r := Err(denied.value);
        return;
      }
      var i := ProjectIndex(projects, projectId);
      if i.None? {
        r := Ok(None);
        return;
      }
      projects := projects[i.value := projects[i.value].(status := status)];
      r := Ok(Some(projects[i.value]));
    }

    method UpdateTeamStatus(ctx: Context, teamId: Id, status: string) returns (r: Result<Team>)
      requires Valid()
      modifies this
      ensures Valid()
      ensures M.Step(r, State()) == M.UpdateTeamStatus(ctx, old(State()), teamId, status)
    {
      var denied := CheckAuth(ctx);
      if denied.Some? {
        r := Err(denied.value);
        return;
      }
      var i := TeamIndex(teams, teamId);
      if i.None? {
        r := Err(NULL_TEAM);
        return;
      }
      if ctx.user.value.id !in teams[i.value].members {
        r := Err(M.NOT_TEAM_MEMBER);
        return;
      }
      teams := teams[i.value := teams[i.value].(status := status)];
      r := Ok(teams[i.value]);
    }

    method CreateUser(ctx: Context, username: string, email: string, password: string, role: string)
      returns (r: Result<User>)
      requires Valid()
      modifies this
      ensures Valid()
      ensures M.Step(r, State()) == M.CreateUser(ctx, old(State()), username, email, password, role)
    {
      var denied := CheckAdmin(ctx);
      if denied.Some? {
        r := Err(denied.value);
        return;
      }
      var u := User(nextId, username, email, password, role);
      users := users + [u];
      nextId := nextId + 1;
      r := Ok(u);
    }

    method CreateTeam(ctx: Context, teamName: string, description: string, teamSlogan: string, now: Date)
      returns (r: Result<Team>)
      requires Valid()
      modifies this
      ensures Valid()
      ensures M.Step(r, State()) == M.CreateTeam(ctx, old(State()), teamName, description, teamSlogan, now)
    {
      var denied := CheckAdmin(ctx);
      if denied.Some? {
        r := Err(denied.value);
        return;
      }
      var t := NewTeam(nextId, teamName, Some(description), Some(teamSlogan), now);
      if !ValidTeam(t) {
        r := Err(M.TEAM_INVALID);
        return;
      }
      if exists other :: other in teams && other.teamName == teamName {
        r := Err(M.DUPLICATE_KEY);
        return;
      }
      teams := teams + [t];
      nextId := nextId + 1;
      r := Ok(t);
    }

    method AssignProjectToTeam(ctx: Context, projectId: Id, teamIds: seq<Id>) returns (r: Result<Option<Project>>)
      requires Valid()
      modifies this
      ensures Valid()
      ensures M.Step(r, State()) == M.AssignProjectToTeam(ctx, old(State()), projectId, teamIds)
    {
      var denied := CheckAdmin(ctx);
      if denied.Some? {
        r := Err(denied.value);
        return;
      }
      var i := ProjectIndex(projects, projectId);
      if i.None? {
        r := Ok(None);
        return;
      }
      projects := projects[i.value := projects[i.value].(teams := teamIds)];
      r := Ok(Some(projects[i.value]));
    }

    method CreateProject(ctx: Context, projectName: string, description: string, teamIds: Option<seq<Id>>,
                         startDate: string, endDate: Option<string>, parse: string -> Option<Date>)
      returns (r: Result<Project>)
      requires Valid()
      modifies this
      ensures Valid()
      ensures M.Step(r, State()) ==
        M.CreateProject(ctx, old(State()), projectName, description, teamIds, startDate, endDate, parse)
    {
      var denied := CheckAdmin(ctx);
      if denied.Some? {
        r := Err(denied.value);
        return;
      }
      var start := parse(startDate);
      if start.None? || !M.EndDateCasts(endDate, parse) {
        r := Err(M.PROJECT_INVALID);
        return;
      }
      var teamList := if teamIds.Some? then teamIds.value else [];
      var p := NewProject(nextId, projectName, Some(description), teamList, start.value, M.EndDateOf(endDate, parse));
      if !ValidProject(p) {
        r := Err(M.PROJECT_INVALID);
        return;
      }
      if exists other :: other in projects && other.projectName == projectName {
        r := Err(M.DUPLICATE_KEY);
        return;
      }
      projects := projects + [p];
      nextId := nextId + 1;
      r := Ok(p);
    }

    method AssignUsersToTeam(ctx: Context, teamId: Id, userIds: seq<Id>) returns (r: Result<Option<Team>>)
      requires Valid()
      modifies this
      ensures Valid()
      ensures M.Step(r, State()) == M.AssignUsersToTeam(ctx, old(State()), teamId, userIds)
    {
      var denied := CheckAdmin(ctx);
      if denied.Some? {
        r := Err(denied.value);
        return;
      }
      var i := TeamIndex(teams, teamId);
      if i.None? {
        r := Ok(None);
        return;
      }
      teams := teams[i.value := teams[i.value].(members := userIds)];
      r := Ok(Some(teams[i.value]));
    }

    method UpdateUserRole(ctx: Context, userId: Id, role: string) returns (r: Result<User>)
      requires Valid()
      modifies this
      ensures Valid()
      ensures M.Step(r, State()) == M.UpdateUserRole(ctx, old(State()), userId, role)
    {
      var denied := CheckAdmin(ctx);
      if denied.Some? {
        r := Err(denied.value);
        return;
      }
      var i := UserIndex(users, userId);
      if i.None? {
        r := Err(M.USER_NOT_FOUND);
        return;
      }
      if role != ADMIN && role != MEMBER {
        r := Err(M.INVALID_ROLE);
        return;
      }
      users := users[i.value := users[i.value].(role := role)];
      r := Ok(users[i.value]);
    }
  }
}
