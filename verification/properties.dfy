/**
 * Properties that relate several operations: what a session issued by login
 * can do, what a later read sees after a write, and what no write ever does.
 */
module Properties {
  import opened Wrappers
  import opened Schema
  import opened Errors
  import opened Guards
  import opened Tables
  import opened Queries
  import opened Session
  import M = Mutations

  /** Every admin-only operation refuses an authenticated non-admin caller with FORBIDDEN and changes nothing. */
  lemma MemberCannotAdminister(ctx: Context, db: Db, memberTeam: Id,
                               userName: string, userEmail: string, userPassword: string, userRole: string,
                               teamName: string, teamDescription: string, teamSlogan: string, now: Date,
                               assignedProject: Id, projectTeams: seq<Id>,
                               projectName: string, projectDescription: string, teamIds: Option<seq<Id>>,
                               startDate: string, endDate: Option<string>, parse: string -> Option<Date>,
                               assignedTeam: Id, userIds: seq<Id>, roleUser: Id, newRole: string)
    requires ctx.user.Some? && ctx.user.value.role != ADMIN
    ensures ViewUsers(ctx, db) == Err(ADMIN_REQUIRED)
    ensures ListTeams(ctx, db) == Err(ADMIN_REQUIRED)
    ensures ListProjects(ctx, db) == Err(ADMIN_REQUIRED)
    ensures ListMembers(ctx, db, memberTeam) == Err(ADMIN_REQUIRED)
    ensures M.CreateUser(ctx, db, userName, userEmail, userPassword, userRole) == M.Step(Err(ADMIN_REQUIRED), db)
    ensures M.CreateTeam(ctx, db, teamName, teamDescription, teamSlogan, now) == M.Step(Err(ADMIN_REQUIRED), db)
    ensures M.AssignProjectToTeam(ctx, db, assignedProject, projectTeams) == M.Step(Err(ADMIN_REQUIRED), db)
    ensures M.CreateProject(ctx, db, projectName, projectDescription, teamIds, startDate, endDate, parse)
            == M.Step(Err(ADMIN_REQUIRED), db)
    ensures M.AssignUsersToTeam(ctx, db, assignedTeam, userIds) == M.Step(Err(ADMIN_REQUIRED), db)
    ensures M.UpdateUserRole(ctx, db, roleUser, newRole) == M.Step(Err(ADMIN_REQUIRED), db)
  {
  }

  /**
   * A user that has just registered can log in with the same username and
   * password (given that the password check accepts the stored password),
   * and the token carries the new user's id, username and role.
   */
  lemma {:induction false} RegisterThenLogin(db: Db, username: string, email: string, password: string,
                                             code: Option<string>, adminCode: Option<string>,
                                             matches: (string, string) -> bool, sign: Identity -> string)
    requires M.Register(db, username, email, password, code, adminCode).result.Ok?
    requires matches(password, password)
    ensures var s := M.Register(db, username, email, password, code, adminCode);
            Login(s.db, username, password, matches, sign) == Ok(AuthPayload(sign(IdentityOf(s.result.value)), s.result.value))
  {
    var s := M.Register(db, username, email, password, code, adminCode);
    var u := s.result.value;
    var us := s.db.users;
    assert us == db.users + [u];
    assert forall j :: 0 <= j < |db.users| ==> us[j].username != username by {
      forall j | 0 <= j < |db.users| ensures us[j].username != username {
        assert us[j] == db.users[j];
        assert !Clashes(db.users[j], username, email);
      }
    }
    assert FirstNamed(us, |db.users|, username);
    var r := Login(s.db, username, password, matches, sign);
    assert r.Ok?;
    var k :| FirstNamed(us, k, username) && r.value.user == us[k];
    assert k == |db.users|;
  }

  /**
   * The identity a successful login signs, used as a request context, passes
   * the authentication guard, passes the admin guard exactly when the user's
   * role is ADMIN, and `me` then returns that very user.
   */
  lemma LoginIdentityAuthorizes(db: Db, username: string, password: string,
                                matches: (string, string) -> bool, sign: Identity -> string)
    requires Consistent(db)
    requires Login(db, username, password, matches, sign).Ok?
    ensures var u := Login(db, username, password, matches, sign).value.user;
            var ctx := Context(Some(IdentityOf(u)));
            && CheckAuth(ctx).None?
            && (CheckAdmin(ctx).None? <==> u.role == ADMIN)
            && Me(ctx, db) == Ok(Some(u))
  {
    var u := Login(db, username, password, matches, sign).value.user;
    var k := UserIndex(db.users, u.id);
    UserById(db, k.value, u);
  }

  /**
   * In a consistent store, updateTeamStatus by an authenticated caller is
   * refused with FORBIDDEN exactly when the team exists and the caller is
   * not in its member list, and succeeds exactly when the caller is.
   */
  lemma UpdateTeamStatusNeedsMembership(ctx: Context, db: Db, teamId: Id, status: string)
    requires Consistent(db) && ctx.user.Some?
    ensures var s := M.UpdateTeamStatus(ctx, db, teamId, status);
            && (s.result == Err(M.NOT_TEAM_MEMBER) <==>
                exists t :: t in db.teams && t.id == teamId && ctx.user.value.id !in t.members)
            && (s.result.Ok? <==> exists t :: t in db.teams && t.id == teamId && ctx.user.value.id in t.members)
  {
    var s := M.UpdateTeamStatus(ctx, db, teamId, status);
    var k := TeamIndex(db.teams, teamId);
    if k.Some? {
      var i := k.value;
      forall t | t in db.teams && t.id == teamId ensures t == db.teams[i] {
        TeamById(db, i, t);
      }
      assert s.result.Ok? <==> ctx.user.value.id in db.teams[i].members;
    }
  }

  /**
   * After a member changes its team's status, that member's viewMyTeams
   * lists the team with the new status.
   */
  lemma TeamStatusVisibleInMyTeams(ctx: Context, db: Db, teamId: Id, status: string)
    requires M.UpdateTeamStatus(ctx, db, teamId, status).result.Ok?
    ensures var s := M.UpdateTeamStatus(ctx, db, teamId, status);
            && ViewMyTeams(ctx, s.db).Ok?
            && s.result.value in ViewMyTeams(ctx, s.db).value
            && s.result.value.status == status
  {
  }

  /**
   * Replace, not merge: after assignUsersToTeam, viewTeamDetails shows
   * exactly the given member list, whatever the list was before.
   */
  lemma AssignUsersThenViewTeam(ctx: Context, db: Db, teamId: Id, userIds: seq<Id>)
    requires Consistent(db)
    requires M.AssignUsersToTeam(ctx, db, teamId, userIds).result.Ok?
    requires M.AssignUsersToTeam(ctx, db, teamId, userIds).result.value.Some?
    ensures var s := M.AssignUsersToTeam(ctx, db, teamId, userIds);
            && ViewTeamDetails(ctx, s.db, teamId).Ok?
            && ViewTeamDetails(ctx, s.db, teamId).value.Some?
            && ViewTeamDetails(ctx, s.db, teamId).value.value.members == userIds
  {
  }

  /**
   * Repeated ids are not removed: assigning the same existing user twice
   * makes listMembers return that user twice.
   */
  lemma AssignRepeatedUserListedTwice(ctx: Context, db: Db, teamId: Id, u: User)
    requires Consistent(db)
    requires u in db.users
    requires M.AssignUsersToTeam(ctx, db, teamId, [u.id, u.id]).result.Ok?
    requires M.AssignUsersToTeam(ctx, db, teamId, [u.id, u.id]).result.value.Some?
    ensures ListMembers(ctx, M.AssignUsersToTeam(ctx, db, teamId, [u.id, u.id]).db, teamId) == Ok([u, u])
  {
    var s := M.AssignUsersToTeam(ctx, db, teamId, [u.id, u.id]);
    var i :| 0 <= i < |db.teams| && db.teams[i].id == teamId &&
      s.db == db.(teams := db.teams[i := db.teams[i].(members := [u.id, u.id])]) && s.result.value.value == s.db.teams[i];
    var k := TeamIndex(s.db.teams, teamId);
    assert s.db.teams[i] in s.db.teams;
    assert k.value == i;
    var a := UserIndex(db.users, u.id);
    UserById(db, a.value, u);
    PopulateRepeatedId(db.users, u.id, a.value);
  }

  /**
   * After a project is assigned to a team, every member of that team sees the
   * project in viewAssignedProjects.
   */
  lemma AssignProjectVisibleToMembers(admin: Context, db: Db, projectId: Id, teamIds: seq<Id>, t: Team, member: Identity)
    requires t in db.teams && t.id in teamIds && member.id in t.members
    requires M.AssignProjectToTeam(admin, db, projectId, teamIds).result.Ok?
    requires M.AssignProjectToTeam(admin, db, projectId, teamIds).result.value.Some?
    ensures var s := M.AssignProjectToTeam(admin, db, projectId, teamIds);
            && ViewAssignedProjects(Context(Some(member)), s.db).Ok?
            && s.result.value.value in ViewAssignedProjects(Context(Some(member)), s.db).value
  {
  }

  /**
   * Setting the role a user already holds (ADMIN or MEMBER) succeeds and
   * leaves the store exactly as it was.
   */
  lemma UpdateUserRoleToSameRole(ctx: Context, db: Db, u: User)
    requires Consistent(db) && CheckAdmin(ctx).None?
    requires u in db.users && (u.role == ADMIN || u.role == MEMBER)
    ensures M.UpdateUserRole(ctx, db, u.id, u.role) == M.Step(Ok(u), db)
  {
  }

  /** No team has a project in its back-reference list. */
  ghost predicate NoTeamProjects(db: Db) {
    forall t :: t in db.teams ==> t.projects == []
  }

  /**
   * Team.projects is never written, so a store in which no team lists a
   * project (the empty store, in particular) stays so after every mutation:
   * the Team-to-Project back-reference never follows Project.teams.
   */
  lemma TeamProjectsStayEmpty(ctx: Context, db: Db,
                              username: string, email: string, password: string, code: Option<string>,
                              adminCode: Option<string>, statusProject: Id, projectStatus: string,
                              statusTeam: Id, teamStatus: string, role: string,
                              teamName: string, description: string, teamSlogan: string, now: Date,
                              assignedProject: Id, projectTeams: seq<Id>,
                              projectName: string, teamIds: Option<seq<Id>>,
                              startDate: string, endDate: Option<string>, parse: string -> Option<Date>,
                              assignedTeam: Id, userIds: seq<Id>, roleUser: Id, newRole: string)
    requires NoTeamProjects(db)
    ensures NoTeamProjects(M.Register(db, username, email, password, code, adminCode).db)
    ensures NoTeamProjects(M.UpdateProjectStatus(ctx, db, statusProject, projectStatus).db)
    ensures NoTeamProjects(M.UpdateTeamStatus(ctx, db, statusTeam, teamStatus).db)
    ensures NoTeamProjects(M.CreateUser(ctx, db, username, email, password, role).db)
    ensures NoTeamProjects(M.CreateTeam(ctx, db, teamName, description, teamSlogan, now).db)
    ensures NoTeamProjects(M.AssignProjectToTeam(ctx, db, assignedProject, projectTeams).db)
    ensures NoTeamProjects(M.CreateProject(ctx, db, projectName, description, teamIds, startDate, endDate, parse).db)
    ensures NoTeamProjects(M.AssignUsersToTeam(ctx, db, assignedTeam, userIds).db)
    ensures NoTeamProjects(M.UpdateUserRole(ctx, db, roleUser, newRole).db)
  {
    KeptStaysEmpty(db, M.Register(db, username, email, password, code, adminCode).db);
    KeptStaysEmpty(db, M.UpdateProjectStatus(ctx, db, statusProject, projectStatus).db);
    KeptStaysEmpty(db, M.UpdateTeamStatus(ctx, db, statusTeam, teamStatus).db);
    KeptStaysEmpty(db, M.CreateUser(ctx, db, username, email, password, role).db);
    KeptStaysEmpty(db, M.CreateTeam(ctx, db, teamName, description, teamSlogan, now).db);
    KeptStaysEmpty(db, M.AssignProjectToTeam(ctx, db, assignedProject, projectTeams).db);
    KeptStaysEmpty(db, M.CreateProject(ctx, db, projectName, description, teamIds, startDate, endDate, parse).db);
    KeptStaysEmpty(db, M.AssignUsersToTeam(ctx, db, assignedTeam, userIds).db);
    KeptStaysEmpty(db, M.UpdateUserRole(ctx, db, roleUser, newRole).db);
  }

  /** A store change that keeps every team's projects list keeps them all empty. */
  lemma KeptStaysEmpty(db: Db, db': Db)
    requires NoTeamProjects(db) && M.TeamProjectsKept(db, db')
    ensures NoTeamProjects(db')
  {
  }

  /**
   * The end-to-end run: bootstrap an admin with the registration code, log
   * in, create team Alpha and project P1, assign P1 to Alpha; listProjects
   * then shows P1 with team list [Alpha].
   */
  lemma EndToEnd(matches: (string, string) -> bool, sign: Identity -> string, parse: string -> Option<Date>, now: Date)
    requires matches("pw", "pw") && parse("2024-01-01").Some?
    ensures
      var s1 := M.Register(EMPTY, "root", "root@example.com", "pw", Some("boot"), Some("boot"));
      var login := Login(s1.db, "root", "pw", matches, sign);
      login.Ok? &&
      var ctx := Context(Some(IdentityOf(login.value.user)));
      var s2 := M.CreateTeam(ctx, s1.db, "Alpha", "d", "s", now);
      var s3 := M.CreateProject(ctx, s2.db, "P1", "d", Some([]), "2024-01-01", None, parse);
      s2.result.Ok? && s3.result.Ok? &&
      var s4 := M.AssignProjectToTeam(ctx, s3.db, s3.result.value.id, [s2.result.value.id]);
      ListProjects(ctx, s4.db) == Ok([s3.result.value.(teams := [s2.result.value.id])])
  {
    var s1 := M.Register(EMPTY, "root", "root@example.com", "pw", Some("boot"), Some("boot"));
    assert s1.result.Ok? && s1.result.value.role == ADMIN;
    RegisterThenLogin(EMPTY, "root", "root@example.com", "pw", Some("boot"), Some("boot"), matches, sign);
    var login := Login(s1.db, "root", "pw", matches, sign);
    var ctx := Context(Some(IdentityOf(login.value.user)));
    assert CheckAdmin(ctx).None?;
    var s2 := M.CreateTeam(ctx, s1.db, "Alpha", "d", "s", now);
    assert s2.result.Ok?;
    var s3 := M.CreateProject(ctx, s2.db, "P1", "d", Some([]), "2024-01-01", None, parse);
    assert s3.result.Ok?;
    assert s3.db.projects == [s3.result.value];
    var s4 := M.AssignProjectToTeam(ctx, s3.db, s3.result.value.id, [s2.result.value.id]);
    assert s4.db.projects == [s3.result.value.(teams := [s2.result.value.id])];
  }
}
