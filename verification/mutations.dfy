/**
 * The mutations as functions from the store before to the result and the
 * store after. The Store class in resolvers.dfy performs the same changes in
 * place and is proved to agree with these functions.
 */
module Mutations {
  import opened Wrappers
  import opened Schema
  import opened Errors
  import opened Guards
  import opened Tables
  import opened Queries

  /** The outcome of one operation: what the caller gets, and the store afterwards. */
  datatype Step<+T> = Step(result: Result<T>, db: Db)

  const USERNAME_TAKEN := Error(BadUserInput, "Username already exists")
  const EMAIL_TAKEN := Error(BadUserInput, "Email already exists")
  const NOT_TEAM_MEMBER := Error(Forbidden, "Not authorized to update this team")
  const USER_NOT_FOUND := Error(NotFound, "User not found")
  const INVALID_ROLE := Error(BadUserInput, "Invalid role")
  /** Schema validation failures and unique-index violations are not caught by the resolvers. */
  const TEAM_INVALID := Error(InternalServerError, "Team validation failed")
  const PROJECT_INVALID := Error(InternalServerError, "Project validation failed")
  const DUPLICATE_KEY := Error(InternalServerError, "E11000 duplicate key error")

  /**
   * No operation writes a team's `projects`: every existing team keeps its
   * list and a new team starts with none.
   */
  ghost predicate TeamProjectsKept(db: Db, db': Db) {
    && |db.teams| <= |db'.teams|
    && (forall i :: 0 <= i < |db.teams| ==> db'.teams[i].projects == db.teams[i].projects)
    && (forall i :: |db.teams| <= i < |db'.teams| ==> db'.teams[i].projects == [])
  }

  /**
   * The role a registration receives: ADMIN only for a non-empty code equal
   * to the configured admin code, MEMBER otherwise.
   */
  function RegisteredRole(registrationCode: Option<string>, adminCode: Option<string>): (role: string)
    ensures role == ADMIN || role == MEMBER
    ensures role == ADMIN <==> registrationCode.Some? && registrationCode.value != "" && adminCode == registrationCode
  {
    match registrationCode
    case None => MEMBER
    case Some(code) =>
      if code == "" then MEMBER
      else if Some(code) == adminCode then ADMIN
      else MEMBER
  }

  /**
   * register (public). The first user in storage order with the same
   * username or email makes it fail with BAD_USER_INPUT; the message names
   * the username when that user's username matches, the email otherwise.
   */
  function Register(db: Db, username: string, email: string, password: string,
                    registrationCode: Option<string>, adminCode: Option<string>): (s: Step<User>)
    ensures s.result.Err? <==> exists u :: u in db.users && Clashes(u, username, email)
    ensures s.result.Err? ==> s.db == db && s.result.error.code == BadUserInput
    ensures s.result.Err? ==>
      exists k :: 0 <= k < |db.users| && Clashes(db.users[k], username, email) &&
        (forall j :: 0 <= j < k ==> !Clashes(db.users[j], username, email)) &&
        s.result.error == (if db.users[k].username == username then USERNAME_TAKEN else EMAIL_TAKEN)
    ensures s.result.Ok? ==>
      && s.result.value == User(db.nextId, username, email, password, RegisteredRole(registrationCode, adminCode))
      && s.db == db.(users := db.users + [s.result.value], nextId := db.nextId + 1)
    ensures Consistent(db) ==> Consistent(s.db)
    ensures TeamProjectsKept(db, s.db)
  {
    match ClashIndex(db.users, username, email)
    case Some(k) =>
      Step(Err(if db.users[k].username == username then USERNAME_TAKEN else EMAIL_TAKEN), db)
    case None =>
      var u := User(db.nextId, username, email, password, RegisteredRole(registrationCode, adminCode));
      Step(Ok(u), db.(users := db.users + [u], nextId := db.nextId + 1))
  }

  /**
   * updateProjectStatus: any authenticated caller, no membership check, and
   * the status is stored as given (not checked against the enum). A missing
   * project gives a null result.
   */
  function UpdateProjectStatus(ctx: Context, db: Db, projectId: Id, status: string): (s: Step<Option<Project>>)
    ensures CheckAuth(ctx).Some? ==> s == Step(Err(NOT_AUTHENTICATED), db)
    ensures CheckAuth(ctx).None? ==> s.result.Ok?
    ensures s.result.Ok? && s.result.value.None? ==> s.db == db && forall p :: p in db.projects ==> p.id != projectId
    ensures s.result.Ok? && s.result.value.Some? ==>
      exists i :: 0 <= i < |db.projects| && db.projects[i].id == projectId &&
        s.db == db.(projects := db.projects[i := db.projects[i].(status := status)]) && s.result.value.value == s.db.projects[i]
    ensures Consistent(db) ==> Consistent(s.db)
    ensures TeamProjectsKept(db, s.db)
  {
    match CheckAuth(ctx)
    case Some(e) => Step(Err(e), db)
    case None =>
      match ProjectIndex(db.projects, projectId)
      case None => Step(Ok(None), db)
      case Some(i) =>
        var p := db.projects[i].(status := status);
        assert Consistent(db) ==> Consistent(db.(projects := db.projects[i := p])) by {
          if Consistent(db) { ReplaceProjectConsistent(db, i, p); }
        }
        Step(Ok(Some(p)), db.(projects := db.projects[i := p]))
  }

  /**
   * updateTeamStatus: the caller must be in the team's member list, else
   * FORBIDDEN. A missing team is not reported as NOT_FOUND: the resolver
   * dereferences null. The status is stored as given.
   */
  function UpdateTeamStatus(ctx: Context, db: Db, teamId: Id, status: string): (s: Step<Team>)
    ensures CheckAuth(ctx).Some? ==> s == Step(Err(NOT_AUTHENTICATED), db)
    ensures s.result.Err? ==> s.db == db
    ensures CheckAuth(ctx).None? && (forall t :: t in db.teams ==> t.id != teamId) ==> s.result == Err(NULL_TEAM)
    ensures s.result == Err(NOT_TEAM_MEMBER) ==>
      exists i :: 0 <= i < |db.teams| && db.teams[i].id == teamId && ctx.user.value.id !in db.teams[i].members
    ensures CheckAuth(ctx).None? && (exists t :: t in db.teams && t.id == teamId) ==>
      s.result.Ok? || s.result == Err(NOT_TEAM_MEMBER)
    ensures s.result.Ok? ==>
      exists i :: 0 <= i < |db.teams| && db.teams[i].id == teamId && ctx.user.value.id in db.teams[i].members &&
        s.db == db.(teams := db.teams[i := db.teams[i].(status := status)]) && s.result.value == s.db.teams[i]
    ensures Consistent(db) ==> Consistent(s.db)
    ensures TeamProjectsKept(db, s.db)
  {
    match CheckAuth(ctx)
    case Some(e) => Step(Err(e), db)
    case None =>
      match TeamIndex(db.teams, teamId)
      case None => Step(Err(NULL_TEAM), db)
      case Some(i) =>
        if ctx.user.value.id !in db.teams[i].members then Step(Err(NOT_TEAM_MEMBER), db)
        else
          var t := db.teams[i].(status := status);
          assert Consistent(db) ==> Consistent(db.(teams := db.teams[i := t])) by {
            if Consistent(db) { ReplaceTeamConsistent(db, i, t); }
          }
          Step(Ok(t), db.(teams := db.teams[i := t]))
  }

  /** createUser (admin): inserts the user as given, role included; no uniqueness check. */
  function CreateUser(ctx: Context, db: Db, username: string, email: string, password: string, role: string): (s: Step<User>)
    ensures CheckAdmin(ctx).Some? ==> s == Step(Err(CheckAdmin(ctx).value), db)
    ensures CheckAdmin(ctx).None? ==>
      && s.result == Ok(User(db.nextId, username, email, password, role))
      && s.db == db.(users := db.users + [s.result.value], nextId := db.nextId + 1)
    ensures Consistent(db) ==> Consistent(s.db)
    ensures TeamProjectsKept(db, s.db)
  {
    match CheckAdmin(ctx)
    case Some(e) => Step(Err(e), db)
    case None =>
      var u := User(db.nextId, username, email, password, role);
      Step(Ok(u), db.(users := db.users + [u], nextId := db.nextId + 1))
  }

  /**
   * createTeam (admin): a new team with status "Active", no members and no
   * projects. An empty name fails validation; a name already taken fails on
   * the unique index.
   */
  function CreateTeam(ctx: Context, db: Db, teamName: string, description: string, teamSlogan: string, now: Date): (s: Step<Team>)
    ensures CheckAdmin(ctx).Some? ==> s == Step(Err(CheckAdmin(ctx).value), db)
    ensures s.result.Err? ==> s.db == db
    ensures CheckAdmin(ctx).None? ==>
      (s.result.Ok? <==> teamName != "" && forall t :: t in db.teams ==> t.teamName != teamName)
    ensures CheckAdmin(ctx).None? && teamName == "" ==> s.result == Err(TEAM_INVALID)
    ensures CheckAdmin(ctx).None? && teamName != "" && (exists t :: t in db.teams && t.teamName == teamName) ==>
      s.result == Err(DUPLICATE_KEY)
    ensures s.result.Ok? ==>
      && s.result.value == NewTeam(db.nextId, teamName, Some(description), Some(teamSlogan), now)
      && s.result.value.status == "Active"
      && s.db == db.(teams := db.teams + [s.result.value], nextId := db.nextId + 1)
    ensures Consistent(db) ==> Consistent(s.db)
    ensures TeamProjectsKept(db, s.db)
  {
    match CheckAdmin(ctx)
    case Some(e) => Step(Err(e), db)
    case None =>
      var t := NewTeam(db.nextId, teamName, Some(description), Some(teamSlogan), now);
      if !ValidTeam(t) then Step(Err(TEAM_INVALID), db)
      else if exists other :: other in db.teams && other.teamName == teamName then Step(Err(DUPLICATE_KEY), db)
      else Step(Ok(t), db.(teams := db.teams + [t], nextId := db.nextId + 1))
  }

  /**
   * assignProjectToTeam (admin): the project's team list becomes exactly
   * `teamIds` (replaced, not merged, repeats kept). No team's `projects` is
   * touched. A missing project gives a null result.
   */
  function AssignProjectToTeam(ctx: Context, db: Db, projectId: Id, teamIds: seq<Id>): (s: Step<Option<Project>>)
    ensures CheckAdmin(ctx).Some? ==> s == Step(Err(CheckAdmin(ctx).value), db)
    ensures CheckAdmin(ctx).None? ==> s.result.Ok?
    ensures s.result.Ok? && s.result.value.None? ==> s.db == db && forall p :: p in db.projects ==> p.id != projectId
    ensures s.result.Ok? && s.result.value.Some? ==>
      exists i :: 0 <= i < |db.projects| && db.projects[i].id == projectId &&
        s.db == db.(projects := db.projects[i := db.projects[i].(teams := teamIds)]) && s.result.value.value == s.db.projects[i]
    ensures Consistent(db) ==> Consistent(s.db)
    ensures TeamProjectsKept(db, s.db)
  {
    match CheckAdmin(ctx)
    case Some(e) => Step(Err(e), db)
    case None =>
      match ProjectIndex(db.projects, projectId)
      case None => Step(Ok(None), db)
      case Some(i) =>
        var p := db.projects[i].(teams := teamIds);
        assert Consistent(db) ==> Consistent(db.(projects := db.projects[i := p])) by {
          if Consistent(db) { ReplaceProjectConsistent(db, i, p); }
        }
        Step(Ok(Some(p)), db.(projects := db.projects[i := p]))
  }

  /** An end date argument is cast only when it is a non-empty string; the cast must then succeed. */
  predicate EndDateCasts(endDate: Option<string>, parse: string -> Option<Date>) {
    endDate.None? || endDate.value == "" || parse(endDate.value).Some?
  }

  /**
   * The end date stored: null unless a non-empty string was given. It is
   * taken only once the cast is known to succeed, since a non-empty string
   * that does not parse becomes an invalid date, which the cast rejects.
   */
  function EndDateOf(endDate: Option<string>, parse: string -> Option<Date>): (d: Option<Date>)
    requires EndDateCasts(endDate, parse)
    ensures d.None? <==> endDate.None? || endDate.value == ""
    ensures d.Some? ==> d == parse(endDate.value)
  {
    if endDate.Some? && endDate.value != "" then parse(endDate.value) else None
  }

  /**
   * createProject (admin): a new project with status "Pending", the given
   * team list or [] when absent, and a null end date when none is given.
   * `parse` stands for date parsing; an unparseable start or end date, like
   * an empty name, fails validation, and a taken name fails on the unique
   * index.
   */
  function CreateProject(ctx: Context, db: Db, projectName: string, description: string, teamIds: Option<seq<Id>>,
                         startDate: string, endDate: Option<string>, parse: string -> Option<Date>): (s: Step<Project>)
    ensures CheckAdmin(ctx).Some? ==> s == Step(Err(CheckAdmin(ctx).value), db)
    ensures s.result.Err? ==> s.db == db
    ensures CheckAdmin(ctx).None? ==>
      (s.result.Ok? <==> projectName != "" && parse(startDate).Some? && EndDateCasts(endDate, parse) &&
                         forall p :: p in db.projects ==> p.projectName != projectName)
    ensures CheckAdmin(ctx).None? && !(projectName != "" && parse(startDate).Some? && EndDateCasts(endDate, parse)) ==>
      s.result == Err(PROJECT_INVALID)
    ensures s.result.Ok? ==>
      && s.result.value.id == db.nextId
      && s.result.value.projectName == projectName
      && s.result.value.description == Some(description)
      && s.result.value.status == "Pending"
      && s.result.value.teams == (if teamIds.Some? then teamIds.value else [])
      && Some(s.result.value.startDate) == parse(startDate)
      && (s.result.value.endDate.None? <==> endDate.None? || endDate.value == "")
      && (s.result.value.endDate.Some? ==> s.result.value.endDate == parse(endDate.value))
      && s.db == db.(projects := db.projects + [s.result.value], nextId := db.nextId + 1)
    ensures Consistent(db) ==> Consistent(s.db)
    ensures TeamProjectsKept(db, s.db)
  {
    match CheckAdmin(ctx)
    case Some(e) => Step(Err(e), db)
    case None =>
      var teams := if teamIds.Some? then teamIds.value else [];
      if parse(startDate).None? || !EndDateCasts(endDate, parse) then Step(Err(PROJECT_INVALID), db)
      else
        var p := NewProject(db.nextId, projectName, Some(description), teams, parse(startDate).value, EndDateOf(endDate, parse));
        if !ValidProject(p) then Step(Err(PROJECT_INVALID), db)
        else if exists other :: other in db.projects && other.projectName == projectName then Step(Err(DUPLICATE_KEY), db)
        else Step(Ok(p), db.(projects := db.projects + [p], nextId := db.nextId + 1))
  }

  /**
   * assignUsersToTeam (admin): the team's member list becomes exactly
   * `userIds` (replaced, not merged, repeats kept, ids not checked against
   * the users). A missing team gives a null result.
   */
  function AssignUsersToTeam(ctx: Context, db: Db, teamId: Id, userIds: seq<Id>): (s: Step<Option<Team>>)
    ensures CheckAdmin(ctx).Some? ==> s == Step(Err(CheckAdmin(ctx).value), db)
    ensures CheckAdmin(ctx).None? ==> s.result.Ok?
    ensures s.result.Ok? && s.result.value.None? ==> s.db == db && forall t :: t in db.teams ==> t.id != teamId
    ensures s.result.Ok? && s.result.value.Some? ==>
      exists i :: 0 <= i < |db.teams| && db.teams[i].id == teamId &&
        s.db == db.(teams := db.teams[i := db.teams[i].(members := userIds)]) && s.result.value.value == s.db.teams[i]
    ensures Consistent(db) ==> Consistent(s.db)
    ensures TeamProjectsKept(db, s.db)
  {
    match CheckAdmin(ctx)
    case Some(e) => Step(Err(e), db)
    case None =>
      match TeamIndex(db.teams, teamId)
      case None => Step(Ok(None), db)
      case Some(i) =>
        var t := db.teams[i].(members := userIds);
        assert Consistent(db) ==> Consistent(db.(teams := db.teams[i := t])) by {
          if Consistent(db) { ReplaceTeamConsistent(db, i, t); }
        }
        Step(Ok(Some(t)), db.(teams := db.teams[i := t]))
  }

  /**
   * updateUserRole (admin): a missing user is NOT_FOUND, checked before the
   * role; a role other than ADMIN or MEMBER is BAD_USER_INPUT. Otherwise only
   * that user's role changes.
   */
  function UpdateUserRole(ctx: Context, db: Db, userId: Id, role: string): (s: Step<User>)
    ensures CheckAdmin(ctx).Some? ==> s == Step(Err(CheckAdmin(ctx).value), db)
    ensures s.result.Err? ==> s.db == db
    ensures CheckAdmin(ctx).None? && (forall u :: u in db.users ==> u.id != userId) ==> s.result == Err(USER_NOT_FOUND)
    ensures CheckAdmin(ctx).None? && (exists u :: u in db.users && u.id == userId) && role != ADMIN && role != MEMBER ==>
      s.result == Err(INVALID_ROLE)
    ensures CheckAdmin(ctx).None? ==>
      (s.result.Ok? <==> (exists u :: u in db.users && u.id == userId) && (role == ADMIN || role == MEMBER))
    ensures s.result.Ok? ==>
      exists i :: 0 <= i < |db.users| && db.users[i].id == userId &&
        s.db == db.(users := db.users[i := db.users[i].(role := role)]) && s.result.value == s.db.users[i]
    ensures Consistent(db) ==> Consistent(s.db)
    ensures TeamProjectsKept(db, s.db)
  {
    match CheckAdmin(ctx)
    case Some(e) => Step(Err(e), db)
    case None =>
      match UserIndex(db.users, userId)
      case None => Step(Err(USER_NOT_FOUND), db)
      case Some(i) =>
        if role != ADMIN && role != MEMBER then Step(Err(INVALID_ROLE), db)
        else
          var u := db.users[i].(role := role);
          assert Consistent(db) ==> Consistent(db.(users := db.users[i := u])) by {
            if Consistent(db) { ReplaceUserConsistent(db, i, u); }
          }
          Step(Ok(u), db.(users := db.users[i := u]))
  }
}
