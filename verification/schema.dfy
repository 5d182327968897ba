/**
 * The three document kinds of the store: users, teams and projects.
 * Team and Project follow the Mongoose schemas (backend/models/Team.js,
 * backend/models/Project.js); the User model is not part of this model and
 * users are plain records.
 */
module Schema {
  import opened Wrappers

  /** A document id (a Mongo ObjectId); only compared for equality. */
  type Id = nat

  /** A date; dates are opaque values, never inspected. */
  type Date = int

  const ADMIN := "ADMIN"
  const MEMBER := "MEMBER"

  /** A user record. The role is stored as the string it was given. */
  datatype User = User(id: Id, username: string, email: string, password: string, role: string)

  /** A team. `members` holds User ids and `projects` Project ids: references, kept in the given order. */
  datatype Team = Team(
    id: Id,
    teamName: string,
    description: Option<string>,
    members: seq<Id>,
    createdDate: Date,
    status: string,
    teamSlogan: Option<string>,
    projects: seq<Id>)

  /** A project. `teams` holds Team ids, kept in the given order. */
  datatype Project = Project(
    id: Id,
    projectName: string,
    description: Option<string>,
    teams: seq<Id>,
    startDate: Date,
    endDate: Option<Date>,
    status: string)

  const TEAM_STATUSES: seq<string> := ["Active", "Inactive"]
  const DEFAULT_TEAM_STATUS := "Active"

  const PROJECT_STATUSES: seq<string> :=
    ["Pending", "Planning", "In Progress", "In Review", "Testing", "On Hold", "Completed", "Cancelled"]
  const DEFAULT_PROJECT_STATUS := "Pending"

  predicate IsTeamStatus(s: string) { s in TEAM_STATUSES }

  predicate IsProjectStatus(s: string) { s in PROJECT_STATUSES }

  /**
   * What schema validation checks when a team is created or saved: the
   * required name is a non-empty string and the status is in the enum.
   */
  predicate ValidTeam(t: Team) { t.teamName != "" && IsTeamStatus(t.status) }

  /** Schema validation of a project: required non-empty name, status in the enum. */
  predicate ValidProject(p: Project) { p.projectName != "" && IsProjectStatus(p.status) }

  /**
   * A freshly created team document: no members, no projects, the default
   * status. Its only way to fail validation is an empty name.
   */
  function NewTeam(id: Id, teamName: string, description: Option<string>, teamSlogan: Option<string>, createdDate: Date): (t: Team)
    ensures t.id == id && t.teamName == teamName && t.description == description && t.teamSlogan == teamSlogan
    ensures t.createdDate == createdDate && t.members == [] && t.projects == []
    ensures t.status == DEFAULT_TEAM_STATUS && IsTeamStatus(t.status)
    ensures ValidTeam(t) <==> teamName != ""
  {
    Team(id, teamName, description, [], createdDate, DEFAULT_TEAM_STATUS, teamSlogan, [])
  }

  /**
   * A freshly created project document with the default status. Its only way
   * to fail validation is an empty name.
   */
  function NewProject(id: Id, projectName: string, description: Option<string>, teams: seq<Id>, startDate: Date, endDate: Option<Date>): (p: Project)
    ensures p.id == id && p.projectName == projectName && p.description == description
    ensures p.teams == teams && p.startDate == startDate && p.endDate == endDate
    ensures p.status == DEFAULT_PROJECT_STATUS && IsProjectStatus(p.status)
    ensures ValidProject(p) <==> projectName != ""
  {
    Project(id, projectName, description, teams, startDate, endDate, DEFAULT_PROJECT_STATUS)
  }
}
