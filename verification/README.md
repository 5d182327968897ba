# Team/project management backend: the operation layer in Dafny

This project models the GraphQL operation layer of a team/project management
server: three collections (users, teams, projects), a per-request context
that may carry a decoded session identity `{id, username, role}`, the two
authorization guards (`checkAuth`, `checkAdmin`), the eight queries and ten
of the eleven mutations of `backend/graphql/resolvers.js` (all but
`logout`), and the Team and Project schemas of `backend/models/`.

Layout, one module per file:

- `wrappers.dfy` (`Wrappers`): `Option`.
- `schema.dfy` (`Schema`): the User, Team and Project records, the two status
  enumerations with their defaults, schema validation, and the fresh team and
  project documents.
- `errors.dfy` (`Errors`): the error codes `UNAUTHENTICATED`, `FORBIDDEN`,
  `BAD_USER_INPUT`, `NOT_FOUND`, plus `INTERNAL_SERVER_ERROR` for failures the
  resolvers do not catch; the `Result` type.
- `guards.dfy` (`Guards`): the request context and the two guards.
- `tables.dfy` (`Tables`): the store as a value `Db` (each collection is a
  sequence in storage order, keyed by distinct ids), its invariant
  `Consistent`, and the lookups and filters the resolvers run (`findById`,
  `findOne`, `find({members: id})`, `find({teams: {$in: ids}})`, populate of
  a member list).
- `queries.dfy` (`Queries`): the queries, as functions of the store.
- `session.dfy` (`Session`): `login`, which reads the store only.
- `mutations.dfy` (`Mutations`): each mutation as a function from the store
  to its result and the new store.
- `resolvers.dfy` (`Resolvers`): the `Store` class; its methods perform the
  mutations in place (append a document, or overwrite one field of the
  document found by id) and are proved to agree with `Mutations`.
- `properties.dfy` (`Properties`): lemmas relating several operations.

Behaviour that the model keeps as the code has it:

- Member lists (`Team.members`) and team lists (`Project.teams`) are
  sequences stored verbatim: assignment replaces the whole list, keeps
  repeated ids and does not check that the ids exist.
- `Team.projects` is never written by any operation, so it does not follow
  `Project.teams`; in a store built by these operations it stays empty.
- Status updates store the given string; only creation goes through schema
  validation, so the store invariant says nothing about statuses.
- `updateProjectStatus` needs authentication only; `updateTeamStatus` needs
  the caller to be in the team's member list.
- `listMembers` and `updateTeamStatus` on a missing team read `members` of
  null, which surfaces as an internal server error, not `NOT_FOUND`.
- `createTeam` and `createProject` do not catch validation or duplicate-key
  failures, so an empty name, an unparseable date or a taken name surface as
  internal server errors, not `BAD_USER_INPUT`.
- `viewAssignedProjects` takes no argument and always reports on the caller.
- `register` reports on the first stored user whose username or email
  matches: "Username already exists" if that user's username matches, else
  "Email already exists".

## Model

| member | source | states |
|---|---|---|
| Schema.NewTeam | backend/models/Team.js:3-11 | a created team has no members, no projects, status "Active" (a member of the Active/Inactive enum), and fails validation exactly when its required name is empty |
| Schema.NewProject | backend/models/Project.js:3-23 | a created project has status "Pending" (one of the eight enum values) and the given name, team list and dates, and fails validation exactly when its required name is empty |
| Guards.CheckAuth | backend/graphql/resolvers.js:8-16 | fails, with UNAUTHENTICATED, exactly when the context has no identity |
| Guards.CheckAdmin | backend/graphql/resolvers.js:18-27 | UNAUTHENTICATED exactly when there is no identity, FORBIDDEN exactly when there is one whose role is not "ADMIN", passes exactly for an ADMIN identity, and passing implies CheckAuth passes |
| Tables.UserIndex | backend/graphql/resolvers.js:257 | finds the first user with the id, or reports that no user has it |
| Tables.TeamIndex | backend/graphql/resolvers.js:188 | finds the first team with the id, or reports that no team has it |
| Tables.ProjectIndex | backend/graphql/resolvers.js:182 | finds the first project with the id, or reports that no project has it |
| Tables.UsernameIndex | backend/graphql/resolvers.js:93 | finds the first user in storage order with the username, or reports that none has it |
| Tables.ClashIndex | backend/graphql/resolvers.js:134-136 | finds the first user in storage order with the same username or email, or reports that none exists |
| Tables.TeamsWithMember | backend/graphql/resolvers.js:46 | the result holds exactly the teams whose member list contains the id, each as many times as it is stored and no more |
| Tables.TeamIds | backend/graphql/resolvers.js:47 | the result holds exactly the ids of the given teams, one per team |
| Tables.ProjectsOnTeams | backend/graphql/resolvers.js:50-51 | the result holds exactly the projects whose team list shares an id with the given ids, each as many times as it is stored and no more |
| Tables.PopulateUsers | backend/graphql/resolvers.js:85-86 | every returned user exists and is referenced by the id list; when every id resolves, the j-th result is the (first) stored user with the j-th id, so one user per id in list order, repeats kept |
| Tables.PopulateCounts | backend/graphql/resolvers.js:85-86 | for any id list, resolvable or not, each stored user comes back exactly as many times as the list names its id: ids without a user are dropped and nothing else is lost or added |
| Tables.PopulateRepeatedId | backend/graphql/resolvers.js:85-86 | a member list naming the same stored user twice populates to that user twice, in order |
| Queries.Me | backend/graphql/resolvers.js:32-35 | UNAUTHENTICATED without identity; otherwise the stored user with the caller's id, or null exactly when none exists |
| Queries.ViewTeamDetails | backend/graphql/resolvers.js:38-41 | UNAUTHENTICATED without identity; otherwise the team with the id, or null exactly when none exists; no membership check |
| Queries.ViewMyTeams | backend/graphql/resolvers.js:56-65 | UNAUTHENTICATED without identity; otherwise exactly the teams whose member list contains the caller |
| Queries.ViewAssignedProjects | backend/graphql/resolvers.js:43-54 | UNAUTHENTICATED without identity; otherwise exactly the projects whose team list names a team the caller is a member of |
| Queries.ViewUsers | backend/graphql/resolvers.js:68-71 | fails as checkAdmin does; otherwise all users |
| Queries.ListTeams | backend/graphql/resolvers.js:73-76 | fails as checkAdmin does; otherwise all teams |
| Queries.ListProjects | backend/graphql/resolvers.js:78-81 | fails as checkAdmin does; otherwise all projects |
| Queries.ListMembers | backend/graphql/resolvers.js:83-87 | fails as checkAdmin does; a missing team gives the null-dereference error; otherwise the team's member list populated through Tables.PopulateUsers: each result a stored user listed in that team, each stored user as many times as the list names its id (ids without a user dropped), one per id in list order when every id resolves |
| Session.Login | backend/graphql/resolvers.js:92-129 | succeeds exactly when the first user with the username exists and its password matches; unknown username and wrong password give the same UNAUTHENTICATED "Invalid credentials"; on success returns that user and the token signed over its payload, which is the user's id, username and role |
| Mutations.RegisteredRole | backend/graphql/resolvers.js:151-160 | the role is ADMIN exactly when the code is present, non-empty and equal to the configured admin code; MEMBER otherwise |
| Mutations.Register | backend/graphql/resolvers.js:132-177 | fails with BAD_USER_INPUT exactly when some user has the username or the email, with the message chosen by the first such user, and then changes nothing; otherwise appends one user with a fresh id and the registered role; keeps the store invariant |
| Mutations.UpdateProjectStatus | backend/graphql/resolvers.js:180-183 | UNAUTHENTICATED without identity and no change; otherwise overwrites only that project's status with the given string, or returns null and changes nothing when the project is missing |
| Mutations.UpdateTeamStatus | backend/graphql/resolvers.js:185-195 | UNAUTHENTICATED without identity; a missing team is the null-dereference error; FORBIDDEN only for an existing team whose members lack the caller; success only for a member, and then only that team's status is overwritten and the updated team returned; every failure changes nothing |
| Mutations.CreateUser | backend/graphql/resolvers.js:198-201 | fails as checkAdmin does with no change; otherwise appends the user as given with a fresh id |
| Mutations.CreateTeam | backend/graphql/resolvers.js:203-212 | fails as checkAdmin does with no change; otherwise succeeds exactly when the name is non-empty and not taken, appending a team with status "Active" |
| Mutations.AssignProjectToTeam | backend/graphql/resolvers.js:214-221 | fails as checkAdmin does with no change; otherwise the project's team list becomes exactly the given ids and nothing else changes (no team's projects), or null with no change when the project is missing |
| Mutations.EndDateOf | backend/graphql/resolvers.js:240 | for an end date that casts, the stored end date is null exactly when none or an empty one is given, and otherwise the parsed date |
| Mutations.CreateProject | backend/graphql/resolvers.js:233-244 | fails as checkAdmin does with no change; otherwise succeeds exactly when the name is non-empty and free and the dates parse, appending a project with status "Pending", the given team list or [], the parsed start date, and a null end date when none or an empty one is given, else the parsed end date |
| Mutations.AssignUsersToTeam | backend/graphql/resolvers.js:246-253 | fails as checkAdmin does with no change; otherwise the team's member list becomes exactly the given ids and nothing else changes, or null with no change when the team is missing |
| Mutations.UpdateUserRole | backend/graphql/resolvers.js:255-274 | fails as checkAdmin does; NOT_FOUND for a missing user before BAD_USER_INPUT for a role other than ADMIN/MEMBER; otherwise only that user's role changes |
| Resolvers.Store.Register | backend/graphql/resolvers.js:132-177 | the in-place insertion yields the result and store of Mutations.Register and keeps the store invariant |
| Resolvers.Store.UpdateProjectStatus | backend/graphql/resolvers.js:180-183 | the in-place update yields the result and store of Mutations.UpdateProjectStatus |
| Resolvers.Store.UpdateTeamStatus | backend/graphql/resolvers.js:185-195 | the in-place update yields the result and store of Mutations.UpdateTeamStatus |
| Resolvers.Store.CreateUser | backend/graphql/resolvers.js:198-201 | the in-place insertion yields the result and store of Mutations.CreateUser |
| Resolvers.Store.CreateTeam | backend/graphql/resolvers.js:203-212 | the in-place insertion yields the result and store of Mutations.CreateTeam |
| Resolvers.Store.AssignProjectToTeam | backend/graphql/resolvers.js:214-221 | the in-place update yields the result and store of Mutations.AssignProjectToTeam |
| Resolvers.Store.CreateProject | backend/graphql/resolvers.js:233-244 | the in-place insertion yields the result and store of Mutations.CreateProject |
| Resolvers.Store.AssignUsersToTeam | backend/graphql/resolvers.js:246-253 | the in-place update yields the result and store of Mutations.AssignUsersToTeam |
| Resolvers.Store.UpdateUserRole | backend/graphql/resolvers.js:255-274 | the in-place update yields the result and store of Mutations.UpdateUserRole |
| Properties.MemberCannotAdminister | backend/graphql/resolvers.js:18-27 | for any arguments, every one of the ten admin operations refuses an authenticated non-admin with FORBIDDEN and leaves all three collections unchanged |
| Properties.RegisterThenLogin | backend/graphql/resolvers.js:92-169 | right after a successful registration, login with the same username and password succeeds and signs the new user's id, username and role |
| Properties.LoginIdentityAuthorizes | backend/graphql/resolvers.js:111-115 | the identity login signs passes checkAuth, passes checkAdmin exactly for an ADMIN, and `me` then returns the same user |
| Properties.UpdateTeamStatusNeedsMembership | backend/graphql/resolvers.js:185-195 | for a signed-in caller over a consistent store: FORBIDDEN if and only if the team exists without the caller among its members, and success if and only if it exists with the caller among them |
| Properties.TeamStatusVisibleInMyTeams | backend/graphql/resolvers.js:185-195 | after a member updates its team's status, its viewMyTeams lists the team with that status |
| Properties.AssignUsersThenViewTeam | backend/graphql/resolvers.js:246-253 | after assignUsersToTeam, viewTeamDetails shows exactly the given member list (replace, not merge) |
| Properties.AssignRepeatedUserListedTwice | backend/graphql/resolvers.js:248-251 | assigning the same user id twice makes listMembers return that user twice (no de-duplication) |
| Properties.AssignProjectVisibleToMembers | backend/graphql/resolvers.js:214-221 | after a project is assigned to a list naming a team, every member of that team sees it in viewAssignedProjects |
| Properties.UpdateUserRoleToSameRole | backend/graphql/resolvers.js:265-273 | setting the ADMIN or MEMBER role a user already holds succeeds and changes nothing |
| Properties.TeamProjectsStayEmpty | backend/models/Team.js:10 | for each of the nine store-changing mutations and any arguments: if no team lists a project before, none does after, since no operation writes a team's projects list |
| Properties.EndToEnd | backend/graphql/resolvers.js:203-253 | bootstrap admin by code, login, createTeam Alpha, createProject P1, assign P1 to Alpha: listProjects shows P1 with team list [Alpha] |

## Left out

- `logout`: it only overwrites the cookie and returns true; cookies are transport.
- The cookie attributes set by `login`, CORS, cookie parsing and token verification in `backend/server.js`: the context is given, with an identity or without.
- Password hashing and `bcrypt.compare`: the User model (`backend/models/User.js`) is not part of this model; the stored password field is the one given, and the comparison is the parameter `matches`.
- `jwt.sign`, the signing secret and the one-day expiry: the token is the parameter `sign` applied to the payload.
- Date parsing and the clock: dates are opaque values, `new Date(s)` is the parameter `parse` (absent for an invalid date) and `createdDate` is the parameter `now`.
- `createUser` and `register` are not subject to any User schema validation (unknown here), so the catch-all in `register` can only ever re-raise the duplicate error, and `createUser` may store duplicate usernames or any role string.
- Populate: queries return the stored records with their id lists; only `listMembers`, whose result is the populated list itself, resolves ids to users.
- A null id list given to `assignUsersToTeam` or `assignProjectToTeam`, and ids that are not well-formed ObjectIds (cast errors): ids are values of the model's own id type and lists are always present.
- The exact messages of errors the resolvers do not raise themselves (null dereference, validation, duplicate key) are abbreviated.
- Concurrency between requests: each operation is one atomic step of the store.
