/**
 * The three collections as sequences in storage order, the store invariant,
 * and the lookups and filters the operations run over them.
 */
module Tables {
  import opened Wrappers
  import opened Schema

  /**
   * The whole store. `nextId` is the next id the store hands out; ids are
   * unique across all three collections, as ObjectIds are.
   */
  datatype Db = Db(users: seq<User>, teams: seq<Team>, projects: seq<Project>, nextId: Id)

  const EMPTY: Db := Db([], [], [], 0)

  /**
   * The store invariant: ids are distinct within each collection and below
   * `nextId`; team and project names are non-empty (required) and unique
   * (unique index). Statuses are NOT part of it: status updates bypass
   * validation, so nothing keeps them inside their enums.
   */
  ghost predicate Consistent(db: Db) {
    && (forall i, j :: 0 <= i < j < |db.users| ==> db.users[i].id != db.users[j].id)
    && (forall i, j :: 0 <= i < j < |db.teams| ==> db.teams[i].id != db.teams[j].id)
    && (forall i, j :: 0 <= i < j < |db.projects| ==> db.projects[i].id != db.projects[j].id)
    && (forall u :: u in db.users ==> u.id < db.nextId)
    && (forall t :: t in db.teams ==> t.id < db.nextId && t.teamName != "")
    && (forall p :: p in db.projects ==> p.id < db.nextId && p.projectName != "")
    && (forall i, j :: 0 <= i < j < |db.teams| ==> db.teams[i].teamName != db.teams[j].teamName)
    && (forall i, j :: 0 <= i < j < |db.projects| ==> db.projects[i].projectName != db.projects[j].projectName)
  }

  /** The position of the user with id `id` (findById), if any. */
  function UserIndex(us: seq<User>, id: Id): (r: Option<nat>)
    ensures r.Some? ==> r.value < |us| && us[r.value].id == id
    ensures r.Some? ==> forall j :: 0 <= j < r.value ==> us[j].id != id
    ensures r.None? <==> forall u :: u in us ==> u.id != id
  {
    if us == [] then None
    else if us[0].id == id then Some(0)
    else match UserIndex(us[1..], id)
      case None => None
      case Some(k) => Some(k + 1)
  }

  /** The position of the team with id `id`, if any. */
  function TeamIndex(ts: seq<Team>, id: Id): (r: Option<nat>)
    ensures r.Some? ==> r.value < |ts| && ts[r.value].id == id
    ensures r.Some? ==> forall j :: 0 <= j < r.value ==> ts[j].id != id
    ensures r.None? <==> forall t :: t in ts ==> t.id != id
  {
    if ts == [] then None
    else if ts[0].id == id then Some(0)
    else match TeamIndex(ts[1..], id)
      case None => None
      case Some(k) => Some(k + 1)
  }

  /** The position of the project with id `id`, if any. */
  function ProjectIndex(ps: seq<Project>, id: Id): (r: Option<nat>)
    ensures r.Some? ==> r.value < |ps| && ps[r.value].id == id
    ensures r.Some? ==> forall j :: 0 <= j < r.value ==> ps[j].id != id
    ensures r.None? <==> forall p :: p in ps ==> p.id != id
  {
    if ps == [] then None
    else if ps[0].id == id then Some(0)
    else match ProjectIndex(ps[1..], id)
      case None => None
      case Some(k) => Some(k + 1)
  }

  /** The first user, in storage order, with the given username (findOne({username})). */
  function UsernameIndex(us: seq<User>, username: string): (r: Option<nat>)
    ensures r.Some? ==> r.value < |us| && us[r.value].username == username
    ensures r.Some? ==> forall j :: 0 <= j < r.value ==> us[j].username != username
    ensures r.None? <==> forall u :: u in us ==> u.username != username
  {
    if us == [] then None
    else if us[0].username == username then Some(0)
    else match UsernameIndex(us[1..], username)
      case None => None
      case Some(k) => Some(k + 1)
  }

  /** A user clashes with a registration when it has the same username or the same email. */
  predicate Clashes(u: User, username: string, email: string) {
    u.username == username || u.email == email
  }

  /** The first user, in storage order, that clashes ($or of username and email). */
  function ClashIndex(us: seq<User>, username: string, email: string): (r: Option<nat>)
    ensures r.Some? ==> r.value < |us| && Clashes(us[r.value], username, email)
    ensures r.Some? ==> forall j :: 0 <= j < r.value ==> !Clashes(us[j], username, email)
    ensures r.None? <==> forall u :: u in us ==> !Clashes(u, username, email)
  {
    if us == [] then None
    else if Clashes(us[0], username, email) then Some(0)
    else match ClashIndex(us[1..], username, email)
      case None => None
      case Some(k) => Some(k + 1)
  }

  /** The teams, in storage order, whose member list holds `uid` (find({members: uid})). */
  function TeamsWithMember(ts: seq<Team>, uid: Id): (r: seq<Team>)
    ensures |r| <= |ts|
    ensures forall t :: t in r <==> t in ts && uid in t.members
    ensures forall t :: multiset(r)[t] == if uid in t.members then multiset(ts)[t] else 0
  {
    if ts == [] then []
    else
      assert ts == [ts[0]] + ts[1..];
      (if uid in ts[0].members then [ts[0]] else []) + TeamsWithMember(ts[1..], uid)
  }

  /** The ids of a list of teams, in the same order. */
  function TeamIds(ts: seq<Team>): (r: seq<Id>)
    ensures |r| == |ts|
    ensures forall id :: id in r <==> exists t :: t in ts && t.id == id
  {
    if ts == [] then [] else [ts[0].id] + TeamIds(ts[1..])
  }

  /** Whether two id lists share an element. */
  predicate Intersects(a: seq<Id>, b: seq<Id>) {
    exists id :: id in a && id in b
  }

  /** The projects, in storage order, whose team list meets `tids` (find({teams: {$in: tids}})). */
  function ProjectsOnTeams(ps: seq<Project>, tids: seq<Id>): (r: seq<Project>)
    ensures |r| <= |ps|
    ensures forall p :: p in r <==> p in ps && Intersects(p.teams, tids)
    ensures forall p :: multiset(r)[p] == if Intersects(p.teams, tids) then multiset(ps)[p] else 0
  {
    if ps == [] then []
    else
      assert ps == [ps[0]] + ps[1..];
      (if Intersects(ps[0].teams, tids) then [ps[0]] else []) + ProjectsOnTeams(ps[1..], tids)
  }

  /** Some user has the id. */
  predicate HasUser(us: seq<User>, id: Id) {
    exists u :: u in us && u.id == id
  }

  /**
   * Replaces each id by the user it refers to, in the order of `ids`; an id
   * with no user is dropped and a repeated id gives a repeated user
   * (populate on an array of references).
   */
  function PopulateUsers(ids: seq<Id>, us: seq<User>): (r: seq<User>)
    ensures |r| <= |ids|
    ensures forall u :: u in r ==> u in us && u.id in ids
    ensures (forall id :: id in ids ==> HasUser(us, id)) ==> |r| == |ids|
    ensures (forall id :: id in ids ==> HasUser(us, id)) ==>
      forall j :: 0 <= j < |ids| ==> UserIndex(us, ids[j]).Some? && r[j] == us[UserIndex(us, ids[j]).value]
  {
    if ids == [] then []
    else
      var rest := PopulateUsers(ids[1..], us);
      assert ids[0] in ids && forall id :: id in ids[1..] ==> id in ids;
      match UserIndex(us, ids[0])
      case None =>
        assert !HasUser(us, ids[0]);
        rest
      case Some(k) =>
        var r := [us[k]] + rest;
        assert (forall id :: id in ids ==> HasUser(us, id)) ==>
          forall j :: 0 <= j < |ids| ==> UserIndex(us, ids[j]).Some? && r[j] == us[UserIndex(us, ids[j]).value]
        by {
          if forall id :: id in ids ==> HasUser(us, id) {
            assert forall id :: id in ids[1..] ==> HasUser(us, id);
            forall j | 0 <= j < |ids|
              ensures UserIndex(us, ids[j]).Some? && r[j] == us[UserIndex(us, ids[j]).value]
            {
              if j > 0 {
                assert ids[j] == ids[1..][j - 1] && r[j] == rest[j - 1];
              }
            }
          }
        }
        r
  }

  /** In a consistent store the id determines the team. */
  lemma TeamById(db: Db, i: int, t: Team)
    requires Consistent(db) && 0 <= i < |db.teams| && t in db.teams && t.id == db.teams[i].id
    ensures t == db.teams[i]
  {
  }

  /** In a consistent store the id determines the user. */
  lemma UserById(db: Db, i: int, u: User)
    requires Consistent(db) && 0 <= i < |db.users| && u in db.users && u.id == db.users[i].id
    ensures u == db.users[i]
  {
  }

  /** Overwriting a team with one of the same id and name keeps the store consistent. */
  lemma ReplaceTeamConsistent(db: Db, i: int, t: Team)
    requires Consistent(db) && 0 <= i < |db.teams|
    requires t.id == db.teams[i].id && t.teamName == db.teams[i].teamName
    ensures Consistent(db.(teams := db.teams[i := t]))
  {
  }

  /** Overwriting a project with one of the same id and name keeps the store consistent. */
  lemma ReplaceProjectConsistent(db: Db, i: int, p: Project)
    requires Consistent(db) && 0 <= i < |db.projects|
    requires p.id == db.projects[i].id && p.projectName == db.projects[i].projectName
    ensures Consistent(db.(projects := db.projects[i := p]))
  {
  }

  /** Overwriting a user with one of the same id keeps the store consistent. */
  lemma ReplaceUserConsistent(db: Db, i: int, u: User)
    requires Consistent(db) && 0 <= i < |db.users|
    requires u.id == db.users[i].id
    ensures Consistent(db.(users := db.users[i := u]))
  {
  }

  /** Populating a list whose first id is found at position k starts with that user. */
  lemma PopulateFound(ids: seq<Id>, us: seq<User>, k: nat)
    requires ids != [] && UserIndex(us, ids[0]) == Some(k)
    ensures PopulateUsers(ids, us) == [us[k]] + PopulateUsers(ids[1..], us)
  {
  }

  /**
   * Populate keeps every user as often as the list names its id, whether or
   * not other ids in the list resolve: ids without a user are dropped and
   * nothing else is lost or added. `k` ranges over the users that findById
   * returns (the first with their id).
   */
  lemma {:induction false} PopulateCounts(ids: seq<Id>, us: seq<User>)
    ensures forall k :: 0 <= k < |us| && UserIndex(us, us[k].id) == Some(k) ==>
      multiset(PopulateUsers(ids, us))[us[k]] == multiset(ids)[us[k].id]
  {
    if ids != [] {
      PopulateCounts(ids[1..], us);
      assert ids == [ids[0]] + ids[1..];
      assert multiset(ids) == multiset([ids[0]]) + multiset(ids[1..]);
      var rest := PopulateUsers(ids[1..], us);
      forall k | 0 <= k < |us| && UserIndex(us, us[k].id) == Some(k)
        ensures multiset(PopulateUsers(ids, us))[us[k]] == multiset(ids)[us[k].id]
      {
        match UserIndex(us, ids[0])
        case None =>
          assert us[k] in us;
          assert PopulateUsers(ids, us) == rest;
        case Some(k0) =>
          PopulateFound(ids, us, k0);
          assert multiset(PopulateUsers(ids, us)) == multiset([us[k0]]) + multiset(rest);
          assert us[k0] == us[k] <==> ids[0] == us[k].id;
      }
    }
  }

  /** Populating [id, id] for an id found at position k gives that user twice. */
  lemma PopulateRepeatedId(us: seq<User>, id: Id, k: nat)
    requires UserIndex(us, id) == Some(k)
    ensures PopulateUsers([id, id], us) == [us[k], us[k]]
  {
    PopulateFound([id, id], us, k);
    assert [id, id][1..] == [id];
    PopulateFound([id], us, k);
    assert [id][1..] == [];
  }
}
