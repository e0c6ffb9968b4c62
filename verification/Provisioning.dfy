/** What `provision` does to the directory, as a function of the payload and the tables, and what follows from it. */
module Provisioning {
  import opened Prelude
  import opened Tables

  datatype IfEmailExists = LINK | ERROR
  datatype GrantMode = ADD | MOVE
  datatype AssignmentGrant = AssignmentGrant(buildingId: Id, kind: AssignmentType)
  datatype ResidentGrant = ResidentGrant(buildingId: Id, unitId: Id, mode: GrantMode)

  /** The payload. Optional lists, `ifEmailExists`, `requireSameOrg` and `mode` carry their defaults when omitted. */
  datatype Payload = Payload(
    email: string, name: Option<string>, password: Option<string>, sendInvite: bool,
    orgRoleKeys: seq<string>,
    buildingAssignments: seq<AssignmentGrant>,
    resident: Option<ResidentGrant>,
    ifEmailExists: IfEmailExists,
    requireSameOrg: bool)

  datatype Provisioned = Provisioned(
    userId: Id, created: bool, linkedExisting: bool,
    orgRoleKeys: seq<string>, buildingAssignments: seq<AssignmentGrant>, occupancyId: Option<Id>)

  // ----- text

  predicate IsSpace(c: char) {
    c == ' ' || c == '\t' || c == '\n' || c == '\r'
  }

  function Trim(s: string): string
    decreases |s|
  {
    if |s| == 0 then s
    else if IsSpace(s[0]) then Trim(s[1..])
    else if IsSpace(s[|s| - 1]) then Trim(s[..|s| - 1])
    else s
  }

  function Lower(s: string): string {
    seq(|s|, i requires 0 <= i < |s| => if 'A' <= s[i] <= 'Z' then s[i] - 'A' + 'a' else s[i])
  }

  function NormalizeEmail(email: string): string {
    Lower(Trim(email))
  }

  function TrimAll(values: seq<string>): seq<string> {
    seq(|values|, i requires 0 <= i < |values| => Trim(values[i]))
  }

  function DedupeStrings(values: seq<string>): seq<string> {
    FirstOccurrences(TrimAll(values))
  }

  // ----- finding or creating the user

  /** Case-insensitive `user.findFirst` on the email. */
  function FindByEmail(users: seq<User>, email: string): (r: Option<nat>)
    ensures r.Some? ==> r.value < |users| && Lower(users[r.value].email) == Lower(email)
    ensures r.Some? ==> forall j :: 0 <= j < r.value ==> Lower(users[j].email) != Lower(email)
    ensures r.None? ==> forall j :: 0 <= j < |users| ==> Lower(users[j].email) != Lower(email)
  {
    if |users| == 0 then None
    else
      var r := FindByEmail(users[..|users| - 1], email);
      if r.Some? then r
      else if Lower(users[|users| - 1].email) == Lower(email) then Some(|users| - 1)
      else None
  }

  datatype Target = Target(userId: Id, created: bool)

  function ResolveTarget(d: Dir, orgId: Id, p: Payload): Result<(Dir, Target)> {
    var email := NormalizeEmail(p.email);
    match FindByEmail(d.users, email)
    case Some(i) =>
      var u := d.users[i];
      if p.ifEmailExists == ERROR then Err(Conflict)
      else if u.orgId != Some(orgId) && (u.orgId.Some? || p.requireSameOrg) then Err(BadRequest)
      else if !u.isActive then Err(BadRequest)
      else Ok((d.(users := d.users[i := u.(orgId := Some(orgId))]), Target(i, false)))
    case None =>
      if p.name.None? || |Trim(p.name.value)| < 2 then Err(BadRequest)
      else if (p.password.None? || p.password.value == "") && !p.sendInvite then Err(BadRequest)
      else Ok((d.(users := d.users + [User(email, Trim(p.name.value), Some(orgId), true)]), Target(|d.users|, true)))
  }

  // ----- the manager gate

  /** The actor is MANAGER or BUILDING_ADMIN of the building. */
  predicate Manages(d: Dir, actorId: Id, buildingId: Id) {
    || Assignment(buildingId, actorId, MANAGER) in d.assignments
    || Assignment(buildingId, actorId, BUILDING_ADMIN) in d.assignments
  }

  /** What an actor without `users.write` may ask for. */
  predicate ManagerMayGrant(d: Dir, actorId: Id, roleKeys: seq<string>, grants: seq<AssignmentGrant>,
                            resident: Option<ResidentGrant>, requireSameOrg: bool) {
    && requireSameOrg
    && |roleKeys| == 0
    && (|grants| > 0 || resident.Some?)
    && (forall g :: g in grants ==> g.kind != BUILDING_ADMIN && Manages(d, actorId, g.buildingId))
    && (resident.Some? ==> Manages(d, actorId, resident.value.buildingId))
  }

  // ----- the grants

  function RoleRows(d: Dir, userId: Id, keys: seq<string>): set<UserRole>
    requires forall k :: k in keys ==> k in d.roles
  {
    set k | k in keys :: UserRole(userId, d.roles[k])
  }

  function ApplyOrgRoles(d: Dir, userId: Id, keys: seq<string>): Result<Dir> {
    if exists k :: k in keys && k !in d.roles then Err(BadRequest)
    else Ok(d.(userRoles := d.userRoles + RoleRows(d, userId, keys)))
  }

  function AssignmentRows(userId: Id, grants: seq<AssignmentGrant>): set<Assignment> {
    set g | g in grants :: Assignment(g.buildingId, userId, g.kind)
  }

  function ApplyBuildingAssignments(d: Dir, orgId: Id, userId: Id, grants: seq<AssignmentGrant>): Result<Dir> {
    if exists g :: g in grants && !BuildingInOrg(d, g.buildingId, orgId) then Err(NotFound)
    else Ok(d.(assignments := d.assignments + AssignmentRows(userId, grants)))
  }

  function EnsureAdminRole(d: Dir, userId: Id, grants: seq<AssignmentGrant>): Result<Dir> {
    if forall g :: g in grants ==> g.kind != BUILDING_ADMIN then Ok(d)
    else if "admin" !in d.roles then Err(BadRequest)
    else Ok(d.(userRoles := d.userRoles + {UserRole(userId, d.roles["admin"])}))
  }

  /** The rows a MOVE ends: ACTIVE ones of the resident in the building, away from the target unit. */
  predicate Leaves(o: Occupancy, userId: Id, g: ResidentGrant) {
    o.residentUserId == userId && o.buildingId == g.buildingId && o.status == ACTIVE && o.unitId != g.unitId
  }

  function AfterMove(o: Occupancy, userId: Id, g: ResidentGrant, now: Time): Occupancy {
    if g.mode == MOVE && Leaves(o, userId, g) then o.(status := ENDED, endAt := Some(now)) else o
  }

  function EndOthers(occs: seq<Occupancy>, userId: Id, g: ResidentGrant, now: Time): seq<Occupancy> {
    seq(|occs|, i requires 0 <= i < |occs| => AfterMove(occs[i], userId, g, now))
  }

  /** The occupancies after a grant, and the position of the resident's row on the unit. */
  function GrantOccupancy(occs: seq<Occupancy>, userId: Id, g: ResidentGrant, now: Time): Result<(seq<Occupancy>, Id)> {
    var onUnit := FindActive(occs, ActiveWhere(Some(g.unitId), None));
    if onUnit.Some? && occs[onUnit.value].residentUserId != userId then Err(Conflict)
    else
      var ended := EndOthers(occs, userId, g, now);
      if onUnit.Some? then Ok((ended, onUnit.value))
      else Ok((ended + [Occupancy(g.buildingId, g.unitId, userId, ACTIVE, None)], |ended|))
  }

  function ApplyResidentGrant(d: Dir, orgId: Id, userId: Id, grant: Option<ResidentGrant>, now: Time)
    : Result<(Dir, Option<Id>)>
  {
    if grant.None? then Ok((d, None))
    else if !BuildingInOrg(d, grant.value.buildingId, orgId) then Err(NotFound)
    else if !UnitInBuilding(d, grant.value.unitId, grant.value.buildingId) then Err(BadRequest)
    else
      var (occs, id) :- GrantOccupancy(d.occupancies, userId, grant.value, now);
      Ok((d.(occupancies := occs), Some(id)))
  }

  // ----- the transaction

  predicate HasUsersWrite(actor: Actor, effective: set<string>) {
    actor.sub.Some? && "users.write" in effective
  }

  function Admit(d: Dir, actor: Actor, effective: set<string>, p: Payload): Result<Id> {
    var keys := DedupeStrings(p.orgRoleKeys);
    if actor.orgId.None? then Err(Forbidden)
    else if "super_admin" in keys then Err(BadRequest)
    else if HasUsersWrite(actor, effective) then Ok(actor.orgId.value)
    else if actor.sub.None? then Err(Forbidden)
    else if !ManagerMayGrant(d, actor.sub.value, keys, FirstOccurrences(p.buildingAssignments), p.resident,
                             p.requireSameOrg) then Err(Forbidden)
    else Ok(actor.orgId.value)
  }

  /** Roles, then building assignments, then the admin role a BUILDING_ADMIN needs. */
  function GrantRights(d: Dir, orgId: Id, userId: Id, keys: seq<string>, grants: seq<AssignmentGrant>): Result<Dir> {
    var d2 :- ApplyOrgRoles(d, userId, keys);
    var d3 :- ApplyBuildingAssignments(d2, orgId, userId, grants);
    EnsureAdminRole(d3, userId, grants)
  }

  function Grant(d: Dir, orgId: Id, p: Payload, now: Time): Result<(Dir, Provisioned)> {
    var keys := DedupeStrings(p.orgRoleKeys);
    var grants := FirstOccurrences(p.buildingAssignments);
    var (d1, t) :- ResolveTarget(d, orgId, p);
    var (e, occupancyId) :- GrantTo(d1, orgId, t.userId, keys, grants, p.resident, now);
    Ok((e, Provisioned(t.userId, t.created, !t.created, keys, grants, occupancyId)))
  }

  /** The grants to the user once found or created. */
  function GrantTo(d: Dir, orgId: Id, userId: Id, keys: seq<string>, grants: seq<AssignmentGrant>,
                   resident: Option<ResidentGrant>, now: Time): Result<(Dir, Option<Id>)>
  {
    var e :- GrantRights(d, orgId, userId, keys, grants);
    ApplyResidentGrant(e, orgId, userId, resident, now)
  }

  function Attempt(d: Dir, actor: Actor, effective: set<string>, p: Payload, now: Time): Result<(Dir, Provisioned)> {
    var orgId :- Admit(d, actor, effective, p);
    Grant(d, orgId, p, now)
  }

  /** The committed directory and the reply: a throw leaves the directory as it was. */
  function Provision(d: Dir, actor: Actor, effective: set<string>, p: Payload, now: Time): (Dir, Result<Provisioned>) {
    match Attempt(d, actor, effective, p, now)
    case Ok((e, reply)) => (e, Ok(reply))
    case Err(error) => (d, Err(error))
  }

  // ----- integrity

  lemma LowerTwice(s: string)
    ensures Lower(Lower(s)) == Lower(s)
  {
  }

  lemma FoundAt(users: seq<User>, email: string, i: nat)
    requires i < |users| && Lower(users[i].email) == Lower(email)
    requires forall j :: 0 <= j < i ==> Lower(users[j].email) != Lower(email)
    ensures FindByEmail(users, email) == Some(i)
  {
  }

  /** The target is an active user of the organisation, and the one the email finds from then on. */
  lemma ResolvedUser(d: Dir, orgId: Id, p: Payload)
    requires ResolveTarget(d, orgId, p).Ok?
    ensures var (e, t) := ResolveTarget(d, orgId, p).value;
      && e == d.(users := e.users) && ActiveUserInOrg(e, t.userId, orgId)
      && (t.created <==> FindByEmail(d.users, NormalizeEmail(p.email)).None?)
      && FindByEmail(e.users, NormalizeEmail(p.email)) == Some(t.userId)
  {
    var (e, t) := ResolveTarget(d, orgId, p).value;
    var email := NormalizeEmail(p.email);
    LowerTwice(Trim(p.email));
    assert Lower(e.users[t.userId].email) == Lower(email);
    assert forall j :: 0 <= j < t.userId ==> e.users[j] == d.users[j];
    FoundAt(e.users, email, t.userId);
  }

  lemma ResolveKeeps(d: Dir, orgId: Id, p: Payload)
    requires Valid(d) && ResolveTarget(d, orgId, p).Ok?
    ensures var e := ResolveTarget(d, orgId, p).value.0; Valid(e) && Evolves(d, e)
  {
    var e := ResolveTarget(d, orgId, p).value.0;
    TenancySurvives(d, e);
    forall i | 0 <= i < |d.occupancies| ensures OccupancyTenancy(e, e.occupancies[i]) {
      assert OccupancyEvolves(d.occupancies[i], e.occupancies[i]);
    }
  }

  lemma EndOthersKeeps(d: Dir, userId: Id, g: ResidentGrant, now: Time)
    requires Valid(d)
    ensures var e := d.(occupancies := EndOthers(d.occupancies, userId, g, now));
      Valid(e) && Evolves(d, e)
  {
    var e := d.(occupancies := EndOthers(d.occupancies, userId, g, now));
    assert forall i :: 0 <= i < |d.occupancies| ==> OccupancyEvolves(d.occupancies[i], e.occupancies[i]);
    TenancySurvives(d, e);
    forall i | 0 <= i < |e.occupancies| ensures OccupancyTenancy(e, e.occupancies[i]) {
      assert OccupancyEvolves(d.occupancies[i], e.occupancies[i]);
    }
  }

  lemma StillVacant(occs: seq<Occupancy>, userId: Id, g: ResidentGrant, now: Time)
    requires FindActive(occs, ActiveWhere(Some(g.unitId), None)).None?
    ensures FindActive(EndOthers(occs, userId, g, now), ActiveWhere(Some(g.unitId), None)).None?
  {
    VacantIffNoneFound(occs, g.unitId);
    var ended := EndOthers(occs, userId, g, now);
    assert forall i :: 0 <= i < |occs| ==> !OnUnit(occs[i], g.unitId) && !OnUnit(ended[i], g.unitId);
    VacantIffNoneFound(ended, g.unitId);
  }

  lemma ResidentGrantKeeps(d: Dir, orgId: Id, userId: Id, grant: Option<ResidentGrant>, now: Time)
    requires Valid(d) && ActiveUserInOrg(d, userId, orgId)
    requires ApplyResidentGrant(d, orgId, userId, grant, now).Ok?
    ensures var e := ApplyResidentGrant(d, orgId, userId, grant, now).value.0;
      Valid(e) && Evolves(d, e) && e == d.(occupancies := e.occupancies)
  {
    if grant.Some? {
      var g := grant.value;
      var f := d.(occupancies := EndOthers(d.occupancies, userId, g, now));
      EndOthersKeeps(d, userId, g, now);
      if FindActive(d.occupancies, ActiveWhere(Some(g.unitId), None)).None? {
        StillVacant(d.occupancies, userId, g, now);
        InsertKeeps(f, Occupancy(g.buildingId, g.unitId, userId, ACTIVE, None));
        EvolvesTransitive(d, f, ApplyResidentGrant(d, orgId, userId, grant, now).value.0);
      }
    }
  }

  lemma GrantRightsKeeps(d: Dir, orgId: Id, userId: Id, keys: seq<string>, grants: seq<AssignmentGrant>)
    requires Valid(d) && ActiveUserInOrg(d, userId, orgId)
    requires GrantRights(d, orgId, userId, keys, grants).Ok?
    ensures var e := GrantRights(d, orgId, userId, keys, grants).value;
      && Valid(e) && Evolves(d, e)
      && e == d.(userRoles := e.userRoles, assignments := e.assignments)
  {
    var e := GrantRights(d, orgId, userId, keys, grants).value;
    assert e.assignments == d.assignments + AssignmentRows(userId, grants);
    TenancySurvives(d, e);
  }

  /** Every outcome of `provision` keeps the integrity of the directory and only lets it evolve. */
  lemma ProvisionKeepsIntegrity(d: Dir, actor: Actor, effective: set<string>, p: Payload, now: Time)
    requires Valid(d)
    ensures var e := Provision(d, actor, effective, p, now).0;
      Valid(e) && Evolves(d, e)
  {
    if Attempt(d, actor, effective, p, now).Ok? {
      GrantKeepsIntegrity(d, actor.orgId.value, p, now);
    }
  }

  lemma GrantKeepsIntegrity(d: Dir, orgId: Id, p: Payload, now: Time)
    requires Valid(d) && Grant(d, orgId, p, now).Ok?
    ensures var e := Grant(d, orgId, p, now).value.0;
      Valid(e) && Evolves(d, e)
  {
    var keys, grants := DedupeStrings(p.orgRoleKeys), FirstOccurrences(p.buildingAssignments);
    ResolveKeeps(d, orgId, p);
    ResolvedUser(d, orgId, p);
    var (d1, t) := ResolveTarget(d, orgId, p).value;
    GrantRightsKeeps(d1, orgId, t.userId, keys, grants);
    var d4 := GrantRights(d1, orgId, t.userId, keys, grants).value;
    ResidentGrantKeeps(d4, orgId, t.userId, p.resident, now);
    EvolvesTransitive(d, d1, d4);
    EvolvesTransitive(d, d4, Grant(d, orgId, p, now).value.0);
  }

  // ----- idempotence

  lemma ResolveFound(e: Dir, orgId: Id, p: Payload, i: nat)
    requires FindByEmail(e.users, NormalizeEmail(p.email)) == Some(i) && ActiveUserInOrg(e, i, orgId)
    ensures ResolveTarget(e, orgId, p) == if p.ifEmailExists == ERROR then Err(Conflict) else Ok((e, Target(i, false)))
  {
    assert e.users[i := e.users[i]] == e.users;
  }

  lemma ResolveAgain(d: Dir, e: Dir, orgId: Id, p: Payload)
    requires ResolveTarget(d, orgId, p).Ok? && e.users == ResolveTarget(d, orgId, p).value.0.users
    ensures ResolveTarget(e, orgId, p) ==
      if p.ifEmailExists == ERROR then Err(Conflict)
      else Ok((e, Target(ResolveTarget(d, orgId, p).value.1.userId, false)))
  {
    ResolvedUser(d, orgId, p);
    ResolveFound(e, orgId, p, ResolveTarget(d, orgId, p).value.1.userId);
  }

  lemma GrantRightsAgain(d: Dir, e: Dir, orgId: Id, userId: Id, keys: seq<string>, grants: seq<AssignmentGrant>)
    requires GrantRights(d, orgId, userId, keys, grants).Ok?
    requires var f := GrantRights(d, orgId, userId, keys, grants).value;
      e.buildings == f.buildings && e.roles == f.roles && f.userRoles <= e.userRoles && f.assignments <= e.assignments
    ensures GrantRights(e, orgId, userId, keys, grants) == Ok(e)
  {
    var f := GrantRights(d, orgId, userId, keys, grants).value;
    assert RoleRows(e, userId, keys) <= e.userRoles;
    assert e.userRoles + RoleRows(e, userId, keys) == e.userRoles;
    assert e.assignments + AssignmentRows(userId, grants) == e.assignments;
    assert e.(userRoles := e.userRoles, assignments := e.assignments) == e;
    if "admin" in e.roles && !(forall g :: g in grants ==> g.kind != BUILDING_ADMIN) {
      assert UserRole(userId, e.roles["admin"]) in f.userRoles;
      assert e.userRoles + {UserRole(userId, e.roles["admin"])} == e.userRoles;
    }
  }

  lemma FindActiveAt(occs: seq<Occupancy>, w: ActiveWhere, i: nat)
    requires i < |occs| && w.Matches(occs[i]) && forall j :: 0 <= j < i ==> !w.Matches(occs[j])
    ensures FindActive(occs, w) == Some(i)
  {
  }

  lemma EndedTwice(occs: seq<Occupancy>, userId: Id, g: ResidentGrant, now: Time, later: Time)
    ensures EndOthers(EndOthers(occs, userId, g, now), userId, g, later) == EndOthers(occs, userId, g, now)
  {
  }

  /** The rows on the target unit are left alone. */
  lemma StillOnUnit(occs: seq<Occupancy>, userId: Id, g: ResidentGrant, now: Time, j: nat)
    requires j < |occs|
    ensures var w := ActiveWhere(Some(g.unitId), None);
      && w.Matches(EndOthers(occs, userId, g, now)[j]) == w.Matches(occs[j])
      && EndOthers(occs, userId, g, now)[j].residentUserId == occs[j].residentUserId
  {
  }

  lemma GrantOccupancyAgain(occs: seq<Occupancy>, userId: Id, g: ResidentGrant, now: Time, later: Time)
    requires GrantOccupancy(occs, userId, g, now).Ok?
    ensures var (after, id) := GrantOccupancy(occs, userId, g, now).value;
      GrantOccupancy(after, userId, g, later) == Ok((after, id))
  {
    var (after, id) := GrantOccupancy(occs, userId, g, now).value;
    var w, ended := ActiveWhere(Some(g.unitId), None), EndOthers(occs, userId, g, now);
    EndedTwice(occs, userId, g, now, later);
    forall j | 0 <= j < |occs|
      ensures w.Matches(ended[j]) == w.Matches(occs[j]) && ended[j].residentUserId == occs[j].residentUserId
    {
      StillOnUnit(occs, userId, g, now, j);
    }
    if FindActive(occs, w).None? {
      var o := Occupancy(g.buildingId, g.unitId, userId, ACTIVE, None);
      assert EndOthers(ended + [o], userId, g, later) == EndOthers(ended, userId, g, later) + [o];
    }
    FindActiveAt(after, w, id);
  }

  lemma GrantToAgain(d: Dir, orgId: Id, userId: Id, keys: seq<string>, grants: seq<AssignmentGrant>,
                     resident: Option<ResidentGrant>, now: Time, later: Time)
    requires GrantTo(d, orgId, userId, keys, grants, resident, now).Ok?
    ensures var (e, id) := GrantTo(d, orgId, userId, keys, grants, resident, now).value;
      GrantTo(e, orgId, userId, keys, grants, resident, later) == Ok((e, id))
  {
    var f := GrantRights(d, orgId, userId, keys, grants).value;
    var (e, id) := GrantTo(d, orgId, userId, keys, grants, resident, now).value;
    GrantRightsAgain(d, e, orgId, userId, keys, grants);
    if resident.Some? {
      GrantOccupancyAgain(f.occupancies, userId, resident.value, now, later);
      assert e.(occupancies := e.occupancies) == e;
    }
  }

  lemma GrantToKeepsUsers(d: Dir, orgId: Id, userId: Id, keys: seq<string>, grants: seq<AssignmentGrant>,
                          resident: Option<ResidentGrant>, now: Time)
    requires GrantTo(d, orgId, userId, keys, grants, resident, now).Ok?
    ensures GrantTo(d, orgId, userId, keys, grants, resident, now).value.0.users == d.users
  {
  }

  lemma GrantAgain(d: Dir, orgId: Id, p: Payload, now: Time, later: Time)
    requires Grant(d, orgId, p, now).Ok?
    ensures var (e, reply) := Grant(d, orgId, p, now).value;
      Grant(e, orgId, p, later) ==
        if p.ifEmailExists == ERROR then Err(Conflict)
        else Ok((e, reply.(created := false, linkedExisting := true)))
  {
    var keys, grants := DedupeStrings(p.orgRoleKeys), FirstOccurrences(p.buildingAssignments);
    var (d1, t) := ResolveTarget(d, orgId, p).value;
    var e := Grant(d, orgId, p, now).value.0;
    GrantToKeepsUsers(d1, orgId, t.userId, keys, grants, p.resident, now);
    ResolveAgain(d, e, orgId, p);
    GrantToAgain(d1, orgId, t.userId, keys, grants, p.resident, now, later);
  }

  lemma FailureIsTimeless(d: Dir, orgId: Id, p: Payload, now: Time, later: Time)
    ensures Grant(d, orgId, p, now).Err? ==> Grant(d, orgId, p, later).Err?
  {
  }

  lemma GrantOnlyAddsAssignments(d: Dir, orgId: Id, p: Payload, now: Time)
    requires Grant(d, orgId, p, now).Ok?
    ensures d.assignments <= Grant(d, orgId, p, now).value.0.assignments
  {
  }

  lemma AdmitAgain(d: Dir, e: Dir, actor: Actor, effective: set<string>, p: Payload)
    requires d.assignments <= e.assignments && Admit(d, actor, effective, p).Ok?
    ensures Admit(e, actor, effective, p) == Admit(d, actor, effective, p)
  {
  }

  lemma AdmitsOwnOrg(d: Dir, actor: Actor, effective: set<string>, p: Payload)
    requires Admit(d, actor, effective, p).Ok?
    ensures actor.orgId == Some(Admit(d, actor, effective, p).value)
  {
  }

  /** Whatever the payload, the directory and the rights of the actor at the second call, a repeated call changes
    * nothing: the tables after two calls are the tables after one.
    */
  lemma ProvisionIdempotent(d: Dir, actor: Actor, effective: set<string>, effectiveLater: set<string>, p: Payload,
                            now: Time, later: Time)
    requires Provision(d, actor, effective, p, now).1.Ok? || effectiveLater == effective
    ensures var e := Provision(d, actor, effective, p, now).0;
      Provision(e, actor, effectiveLater, p, later).0 == e
  {
    var (e, r) := Provision(d, actor, effective, p, now);
    if Admit(d, actor, effective, p).Ok? {
      AdmitsOwnOrg(d, actor, effective, p);
      FailureIsTimeless(d, actor.orgId.value, p, now, later);
    }
    if r.Ok? {
      GrantAgain(d, actor.orgId.value, p, now, later);
    }
    if Admit(e, actor, effectiveLater, p).Ok? {
      AdmitsOwnOrg(e, actor, effectiveLater, p);
    }
  }

  /** In LINK mode, with the same rights, the second call succeeds and names the same user and the same occupancy. */
  lemma ProvisionRepeats(d: Dir, actor: Actor, effective: set<string>, p: Payload, now: Time, later: Time)
    requires Provision(d, actor, effective, p, now).1.Ok? && p.ifEmailExists == LINK
    ensures var (e, r) := Provision(d, actor, effective, p, now);
      Provision(e, actor, effective, p, later) == (e, Ok(r.value.(created := false, linkedExisting := true)))
  {
    var e := Provision(d, actor, effective, p, now).0;
    AdmitsOwnOrg(d, actor, effective, p);
    GrantAgain(d, actor.orgId.value, p, now, later);
    GrantOnlyAddsAssignments(d, actor.orgId.value, p, now);
    AdmitAgain(d, e, actor, effective, p);
  }

  // ----- what a MOVE leaves behind

  lemma MoveOccupancy(occs: seq<Occupancy>, userId: Id, g: ResidentGrant, now: Time, i: nat)
    requires GrantOccupancy(occs, userId, g, now).Ok? && g.mode == MOVE
    requires var after := GrantOccupancy(occs, userId, g, now).value.0;
      && OneActive(after) && i < |after|
      && forall j :: 0 <= j < |after| && after[j].unitId == g.unitId ==> after[j].buildingId == g.buildingId
    ensures var (after, id) := GrantOccupancy(occs, userId, g, now).value;
      && id < |after| && OnUnit(after[id], g.unitId)
      && ((&& after[i].residentUserId == userId && after[i].buildingId == g.buildingId && after[i].status == ACTIVE)
          <==> i == id)
  {
    var (after, id) := GrantOccupancy(occs, userId, g, now).value;
    assert i < |occs| ==> after[i] == AfterMove(occs[i], userId, g, now);
  }

  /** A successful call with a resident grant does to the occupancies what the grant does, and nothing else. */
  lemma GrantOnOccupancies(d: Dir, orgId: Id, p: Payload, now: Time)
    requires Grant(d, orgId, p, now).Ok? && p.resident.Some?
    ensures var (e, reply) := Grant(d, orgId, p, now).value;
      && reply.occupancyId.Some?
      && GrantOccupancy(d.occupancies, reply.userId, p.resident.value, now) == Ok((e.occupancies, reply.occupancyId.value))
      && UnitInBuilding(e, p.resident.value.unitId, p.resident.value.buildingId)
  {
    var (d1, t) := ResolveTarget(d, orgId, p).value;
    assert d1.occupancies == d.occupancies && d1.units == d.units;
  }

  /** After a MOVE the user's only ACTIVE occupancy in the building is the returned row, on the target unit. */
  lemma MoveLeavesOne(d: Dir, actor: Actor, effective: set<string>, p: Payload, now: Time, i: nat)
    requires Valid(d) && Provision(d, actor, effective, p, now).1.Ok?
    requires p.resident.Some? && p.resident.value.mode == MOVE
    requires i < |Provision(d, actor, effective, p, now).0.occupancies|
    ensures var (e, r) := Provision(d, actor, effective, p, now);
      && r.value.occupancyId.Some? && r.value.occupancyId.value < |e.occupancies|
      && OnUnit(e.occupancies[r.value.occupancyId.value], p.resident.value.unitId)
      && ((&& e.occupancies[i].residentUserId == r.value.userId
           && e.occupancies[i].buildingId == p.resident.value.buildingId
           && e.occupancies[i].status == ACTIVE)
          <==> Some(i) == r.value.occupancyId)
  {
    var orgId, g := actor.orgId.value, p.resident.value;
    GrantKeepsIntegrity(d, orgId, p, now);
    GrantOnOccupancies(d, orgId, p, now);
    var (e, reply) := Grant(d, orgId, p, now).value;
    forall j | 0 <= j < |e.occupancies| && e.occupancies[j].unitId == g.unitId
      ensures e.occupancies[j].buildingId == g.buildingId
    {
      assert OccupancyTenancy(e, e.occupancies[j]);
    }
    MoveOccupancy(d.occupancies, reply.userId, g, now, i);
  }

  // ----- what a call grants

  ghost predicate AsksForRole(d: Dir, p: Payload, roleId: Id) {
    || (exists k :: k in p.orgRoleKeys && Trim(k) in d.roles && d.roles[Trim(k)] == roleId)
    || (&& (exists g :: g in p.buildingAssignments && g.kind == BUILDING_ADMIN)
        && "admin" in d.roles && d.roles["admin"] == roleId)
  }

  lemma TrimmedKeys(values: seq<string>, key: string)
    ensures key in DedupeStrings(values) <==> exists v :: v in values && Trim(v) == key
  {
    var trimmed := TrimAll(values);
    if key in trimmed {
      var i :| 0 <= i < |trimmed| && trimmed[i] == key;
      assert values[i] in values && Trim(values[i]) == key;
    }
    if v :| v in values && Trim(v) == key {
      var i :| 0 <= i < |values| && values[i] == v;
      assert trimmed[i] == key;
    }
  }

  ghost predicate GivesRole(d: Dir, keys: seq<string>, grants: seq<AssignmentGrant>, roleId: Id) {
    || (exists k :: k in keys && k in d.roles && d.roles[k] == roleId)
    || (&& (exists g :: g in grants && g.kind == BUILDING_ADMIN)
        && "admin" in d.roles && d.roles["admin"] == roleId)
  }

  ghost predicate Lists(grants: seq<AssignmentGrant>, userId: Id, a: Assignment) {
    a.userId == userId && AssignmentGrant(a.buildingId, a.kind) in grants
  }

  lemma RightsOfGrants(d: Dir, orgId: Id, userId: Id, keys: seq<string>, grants: seq<AssignmentGrant>,
                       ur: UserRole, a: Assignment)
    requires GrantRights(d, orgId, userId, keys, grants).Ok?
    ensures var e := GrantRights(d, orgId, userId, keys, grants).value;
      && (ur in e.userRoles <==> ur in d.userRoles || (ur.userId == userId && GivesRole(d, keys, grants, ur.roleId)))
      && (a in e.assignments <==> a in d.assignments || Lists(grants, userId, a))
  {
    assert ur == UserRole(ur.userId, ur.roleId);
    if Lists(grants, userId, a) {
      assert a in AssignmentRows(userId, grants);
    }
  }

  /** A successful call adds exactly the roles the payload asks for, with the admin role for a BUILDING_ADMIN, and exactly
    * the assignments it lists, all for the user in the reply; nothing is taken away.
    */
  lemma RightsGranted(d: Dir, orgId: Id, p: Payload, now: Time, ur: UserRole, a: Assignment)
    requires Grant(d, orgId, p, now).Ok?
    ensures var (e, reply) := Grant(d, orgId, p, now).value;
      && (ur in e.userRoles <==> ur in d.userRoles || (ur.userId == reply.userId && AsksForRole(d, p, ur.roleId)))
      && (a in e.assignments <==> a in d.assignments || Lists(p.buildingAssignments, reply.userId, a))
  {
    var keys, grants := DedupeStrings(p.orgRoleKeys), FirstOccurrences(p.buildingAssignments);
    var (d1, t) := ResolveTarget(d, orgId, p).value;
    RightsOfGrants(d1, orgId, t.userId, keys, grants, ur, a);
    forall k ensures k in keys <==> exists v :: v in p.orgRoleKeys && Trim(v) == k {
      TrimmedKeys(p.orgRoleKeys, k);
    }
  }

  /** A successful call touches no user but the one in the reply, and nothing of buildings, units and amenities. */
  lemma GrantTouchesTarget(d: Dir, orgId: Id, p: Payload, now: Time, i: nat)
    requires Grant(d, orgId, p, now).Ok? && i < |d.users|
    ensures var (e, reply) := Grant(d, orgId, p, now).value;
      && |d.users| <= |e.users| <= |d.users| + 1
      && (i != reply.userId ==> e.users[i] == d.users[i])
      && e == d.(users := e.users, userRoles := e.userRoles, assignments := e.assignments, occupancies := e.occupancies)
  {
  }

  // ----- the frame of a manager

  /** Without `users.write` a call may grant only what its gate lets through. */
  lemma GateOfManager(d: Dir, actor: Actor, effective: set<string>, p: Payload)
    requires !HasUsersWrite(actor, effective) && Admit(d, actor, effective, p).Ok?
    ensures actor.sub.Some? && actor.orgId == Some(Admit(d, actor, effective, p).value)
    ensures DedupeStrings(p.orgRoleKeys) == [] && p.requireSameOrg
    ensures forall g :: g in p.buildingAssignments ==> g.kind != BUILDING_ADMIN && Manages(d, actor.sub.value, g.buildingId)
    ensures p.resident.Some? ==> Manages(d, actor.sub.value, p.resident.value.buildingId)
  {
  }

  /** The rights of a grant without role keys and BUILDING_ADMIN assignments. */
  lemma RightsWithoutRoles(d: Dir, orgId: Id, p: Payload, now: Time)
    requires Grant(d, orgId, p, now).Ok? && DedupeStrings(p.orgRoleKeys) == [] && p.requireSameOrg
    requires forall g :: g in p.buildingAssignments ==> g.kind != BUILDING_ADMIN
    ensures var e := Grant(d, orgId, p, now).value.0;
      && e.userRoles == d.userRoles && d.users <= e.users
      && e == d.(users := e.users, assignments := e.assignments, occupancies := e.occupancies)
  {
    var (d1, t) := ResolveTarget(d, orgId, p).value;
    assert d1.users[..|d.users|] == d.users;
    assert RoleRows(d1, t.userId, []) == {};
  }

  /** A grant touches only occupancies of its building. */
  lemma OccupanciesOfGrant(occs: seq<Occupancy>, userId: Id, g: ResidentGrant, now: Time, i: nat)
    requires GrantOccupancy(occs, userId, g, now).Ok? && i < |GrantOccupancy(occs, userId, g, now).value.0|
    ensures var after := GrantOccupancy(occs, userId, g, now).value.0;
      (i < |occs| ==> after[i] != occs[i]) ==> after[i].buildingId == g.buildingId
  {
  }

  lemma NoOccupanciesWithoutGrant(d: Dir, orgId: Id, p: Payload, now: Time)
    requires Grant(d, orgId, p, now).Ok? && p.resident.None?
    ensures Grant(d, orgId, p, now).value.0.occupancies == d.occupancies
  {
  }

  lemma FrameOfAssignments(d: Dir, actorId: Id, orgId: Id, p: Payload, now: Time, a: Assignment)
    requires Grant(d, orgId, p, now).Ok?
    requires forall g :: g in p.buildingAssignments ==> g.kind != BUILDING_ADMIN && Manages(d, actorId, g.buildingId)
    requires a in Grant(d, orgId, p, now).value.0.assignments && a !in d.assignments
    ensures a.kind != BUILDING_ADMIN && Manages(d, actorId, a.buildingId)
  {
    RightsGranted(d, orgId, p, now, UserRole(0, 0), a);
  }

  lemma FrameOfOccupancies(d: Dir, actorId: Id, orgId: Id, p: Payload, now: Time, i: nat)
    requires Grant(d, orgId, p, now).Ok? && i < |Grant(d, orgId, p, now).value.0.occupancies|
    requires p.resident.Some? ==> Manages(d, actorId, p.resident.value.buildingId)
    requires i < |d.occupancies| ==> Grant(d, orgId, p, now).value.0.occupancies[i] != d.occupancies[i]
    ensures Manages(d, actorId, Grant(d, orgId, p, now).value.0.occupancies[i].buildingId)
  {
    if p.resident.Some? {
      GrantOnOccupancies(d, orgId, p, now);
      OccupanciesOfGrant(d.occupancies, Grant(d, orgId, p, now).value.1.userId, p.resident.value, now, i);
    } else {
      NoOccupanciesWithoutGrant(d, orgId, p, now);
    }
  }

  /** Without `users.write` a call changes no role row and no existing user, creates no BUILDING_ADMIN assignment,
    * and every assignment or occupancy row it adds or changes lies in a building the actor manages or administers.
    */
  lemma ManagerFrame(d: Dir, actor: Actor, effective: set<string>, p: Payload, now: Time)
    requires !HasUsersWrite(actor, effective)
    ensures var e := Provision(d, actor, effective, p, now).0;
      && e.userRoles == d.userRoles && d.users <= e.users
      && (forall a :: a in e.assignments && a !in d.assignments ==>
            actor.sub.Some? && a.kind != BUILDING_ADMIN && Manages(d, actor.sub.value, a.buildingId))
      && (forall i :: 0 <= i < |e.occupancies| && (i < |d.occupancies| ==> e.occupancies[i] != d.occupancies[i]) ==>
            actor.sub.Some? && Manages(d, actor.sub.value, e.occupancies[i].buildingId))
      && e == d.(users := e.users, assignments := e.assignments, occupancies := e.occupancies)
  {
    var (e, r) := Provision(d, actor, effective, p, now);
    if r.Ok? {
      var orgId := actor.orgId.value;
      GateOfManager(d, actor, effective, p);
      RightsWithoutRoles(d, orgId, p, now);
      forall a | a in e.assignments && a !in d.assignments
        ensures a.kind != BUILDING_ADMIN && Manages(d, actor.sub.value, a.buildingId)
      {
        FrameOfAssignments(d, actor.sub.value, orgId, p, now, a);
      }
      forall i | 0 <= i < |e.occupancies| && (i < |d.occupancies| ==> e.occupancies[i] != d.occupancies[i])
        ensures Manages(d, actor.sub.value, e.occupancies[i].buildingId)
      {
        FrameOfOccupancies(d, actor.sub.value, orgId, p, now, i);
      }
    }
  }
}
