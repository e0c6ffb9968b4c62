/** The provisioning service, statement by statement over the mutable tables, proved against `Provisioning`. */
module OrgUsersProvisionService {
  import opened Prelude
  import opened Tables
  import opened Provisioning
  import Database

  method DedupeAssignments(assignments: seq<AssignmentGrant>) returns (deduped: seq<AssignmentGrant>)
    ensures deduped == FirstOccurrences(assignments)
  {
    var seen: set<AssignmentGrant> := {};
    deduped := [];
    for i := 0 to |assignments|
      invariant deduped == FirstOccurrences(assignments[..i])
      invariant seen == set g | g in deduped
    {
      assert assignments[..i + 1][..i] == assignments[..i];
      if assignments[i] !in seen {
        seen := seen + {assignments[i]};
        deduped := deduped + [assignments[i]];
      }
    }
    assert assignments[..|assignments|] == assignments;
  }

  method AssertManagerProvisioningAllowed(
    db: Database.Database, actorId: Id, roleKeys: seq<string>, grants: seq<AssignmentGrant>,
    resident: Option<ResidentGrant>, requireSameOrg: bool) returns (r: Result<()>)
    ensures r == if ManagerMayGrant(db.Contents(), actorId, roleKeys, grants, resident, requireSameOrg)
                 then Ok(()) else Err(Forbidden)
  {
    if !requireSameOrg || |roleKeys| > 0 || (|grants| == 0 && resident.None?) {
      return Err(Forbidden);
    }
    if exists g :: g in grants && g.kind !in {MANAGER, STAFF} {
      return Err(Forbidden);
    }
    var targets: set<Id> := {};
    for i := 0 to |grants|
      invariant targets == set g | g in grants[..i] :: g.buildingId
    {
      assert grants[..i + 1] == grants[..i] + [grants[i]];
      targets := targets + {grants[i].buildingId};
    }
    assert grants[..|grants|] == grants;
    if resident.Some? {
      targets := targets + {resident.value.buildingId};
    }
    var actorAssignments := set a | a in db.assignments
      && a.userId == actorId && a.buildingId in targets && a.kind in {MANAGER, BUILDING_ADMIN};
    var allowed := set a | a in actorAssignments :: a.buildingId;
    if exists b :: b in targets && b !in allowed {
      ghost var b :| b in targets && b !in allowed;
      NotAllowed(db.Contents(), actorId, targets, allowed, b);
      assert !Manages(db.Contents(), actorId, b);
      return Err(Forbidden);
    }
    forall b | b in targets
      ensures Manages(db.Contents(), actorId, b)
    {
    }
    return Ok(());
  }

  lemma NotAllowed(d: Dir, actorId: Id, targets: set<Id>, allowed: set<Id>, b: Id)
    requires b in targets && b !in allowed
    requires forall a | a in d.assignments && a.userId == actorId && a.kind in {MANAGER, BUILDING_ADMIN} ::
      a.buildingId in targets ==> a.buildingId in allowed
    ensures !Manages(d, actorId, b)
  {
    assert forall k :: Assignment(b, actorId, k).buildingId == b;
  }

  method ApplyBuildingAssignments(db: Database.Database, orgId: Id, userId: Id, grants: seq<AssignmentGrant>)
    returns (r: Result<seq<AssignmentGrant>>)
    modifies db`assignments
    ensures var spec := Provisioning.ApplyBuildingAssignments(old(db.Contents()), orgId, userId, grants);
      if r.Ok? then r.value == grants && spec == Ok(db.Contents()) else spec == Err(r.error)
  {
    var applied: seq<AssignmentGrant> := [];
    for i := 0 to |grants|
      invariant applied == grants[..i]
      invariant forall g :: g in grants[..i] ==> BuildingInOrg(old(db.Contents()), g.buildingId, orgId)
      invariant db.assignments == old(db.assignments) + AssignmentRows(userId, grants[..i])
    {
      assert grants[..i + 1] == grants[..i] + [grants[i]];
      if !BuildingInOrg(db.Contents(), grants[i].buildingId, orgId) {
        return Err(NotFound);
      }
      // upsert on the unique key (building, user, type); the update writes the same type
      db.assignments := db.assignments + {Assignment(grants[i].buildingId, userId, grants[i].kind)};
      applied := applied + [grants[i]];
    }
    assert grants[..|grants|] == grants;
    return Ok(applied);
  }

  method ApplyOrgRoles(db: Database.Database, userId: Id, keys: seq<string>) returns (r: Result<seq<string>>)
    modifies db`userRoles
    ensures var spec := Provisioning.ApplyOrgRoles(old(db.Contents()), userId, keys);
      if r.Ok? then r.value == keys && spec == Ok(db.Contents()) else spec == Err(r.error)
  {
    if |keys| == 0 {
      assert db.userRoles + RoleRows(db.Contents(), userId, keys) == db.userRoles;
      return Ok([]);
    }
    if exists k :: k in keys && k !in db.roles {
      return Err(BadRequest);
    }
    db.userRoles := db.userRoles + RoleRows(db.Contents(), userId, keys);
    return Ok(keys);
  }

  method EnsureAdminRoleForBuildingAdmins(db: Database.Database, userId: Id, grants: seq<AssignmentGrant>)
    returns (r: Result<()>)
    modifies db`userRoles
    ensures var spec := Provisioning.EnsureAdminRole(old(db.Contents()), userId, grants);
      if r.Ok? then spec == Ok(db.Contents()) else spec == Err(r.error)
  {
    if !exists g :: g in grants && g.kind == BUILDING_ADMIN {
      return Ok(());
    }
    if "admin" !in db.roles {
      return Err(BadRequest);
    }
    db.userRoles := db.userRoles + {UserRole(userId, db.roles["admin"])};
    return Ok(());
  }

  /** The row lock taken before the first query has no effect on a single transaction;
    * `ProvisionInterleaving` shows what it is for.
    */
  method ApplyResidentGrant(db: Database.Database, orgId: Id, userId: Id, grant: Option<ResidentGrant>, now: Time)
    returns (r: Result<Option<Id>>)
    modifies db`occupancies
    ensures var spec := Provisioning.ApplyResidentGrant(old(db.Contents()), orgId, userId, grant, now);
      if r.Ok? then spec == Ok((db.Contents(), r.value)) else spec == Err(r.error)
  {
    if grant.None? {
      return Ok(None);
    }
    var g := grant.value;
    if !BuildingInOrg(db.Contents(), g.buildingId, orgId) {
      return Err(NotFound);
    }
    if !UnitInBuilding(db.Contents(), g.unitId, g.buildingId) {
      return Err(BadRequest);
    }
    var existingForUnit := FindActive(db.occupancies, ActiveWhere(Some(g.unitId), None));
    if existingForUnit.Some? && db.occupancies[existingForUnit.value].residentUserId != userId {
      return Err(Conflict);
    }
    var existingForUserUnit := existingForUnit;
    if existingForUnit.None? {
      existingForUserUnit := FindActive(db.occupancies, ActiveWhere(Some(g.unitId), Some(userId)));
      assert existingForUserUnit.Some? ==>
        ActiveWhere(Some(g.unitId), None).Matches(db.occupancies[existingForUserUnit.value]);
    }
    db.occupancies := EndOthers(db.occupancies, userId, g, now);
    if existingForUserUnit.Some? {
      return Ok(existingForUserUnit);
    }
    var id := |db.occupancies|;
    db.occupancies := db.occupancies + [Occupancy(g.buildingId, g.unitId, userId, ACTIVE, None)];
    return Ok(Some(id));
  }

  method FindOrCreateUser(db: Database.Database, orgId: Id, p: Payload) returns (r: Result<Target>)
    modifies db`users
    ensures var spec := ResolveTarget(old(db.Contents()), orgId, p);
      if r.Ok? then spec == Ok((db.Contents(), r.value)) else spec == Err(r.error)
  {
    var email := NormalizeEmail(p.email);
    var found := FindByEmail(db.users, email);
    if found.Some? {
      var i := found.value;
      if p.ifEmailExists == ERROR {
        return Err(Conflict);
      }
      if db.users[i].orgId != Some(orgId) {
        if db.users[i].orgId.None? && !p.requireSameOrg {
          db.users := db.users[i := db.users[i].(orgId := Some(orgId))];
        } else {
          return Err(BadRequest);
        }
      }
      if !db.users[i].isActive {
        return Err(BadRequest);
      }
      assert db.users == old(db.users)[i := old(db.users)[i].(orgId := Some(orgId))];
      return Ok(Target(i, false));
    }
    if p.name.None? || |Trim(p.name.value)| < 2 {
      return Err(BadRequest);
    }
    if (p.password.None? || p.password.value == "") && !p.sendInvite {
      return Err(BadRequest);
    }
    var id := |db.users|;
    db.users := db.users + [User(email, Trim(p.name.value), Some(orgId), true)];
    return Ok(Target(id, true));
  }

  /** The statements inside the transaction, after the checks on the payload. */
  method RunTransaction(db: Database.Database, orgId: Id, keys: seq<string>, grants: seq<AssignmentGrant>,
                        p: Payload, now: Time) returns (r: Result<Provisioned>)
    requires keys == DedupeStrings(p.orgRoleKeys) && grants == FirstOccurrences(p.buildingAssignments)
    modifies db
    ensures var spec := Grant(old(db.Contents()), orgId, p, now);
      if r.Ok? then spec == Ok((db.Contents(), r.value)) else spec == Err(r.error)
  {
    var target :- FindOrCreateUser(db, orgId, p);
    var appliedRoleKeys :- ApplyOrgRoles(db, target.userId, keys);
    var appliedAssignments :- ApplyBuildingAssignments(db, orgId, target.userId, grants);
    var _ :- EnsureAdminRoleForBuildingAdmins(db, target.userId, grants);
    var occupancyId :- ApplyResidentGrant(db, orgId, target.userId, p.resident, now);
    return Ok(Provisioned(
      target.userId, target.created, !target.created, appliedRoleKeys, appliedAssignments, occupancyId));
  }

  /** One call of the service: the tables and the reply are those of `Provisioning.Provision`, for which idempotence,
    * the frame of a manager and the integrity of the directory are proved; a throw changes nothing.
    */
  method Provision(db: Database.Database, actor: Actor, effective: set<string>, p: Payload, now: Time)
    returns (r: Result<Provisioned>)
    modifies db
    ensures (db.Contents(), r) == Provisioning.Provision(old(db.Contents()), actor, effective, p, now)
    ensures r.Err? ==> db.Contents() == old(db.Contents())
    ensures old(Valid(db.Contents())) ==> Valid(db.Contents()) && Evolves(old(db.Contents()), db.Contents())
  {
    ProvisionKeepsIntegrityIfValid(db.Contents(), actor, effective, p, now);
    if actor.orgId.None? {
      return Err(Forbidden);
    }
    var keys := DedupeStrings(p.orgRoleKeys);
    var grants := DedupeAssignments(p.buildingAssignments);
    if "super_admin" in keys {
      return Err(BadRequest);
    }
    if !HasUsersWrite(actor, effective) {
      if actor.sub.None? {
        return Err(Forbidden);
      }
      var _ :- AssertManagerProvisioningAllowed(db, actor.sub.value, keys, grants, p.resident, p.requireSameOrg);
    }
    var saved := db.Contents();
    r := RunTransaction(db, actor.orgId.value, keys, grants, p, now);
    if r.Err? {
      db.Rollback(saved);
    }
  }

  lemma ProvisionKeepsIntegrityIfValid(d: Dir, actor: Actor, effective: set<string>, p: Payload, now: Time)
    ensures Valid(d) ==> var e := Provisioning.Provision(d, actor, effective, p, now).0;
      Valid(e) && Evolves(d, e)
  {
    if Valid(d) {
      ProvisionKeepsIntegrity(d, actor, effective, p, now);
    }
  }
}
