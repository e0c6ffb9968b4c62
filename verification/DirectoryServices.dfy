/** The occupancy, resident, assignment and unit services over the mutable tables. */
module DirectoryServices {
  import opened Prelude
  import opened Tables
  import Database
  import Occupancy
  import Units

  // ----- what every call promises

  ghost predicate Promised(d: Dir, e: Dir) {
    Valid(d) ==> Valid(e) && Evolves(d, e)
  }

  lemma VacantPromises(d: Dir, buildingId: Id, unitId: Id, residentUserId: Id)
    requires OccupancyTenancy(d, Tables.Occupancy(buildingId, unitId, residentUserId, ACTIVE, None))
    ensures Promised(d, Occupancy.CreateActiveIfVacant(d, buildingId, unitId, residentUserId).0)
  {
    if Valid(d) && FindActive(d.occupancies, ActiveWhere(Some(unitId), None)).None? {
      InsertKeeps(d, Tables.Occupancy(buildingId, unitId, residentUserId, ACTIVE, None));
    }
  }

  lemma CreateOccupancyPromises(d: Dir, actor: Actor, buildingId: Id, unitId: Id, residentUserId: Id)
    ensures Promised(d, Occupancy.CreateOccupancy(d, actor, buildingId, unitId, residentUserId).0)
  {
    if Valid(d) {
      Occupancy.CreateOccupancyKeeps(d, actor, buildingId, unitId, residentUserId);
    }
  }

  lemma OnboardPromises(d: Dir, actor: Actor, buildingId: Id, dto: Occupancy.Onboarding)
    ensures Promised(d, Occupancy.Onboard(d, actor, buildingId, dto).0)
  {
    if Valid(d) {
      Occupancy.OnboardKeeps(d, actor, buildingId, dto);
    }
  }

  lemma CreateAssignmentPromises(d: Dir, actor: Actor, buildingId: Id, userId: Id, kind: AssignmentType)
    ensures Promised(d, Occupancy.CreateAssignment(d, actor, buildingId, userId, kind).0)
  {
    if Valid(d) {
      Occupancy.CreateAssignmentKeeps(d, actor, buildingId, userId, kind);
    }
  }

  lemma CreateUnitPromises(d: Dir, actor: Actor, buildingId: Id, unitLabel: string, amenityIds: Option<seq<Id>>)
    ensures Promised(d, Units.CreateUnit(d, actor, buildingId, unitLabel, amenityIds).0)
  {
    if Valid(d) {
      Units.CreateUnitKeeps(d, actor, buildingId, unitLabel, amenityIds);
    }
  }

  lemma UpdateUnitPromises(d: Dir, actor: Actor, buildingId: Id, unitId: Id, dto: Units.UnitUpdate)
    ensures Promised(d, Units.UpdateUnit(d, actor, buildingId, unitId, dto).0)
  {
    if Valid(d) {
      Units.UpdateUnitKeeps(d, actor, buildingId, unitId, dto);
    }
  }

  // ----- occupancies.repo and occupancies.service

  method CreateActiveIfVacant(db: Database.Database, buildingId: Id, unitId: Id, residentUserId: Id)
    returns (created: Option<Id>)
    modifies db`occupancies
    ensures (db.Contents(), created)
         == Occupancy.CreateActiveIfVacant(old(db.Contents()), buildingId, unitId, residentUserId)
    ensures old(Valid(db.Contents())) ==>
      OccupancyTenancy(old(db.Contents()), Tables.Occupancy(buildingId, unitId, residentUserId, ACTIVE, None)) ==>
      Valid(db.Contents()) && Evolves(old(db.Contents()), db.Contents())
  {
    if OccupancyTenancy(db.Contents(), Tables.Occupancy(buildingId, unitId, residentUserId, ACTIVE, None)) {
      VacantPromises(db.Contents(), buildingId, unitId, residentUserId);
    }
    var existing := FindActive(db.occupancies, ActiveWhere(Some(unitId), None));
    if existing.Some? {
      return None;
    }
    created := Some(|db.occupancies|);
    db.occupancies := db.occupancies + [Tables.Occupancy(buildingId, unitId, residentUserId, ACTIVE, None)];
  }

  method CreateOccupancy(db: Database.Database, actor: Actor, buildingId: Id, unitId: Id, residentUserId: Id)
    returns (r: Result<Id>)
    modifies db`occupancies
    ensures (db.Contents(), r)
         == Occupancy.CreateOccupancy(old(db.Contents()), actor, buildingId, unitId, residentUserId)
    ensures old(Valid(db.Contents())) ==> Valid(db.Contents()) && Evolves(old(db.Contents()), db.Contents())
  {
    CreateOccupancyPromises(db.Contents(), actor, buildingId, unitId, residentUserId);
    if actor.orgId.None? {
      return Err(Forbidden);
    }
    if !BuildingInOrg(db.Contents(), buildingId, actor.orgId.value) {
      return Err(NotFound);
    }
    if !UnitInBuilding(db.Contents(), unitId, buildingId) {
      return Err(BadRequest);
    }
    if !ActiveUserInOrg(db.Contents(), residentUserId, actor.orgId.value) {
      return Err(BadRequest);
    }
    var created := CreateActiveIfVacant(db, buildingId, unitId, residentUserId);
    return if created.None? then Err(Conflict) else Ok(created.value);
  }

  // ----- residents.service

  method Onboard(db: Database.Database, actor: Actor, buildingId: Id, dto: Occupancy.Onboarding)
    returns (r: Result<Id>)
    modifies db`users, db`userRoles, db`occupancies
    ensures (db.Contents(), r) == Occupancy.Onboard(old(db.Contents()), actor, buildingId, dto)
    ensures old(Valid(db.Contents())) ==> Valid(db.Contents()) && Evolves(old(db.Contents()), db.Contents())
  {
    OnboardPromises(db.Contents(), actor, buildingId, dto);
    if actor.orgId.None? {
      return Err(Forbidden);
    }
    if !BuildingInOrg(db.Contents(), buildingId, actor.orgId.value) {
      return Err(NotFound);
    }
    if !UnitInBuilding(db.Contents(), dto.unitId, buildingId) {
      return Err(BadRequest);
    }
    if exists u :: u in db.users && u.email == dto.email {
      return Err(Conflict);
    }
    var activeOccupancy := FindActive(db.occupancies, ActiveWhere(Some(dto.unitId), None));
    if activeOccupancy.Some? {
      return Err(Conflict);
    }
    var userId := |db.users|;
    db.users := db.users + [User(dto.email, dto.name, actor.orgId, true)];
    assert db.userRoles + {} == db.userRoles;
    if "resident" in db.roles {
      db.userRoles := db.userRoles + {UserRole(userId, db.roles["resident"])};
    }
    db.occupancies := db.occupancies + [Tables.Occupancy(buildingId, dto.unitId, userId, ACTIVE, None)];
    return Ok(userId);
  }

  // ----- building-assignments.service

  method CreateAssignment(db: Database.Database, actor: Actor, buildingId: Id, userId: Id, kind: AssignmentType)
    returns (r: Result<()>)
    modifies db`assignments, db`userRoles
    ensures (db.Contents(), r)
         == Occupancy.CreateAssignment(old(db.Contents()), actor, buildingId, userId, kind)
    ensures old(Valid(db.Contents())) ==> Valid(db.Contents()) && Evolves(old(db.Contents()), db.Contents())
  {
    CreateAssignmentPromises(db.Contents(), actor, buildingId, userId, kind);
    if actor.orgId.None? {
      return Err(Forbidden);
    }
    if !BuildingInOrg(db.Contents(), buildingId, actor.orgId.value) {
      return Err(NotFound);
    }
    if !ActiveUserInOrg(db.Contents(), userId, actor.orgId.value) {
      return Err(BadRequest);
    }
    if Assignment(buildingId, userId, kind) in db.assignments {
      return Err(Conflict);
    }
    db.assignments := db.assignments + {Assignment(buildingId, userId, kind)};
    r := EnsureAdminRole(db, userId, kind);
    assert old(db.userRoles) + {} == old(db.userRoles);
  }

  method EnsureAdminRole(db: Database.Database, userId: Id, kind: AssignmentType) returns (r: Result<()>)
    modifies db`userRoles
    ensures r == if kind == BUILDING_ADMIN && "admin" !in db.roles then Err(BadRequest) else Ok(())
    ensures db.userRoles == old(db.userRoles)
      + if kind == BUILDING_ADMIN && "admin" in db.roles then {UserRole(userId, db.roles["admin"])} else {}
  {
    if kind != BUILDING_ADMIN {
      return Ok(());
    }
    if "admin" !in db.roles {
      return Err(BadRequest);
    }
    db.userRoles := db.userRoles + {UserRole(userId, db.roles["admin"])};
    return Ok(());
  }

  // ----- units.service

  method CreateUnit(db: Database.Database, actor: Actor, buildingId: Id, unitLabel: string, amenityIds: Option<seq<Id>>)
    returns (r: Result<Id>)
    modifies db`units, db`unitAmenities
    ensures (db.Contents(), r) == Units.CreateUnit(old(db.Contents()), actor, buildingId, unitLabel, amenityIds)
    ensures old(Valid(db.Contents())) ==> Valid(db.Contents()) && Evolves(old(db.Contents()), db.Contents())
  {
    CreateUnitPromises(db.Contents(), actor, buildingId, unitLabel, amenityIds);
    if actor.orgId.None? {
      return Err(Forbidden);
    }
    if !BuildingInOrg(db.Contents(), buildingId, actor.orgId.value) {
      return Err(NotFound);
    }
    var ids := if amenityIds.None? then Units.DefaultAmenityIds(db.amenities, buildingId) else amenityIds.value;
    if !Units.AmenityIdsPass(db.amenities, buildingId, ids) {
      return Err(BadRequest);
    }
    if Units.LabelTaken(db.Contents(), buildingId, unitLabel) {
      return Err(Conflict);
    }
    var unitId := |db.units|;
    db.units := db.units + [Unit(buildingId, unitLabel)];
    db.unitAmenities := db.unitAmenities + Units.LinkRows(unitId, ids);
    return Ok(unitId);
  }

  method UpdateUnit(db: Database.Database, actor: Actor, buildingId: Id, unitId: Id, dto: Units.UnitUpdate)
    returns (r: Result<()>)
    modifies db`units, db`unitAmenities
    ensures (db.Contents(), r) == Units.UpdateUnit(old(db.Contents()), actor, buildingId, unitId, dto)
    ensures old(Valid(db.Contents())) ==> Valid(db.Contents()) && Evolves(old(db.Contents()), db.Contents())
  {
    UpdateUnitPromises(db.Contents(), actor, buildingId, unitId, dto);
    if actor.orgId.None? {
      return Err(Forbidden);
    }
    if !BuildingInOrg(db.Contents(), buildingId, actor.orgId.value) {
      return Err(NotFound);
    }
    if !UnitInBuilding(db.Contents(), unitId, buildingId) {
      return Err(NotFound);
    }
    if dto.amenityIds.Some? && !Units.AmenityIdsPass(db.amenities, buildingId, dto.amenityIds.value) {
      return Err(BadRequest);
    }
    if Units.LabelClash(db.Contents(), unitId, dto) {
      return Err(Conflict);
    }
    if dto.unitLabel.Some? {
      db.units := db.units[unitId := db.units[unitId].(unitLabel := dto.unitLabel.value)];
    }
    if dto.amenityIds.Some? {
      db.unitAmenities := db.unitAmenities - Units.LinksOf(db.unitAmenities, unitId);
      assert |dto.amenityIds.value| == 0 ==> Units.LinkRows(unitId, dto.amenityIds.value) == {};
      assert db.unitAmenities + {} == db.unitAmenities;
      if |dto.amenityIds.value| > 0 {
        db.unitAmenities := db.unitAmenities + Units.LinkRows(unitId, dto.amenityIds.value);
      }
    }
    return Ok(());
  }

  /** The reply of the vacancy endpoint; the rest of the building's units are its ACTIVE occupancies. */
  method CountVacant(db: Database.Database, actor: Actor, buildingId: Id) returns (r: Result<(nat, nat)>)
    requires Valid(db.Contents())
    ensures r.Ok? <==> actor.orgId.Some? && BuildingInOrg(db.Contents(), buildingId, actor.orgId.value)
    ensures r.Ok? ==> r.value.0 - r.value.1 == Occupancy.CountActive(db.occupancies, buildingId)
    ensures r.Ok? ==> r.value.1 == Occupancy.CountVacant(db.units, db.occupancies, buildingId, |db.units|)
  {
    if actor.orgId.None? {
      return Err(Forbidden);
    }
    if !BuildingInOrg(db.Contents(), buildingId, actor.orgId.value) {
      return Err(NotFound);
    }
    var total := Occupancy.CountUnits(db.units, buildingId, |db.units|);
    var vacant := Occupancy.CountVacant(db.units, db.occupancies, buildingId, |db.units|);
    Occupancy.VacantPlusActiveIsTotal(db.Contents(), buildingId);
    return Ok((total, vacant));
  }
}
