/** When the operations on occupancies, residents, assignments, units and amenities succeed, and what they then store, in
  * terms of the stored fields.
  */
module DirectoryOutcomes {
  import opened Prelude
  import opened Tables
  import Occupancy
  import Units

  ghost predicate OfOrg(d: Dir, actor: Actor, buildingId: Id) {
    actor.orgId.Some? && buildingId < |d.buildings| && d.buildings[buildingId].orgId == actor.orgId.value
  }

  ghost predicate UnitOf(d: Dir, unitId: Id, buildingId: Id) {
    unitId < |d.units| && d.units[unitId].buildingId == buildingId
  }

  ghost predicate Member(d: Dir, userId: Id, actor: Actor) {
    userId < |d.users| && d.users[userId].isActive && d.users[userId].orgId.Some? && d.users[userId].orgId == actor.orgId
  }

  ghost predicate Free(d: Dir, unitId: Id) {
    forall i :: 0 <= i < |d.occupancies| && d.occupancies[i].status == ACTIVE ==> d.occupancies[i].unitId != unitId
  }

  lemma FreeIff(d: Dir, unitId: Id)
    ensures Free(d, unitId) <==> FindActive(d.occupancies, ActiveWhere(Some(unitId), None)).None?
  {
    var w := ActiveWhere(Some(unitId), None);
    assert forall i :: 0 <= i < |d.occupancies| ==>
      (w.Matches(d.occupancies[i]) <==> d.occupancies[i].status == ACTIVE && d.occupancies[i].unitId == unitId);
  }

  // ----- occupancies and residents

  /** An occupancy is created exactly for an active member, on a free unit of a building of the organisation. */
  lemma OccupancyCreated(d: Dir, actor: Actor, buildingId: Id, unitId: Id, residentUserId: Id)
    ensures var (e, r) := Occupancy.CreateOccupancy(d, actor, buildingId, unitId, residentUserId);
      && (r.Ok? <==>
           OfOrg(d, actor, buildingId) && UnitOf(d, unitId, buildingId) && Member(d, residentUserId, actor) && Free(d, unitId))
      && (r.Ok? ==>
           && r.value == |d.occupancies|
           && e == d.(occupancies := d.occupancies + [Tables.Occupancy(buildingId, unitId, residentUserId, ACTIVE, None)]))
      && (r.Err? ==> e == d)
      && (r.Err? && !OfOrg(d, actor, buildingId) ==> r.error == if actor.orgId.None? then Forbidden else NotFound)
      && (r.Err? && OfOrg(d, actor, buildingId) ==>
           r.error == if UnitOf(d, unitId, buildingId) && Member(d, residentUserId, actor) then Conflict else BadRequest)
  {
    FreeIff(d, unitId);
  }

  ghost predicate EmailFree(d: Dir, email: string) {
    forall i :: 0 <= i < |d.users| ==> d.users[i].email != email
  }

  lemma EmailFreeIff(d: Dir, email: string)
    ensures EmailFree(d, email) <==> !exists u :: u in d.users && u.email == email
  {
    assert forall i :: 0 <= i < |d.users| ==> d.users[i] in d.users;
  }

  /** Onboarding creates an active user of the organisation with the given email and name, who holds the resident role if
    * there is one and an ACTIVE occupancy of the unit, and nothing else.
    */
  lemma Onboarded(d: Dir, actor: Actor, buildingId: Id, dto: Occupancy.Onboarding)
    ensures var (e, r) := Occupancy.Onboard(d, actor, buildingId, dto);
      && (r.Ok? <==>
           OfOrg(d, actor, buildingId) && UnitOf(d, dto.unitId, buildingId) && EmailFree(d, dto.email) && Free(d, dto.unitId))
      && (r.Ok? ==>
           && r.value == |d.users|
           && e.users == d.users + [User(dto.email, dto.name, actor.orgId, true)]
           && e.occupancies == d.occupancies + [Tables.Occupancy(buildingId, dto.unitId, |d.users|, ACTIVE, None)]
           && e == d.(users := e.users, userRoles := e.userRoles, occupancies := e.occupancies)
           && forall ur :: ur in e.userRoles <==>
                || ur in d.userRoles
                || ("resident" in d.roles && ur.userId == |d.users| && ur.roleId == d.roles["resident"]))
      && (r.Err? ==> e == d)
      && (r.Err? && !OfOrg(d, actor, buildingId) ==> r.error == if actor.orgId.None? then Forbidden else NotFound)
      && (r.Err? && OfOrg(d, actor, buildingId) ==>
           r.error == if UnitOf(d, dto.unitId, buildingId) then Conflict else BadRequest)
  {
    FreeIff(d, dto.unitId);
    EmailFreeIff(d, dto.email);
    assert forall ur: UserRole :: ur == UserRole(ur.userId, ur.roleId);
  }

  // ----- assignments

  /** An assignment is stored with its kind exactly for an active member of the building's organisation who does not have
    * it yet; a BUILDING_ADMIN also gets the admin role, and the call fails if there is none, with the assignment stored.
    */
  lemma AssignmentCreated(d: Dir, actor: Actor, buildingId: Id, userId: Id, kind: AssignmentType)
    ensures var (e, r) := Occupancy.CreateAssignment(d, actor, buildingId, userId, kind);
      var a := Assignment(buildingId, userId, kind);
      var stored := OfOrg(d, actor, buildingId) && Member(d, userId, actor) && a !in d.assignments;
      && (r.Ok? <==> stored && (kind == BUILDING_ADMIN ==> "admin" in d.roles))
      && e == d.(userRoles := e.userRoles, assignments := e.assignments)
      && e.assignments == (if stored then d.assignments + {a} else d.assignments)
      && (forall ur :: ur in e.userRoles <==>
           || ur in d.userRoles
           || (stored && kind == BUILDING_ADMIN && "admin" in d.roles && ur.userId == userId && ur.roleId == d.roles["admin"]))
      && (r.Err? && !OfOrg(d, actor, buildingId) ==> r.error == if actor.orgId.None? then Forbidden else NotFound)
      && (r.Err? && OfOrg(d, actor, buildingId) ==>
           r.error == if Member(d, userId, actor) && a in d.assignments then Conflict else BadRequest)
  {
    assert forall ur: UserRole :: ur == UserRole(ur.userId, ur.roleId);
  }

  // ----- units

  ghost predicate LabelFree(d: Dir, buildingId: Id, unitLabel: string) {
    forall i :: 0 <= i < |d.units| && d.units[i].buildingId == buildingId ==> d.units[i].unitLabel != unitLabel
  }

  lemma LabelFreeIff(d: Dir, buildingId: Id, unitLabel: string)
    ensures LabelFree(d, buildingId, unitLabel) <==> !Units.LabelTaken(d, buildingId, unitLabel)
  {
    assert forall i :: 0 <= i < |d.units| ==> d.units[i] in d.units;
  }

  /** Different, and each an active amenity of the building. */
  ghost predicate GoodAmenities(d: Dir, buildingId: Id, ids: seq<Id>) {
    && (forall i, j :: 0 <= i < j < |ids| ==> ids[i] != ids[j])
    && (forall i :: 0 <= i < |ids| ==> IsActiveAmenity(d, buildingId, ids[i]))
  }

  ghost predicate IsActiveAmenity(d: Dir, buildingId: Id, a: Id) {
    a < |d.amenities| && d.amenities[a].buildingId == buildingId && d.amenities[a].isActive
  }

  lemma GoodIff(d: Dir, buildingId: Id, ids: seq<Id>)
    ensures Units.AmenityIdsPass(d.amenities, buildingId, ids) <==> GoodAmenities(d, buildingId, ids)
  {
    Units.AmenityIdsPassIff(d.amenities, buildingId, ids);
    assert forall i :: 0 <= i < |ids| ==> ids[i] in ids;
  }

  ghost predicate Chosen(d: Dir, buildingId: Id, amenityIds: Option<seq<Id>>, a: Id) {
    if amenityIds.Some? then a in amenityIds.value
    else IsActiveAmenity(d, buildingId, a) && d.amenities[a].isDefault
  }

  /** A unit is created with its label in its building, linked to the listed amenities or to the active defaults. */
  lemma UnitCreated(d: Dir, actor: Actor, buildingId: Id, unitLabel: string, amenityIds: Option<seq<Id>>)
    ensures var (e, r) := Units.CreateUnit(d, actor, buildingId, unitLabel, amenityIds);
      && (r.Ok? <==>
           && OfOrg(d, actor, buildingId) && LabelFree(d, buildingId, unitLabel)
           && (amenityIds.Some? ==> GoodAmenities(d, buildingId, amenityIds.value)))
      && (r.Ok? ==>
           && r.value == |d.units| && e.units == d.units + [Unit(buildingId, unitLabel)]
           && e == d.(units := e.units, unitAmenities := e.unitAmenities)
           && forall l :: l in e.unitAmenities <==>
                || l in d.unitAmenities
                || (l.unitId == |d.units| && Chosen(d, buildingId, amenityIds, l.amenityId)))
      && (r.Err? ==> e == d)
    ensures var r := Units.CreateUnit(d, actor, buildingId, unitLabel, amenityIds).1;
      var expected :=
        if actor.orgId.None? then Forbidden
        else if !OfOrg(d, actor, buildingId) then NotFound
        else if amenityIds.Some? && !GoodAmenities(d, buildingId, amenityIds.value) then BadRequest
        else Conflict;
      r.Err? ==> r.error == expected
  {
    LabelFreeIff(d, buildingId, unitLabel);
    Units.DefaultsPass(d.amenities, buildingId);
    if amenityIds.Some? {
      GoodIff(d, buildingId, amenityIds.value);
    }
    assert forall l: UnitAmenity :: l == UnitAmenity(l.unitId, l.amenityId);
  }

  /** An update stores the given label, replaces the links by the given list, and leaves what is omitted and every other
    * unit as they are.
    */
  lemma UnitUpdated(d: Dir, actor: Actor, buildingId: Id, unitId: Id, dto: Units.UnitUpdate)
    ensures var (e, r) := Units.UpdateUnit(d, actor, buildingId, unitId, dto);
      && (r.Ok? <==>
           && OfOrg(d, actor, buildingId) && UnitOf(d, unitId, buildingId)
           && (dto.amenityIds.Some? ==> GoodAmenities(d, buildingId, dto.amenityIds.value))
           && (dto.unitLabel.Some? && dto.unitLabel.value != d.units[unitId].unitLabel ==>
                LabelFree(d, buildingId, dto.unitLabel.value)))
      && (r.Ok? ==>
           && e == d.(units := e.units, unitAmenities := e.unitAmenities)
           && |e.units| == |d.units|
           && (forall i :: 0 <= i < |d.units| && i != unitId ==> e.units[i] == d.units[i])
           && e.units[unitId] ==
                Unit(buildingId, if dto.unitLabel.Some? then dto.unitLabel.value else d.units[unitId].unitLabel)
           && forall l :: l in e.unitAmenities <==>
                if dto.amenityIds.Some? && l.unitId == unitId then l.amenityId in dto.amenityIds.value
                else l in d.unitAmenities)
      && (r.Err? ==> e == d)
    ensures var r := Units.UpdateUnit(d, actor, buildingId, unitId, dto).1;
      var expected :=
        if actor.orgId.None? then Forbidden
        else if !OfOrg(d, actor, buildingId) || !UnitOf(d, unitId, buildingId) then NotFound
        else if dto.amenityIds.Some? && !GoodAmenities(d, buildingId, dto.amenityIds.value) then BadRequest
        else Conflict;
      r.Err? ==> r.error == expected
  {
    if dto.unitLabel.Some? {
      LabelFreeIff(d, buildingId, dto.unitLabel.value);
    }
    if dto.amenityIds.Some? {
      GoodIff(d, buildingId, dto.amenityIds.value);
    }
    forall l ensures l in Units.UpdateUnit(d, actor, buildingId, unitId, dto).0.unitAmenities <==>
      if Units.UpdateUnit(d, actor, buildingId, unitId, dto).1.Ok? && dto.amenityIds.Some? && l.unitId == unitId
      then l.amenityId in dto.amenityIds.value else l in d.unitAmenities
    {
      Units.UpdateReplacesLinks(d, actor, buildingId, unitId, dto, l);
    }
  }

  /** Amenities are added and flagged one at a time, within buildings of the organisation. */
  lemma AmenityChanged(d: Dir, actor: Actor, buildingId: Id, amenityId: Id, isActive: Option<bool>, isDefault: Option<bool>)
    ensures var (e, r) := Units.UpdateAmenity(d, actor, buildingId, amenityId, isActive, isDefault);
      && (r.Ok? <==>
           OfOrg(d, actor, buildingId) && amenityId < |d.amenities| && d.amenities[amenityId].buildingId == buildingId)
      && (r.Err? ==> e == d)
      && (r.Ok? ==>
           && e == d.(amenities := e.amenities) && |e.amenities| == |d.amenities|
           && (forall i :: 0 <= i < |d.amenities| && i != amenityId ==> e.amenities[i] == d.amenities[i])
           && e.amenities[amenityId].buildingId == buildingId
           && (e.amenities[amenityId].isActive <==> if isActive.Some? then isActive.value else d.amenities[amenityId].isActive)
           && (e.amenities[amenityId].isDefault <==>
                if isDefault.Some? then isDefault.value else d.amenities[amenityId].isDefault))
  {
  }

  // ----- counts

  ghost function UnitsOf(units: seq<Unit>, buildingId: Id, n: nat): set<int>
    requires n <= |units|
  {
    set i | 0 <= i < n && units[i].buildingId == buildingId
  }

  ghost predicate TakenUnit(occs: seq<Tables.Occupancy>, unitId: int) {
    exists j :: 0 <= j < |occs| && occs[j].status == ACTIVE && occs[j].unitId == unitId
  }

  ghost function VacantOf(units: seq<Unit>, occs: seq<Tables.Occupancy>, buildingId: Id, n: nat): set<int>
    requires n <= |units|
  {
    set i | 0 <= i < n && units[i].buildingId == buildingId && !TakenUnit(occs, i)
  }

  ghost function ActiveOf(occs: seq<Tables.Occupancy>, buildingId: Id): set<int> {
    set i | 0 <= i < |occs| && occs[i].buildingId == buildingId && occs[i].status == ACTIVE
  }

  /** The counts of the endpoints are the sizes of the sets they are about. */
  lemma {:induction false} UnitCountIs(units: seq<Unit>, buildingId: Id, n: nat)
    requires n <= |units|
    ensures Occupancy.CountUnits(units, buildingId, n) == |UnitsOf(units, buildingId, n)|
  {
    if n > 0 {
      UnitCountIs(units, buildingId, n - 1);
      assert UnitsOf(units, buildingId, n) ==
        UnitsOf(units, buildingId, n - 1) + if units[n - 1].buildingId == buildingId then {n - 1} else {};
    }
  }

  lemma {:induction false} VacantCountIs(units: seq<Unit>, occs: seq<Tables.Occupancy>, buildingId: Id, n: nat)
    requires n <= |units|
    ensures Occupancy.CountVacant(units, occs, buildingId, n) == |VacantOf(units, occs, buildingId, n)|
  {
    if n > 0 {
      VacantCountIs(units, occs, buildingId, n - 1);
      VacantIffNoneFound(occs, n - 1);
      assert TakenUnit(occs, n - 1) <==> !Vacant(occs, n - 1);
      assert VacantOf(units, occs, buildingId, n) == VacantOf(units, occs, buildingId, n - 1)
        + if units[n - 1].buildingId == buildingId && !TakenUnit(occs, n - 1) then {n - 1} else {};
    }
  }

  lemma {:induction false} ActiveCountIs(occs: seq<Tables.Occupancy>, buildingId: Id)
    ensures Occupancy.CountActive(occs, buildingId) == |ActiveOf(occs, buildingId)|
  {
    if |occs| > 0 {
      var k := |occs| - 1;
      ActiveCountIs(occs[..k], buildingId);
      assert ActiveOf(occs, buildingId) == ActiveOf(occs[..k], buildingId)
        + if occs[k].buildingId == buildingId && occs[k].status == ACTIVE then {k} else {};
    }
  }
}
