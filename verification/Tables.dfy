/** The tables of the property directory.
  *
  * The services never delete a building, unit, user, occupancy or amenity, so those tables are sequences
  * and the id of a row is its position. Tables with a composite unique key are sets of rows.
  */
module Tables {
  import opened Prelude

  datatype AssignmentType = MANAGER | STAFF | BUILDING_ADMIN
  datatype OccupancyStatus = ACTIVE | ENDED

  datatype Building = Building(orgId: Id)
  datatype Unit = Unit(buildingId: Id, unitLabel: string)
  datatype User = User(email: string, name: string, orgId: Option<Id>, isActive: bool)
  datatype UserRole = UserRole(userId: Id, roleId: Id)
  datatype Assignment = Assignment(buildingId: Id, userId: Id, kind: AssignmentType)
  datatype Occupancy = Occupancy(
    buildingId: Id, unitId: Id, residentUserId: Id, status: OccupancyStatus, endAt: Option<Time>)
  datatype Amenity = Amenity(buildingId: Id, isActive: bool, isDefault: bool)
  datatype UnitAmenity = UnitAmenity(unitId: Id, amenityId: Id)

  datatype Dir = Dir(
    buildings: seq<Building>,
    units: seq<Unit>,
    users: seq<User>,
    roles: map<string, Id>,
    userRoles: set<UserRole>,
    assignments: set<Assignment>,
    occupancies: seq<Occupancy>,
    amenities: seq<Amenity>,
    unitAmenities: set<UnitAmenity>)

  // ----- queries

  predicate BuildingInOrg(d: Dir, buildingId: Id, orgId: Id) {
    buildingId < |d.buildings| && d.buildings[buildingId].orgId == orgId
  }

  predicate UnitInBuilding(d: Dir, unitId: Id, buildingId: Id) {
    unitId < |d.units| && d.units[unitId].buildingId == buildingId
  }

  predicate ActiveUserInOrg(d: Dir, userId: Id, orgId: Id) {
    userId < |d.users| && d.users[userId].isActive && d.users[userId].orgId == Some(orgId)
  }

  /** The `where` clause of an occupancy query: an ACTIVE row, optionally on one unit, optionally of one resident. */
  datatype ActiveWhere = ActiveWhere(unitId: Option<Id>, residentUserId: Option<Id>) {
    predicate Matches(o: Occupancy) {
      && o.status == ACTIVE
      && (unitId.Some? ==> o.unitId == unitId.value)
      && (residentUserId.Some? ==> o.residentUserId == residentUserId.value)
    }
  }

  /** `occupancy.findFirst`: the position of the first matching row. */
  function FindActive(occs: seq<Occupancy>, w: ActiveWhere): (r: Option<nat>)
    ensures r.Some? ==> r.value < |occs| && w.Matches(occs[r.value])
    ensures r.Some? ==> forall j :: 0 <= j < r.value ==> !w.Matches(occs[j])
    ensures r.None? ==> forall j :: 0 <= j < |occs| ==> !w.Matches(occs[j])
  {
    if |occs| == 0 then None
    else
      var r := FindActive(occs[..|occs| - 1], w);
      if r.Some? then r
      else if w.Matches(occs[|occs| - 1]) then Some(|occs| - 1)
      else None
  }

  predicate OnUnit(o: Occupancy, unitId: Id) {
    o.status == ACTIVE && o.unitId == unitId
  }

  ghost predicate Vacant(occs: seq<Occupancy>, unitId: Id) {
    forall i :: 0 <= i < |occs| ==> !OnUnit(occs[i], unitId)
  }

  // ----- integrity

  /** At most one ACTIVE occupancy per unit. No database constraint says so; the writers have to keep it. */
  ghost predicate OneActive(occs: seq<Occupancy>) {
    forall i, j :: 0 <= i < j < |occs| && occs[i].status == ACTIVE && occs[j].status == ACTIVE
      ==> occs[i].unitId != occs[j].unitId
  }

  /** An occupancy lies in the building of its unit and its resident belongs to the organisation of that building. */
  ghost predicate OccupancyTenancy(d: Dir, o: Occupancy) {
    && UnitInBuilding(d, o.unitId, o.buildingId)
    && o.buildingId < |d.buildings|
    && o.residentUserId < |d.users|
    && d.users[o.residentUserId].orgId == Some(d.buildings[o.buildingId].orgId)
  }

  ghost predicate AssignmentTenancy(d: Dir, a: Assignment) {
    && a.buildingId < |d.buildings|
    && a.userId < |d.users|
    && d.users[a.userId].orgId == Some(d.buildings[a.buildingId].orgId)
  }

  /** A linked amenity belongs to the building of the unit. */
  ghost predicate LinkTenancy(d: Dir, l: UnitAmenity) {
    && l.unitId < |d.units|
    && l.amenityId < |d.amenities|
    && d.units[l.unitId].buildingId == d.amenities[l.amenityId].buildingId
  }

  ghost predicate Valid(d: Dir) {
    && (forall i :: 0 <= i < |d.units| ==> d.units[i].buildingId < |d.buildings|)
    && OneActive(d.occupancies)
    && (forall i :: 0 <= i < |d.occupancies| ==> OccupancyTenancy(d, d.occupancies[i]))
    && (forall i :: 0 <= i < |d.occupancies| ==> (d.occupancies[i].endAt.Some? <==> d.occupancies[i].status == ENDED))
    && (forall a :: a in d.assignments ==> AssignmentTenancy(d, a))
    && (forall l :: l in d.unitAmenities ==> LinkTenancy(d, l))
  }

  // ----- what every step of every service keeps

  /** A missing organisation may be filled in, once; the name may be edited; everything else stays. */
  ghost predicate UserEvolves(u: User, v: User) {
    v == u.(name := v.name, orgId := v.orgId) && (u.orgId.Some? ==> v.orgId == u.orgId)
  }

  /** An occupancy keeps its parties; the only change is from ACTIVE to ENDED. */
  ghost predicate OccupancyEvolves(o: Occupancy, p: Occupancy) {
    p == o || (o.status == ACTIVE && p.status == ENDED && p == o.(status := ENDED, endAt := p.endAt))
  }

  /** Apart from role rows and amenity links, no row is deleted, moved between parents, or reactivated. */
  ghost predicate Evolves(d: Dir, e: Dir) {
    && d.buildings <= e.buildings
    && (forall key :: key in d.roles ==> key in e.roles && e.roles[key] == d.roles[key])
    && d.assignments <= e.assignments
    && |d.units| <= |e.units|
    && (forall i :: 0 <= i < |d.units| ==> e.units[i].buildingId == d.units[i].buildingId)
    && |d.users| <= |e.users|
    && (forall i :: 0 <= i < |d.users| ==> UserEvolves(d.users[i], e.users[i]))
    && |d.occupancies| <= |e.occupancies|
    && (forall i :: 0 <= i < |d.occupancies| ==> OccupancyEvolves(d.occupancies[i], e.occupancies[i]))
    && |d.amenities| <= |e.amenities|
    && (forall i :: 0 <= i < |d.amenities| ==> e.amenities[i].buildingId == d.amenities[i].buildingId)
  }

  lemma EvolvesTransitive(d: Dir, e: Dir, f: Dir)
    requires Evolves(d, e) && Evolves(e, f)
    ensures Evolves(d, f)
  {
    forall i | 0 <= i < |d.occupancies|
      ensures OccupancyEvolves(d.occupancies[i], f.occupancies[i])
    {
      assert OccupancyEvolves(d.occupancies[i], e.occupancies[i]);
      assert OccupancyEvolves(e.occupancies[i], f.occupancies[i]);
    }
    forall i | 0 <= i < |d.users|
      ensures UserEvolves(d.users[i], f.users[i])
    {
      assert UserEvolves(d.users[i], e.users[i]);
      assert UserEvolves(e.users[i], f.users[i]);
    }
  }

  /** The references of the rows that were already there survive any evolution of the directory. */
  lemma TenancySurvives(d: Dir, e: Dir)
    requires Evolves(d, e)
    ensures forall o, p :: OccupancyTenancy(d, o) && OccupancyEvolves(o, p) ==> OccupancyTenancy(e, p)
    ensures forall a :: AssignmentTenancy(d, a) ==> AssignmentTenancy(e, a)
    ensures forall l :: LinkTenancy(d, l) ==> LinkTenancy(e, l)
  {
    forall o, p | OccupancyTenancy(d, o) && OccupancyEvolves(o, p)
      ensures OccupancyTenancy(e, p)
    {
      assert UserEvolves(d.users[o.residentUserId], e.users[o.residentUserId]);
    }
    forall a | AssignmentTenancy(d, a)
      ensures AssignmentTenancy(e, a)
    {
      assert UserEvolves(d.users[a.userId], e.users[a.userId]);
    }
  }

  lemma VacantIffNoneFound(occs: seq<Occupancy>, unitId: Id)
    ensures Vacant(occs, unitId) <==> FindActive(occs, ActiveWhere(Some(unitId), None)).None?
  {
    var w := ActiveWhere(Some(unitId), None);
    assert forall i :: 0 <= i < |occs| ==> OnUnit(occs[i], unitId) == w.Matches(occs[i]);
  }

  /** Inserting an ACTIVE row on a vacant unit keeps the integrity of the directory. */
  lemma InsertKeeps(d: Dir, o: Occupancy)
    requires Valid(d) && OccupancyTenancy(d, o) && o.status == ACTIVE && o.endAt.None?
    requires FindActive(d.occupancies, ActiveWhere(Some(o.unitId), None)).None?
    ensures var e := d.(occupancies := d.occupancies + [o]);
      Valid(e) && Evolves(d, e)
  {
    VacantIffNoneFound(d.occupancies, o.unitId);
    var e := d.(occupancies := d.occupancies + [o]);
    assert forall i :: 0 <= i < |d.occupancies| ==> e.occupancies[i] == d.occupancies[i];
    TenancySurvives(d, e);
    assert OccupancyTenancy(e, o);
    forall i | 0 <= i < |e.occupancies| ensures OccupancyTenancy(e, e.occupancies[i]) {
      if i < |d.occupancies| {
        assert OccupancyEvolves(d.occupancies[i], e.occupancies[i]);
      }
    }
    forall i | 0 <= i < |d.occupancies| && d.occupancies[i].status == ACTIVE
      ensures d.occupancies[i].unitId != o.unitId
    {
      assert !OnUnit(d.occupancies[i], o.unitId);
    }
  }

  /** A new user keeps the integrity of the directory. */
  lemma NewUserKeeps(d: Dir, u: User, roleRows: set<UserRole>)
    requires Valid(d)
    ensures var e := d.(users := d.users + [u], userRoles := d.userRoles + roleRows);
      Valid(e) && Evolves(d, e)
  {
    var e := d.(users := d.users + [u], userRoles := d.userRoles + roleRows);
    assert forall i :: 0 <= i < |d.users| ==> e.users[i] == d.users[i];
    TenancySurvives(d, e);
    forall i | 0 <= i < |d.occupancies| ensures OccupancyTenancy(e, e.occupancies[i]) {
      assert OccupancyEvolves(d.occupancies[i], e.occupancies[i]);
    }
  }
}
