/** Units and their amenity links: the membership check by counting, creation with defaults, replacement on update. */
module Units {
  import opened Prelude
  import opened Tables

  predicate ActiveAmenity(amenities: seq<Amenity>, buildingId: Id, id: Id) {
    id < |amenities| && amenities[id].buildingId == buildingId && amenities[id].isActive
  }

  /** `buildingAmenity.findMany` for active rows of the building whose id is in the list. */
  function MatchingAmenities(amenities: seq<Amenity>, buildingId: Id, ids: seq<Id>): (r: seq<Id>)
    ensures NoDuplicates(r)
    ensures forall a: Id :: a in r <==> a in ids && ActiveAmenity(amenities, buildingId, a)
  {
    if |amenities| == 0 then []
    else
      var k := |amenities| - 1;
      var r := MatchingAmenities(amenities[..k], buildingId, ids);
      assert forall a: Id :: ActiveAmenity(amenities[..k], buildingId, a) <==> a < k && ActiveAmenity(amenities, buildingId, a);
      if amenities[k].buildingId == buildingId && amenities[k].isActive && k in ids then r + [k] else r
  }

  /** `getDefaultAmenityIds`: the active default amenities of the building. */
  function DefaultAmenityIds(amenities: seq<Amenity>, buildingId: Id): (r: seq<Id>)
    ensures NoDuplicates(r)
    ensures forall a: Id :: a in r <==> ActiveAmenity(amenities, buildingId, a) && amenities[a].isDefault
  {
    if |amenities| == 0 then []
    else
      var k := |amenities| - 1;
      var r := DefaultAmenityIds(amenities[..k], buildingId);
      assert forall a: Id :: ActiveAmenity(amenities[..k], buildingId, a) <==> a < k && ActiveAmenity(amenities, buildingId, a);
      assert k !in r;
      if amenities[k].buildingId == buildingId && amenities[k].isActive && amenities[k].isDefault then r + [k] else r
  }

  /** `assertAmenityIds` compares two lengths. */
  predicate AmenityIdsPass(amenities: seq<Amenity>, buildingId: Id, ids: seq<Id>) {
    |ids| == 0 || |MatchingAmenities(amenities, buildingId, ids)| == |ids|
  }

  /** Comparing the lengths accepts exactly the duplicate-free lists of active amenities of the building. */
  lemma AmenityIdsPassIff(amenities: seq<Amenity>, buildingId: Id, ids: seq<Id>)
    ensures AmenityIdsPass(amenities, buildingId, ids) <==>
      NoDuplicates(ids) && forall a: Id :: a in ids ==> ActiveAmenity(amenities, buildingId, a)
  {
    var found := MatchingAmenities(amenities, buildingId, ids);
    ElementsSize(ids);
    ElementsSize(found);
    assert Elements(found) <= Elements(ids);
    SubsetSize(Elements(found), Elements(ids));
    if AmenityIdsPass(amenities, buildingId, ids) {
      forall a: Id | a in ids
        ensures ActiveAmenity(amenities, buildingId, a)
      {
        assert a in Elements(ids);
        assert a in Elements(found);
      }
    } else if forall a: Id :: a in ids ==> ActiveAmenity(amenities, buildingId, a) {
      assert Elements(ids) == Elements(found);
    }
  }

  /** The defaults of a building always pass the check. */
  lemma DefaultsPass(amenities: seq<Amenity>, buildingId: Id)
    ensures AmenityIdsPass(amenities, buildingId, DefaultAmenityIds(amenities, buildingId))
  {
    AmenityIdsPassIff(amenities, buildingId, DefaultAmenityIds(amenities, buildingId));
  }

  // ----- create and update

  function LinkRows(unitId: Id, amenityIds: seq<Id>): set<UnitAmenity> {
    set a | a in amenityIds :: UnitAmenity(unitId, a)
  }

  function LinksOf(links: set<UnitAmenity>, unitId: Id): set<UnitAmenity> {
    set l | l in links && l.unitId == unitId
  }

  predicate LabelTaken(d: Dir, buildingId: Id, unitLabel: string) {
    exists u :: u in d.units && u.buildingId == buildingId && u.unitLabel == unitLabel
  }

  function CreateUnit(d: Dir, actor: Actor, buildingId: Id, unitLabel: string, amenityIds: Option<seq<Id>>)
    : (Dir, Result<Id>)
  {
    if actor.orgId.None? then (d, Err(Forbidden))
    else if !BuildingInOrg(d, buildingId, actor.orgId.value) then (d, Err(NotFound))
    else
      var ids := if amenityIds.None? then DefaultAmenityIds(d.amenities, buildingId) else amenityIds.value;
      if !AmenityIdsPass(d.amenities, buildingId, ids) then (d, Err(BadRequest))
      else if LabelTaken(d, buildingId, unitLabel) then (d, Err(Conflict))
      else
        (d.(units := d.units + [Unit(buildingId, unitLabel)],
            unitAmenities := d.unitAmenities + LinkRows(|d.units|, ids)),
         Ok(|d.units|))
  }

  datatype UnitUpdate = UnitUpdate(unitLabel: Option<string>, amenityIds: Option<seq<Id>>)

  predicate LabelClash(d: Dir, unitId: Id, dto: UnitUpdate)
    requires unitId < |d.units|
  {
    && dto.unitLabel.Some?
    && dto.unitLabel.value != d.units[unitId].unitLabel
    && LabelTaken(d, d.units[unitId].buildingId, dto.unitLabel.value)
  }

  function UpdateUnit(d: Dir, actor: Actor, buildingId: Id, unitId: Id, dto: UnitUpdate): (Dir, Result<()>) {
    if actor.orgId.None? then (d, Err(Forbidden))
    else if !BuildingInOrg(d, buildingId, actor.orgId.value) then (d, Err(NotFound))
    else if !UnitInBuilding(d, unitId, buildingId) then (d, Err(NotFound))
    else if dto.amenityIds.Some? && !AmenityIdsPass(d.amenities, buildingId, dto.amenityIds.value) then
      (d, Err(BadRequest))
    else if LabelClash(d, unitId, dto) then (d, Err(Conflict))
    else
      var u := d.units[unitId];
      var units := if dto.unitLabel.Some? then d.units[unitId := u.(unitLabel := dto.unitLabel.value)] else d.units;
      var links :=
        if dto.amenityIds.Some?
        then d.unitAmenities - LinksOf(d.unitAmenities, unitId) + LinkRows(unitId, dto.amenityIds.value)
        else d.unitAmenities;
      (d.(units := units, unitAmenities := links), Ok(()))
  }

  lemma CreateUnitKeeps(d: Dir, actor: Actor, buildingId: Id, unitLabel: string, amenityIds: Option<seq<Id>>)
    requires Valid(d)
    ensures var e := CreateUnit(d, actor, buildingId, unitLabel, amenityIds).0;
      Valid(e) && Evolves(d, e)
  {
    var e := CreateUnit(d, actor, buildingId, unitLabel, amenityIds).0;
    if e != d {
      var ids := if amenityIds.None? then DefaultAmenityIds(d.amenities, buildingId) else amenityIds.value;
      AmenityIdsPassIff(d.amenities, buildingId, ids);
      KeepsWithLinks(d, e);
    }
  }

  lemma UpdateUnitKeeps(d: Dir, actor: Actor, buildingId: Id, unitId: Id, dto: UnitUpdate)
    requires Valid(d)
    ensures var e := UpdateUnit(d, actor, buildingId, unitId, dto).0;
      Valid(e) && Evolves(d, e)
  {
    var (e, r) := UpdateUnit(d, actor, buildingId, unitId, dto);
    if r.Ok? {
      if dto.amenityIds.Some? {
        AmenityIdsPassIff(d.amenities, buildingId, dto.amenityIds.value);
      }
      KeepsWithLinks(d, e);
    }
  }

  /** Units that stay in their building and links that respect it keep the integrity of the directory. */
  lemma KeepsWithLinks(d: Dir, e: Dir)
    requires Valid(d)
    requires e == d.(units := e.units, unitAmenities := e.unitAmenities)
    requires |d.units| <= |e.units|
    requires forall i :: 0 <= i < |d.units| ==> e.units[i].buildingId == d.units[i].buildingId
    requires forall i :: 0 <= i < |e.units| ==> e.units[i].buildingId < |e.buildings|
    requires forall l :: l in e.unitAmenities && l !in d.unitAmenities ==> LinkTenancy(e, l)
    ensures Valid(e) && Evolves(d, e)
  {
    TenancySurvives(d, e);
    forall i | 0 <= i < |d.occupancies| ensures OccupancyTenancy(e, e.occupancies[i]) {
      assert OccupancyEvolves(d.occupancies[i], e.occupancies[i]);
    }
  }

  /** An update replaces the links of the unit by exactly the listed ones, or leaves them when the field is omitted;
    * links of other units never change.
    */
  lemma UpdateReplacesLinks(d: Dir, actor: Actor, buildingId: Id, unitId: Id, dto: UnitUpdate, l: UnitAmenity)
    ensures var (e, r) := UpdateUnit(d, actor, buildingId, unitId, dto);
      l in e.unitAmenities <==>
        if r.Ok? && dto.amenityIds.Some? && l.unitId == unitId then l.amenityId in dto.amenityIds.value
        else l in d.unitAmenities
  {
    var (e, r) := UpdateUnit(d, actor, buildingId, unitId, dto);
    if r.Ok? && dto.amenityIds.Some? {
      assert l == UnitAmenity(l.unitId, l.amenityId);
    }
  }

  /** A new unit gets the listed amenities, or every active default when none are listed. */
  lemma CreateLinks(d: Dir, actor: Actor, buildingId: Id, unitLabel: string, amenityIds: Option<seq<Id>>, a: Id)
    requires Valid(d) && CreateUnit(d, actor, buildingId, unitLabel, amenityIds).1.Ok?
    ensures var (e, r) := CreateUnit(d, actor, buildingId, unitLabel, amenityIds);
      UnitAmenity(r.value, a) in e.unitAmenities <==>
        if amenityIds.Some? then a in amenityIds.value
        else ActiveAmenity(d.amenities, buildingId, a) && d.amenities[a].isDefault
  {
    assert !LinkTenancy(d, UnitAmenity(|d.units|, a));
  }

  // ----- amenities and buildings

  function CreateAmenity(d: Dir, actor: Actor, buildingId: Id, isActive: bool, isDefault: bool): (Dir, Result<Id>) {
    if actor.orgId.None? then (d, Err(Forbidden))
    else if !BuildingInOrg(d, buildingId, actor.orgId.value) then (d, Err(NotFound))
    else (d.(amenities := d.amenities + [Amenity(buildingId, isActive, isDefault)]), Ok(|d.amenities|))
  }

  function UpdateAmenity(d: Dir, actor: Actor, buildingId: Id, amenityId: Id, isActive: Option<bool>,
                         isDefault: Option<bool>): (Dir, Result<()>)
  {
    if actor.orgId.None? then (d, Err(Forbidden))
    else if !BuildingInOrg(d, buildingId, actor.orgId.value) then (d, Err(NotFound))
    else if amenityId >= |d.amenities| || d.amenities[amenityId].buildingId != buildingId then (d, Err(NotFound))
    else
      var a := d.amenities[amenityId];
      var b := Amenity(
        a.buildingId,
        if isActive.Some? then isActive.value else a.isActive,
        if isDefault.Some? then isDefault.value else a.isDefault);
      (d.(amenities := d.amenities[amenityId := b]), Ok(()))
  }

  function CreateBuilding(d: Dir, actor: Actor): (Dir, Result<Id>) {
    if actor.orgId.None? then (d, Err(Forbidden))
    else (d.(buildings := d.buildings + [Building(actor.orgId.value)]), Ok(|d.buildings|))
  }

  /** Steps that only add buildings, or add or flag amenities, keep the integrity of the directory. */
  lemma KeepsWithAmenities(d: Dir, e: Dir)
    requires Valid(d)
    requires e == d.(buildings := e.buildings, amenities := e.amenities) && d.buildings <= e.buildings
    requires |d.amenities| <= |e.amenities|
    requires forall i :: 0 <= i < |d.amenities| ==> e.amenities[i].buildingId == d.amenities[i].buildingId
    ensures Valid(e) && Evolves(d, e)
  {
    TenancySurvives(d, e);
    forall i | 0 <= i < |d.occupancies| ensures OccupancyTenancy(e, e.occupancies[i]) {
      assert OccupancyEvolves(d.occupancies[i], e.occupancies[i]);
    }
  }

  lemma CreateBuildingKeeps(d: Dir, actor: Actor)
    requires Valid(d)
    ensures var e := CreateBuilding(d, actor).0; Valid(e) && Evolves(d, e)
  {
    KeepsWithAmenities(d, CreateBuilding(d, actor).0);
  }

  lemma CreateAmenityKeeps(d: Dir, actor: Actor, buildingId: Id, isActive: bool, isDefault: bool)
    requires Valid(d)
    ensures var e := CreateAmenity(d, actor, buildingId, isActive, isDefault).0; Valid(e) && Evolves(d, e)
  {
    KeepsWithAmenities(d, CreateAmenity(d, actor, buildingId, isActive, isDefault).0);
  }

  lemma UpdateAmenityKeeps(d: Dir, actor: Actor, buildingId: Id, amenityId: Id, isActive: Option<bool>,
                           isDefault: Option<bool>)
    requires Valid(d)
    ensures var e := UpdateAmenity(d, actor, buildingId, amenityId, isActive, isDefault).0; Valid(e) && Evolves(d, e)
  {
    KeepsWithAmenities(d, UpdateAmenity(d, actor, buildingId, amenityId, isActive, isDefault).0);
  }
}
