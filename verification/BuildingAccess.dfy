/** Who may read and write what belongs to a building. */
module BuildingAccess {
  import opened Prelude
  import opened Tables

  /** From the strongest assignment to the weakest. */
  const ASSIGNMENT_PRIORITY := [BUILDING_ADMIN, MANAGER, STAFF]

  function FirstHeld(d: Dir, buildingId: Id, userId: Id, order: seq<AssignmentType>): Option<AssignmentType> {
    if |order| == 0 then None
    else if Assignment(buildingId, userId, order[0]) in d.assignments then Some(order[0])
    else FirstHeld(d, buildingId, userId, order[1..])
  }

  function GetBuildingAssignmentType(d: Dir, buildingId: Id, userId: Id): Option<AssignmentType> {
    FirstHeld(d, buildingId, userId, ASSIGNMENT_PRIORITY)
  }

  ghost predicate Stronger(a: AssignmentType, b: AssignmentType) {
    (a == BUILDING_ADMIN && b != BUILDING_ADMIN) || (a == MANAGER && b == STAFF)
  }

  /** The search returns the strongest assignment the user holds in the building, and nothing only if there is none. */
  lemma AssignmentTypeIsStrongest(d: Dir, buildingId: Id, userId: Id, kind: AssignmentType)
    ensures GetBuildingAssignmentType(d, buildingId, userId) == Some(kind) <==>
      && Assignment(buildingId, userId, kind) in d.assignments
      && forall other :: Assignment(buildingId, userId, other) in d.assignments ==> !Stronger(other, kind)
    ensures GetBuildingAssignmentType(d, buildingId, userId).None? <==>
      forall other :: Assignment(buildingId, userId, other) !in d.assignments
  {
    var order := ASSIGNMENT_PRIORITY;
    assert order[1..] == [MANAGER, STAFF] && [MANAGER, STAFF][1..] == [STAFF];
    var staff := Assignment(buildingId, userId, STAFF);
    var manager := Assignment(buildingId, userId, MANAGER);
    var admin := Assignment(buildingId, userId, BUILDING_ADMIN);
    assert FirstHeld(d, buildingId, userId, [STAFF]) == if staff in d.assignments then Some(STAFF) else None;
    assert FirstHeld(d, buildingId, userId, [MANAGER, STAFF]) ==
      if manager in d.assignments then Some(MANAGER) else FirstHeld(d, buildingId, userId, [STAFF]);
    assert Assignment(buildingId, userId, kind) in {staff, manager, admin};
    if GetBuildingAssignmentType(d, buildingId, userId).None? {
      forall other ensures Assignment(buildingId, userId, other) !in d.assignments {
        match other
        case BUILDING_ADMIN =>
        case MANAGER =>
        case STAFF =>
      }
    }
  }

  datatype AccessOptions = AccessOptions(
    requiredPermissions: seq<string>, allowResident: bool, allowManagerWrite: bool)

  function HasGlobalPermissions(effective: set<string>, o: AccessOptions): bool {
    |o.requiredPermissions| > 0 && forall p :: p in o.requiredPermissions ==> p in effective
  }

  function HasActiveOccupancy(d: Dir, buildingId: Id, userId: Id): bool {
    exists o :: o in d.occupancies && o.buildingId == buildingId && o.residentUserId == userId && o.status == ACTIVE
  }

  function CanReadBuildingResource(d: Dir, actor: Actor, effective: set<string>, buildingId: Id, o: AccessOptions)
    : Result<bool>
  {
    if actor.orgId.None? then Err(Forbidden)
    else if !BuildingInOrg(d, buildingId, actor.orgId.value) then Err(NotFound)
    else if actor.sub.None? then Ok(false)
    else if HasGlobalPermissions(effective, o) then Ok(true)
    else if GetBuildingAssignmentType(d, buildingId, actor.sub.value).Some? then Ok(true)
    else Ok(o.allowResident && HasActiveOccupancy(d, buildingId, actor.sub.value))
  }

  function CanWriteBuildingResource(d: Dir, actor: Actor, effective: set<string>, buildingId: Id, o: AccessOptions)
    : Result<bool>
  {
    if actor.orgId.None? then Err(Forbidden)
    else if !BuildingInOrg(d, buildingId, actor.orgId.value) then Err(NotFound)
    else if actor.sub.None? then Ok(false)
    else if HasGlobalPermissions(effective, o) then Ok(true)
    else
      var assignment := GetBuildingAssignmentType(d, buildingId, actor.sub.value);
      if assignment == Some(BUILDING_ADMIN) then Ok(true)
      else Ok(o.allowManagerWrite && assignment == Some(MANAGER))
  }

  /** Without global permissions write access needs an assignment in the building, to a user of the building's
    * organisation; whoever may write may also read; and staff or residents alone never write.
    */
  lemma WriteAccess(d: Dir, actor: Actor, effective: set<string>, buildingId: Id, o: AccessOptions)
    requires Valid(d)
    ensures CanWriteBuildingResource(d, actor, effective, buildingId, o) == Ok(true) ==>
      CanReadBuildingResource(d, actor, effective, buildingId, o) == Ok(true)
    ensures !HasGlobalPermissions(effective, o) && actor.sub.Some? && actor.orgId.Some? ==>
      (CanWriteBuildingResource(d, actor, effective, buildingId, o) == Ok(true) <==>
        && BuildingInOrg(d, buildingId, actor.orgId.value)
        && (|| Assignment(buildingId, actor.sub.value, BUILDING_ADMIN) in d.assignments
            || (o.allowManagerWrite && Assignment(buildingId, actor.sub.value, MANAGER) in d.assignments)))
    ensures !HasGlobalPermissions(effective, o) ==>
      CanWriteBuildingResource(d, actor, effective, buildingId, o) == Ok(true) ==>
        actor.sub.value < |d.users| && d.users[actor.sub.value].orgId == actor.orgId
  {
    if actor.sub.Some? {
      var userId := actor.sub.value;
      AssignmentTypeIsStrongest(d, buildingId, userId, BUILDING_ADMIN);
      AssignmentTypeIsStrongest(d, buildingId, userId, MANAGER);
      assert Assignment(buildingId, userId, MANAGER) in d.assignments ==>
          AssignmentTenancy(d, Assignment(buildingId, userId, MANAGER));
      assert Assignment(buildingId, userId, BUILDING_ADMIN) in d.assignments ==>
          AssignmentTenancy(d, Assignment(buildingId, userId, BUILDING_ADMIN));
    }
  }

  // ----- exactly who

  ghost predicate HasEvery(effective: set<string>, o: AccessOptions) {
    o.requiredPermissions != [] && forall i :: 0 <= i < |o.requiredPermissions| ==> o.requiredPermissions[i] in effective
  }

  lemma GlobalIff(effective: set<string>, o: AccessOptions)
    ensures HasGlobalPermissions(effective, o) <==> HasEvery(effective, o)
  {
    assert forall i :: 0 <= i < |o.requiredPermissions| ==> o.requiredPermissions[i] in o.requiredPermissions;
  }

  ghost predicate LivesIn(d: Dir, buildingId: Id, userId: Id) {
    exists i :: 0 <= i < |d.occupancies| && d.occupancies[i].buildingId == buildingId
      && d.occupancies[i].residentUserId == userId && d.occupancies[i].status == ACTIVE
  }

  lemma LivesIff(d: Dir, buildingId: Id, userId: Id)
    ensures HasActiveOccupancy(d, buildingId, userId) <==> LivesIn(d, buildingId, userId)
  {
    if o :| o in d.occupancies && o.buildingId == buildingId && o.residentUserId == userId && o.status == ACTIVE {
      var i :| 0 <= i < |d.occupancies| && d.occupancies[i] == o;
      assert d.occupancies[i].buildingId == buildingId;
    }
  }

  /** Who may read and write what belongs to a building: holders of all the required permissions; whoever has an assignment
    * there may read; a building admin, and where allowed a manager, may write; and where allowed a resident may read.
    */
  lemma AccessIff(d: Dir, actor: Actor, effective: set<string>, buildingId: Id, o: AccessOptions)
    ensures var read, write :=
        CanReadBuildingResource(d, actor, effective, buildingId, o), CanWriteBuildingResource(d, actor, effective, buildingId, o);
      && (actor.orgId.None? ==> read == Err(Forbidden) && write == Err(Forbidden))
      && (actor.orgId.Some? && !(buildingId < |d.buildings| && d.buildings[buildingId].orgId == actor.orgId.value) ==>
           read == Err(NotFound) && write == Err(NotFound))
      && (actor.orgId.Some? && buildingId < |d.buildings| && d.buildings[buildingId].orgId == actor.orgId.value ==>
           && read.Ok? && write.Ok?
           && (read.value <==>
                && actor.sub.Some?
                && (|| HasEvery(effective, o)
                    || Assignment(buildingId, actor.sub.value, BUILDING_ADMIN) in d.assignments
                    || Assignment(buildingId, actor.sub.value, MANAGER) in d.assignments
                    || Assignment(buildingId, actor.sub.value, STAFF) in d.assignments
                    || (o.allowResident && LivesIn(d, buildingId, actor.sub.value))))
           && (write.value <==>
                && actor.sub.Some?
                && (|| HasEvery(effective, o)
                    || Assignment(buildingId, actor.sub.value, BUILDING_ADMIN) in d.assignments
                    || (o.allowManagerWrite && Assignment(buildingId, actor.sub.value, MANAGER) in d.assignments))))
  {
    GlobalIff(effective, o);
    if actor.sub.Some? {
      LivesIff(d, buildingId, actor.sub.value);
      AssignmentTypeIsStrongest(d, buildingId, actor.sub.value, BUILDING_ADMIN);
      AssignmentTypeIsStrongest(d, buildingId, actor.sub.value, MANAGER);
      HeldIff(d, buildingId, actor.sub.value);
    }
  }

  lemma HeldIff(d: Dir, buildingId: Id, userId: Id)
    ensures GetBuildingAssignmentType(d, buildingId, userId).Some? <==>
      || Assignment(buildingId, userId, BUILDING_ADMIN) in d.assignments
      || Assignment(buildingId, userId, MANAGER) in d.assignments
      || Assignment(buildingId, userId, STAFF) in d.assignments
  {
    var held := GetBuildingAssignmentType(d, buildingId, userId);
    if held.Some? {
      AssignmentTypeIsStrongest(d, buildingId, userId, held.value);
      assert held.value in {BUILDING_ADMIN, MANAGER, STAFF};
    } else {
      AssignmentTypeIsStrongest(d, buildingId, userId, STAFF);
    }
  }
}
