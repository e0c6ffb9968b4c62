/** The other writers of the directory: direct occupancy creation, resident onboarding, building assignments;
  * and the balance between vacant units and ACTIVE occupancies that all writers keep.
  */
module Occupancy {
  import opened Prelude
  import opened Tables

  // ----- OccupanciesService.create

  function CreateActiveIfVacant(d: Dir, buildingId: Id, unitId: Id, residentUserId: Id): (Dir, Option<Id>) {
    if FindActive(d.occupancies, ActiveWhere(Some(unitId), None)).Some? then (d, None)
    else
      (d.(occupancies := d.occupancies + [Occupancy(buildingId, unitId, residentUserId, ACTIVE, None)]),
       Some(|d.occupancies|))
  }

  function CreateOccupancy(d: Dir, actor: Actor, buildingId: Id, unitId: Id, residentUserId: Id): (Dir, Result<Id>) {
    if actor.orgId.None? then (d, Err(Forbidden))
    else if !BuildingInOrg(d, buildingId, actor.orgId.value) then (d, Err(NotFound))
    else if !UnitInBuilding(d, unitId, buildingId) then (d, Err(BadRequest))
    else if !ActiveUserInOrg(d, residentUserId, actor.orgId.value) then (d, Err(BadRequest))
    else
      var (e, id) := CreateActiveIfVacant(d, buildingId, unitId, residentUserId);
      (e, if id.Some? then Ok(id.value) else Err(Conflict))
  }

  lemma CreateOccupancyKeeps(d: Dir, actor: Actor, buildingId: Id, unitId: Id, residentUserId: Id)
    requires Valid(d)
    ensures var e := CreateOccupancy(d, actor, buildingId, unitId, residentUserId).0;
      Valid(e) && Evolves(d, e)
  {
    var e := CreateOccupancy(d, actor, buildingId, unitId, residentUserId).0;
    if e != d {
      InsertKeeps(d, Occupancy(buildingId, unitId, residentUserId, ACTIVE, None));
    }
  }

  // ----- ResidentsService.onboard

  datatype Onboarding = Onboarding(unitId: Id, email: string, name: string)

  function Onboard(d: Dir, actor: Actor, buildingId: Id, dto: Onboarding): (Dir, Result<Id>) {
    if actor.orgId.None? then (d, Err(Forbidden))
    else if !BuildingInOrg(d, buildingId, actor.orgId.value) then (d, Err(NotFound))
    else if !UnitInBuilding(d, dto.unitId, buildingId) then (d, Err(BadRequest))
    else if exists u :: u in d.users && u.email == dto.email then (d, Err(Conflict))
    else if FindActive(d.occupancies, ActiveWhere(Some(dto.unitId), None)).Some? then (d, Err(Conflict))
    else
      var userId := |d.users|;
      var roleRows := if "resident" in d.roles then {UserRole(userId, d.roles["resident"])} else {};
      (d.(users := d.users + [User(dto.email, dto.name, actor.orgId, true)],
          userRoles := d.userRoles + roleRows,
          occupancies := d.occupancies + [Occupancy(buildingId, dto.unitId, userId, ACTIVE, None)]),
       Ok(userId))
  }

  lemma OnboardKeeps(d: Dir, actor: Actor, buildingId: Id, dto: Onboarding)
    requires Valid(d)
    ensures var e := Onboard(d, actor, buildingId, dto).0;
      Valid(e) && Evolves(d, e)
  {
    var (e, r) := Onboard(d, actor, buildingId, dto);
    if r.Ok? {
      var roleRows := if "resident" in d.roles then {UserRole(|d.users|, d.roles["resident"])} else {};
      var f := d.(users := e.users, userRoles := e.userRoles);
      NewUserKeeps(d, User(dto.email, dto.name, actor.orgId, true), roleRows);
      InsertKeeps(f, Occupancy(buildingId, dto.unitId, |d.users|, ACTIVE, None));
      EvolvesTransitive(d, f, e);
    }
  }

  // ----- BuildingAssignmentsService.create

  /** The assignment and the admin role are two separate statements: when the role is not configured the call
    * fails after the assignment has been stored.
    */
  function CreateAssignment(d: Dir, actor: Actor, buildingId: Id, userId: Id, kind: AssignmentType): (Dir, Result<()>) {
    if actor.orgId.None? then (d, Err(Forbidden))
    else if !BuildingInOrg(d, buildingId, actor.orgId.value) then (d, Err(NotFound))
    else if !ActiveUserInOrg(d, userId, actor.orgId.value) then (d, Err(BadRequest))
    else if Assignment(buildingId, userId, kind) in d.assignments then (d, Err(Conflict))
    else
      var e := d.(assignments := d.assignments + {Assignment(buildingId, userId, kind)});
      if kind != BUILDING_ADMIN then (e, Ok(()))
      else if "admin" !in d.roles then (e, Err(BadRequest))
      else (e.(userRoles := e.userRoles + {UserRole(userId, d.roles["admin"])}), Ok(()))
  }

  lemma NewAssignmentKeeps(d: Dir, a: Assignment, roleRows: set<UserRole>)
    requires Valid(d) && AssignmentTenancy(d, a)
    ensures var e := d.(assignments := d.assignments + {a}, userRoles := roleRows); Valid(e) && Evolves(d, e)
  {
    TenancySurvives(d, d.(assignments := d.assignments + {a}, userRoles := roleRows));
  }

  lemma CreateAssignmentKeeps(d: Dir, actor: Actor, buildingId: Id, userId: Id, kind: AssignmentType)
    requires Valid(d)
    ensures var e := CreateAssignment(d, actor, buildingId, userId, kind).0;
      Valid(e) && Evolves(d, e)
  {
    var e := CreateAssignment(d, actor, buildingId, userId, kind).0;
    if e != d {
      NewAssignmentKeeps(d, Assignment(buildingId, userId, kind), e.userRoles);
    }
  }

  /** Creating an assignment is all-or-nothing exactly when it is no BUILDING_ADMIN, or the admin role exists, or an
    * earlier check rejects the call.
    */
  lemma AssignmentAtomicIff(d: Dir, actor: Actor, buildingId: Id, userId: Id, kind: AssignmentType)
    ensures var (e, r) := CreateAssignment(d, actor, buildingId, userId, kind);
      (r.Err? ==> e == d) <==>
        || kind != BUILDING_ADMIN
        || "admin" in d.roles
        || actor.orgId.None?
        || !BuildingInOrg(d, buildingId, actor.orgId.value)
        || !ActiveUserInOrg(d, userId, actor.orgId.value)
        || Assignment(buildingId, userId, kind) in d.assignments
  {
    var a := Assignment(buildingId, userId, kind);
    var (e, r) := CreateAssignment(d, actor, buildingId, userId, kind);
    if a !in d.assignments && e.assignments == d.assignments + {a} {
      assert a in e.assignments;
    }
  }

  // ----- the balance of a building

  /** `unit.count` over the first `n` units. */
  function CountUnits(units: seq<Unit>, buildingId: Id, n: nat): nat
    requires n <= |units|
  {
    if n == 0 then 0
    else CountUnits(units, buildingId, n - 1) + if units[n - 1].buildingId == buildingId then 1 else 0
  }

  /** `unit.count` over the first `n` units, with no ACTIVE occupancy. */
  function CountVacant(units: seq<Unit>, occs: seq<Occupancy>, buildingId: Id, n: nat): nat
    requires n <= |units|
  {
    if n == 0 then 0
    else
      CountVacant(units, occs, buildingId, n - 1)
      + if units[n - 1].buildingId == buildingId && FindActive(occs, ActiveWhere(Some(n - 1), None)).None? then 1 else 0
  }

  function CountActive(occs: seq<Occupancy>, buildingId: Id): nat {
    if |occs| == 0 then 0
    else
      CountActive(occs[..|occs| - 1], buildingId)
      + if occs[|occs| - 1].buildingId == buildingId && occs[|occs| - 1].status == ACTIVE then 1 else 0
  }

  lemma {:induction false} VacantWithout(units: seq<Unit>, buildingId: Id, n: nat)
    requires n <= |units|
    ensures CountVacant(units, [], buildingId, n) == CountUnits(units, buildingId, n)
  {
    if n > 0 {
      VacantWithout(units, buildingId, n - 1);
    }
  }

  /** An ACTIVE row lies in the building of its unit. */
  predicate Placed(units: seq<Unit>, o: Occupancy) {
    o.status == ACTIVE ==> o.unitId < |units| && units[o.unitId].buildingId == o.buildingId
  }

  /** A further row lowers the count by one if it occupies one of the counted units, which was vacant before. */
  lemma {:induction false} VacantStep(units: seq<Unit>, occs: seq<Occupancy>, o: Occupancy, buildingId: Id, n: nat)
    requires n <= |units| && Placed(units, o)
    ensures CountVacant(units, occs + [o], buildingId, n)
         == CountVacant(units, occs, buildingId, n)
            - if o.status == ACTIVE && o.buildingId == buildingId && o.unitId < n && Vacant(occs, o.unitId) then 1 else 0
  {
    if n > 0 {
      VacantStep(units, occs, o, buildingId, n - 1);
      VacantIffNoneFound(occs, n - 1);
      VacantIffNoneFound(occs + [o], n - 1);
      assert (occs + [o])[|occs|] == o;
      assert forall i :: 0 <= i < |occs| ==> (occs + [o])[i] == occs[i];
      assert Vacant(occs + [o], n - 1) <==> Vacant(occs, n - 1) && !OnUnit(o, n - 1);
    }
  }

  /** How many ACTIVE rows of a building came to a unit that was taken already. */
  ghost function Doubled(occs: seq<Occupancy>, buildingId: Id): nat {
    if |occs| == 0 then 0
    else
      var init, o := occs[..|occs| - 1], occs[|occs| - 1];
      Doubled(init, buildingId)
      + if o.status == ACTIVE && o.buildingId == buildingId && !Vacant(init, o.unitId) then 1 else 0
  }

  /** Vacant units and ACTIVE occupancies exceed the units of a building by exactly the doubled rows. */
  lemma {:induction false} BalanceWithDoubled(units: seq<Unit>, occs: seq<Occupancy>, buildingId: Id)
    requires forall i :: 0 <= i < |occs| ==> Placed(units, occs[i])
    ensures CountVacant(units, occs, buildingId, |units|) + CountActive(occs, buildingId)
         == CountUnits(units, buildingId, |units|) + Doubled(occs, buildingId)
  {
    if |occs| == 0 {
      VacantWithout(units, buildingId, |units|);
    } else {
      var init, o := occs[..|occs| - 1], occs[|occs| - 1];
      BalanceWithDoubled(units, init, buildingId);
      assert occs == init + [o];
      VacantStep(units, init, o, buildingId, |units|);
    }
  }

  lemma {:induction false} NoneDoubled(occs: seq<Occupancy>, buildingId: Id)
    requires OneActive(occs)
    ensures Doubled(occs, buildingId) == 0
  {
    if |occs| > 0 {
      NoneDoubled(occs[..|occs| - 1], buildingId);
    }
  }

  lemma {:induction false} SomeDoubled(occs: seq<Occupancy>, i: nat, j: nat)
    requires i < j < |occs| && OnUnit(occs[i], occs[j].unitId) && occs[j].status == ACTIVE
    ensures Doubled(occs, occs[j].buildingId) > 0
  {
    if j < |occs| - 1 {
      SomeDoubled(occs[..|occs| - 1], i, j);
    } else {
      assert OnUnit(occs[..j][i], occs[j].unitId);
    }
  }

  ghost predicate Balanced(units: seq<Unit>, occs: seq<Occupancy>, buildingId: Id) {
    CountVacant(units, occs, buildingId, |units|) + CountActive(occs, buildingId) == CountUnits(units, buildingId, |units|)
  }

  /** Vacant units plus ACTIVE occupancies are all units, for every building, if and only if no unit has two ACTIVE
    * occupancies.
    */
  lemma {:induction false} BalancedIffOneActive(units: seq<Unit>, occs: seq<Occupancy>)
    requires forall i :: 0 <= i < |occs| ==> Placed(units, occs[i])
    ensures (forall buildingId: Id :: Balanced(units, occs, buildingId)) <==> OneActive(occs)
  {
    forall buildingId: Id
      ensures Balanced(units, occs, buildingId) <==> Doubled(occs, buildingId) == 0
    {
      BalanceWithDoubled(units, occs, buildingId);
    }
    if OneActive(occs) {
      forall buildingId: Id ensures Balanced(units, occs, buildingId) {
        NoneDoubled(occs, buildingId);
      }
    } else {
      var i, j :| 0 <= i < j < |occs| && occs[i].status == ACTIVE && occs[j].status == ACTIVE && occs[i].unitId == occs[j].unitId;
      SomeDoubled(occs, i, j);
      assert !Balanced(units, occs, occs[j].buildingId);
    }
  }

  /** In every directory with integrity, vacant units plus ACTIVE occupancies are all units of the building. */
  lemma VacantPlusActiveIsTotal(d: Dir, buildingId: Id)
    requires Valid(d)
    ensures CountVacant(d.units, d.occupancies, buildingId, |d.units|) + CountActive(d.occupancies, buildingId)
         == CountUnits(d.units, buildingId, |d.units|)
  {
    forall i | 0 <= i < |d.occupancies| ensures Placed(d.units, d.occupancies[i]) {
      assert OccupancyTenancy(d, d.occupancies[i]);
    }
    BalancedIffOneActive(d.units, d.occupancies);
    assert Balanced(d.units, d.occupancies, buildingId);
  }
}
