/** What a call of `provision` does, in terms of the stored fields. */
module ProvisioningOutcomes {
  import opened Prelude
  import opened Tables
  import opened Provisioning

  // ----- text

  ghost predicate OnlyBlanks(s: string) {
    forall i :: 0 <= i < |s| ==> s[i] in {' ', '\t', '\n', '\r'}
  }

  /** Trimming takes away the blanks at both ends and nothing else. */
  lemma {:induction false} TrimStrips(s: string) returns (front: string, back: string)
    ensures s == front + Trim(s) + back && OnlyBlanks(front) && OnlyBlanks(back)
    ensures |Trim(s)| > 0 ==> Trim(s)[0] !in {' ', '\t', '\n', '\r'}
    ensures |Trim(s)| > 0 ==> Trim(s)[|Trim(s)| - 1] !in {' ', '\t', '\n', '\r'}
    decreases |s|
  {
    front, back := "", "";
    if |s| > 0 {
      if IsSpace(s[0]) {
        front, back := TrimStrips(s[1..]);
        front := [s[0]] + front;
      } else if IsSpace(s[|s| - 1]) {
        front, back := TrimStrips(s[..|s| - 1]);
        back := back + [s[|s| - 1]];
      }
    }
  }

  /** Lower-casing maps each of the letters A to Z to its partner and keeps every other character. */
  lemma LowerIs(s: string, i: nat)
    requires i < |s|
    ensures |Lower(s)| == |s|
    ensures if 'A' <= s[i] <= 'Z' then Lower(s)[i] as int == s[i] as int + 32 else Lower(s)[i] == s[i]
  {
  }

  // ----- the user

  /** The first user whose email differs from the given one at most in case. */
  ghost predicate FirstWithEmail(users: seq<User>, email: string, i: nat) {
    && i < |users| && Lower(users[i].email) == Lower(Lower(Trim(email)))
    && forall j :: 0 <= j < i ==> Lower(users[j].email) != Lower(Lower(Trim(email)))
  }

  /** When the email is taken, exactly the active users of the organisation are linked, and active users of none if the
    * payload does not ask for the same organisation; linking fills in the organisation and changes nothing else.
    */
  lemma ExistingTarget(d: Dir, orgId: Id, p: Payload, i: nat)
    requires FirstWithEmail(d.users, p.email, i)
    ensures var r := ResolveTarget(d, orgId, p);
      && (r.Ok? <==>
           && p.ifEmailExists == LINK && d.users[i].isActive
           && (d.users[i].orgId == Some(orgId) || (d.users[i].orgId.None? && !p.requireSameOrg)))
      && (r.Ok? ==> !r.value.1.created && r.value.1.userId == i
                    && r.value.0 == d.(users := d.users[i := d.users[i].(orgId := Some(orgId))]))
      && (r.Err? ==> r.error == if p.ifEmailExists == ERROR then Conflict else BadRequest)
  {
    FoundAt(d.users, NormalizeEmail(p.email), i);
  }

  /** When the email is free, a user is created from a trimmed name of two characters and a password or an invitation. */
  lemma NewTarget(d: Dir, orgId: Id, p: Payload)
    requires forall j :: 0 <= j < |d.users| ==> Lower(d.users[j].email) != Lower(Lower(Trim(p.email)))
    ensures var r := ResolveTarget(d, orgId, p);
      && (r.Ok? <==>
           && p.name.Some? && |Trim(p.name.value)| >= 2
           && ((p.password.Some? && p.password.value != "") || p.sendInvite))
      && (r.Ok? ==> r.value.1.created && r.value.1.userId == |d.users|
                    && r.value.0 == d.(users := d.users + [User(Lower(Trim(p.email)), Trim(p.name.value), Some(orgId), true)]))
      && (r.Err? ==> r.error == BadRequest)
  {
  }

  // ----- who may call

  ghost predicate RunsBuilding(d: Dir, userId: Id, buildingId: Id) {
    exists kind :: kind in {MANAGER, BUILDING_ADMIN} && Assignment(buildingId, userId, kind) in d.assignments
  }

  lemma RunsIff(d: Dir, userId: Id, buildingId: Id)
    ensures Manages(d, userId, buildingId) <==> RunsBuilding(d, userId, buildingId)
  {
    if Assignment(buildingId, userId, MANAGER) in d.assignments {
      assert MANAGER in {MANAGER, BUILDING_ADMIN};
    }
    if Assignment(buildingId, userId, BUILDING_ADMIN) in d.assignments {
      assert BUILDING_ADMIN in {MANAGER, BUILDING_ADMIN};
    }
  }

  /** What the payload of an actor without `users.write` must look like. */
  ghost predicate ManagersPayload(d: Dir, userId: Id, p: Payload) {
    && p.requireSameOrg && p.orgRoleKeys == []
    && (p.buildingAssignments != [] || p.resident.Some?)
    && (forall g :: g in p.buildingAssignments ==> g.kind in {MANAGER, STAFF} && RunsBuilding(d, userId, g.buildingId))
    && (p.resident.Some? ==> RunsBuilding(d, userId, p.resident.value.buildingId))
  }

  ghost predicate AsksForSuperAdmin(p: Payload) {
    exists key :: key in p.orgRoleKeys && Trim(key) == "super_admin"
  }

  lemma GateIff(d: Dir, userId: Id, p: Payload)
    ensures ManagersPayload(d, userId, p) <==>
      ManagerMayGrant(d, userId, DedupeStrings(p.orgRoleKeys), FirstOccurrences(p.buildingAssignments), p.resident,
                      p.requireSameOrg)
  {
    var keys, grants := DedupeStrings(p.orgRoleKeys), FirstOccurrences(p.buildingAssignments);
    if |p.orgRoleKeys| > 0 {
      TrimmedKeys(p.orgRoleKeys, Trim(p.orgRoleKeys[0]));
    } else {
      assert TrimAll(p.orgRoleKeys) == [];
    }
    assert |p.buildingAssignments| > 0 ==> p.buildingAssignments[0] in grants;
    assert |grants| > 0 ==> grants[0] in p.buildingAssignments;
    forall buildingId: Id
      ensures Manages(d, userId, buildingId) <==> RunsBuilding(d, userId, buildingId)
    {
      RunsIff(d, userId, buildingId);
    }
  }

  /** A call gets past the gate exactly when it names no `super_admin` role, and the actor has `users.write` or asks only
    * for what a manager may grant.
    */
  lemma AdmittedIff(d: Dir, actor: Actor, effective: set<string>, p: Payload)
    ensures var r := Admit(d, actor, effective, p);
      && (r.Ok? <==>
           && actor.orgId.Some? && !AsksForSuperAdmin(p) && actor.sub.Some?
           && ("users.write" in effective || ManagersPayload(d, actor.sub.value, p)))
      && (r.Ok? ==> Some(r.value) == actor.orgId)
      && (r.Err? ==> r.error == if actor.orgId.Some? && AsksForSuperAdmin(p) then BadRequest else Forbidden)
  {
    TrimmedKeys(p.orgRoleKeys, "super_admin");
    if actor.sub.Some? {
      GateIff(d, actor.sub.value, p);
    }
  }

  // ----- the occupancies

  /** A grant touches an old row exactly if it is a MOVE and the row is an ACTIVE one of the same user, in the building of
    * the grant and on another unit; then the row keeps its parties and is ENDED now.
    */
  lemma OldRowAfterGrant(d: Dir, orgId: Id, p: Payload, now: Time, i: nat)
    requires Grant(d, orgId, p, now).Ok? && i < |d.occupancies|
    ensures var (e, reply) := Grant(d, orgId, p, now).value;
      && i < |e.occupancies|
      && var o, n := d.occupancies[i], e.occupancies[i];
         && (n != o <==>
              && p.resident.Some? && p.resident.value.mode == MOVE
              && o.status == ACTIVE && o.residentUserId == reply.userId
              && o.buildingId == p.resident.value.buildingId && o.unitId != p.resident.value.unitId)
         && (n != o ==> n == Occupancy(o.buildingId, o.unitId, o.residentUserId, ENDED, Some(now)))
  {
    if p.resident.Some? {
      GrantOnOccupancies(d, orgId, p, now);
    } else {
      NoOccupanciesWithoutGrant(d, orgId, p, now);
    }
  }

  /** An ADD, or no resident grant, changes no old row. */
  lemma AddChangesNoRow(d: Dir, orgId: Id, p: Payload, now: Time)
    requires Grant(d, orgId, p, now).Ok? && (p.resident.Some? ==> p.resident.value.mode == ADD)
    ensures d.occupancies <= Grant(d, orgId, p, now).value.0.occupancies
  {
    var e := Grant(d, orgId, p, now).value.0;
    if p.resident.None? {
      NoOccupanciesWithoutGrant(d, orgId, p, now);
    } else {
      GrantOnOccupancies(d, orgId, p, now);
    }
    forall i | 0 <= i < |d.occupancies| ensures i < |e.occupancies| && e.occupancies[i] == d.occupancies[i] {
      OldRowAfterGrant(d, orgId, p, now, i);
    }
  }

  /** The first ACTIVE row on a unit. */
  ghost predicate FirstOnUnit(occs: seq<Occupancy>, unitId: Id, i: nat) {
    && i < |occs| && occs[i].status == ACTIVE && occs[i].unitId == unitId
    && forall j :: 0 <= j < i && occs[j].status == ACTIVE ==> occs[j].unitId != unitId
  }

  lemma FirstOnUnitIff(occs: seq<Occupancy>, unitId: Id)
    ensures var found := FindActive(occs, ActiveWhere(Some(unitId), None));
      && (found.None? <==> forall j :: 0 <= j < |occs| && occs[j].status == ACTIVE ==> occs[j].unitId != unitId)
      && (forall i: nat :: FirstOnUnit(occs, unitId, i) <==> found == Some(i))
  {
    var w := ActiveWhere(Some(unitId), None);
    assert forall j :: 0 <= j < |occs| ==> (w.Matches(occs[j]) <==> occs[j].status == ACTIVE && occs[j].unitId == unitId);
  }

  /** At most one row is added, on a unit without an ACTIVE one, and it is the user's ACTIVE row on the target unit; if the
    * unit had one, it is the user's and the reply names it.
    */
  lemma NewRowAfterGrant(d: Dir, orgId: Id, p: Payload, now: Time)
    requires Grant(d, orgId, p, now).Ok?
    ensures var (e, reply) := Grant(d, orgId, p, now).value;
      var n := |d.occupancies|;
      && (p.resident.None? ==> e.occupancies == d.occupancies && reply.occupancyId.None?)
      && (p.resident.Some? ==>
           var g := p.resident.value;
           && reply.occupancyId.Some? && reply.occupancyId.value < |e.occupancies|
           && (|e.occupancies| == n || |e.occupancies| == n + 1)
           && (|e.occupancies| == n + 1 <==>
                forall j :: 0 <= j < n && d.occupancies[j].status == ACTIVE ==> d.occupancies[j].unitId != g.unitId)
           && (|e.occupancies| == n + 1 ==>
                && reply.occupancyId == Some(n)
                && e.occupancies[n] == Occupancy(g.buildingId, g.unitId, reply.userId, ACTIVE, None))
           && (|e.occupancies| == n ==>
                && FirstOnUnit(d.occupancies, g.unitId, reply.occupancyId.value)
                && d.occupancies[reply.occupancyId.value].residentUserId == reply.userId))
  {
    if p.resident.None? {
      NoOccupanciesWithoutGrant(d, orgId, p, now);
    } else {
      GrantOnOccupancies(d, orgId, p, now);
      FirstOnUnitIff(d.occupancies, p.resident.value.unitId);
    }
  }

  // ----- success

  /** The resident grant succeeds exactly if the unit lies in a building of the organisation and nobody else holds it. */
  lemma ResidentGrantIff(d: Dir, orgId: Id, userId: Id, g: ResidentGrant, now: Time)
    ensures var r := ApplyResidentGrant(d, orgId, userId, Some(g), now);
      var inOrg := g.buildingId < |d.buildings| && d.buildings[g.buildingId].orgId == orgId;
      var inBuilding := g.unitId < |d.units| && d.units[g.unitId].buildingId == g.buildingId;
      && (r.Ok? <==>
           && inOrg && inBuilding
           && forall i: nat :: FirstOnUnit(d.occupancies, g.unitId, i) ==> d.occupancies[i].residentUserId == userId)
      && (r.Err? ==> r.error == if !inOrg then NotFound else if !inBuilding then BadRequest else Conflict)
  {
    FirstOnUnitIff(d.occupancies, g.unitId);
  }

  ghost predicate KeysKnown(d: Dir, p: Payload) {
    forall key :: key in p.orgRoleKeys ==> Trim(key) in d.roles
  }

  ghost predicate RolesKnown(d: Dir, p: Payload) {
    && KeysKnown(d, p)
    && ((exists g :: g in p.buildingAssignments && g.kind == BUILDING_ADMIN) ==> "admin" in d.roles)
  }

  ghost predicate BuildingsKnown(d: Dir, orgId: Id, p: Payload) {
    forall g :: g in p.buildingAssignments ==> g.buildingId < |d.buildings| && d.buildings[g.buildingId].orgId == orgId
  }

  lemma RightsIff(d: Dir, orgId: Id, userId: Id, p: Payload)
    ensures GrantRights(d, orgId, userId, DedupeStrings(p.orgRoleKeys), FirstOccurrences(p.buildingAssignments)).Ok? <==>
      RolesKnown(d, p) && BuildingsKnown(d, orgId, p)
    ensures var r := GrantRights(d, orgId, userId, DedupeStrings(p.orgRoleKeys), FirstOccurrences(p.buildingAssignments));
      r.Err? ==> r.error == if KeysKnown(d, p) && !BuildingsKnown(d, orgId, p) then NotFound else BadRequest
  {
    forall k ensures k in DedupeStrings(p.orgRoleKeys) <==> exists v :: v in p.orgRoleKeys && Trim(v) == k {
      TrimmedKeys(p.orgRoleKeys, k);
    }
  }

  /** A call that got past the gate succeeds exactly if its user can be found or created, its roles and buildings exist, and
    * its resident grant can be applied.
    */
  lemma GrantSucceedsIff(d: Dir, orgId: Id, p: Payload, now: Time)
    ensures Grant(d, orgId, p, now).Ok? <==>
      && ResolveTarget(d, orgId, p).Ok? && RolesKnown(d, p) && BuildingsKnown(d, orgId, p)
      && (p.resident.Some? ==>
            ApplyResidentGrant(d, orgId, ResolveTarget(d, orgId, p).value.1.userId, p.resident, now).Ok?)
    ensures var (r, target) := (Grant(d, orgId, p, now), ResolveTarget(d, orgId, p));
      var expected :=
        if target.Err? then target.error
        else if KeysKnown(d, p) && !BuildingsKnown(d, orgId, p) then NotFound
        else if !RolesKnown(d, p) then BadRequest
        else
          var resident := ApplyResidentGrant(d, orgId, target.value.1.userId, p.resident, now);
          if resident.Err? then resident.error else Conflict;
      r.Err? ==> r.error == expected
  {
    if ResolveTarget(d, orgId, p).Ok? {
      var (d1, t) := ResolveTarget(d, orgId, p).value;
      RightsIff(d1, orgId, t.userId, p);
      assert d1.roles == d.roles && d1.buildings == d.buildings;
      var keys, grants := DedupeStrings(p.orgRoleKeys), FirstOccurrences(p.buildingAssignments);
      if GrantRights(d1, orgId, t.userId, keys, grants).Ok? {
        SameResidentOutcome(d, GrantRights(d1, orgId, t.userId, keys, grants).value, orgId, t.userId, p.resident, now);
      }
    }
  }

  lemma SameResidentOutcome(d: Dir, e: Dir, orgId: Id, userId: Id, grant: Option<ResidentGrant>, now: Time)
    requires e.buildings == d.buildings && e.units == d.units && e.occupancies == d.occupancies
    ensures ApplyResidentGrant(e, orgId, userId, grant, now).Ok? <==> ApplyResidentGrant(d, orgId, userId, grant, now).Ok?
    ensures ApplyResidentGrant(e, orgId, userId, grant, now).Err? ==>
      ApplyResidentGrant(e, orgId, userId, grant, now).error == ApplyResidentGrant(d, orgId, userId, grant, now).error
  {
  }

  /** The reply of a successful call repeats the payload without blanks and duplicates, and says whether the user is new. */
  lemma ReplyOfGrant(d: Dir, orgId: Id, p: Payload, now: Time)
    requires Grant(d, orgId, p, now).Ok?
    ensures var reply := Grant(d, orgId, p, now).value.1;
      && reply.userId == ResolveTarget(d, orgId, p).value.1.userId
      && reply.linkedExisting == !reply.created
      && (reply.created <==> forall j :: 0 <= j < |d.users| ==> Lower(d.users[j].email) != Lower(Lower(Trim(p.email))))
      && NoDuplicates(reply.orgRoleKeys) && NoDuplicates(reply.buildingAssignments)
      && (forall key :: key in reply.orgRoleKeys <==> exists v :: v in p.orgRoleKeys && Trim(v) == key)
      && (forall g :: g in reply.buildingAssignments <==> g in p.buildingAssignments)
  {
    forall k ensures k in DedupeStrings(p.orgRoleKeys) <==> exists v :: v in p.orgRoleKeys && Trim(v) == k {
      TrimmedKeys(p.orgRoleKeys, k);
    }
  }

  /** A call that fails, at the gate or later, leaves the directory as it was. */
  lemma FailureChangesNothing(d: Dir, actor: Actor, effective: set<string>, p: Payload, now: Time)
    ensures var (e, r) := Provision(d, actor, effective, p, now);
      && (r.Ok? <==> Admit(d, actor, effective, p).Ok? && Grant(d, actor.orgId.value, p, now).Ok?)
      && (r.Ok? ==> (e, r.value) == Grant(d, actor.orgId.value, p, now).value)
      && (r.Err? ==> e == d)
  {
    if Admit(d, actor, effective, p).Ok? {
      AdmitsOwnOrg(d, actor, effective, p);
    }
  }
}
