/** Effective permissions from roles and overrides, and the writes that set them. */
module AccessControl {
  import opened Prelude
  import T = Tables

  datatype Effect = ALLOW | DENY
  datatype Override = Override(key: string, effect: Effect)

  // ----- the fold over overrides

  function Apply(effective: set<string>, o: Override): set<string> {
    if o.effect == ALLOW then effective + {o.key} else effective - {o.key}
  }

  function Fold(roleKeys: set<string>, overrides: seq<Override>): set<string> {
    if |overrides| == 0 then roleKeys
    else Apply(Fold(roleKeys, overrides[..|overrides| - 1]), overrides[|overrides| - 1])
  }

  ghost predicate UniqueKeys(overrides: seq<Override>) {
    forall i, j :: 0 <= i < j < |overrides| ==> overrides[i].key != overrides[j].key
  }

  /** With one row per key the order of the rows does not matter: (roles union ALLOW) minus DENY. */
  lemma {:induction false} FoldIsRolesPlusAllowMinusDeny(roleKeys: set<string>, overrides: seq<Override>, key: string)
    requires UniqueKeys(overrides)
    ensures key in Fold(roleKeys, overrides) <==>
      && (key in roleKeys || Override(key, ALLOW) in overrides)
      && Override(key, DENY) !in overrides
  {
    if |overrides| > 0 {
      var init, last := overrides[..|overrides| - 1], overrides[|overrides| - 1];
      FoldIsRolesPlusAllowMinusDeny(roleKeys, init, key);
      assert overrides == init + [last];
      assert forall o :: o in init ==> o.key != last.key;
    }
  }

  /** `getUserEffectivePermissions`: the loop over the overrides. */
  method GetUserEffectivePermissions(roleKeys: set<string>, overrides: seq<Override>) returns (effective: set<string>)
    ensures effective == Fold(roleKeys, overrides)
    ensures UniqueKeys(overrides) ==> forall key :: key in effective <==>
      (key in roleKeys || Override(key, ALLOW) in overrides) && Override(key, DENY) !in overrides
  {
    effective := roleKeys;
    for i := 0 to |overrides|
      invariant effective == Fold(roleKeys, overrides[..i])
    {
      assert overrides[..i + 1][..i] == overrides[..i];
      if overrides[i].effect == ALLOW {
        effective := effective + {overrides[i].key};
      } else {
        effective := effective - {overrides[i].key};
      }
    }
    assert overrides[..|overrides|] == overrides;
    if UniqueKeys(overrides) {
      forall key
        ensures key in effective <==>
          (key in roleKeys || Override(key, ALLOW) in overrides) && Override(key, DENY) !in overrides
      {
        FoldIsRolesPlusAllowMinusDeny(roleKeys, overrides, key);
      }
    }
  }

  // ----- tables

  /** The unique key of a user's permission row. */
  datatype Slot = Slot(userId: Id, permissionId: Id)

  datatype RolePermission = RolePermission(roleId: Id, permissionId: Id)

  /** Permission ids are positions in the list of keys. */
  datatype Access = Access(
    permissions: seq<string>,
    roleCount: nat,
    rolePermissions: set<RolePermission>,
    userRoles: set<T.UserRole>,
    userPermissions: map<Slot, Effect>)

  ghost predicate Valid(t: Access) {
    && NoDuplicates(t.permissions)
    && (forall s :: s in t.userPermissions ==> s.permissionId < |t.permissions|)
    && (forall rp :: rp in t.rolePermissions ==> rp.permissionId < |t.permissions|)
  }

  function PermissionId(permissions: seq<string>, key: string): (r: Option<Id>)
    ensures r.Some? ==> r.value < |permissions| && permissions[r.value] == key
    ensures r.None? ==> key !in permissions
  {
    if |permissions| == 0 then None
    else
      var k := |permissions| - 1;
      assert permissions == permissions[..k] + [permissions[k]];
      var r := PermissionId(permissions[..k], key);
      if r.Some? then r else if permissions[k] == key then Some(k) else None
  }

  // ----- setPermissionOverrides

  function SlotsOf(m: map<Slot, Effect>, userId: Id): set<Slot> {
    set s | s in m && s.userId == userId
  }

  /** `createMany` with `skipDuplicates`: a row whose slot is taken is left out. */
  function InsertSkipDuplicates(m: map<Slot, Effect>, permissions: seq<string>, userId: Id, overrides: seq<Override>)
    : map<Slot, Effect>
    requires forall o :: o in overrides ==> o.key in permissions
  {
    if |overrides| == 0 then m
    else
      var o := overrides[|overrides| - 1];
      var before := InsertSkipDuplicates(m, permissions, userId, overrides[..|overrides| - 1]);
      var slot := Slot(userId, PermissionId(permissions, o.key).value);
      if slot in before then before else before[slot := o.effect]
  }

  function ReplaceUserPermissions(t: Access, userId: Id, overrides: seq<Override>): Access
    requires forall o :: o in overrides ==> o.key in t.permissions
  {
    var kept := t.userPermissions - SlotsOf(t.userPermissions, userId);
    t.(userPermissions := InsertSkipDuplicates(kept, t.permissions, userId, overrides))
  }

  function SetPermissionOverrides(t: Access, userId: Id, overrides: seq<Override>): (Access, Result<()>) {
    if exists o :: o in overrides && o.key !in t.permissions then (t, Err(BadRequest))
    else (ReplaceUserPermissions(t, userId, overrides), Ok(()))
  }

  /** The effect of the first override of a key. */
  function FirstEffect(overrides: seq<Override>, key: string): Option<Effect> {
    if |overrides| == 0 then None
    else if overrides[0].key == key then Some(overrides[0].effect)
    else FirstEffect(overrides[1..], key)
  }

  lemma {:induction false} FirstEffectSnoc(init: seq<Override>, o: Override, key: string)
    ensures FirstEffect(init + [o], key) ==
      if FirstEffect(init, key).Some? then FirstEffect(init, key) else if o.key == key then Some(o.effect) else None
  {
    if |init| > 0 {
      assert (init + [o])[1..] == init[1..] + [o];
      FirstEffectSnoc(init[1..], o, key);
    }
  }

  function Stored(m: map<Slot, Effect>, slot: Slot): Option<Effect> {
    if slot in m then Some(m[slot]) else None
  }

  lemma SamePermission(permissions: seq<string>, key: string, p: Id)
    requires NoDuplicates(permissions) && p < |permissions| && permissions[p] == key
    ensures PermissionId(permissions, key) == Some(p)
  {
  }

  lemma {:induction false} InsertedFirst(
    m: map<Slot, Effect>, permissions: seq<string>, userId: Id, overrides: seq<Override>, slot: Slot)
    requires NoDuplicates(permissions) && slot.permissionId < |permissions|
    requires forall o :: o in overrides ==> o.key in permissions
    requires slot.userId == userId ==> slot !in m
    ensures Stored(InsertSkipDuplicates(m, permissions, userId, overrides), slot) ==
      if slot.userId == userId then FirstEffect(overrides, permissions[slot.permissionId]) else Stored(m, slot)
  {
    if |overrides| > 0 {
      var init, o := overrides[..|overrides| - 1], overrides[|overrides| - 1];
      assert overrides == init + [o];
      InsertedFirst(m, permissions, userId, init, slot);
      FirstEffectSnoc(init, o, permissions[slot.permissionId]);
      if o.key == permissions[slot.permissionId] {
        SamePermission(permissions, o.key, slot.permissionId);
      }
    }
  }

  /** After a successful call a user's stored effects are those of the first occurrence of each key, nothing of the
    * old overrides remains, and other users keep theirs.
    */
  lemma OverridesStored(t: Access, userId: Id, overrides: seq<Override>, slot: Slot)
    requires Valid(t) && SetPermissionOverrides(t, userId, overrides).1.Ok? && slot.permissionId < |t.permissions|
    ensures var e := SetPermissionOverrides(t, userId, overrides).0;
      Stored(e.userPermissions, slot) ==
        if slot.userId == userId then FirstEffect(overrides, t.permissions[slot.permissionId])
        else Stored(t.userPermissions, slot)
  {
    var kept := t.userPermissions - SlotsOf(t.userPermissions, userId);
    InsertedFirst(kept, t.permissions, userId, overrides, slot);
  }

  // ----- reading back

  /** The rows read so far are those whose slot is no longer waiting. */
  ghost predicate ReadSoFar(t: Access, userId: Id, rows: seq<Override>, waiting: set<Slot>, p: Id, effect: Effect) {
    p < |t.permissions| ==>
      (Override(t.permissions[p], effect) in rows <==>
        Slot(userId, p) !in waiting && Stored(t.userPermissions, Slot(userId, p)) == Some(effect))
  }

  /** The rows `getUserAccess` reads for a user, in whatever order: each stored effect once, under its key. */
  ghost predicate ReadsOverrides(t: Access, userId: Id, rows: seq<Override>) {
    && UniqueKeys(rows)
    && (forall o :: o in rows ==> o.key in t.permissions)
    && forall p, effect :: ReadSoFar(t, userId, rows, {}, p, effect)
  }

  lemma NotReadYet(t: Access, userId: Id, rows: seq<Override>, slots: set<Slot>, slot: Slot)
    requires Valid(t) && slot in slots && slots <= SlotsOf(t.userPermissions, userId)
    requires forall p, effect :: ReadSoFar(t, userId, rows, slots, p, effect)
    ensures forall i :: 0 <= i < |rows| ==> rows[i].key != t.permissions[slot.permissionId]
  {
    assert slot == Slot(userId, slot.permissionId);
    forall i | 0 <= i < |rows| ensures rows[i].key != t.permissions[slot.permissionId] {
      assert rows[i] == Override(rows[i].key, rows[i].effect);
      var row := rows[i];
      assert row in rows && row == Override(row.key, row.effect);
      assert ReadSoFar(t, userId, rows, slots, slot.permissionId, row.effect);
    }
  }

  /** End to end: after the overrides are set, the first occurrence of a key decides it, and a key without one is
    * decided by the roles.
    */
  lemma FirstOverrideDecides(
    t: Access, userId: Id, overrides: seq<Override>, rows: seq<Override>, roleKeys: set<string>, key: string)
    requires Valid(t) && SetPermissionOverrides(t, userId, overrides).1.Ok?
    requires ReadsOverrides(SetPermissionOverrides(t, userId, overrides).0, userId, rows)
    requires key in t.permissions
    ensures key in Fold(roleKeys, rows) <==>
      match FirstEffect(overrides, key)
      case Some(effect) => effect == ALLOW
      case None => key in roleKeys
  {
    var e := SetPermissionOverrides(t, userId, overrides).0;
    var p :| 0 <= p < |t.permissions| && t.permissions[p] == key;
    OverridesStored(t, userId, overrides, Slot(userId, p));
    FoldIsRolesPlusAllowMinusDeny(roleKeys, rows, key);
    assert ReadSoFar(e, userId, rows, {}, p, ALLOW) && ReadSoFar(e, userId, rows, {}, p, DENY);
    assert Override(e.permissions[p], ALLOW) in rows <==> FirstEffect(overrides, key) == Some(ALLOW);
    assert Override(e.permissions[p], DENY) in rows <==> FirstEffect(overrides, key) == Some(DENY);
  }

  lemma {:induction false} InsertKeepsValid(
    m: map<Slot, Effect>, permissions: seq<string>, userId: Id, overrides: seq<Override>)
    requires forall o :: o in overrides ==> o.key in permissions
    requires forall s :: s in m ==> s.permissionId < |permissions|
    ensures forall s :: s in InsertSkipDuplicates(m, permissions, userId, overrides) ==> s.permissionId < |permissions|
  {
    if |overrides| > 0 {
      InsertKeepsValid(m, permissions, userId, overrides[..|overrides| - 1]);
    }
  }

  // ----- roles

  datatype RolesMode = Replace | Add

  function RoleRows(userId: Id, roleIds: seq<Id>): set<T.UserRole> {
    set r | r in roleIds :: T.UserRole(userId, r)
  }

  function AssignRoles(t: Access, userId: Id, roleIds: seq<Id>, mode: RolesMode): (Access, Result<()>) {
    if exists r :: r in roleIds && r >= t.roleCount then (t, Err(BadRequest))
    else
      var kept := if mode == Add then t.userRoles else set ur | ur in t.userRoles && ur.userId != userId;
      (t.(userRoles := kept + RoleRows(userId, roleIds)), Ok(()))
  }

  /** A role is held after a successful call exactly if it is listed, or was held and the mode is to add, or belongs to
    * someone else.
    */
  lemma RolesAfterAssign(t: Access, userId: Id, roleIds: seq<Id>, mode: RolesMode, ur: T.UserRole)
    requires AssignRoles(t, userId, roleIds, mode).1.Ok?
    ensures ur in AssignRoles(t, userId, roleIds, mode).0.userRoles <==>
      || (ur.userId == userId && ur.roleId in roleIds)
      || (ur in t.userRoles && (mode == Add || ur.userId != userId))
  {
    assert ur == T.UserRole(ur.userId, ur.roleId);
  }

  function RolePermissionKeys(t: Access, userId: Id): set<string>
    requires forall rp :: rp in t.rolePermissions ==> rp.permissionId < |t.permissions|
  {
    set rp | rp in t.rolePermissions && T.UserRole(userId, rp.roleId) in t.userRoles :: t.permissions[rp.permissionId]
  }

  /** Some role the user holds grants the permission. */
  ghost predicate GrantedByRole(t: Access, userId: Id, key: string) {
    exists r, p :: GrantsKey(t, userId, key, r, p)
  }

  ghost predicate GrantsKey(t: Access, userId: Id, key: string, r: Id, p: Id) {
    && T.UserRole(userId, r) in t.userRoles && RolePermission(r, p) in t.rolePermissions
    && p < |t.permissions| && t.permissions[p] == key
  }

  /** The keys read for a user are exactly those of the roles the user holds. */
  lemma RoleKeysIff(t: Access, userId: Id, key: string)
    requires Valid(t)
    ensures key in RolePermissionKeys(t, userId) <==> GrantedByRole(t, userId, key)
  {
    if key in RolePermissionKeys(t, userId) {
      var rp :| rp in t.rolePermissions && T.UserRole(userId, rp.roleId) in t.userRoles && t.permissions[rp.permissionId] == key;
      assert rp == RolePermission(rp.roleId, rp.permissionId);
      assert GrantsKey(t, userId, key, rp.roleId, rp.permissionId);
    }
    if r, p :| GrantsKey(t, userId, key, r, p) {
      assert RolePermission(r, p) in t.rolePermissions;
    }
  }

  /** `overrides[i]` is the first override of the key. */
  ghost predicate FirstOf(overrides: seq<Override>, key: string, i: nat) {
    i < |overrides| && overrides[i].key == key && forall j :: 0 <= j < i ==> overrides[j].key != key
  }

  lemma {:induction false} FirstEffectIs(overrides: seq<Override>, key: string)
    ensures forall i: nat | FirstOf(overrides, key, i) :: FirstEffect(overrides, key) == Some(overrides[i].effect)
    ensures FirstEffect(overrides, key).None? <==> forall j :: 0 <= j < |overrides| ==> overrides[j].key != key
  {
    if |overrides| > 0 {
      FirstEffectIs(overrides[1..], key);
      if overrides[0].key != key {
        forall i: nat | FirstOf(overrides, key, i)
          ensures FirstEffect(overrides, key) == Some(overrides[i].effect)
        {
          assert FirstOf(overrides[1..], key, i - 1);
        }
        assert forall j :: 1 <= j < |overrides| ==> overrides[j] == overrides[1..][j - 1];
      }
    }
  }

  /** Overrides are accepted exactly if every key is known, roles exactly if every id is. */
  lemma AcceptedIff(t: Access, userId: Id, overrides: seq<Override>, roleIds: seq<Id>, mode: RolesMode)
    ensures var (e, r) := SetPermissionOverrides(t, userId, overrides);
      && (r.Ok? <==> forall o :: o in overrides ==> o.key in t.permissions)
      && (r.Err? ==> e == t && r.error == BadRequest) && e == t.(userPermissions := e.userPermissions)
    ensures var (e, r) := AssignRoles(t, userId, roleIds, mode);
      && (r.Ok? <==> forall id :: id in roleIds ==> id < t.roleCount)
      && (r.Err? ==> e == t && r.error == BadRequest) && e == t.(userRoles := e.userRoles)
  {
  }

  /** Some role grants the permission that is listed, or was held and is kept in the mode to add. */
  ghost predicate GrantedByListed(t: Access, userId: Id, roleIds: seq<Id>, mode: RolesMode, key: string) {
    exists r, p :: ListedGrantsKey(t, userId, roleIds, mode, key, r, p)
  }

  ghost predicate ListedGrantsKey(t: Access, userId: Id, roleIds: seq<Id>, mode: RolesMode, key: string, r: Id, p: Id) {
    && (r in roleIds || (mode == Add && T.UserRole(userId, r) in t.userRoles))
    && RolePermission(r, p) in t.rolePermissions && p < |t.permissions| && t.permissions[p] == key
  }

  lemma GrantedAfterAssign(t: Access, userId: Id, roleIds: seq<Id>, mode: RolesMode, key: string)
    requires AssignRoles(t, userId, roleIds, mode).1.Ok?
    ensures GrantedByRole(AssignRoles(t, userId, roleIds, mode).0, userId, key)
       <==> GrantedByListed(t, userId, roleIds, mode, key)
  {
    var e := AssignRoles(t, userId, roleIds, mode).0;
    forall r: Id, p: Id
      ensures GrantsKey(e, userId, key, r, p) <==> ListedGrantsKey(t, userId, roleIds, mode, key, r, p)
    {
      RolesAfterAssign(t, userId, roleIds, mode, T.UserRole(userId, r));
    }
  }

  lemma SetKeepsValid(t: Access, userId: Id, overrides: seq<Override>)
    requires Valid(t) && SetPermissionOverrides(t, userId, overrides).1.Ok?
    ensures Valid(SetPermissionOverrides(t, userId, overrides).0)
  {
    InsertKeepsValid(t.userPermissions - SlotsOf(t.userPermissions, userId), t.permissions, userId, overrides);
  }

  /** What a user may do after an administrator has set roles and overrides, whatever was there before: a key with an
    * override is effective if its first override allows it; a key without one if a role grants it that is listed or,
    * in the mode to add, was held before.
    */
  lemma EffectiveAfterAdministration(
    t: Access, f: Access, e: Access, userId: Id, roleIds: seq<Id>, mode: RolesMode, overrides: seq<Override>,
    rows: seq<Override>, key: string)
    requires Valid(t) && key in t.permissions
    requires AssignRoles(t, userId, roleIds, mode) == (f, Ok(()))
    requires SetPermissionOverrides(f, userId, overrides) == (e, Ok(()))
    requires ReadsOverrides(e, userId, rows)
    ensures Valid(e)
    ensures key in Fold(RolePermissionKeys(e, userId), rows) <==>
      match FirstEffect(overrides, key)
      case Some(effect) => effect == ALLOW
      case None => GrantedByListed(t, userId, roleIds, mode, key)
  {
    SetKeepsValid(f, userId, overrides);
    FirstOverrideDecides(f, userId, overrides, rows, RolePermissionKeys(e, userId), key);
    RoleKeysIff(e, userId, key);
    GrantedAfterAssign(t, userId, roleIds, mode, key);
    assert forall r, p :: GrantsKey(e, userId, key, r, p) <==> GrantsKey(f, userId, key, r, p);
  }

  /** In particular, a user without roles may do exactly what the first overrides allow. */
  lemma EffectiveWithoutRoles(
    t: Access, f: Access, e: Access, userId: Id, overrides: seq<Override>, rows: seq<Override>, key: string)
    requires Valid(t) && key in t.permissions
    requires AssignRoles(t, userId, [], Replace) == (f, Ok(()))
    requires SetPermissionOverrides(f, userId, overrides) == (e, Ok(()))
    requires ReadsOverrides(e, userId, rows)
    ensures Valid(e)
    ensures key in Fold(RolePermissionKeys(e, userId), rows) <==> FirstEffect(overrides, key) == Some(ALLOW)
  {
    EffectiveAfterAdministration(t, f, e, userId, [], Replace, overrides, rows, key);
  }

  /** The stored override of the permission decides, and without one the roles. */
  ghost predicate AllowedByRows(t: Access, userId: Id, p: Id)
    requires p < |t.permissions|
  {
    if Slot(userId, p) in t.userPermissions then t.userPermissions[Slot(userId, p)] == ALLOW
    else GrantedByRole(t, userId, t.permissions[p])
  }

  /** The access tables and their replace and add writes. */
  class AccessControlRepo {
    const permissions: seq<string>
    const roleCount: nat
    const rolePermissions: set<RolePermission>
    var userRoles: set<T.UserRole>
    var userPermissions: map<Slot, Effect>

    function Contents(): Access
      reads this
    {
      Access(permissions, roleCount, rolePermissions, userRoles, userPermissions)
    }

    constructor (permissions: seq<string>, roleCount: nat, rolePermissions: set<RolePermission>)
      ensures Contents() == Access(permissions, roleCount, rolePermissions, {}, map[])
    {
      this.permissions := permissions;
      this.roleCount := roleCount;
      this.rolePermissions := rolePermissions;
      userRoles, userPermissions := {}, map[];
    }

    /** The overrides are read row by row; no order is promised. */
    method GetUserAccess(userId: Id) returns (roleKeys: set<string>, rows: seq<Override>)
      requires Valid(Contents())
      ensures roleKeys == RolePermissionKeys(Contents(), userId)
      ensures forall key :: key in roleKeys <==> GrantedByRole(Contents(), userId, key)
      ensures ReadsOverrides(Contents(), userId, rows)
    {
      forall key ensures key in RolePermissionKeys(Contents(), userId) <==> GrantedByRole(Contents(), userId, key) {
        RoleKeysIff(Contents(), userId, key);
      }
      roleKeys, rows := RolePermissionKeys(Contents(), userId), [];
      var slots := SlotsOf(userPermissions, userId);
      while slots != {}
        invariant slots <= SlotsOf(userPermissions, userId)
        invariant UniqueKeys(rows)
        invariant forall o :: o in rows ==> o.key in permissions
        invariant forall p, effect :: ReadSoFar(Contents(), userId, rows, slots, p, effect)
        decreases slots
      {
        var slot :| slot in slots;
        var row := Override(permissions[slot.permissionId], userPermissions[slot]);
        NotReadYet(Contents(), userId, rows, slots, slot);
        ghost var rows', slots' := rows, slots;
        slots, rows := slots - {slot}, rows + [row];
        forall p, effect ensures ReadSoFar(Contents(), userId, rows, slots, p, effect) {
          assert ReadSoFar(Contents(), userId, rows', slots', p, effect);
        }
      }
    }

    /** What the user may do now, from the stored rows alone. */
    method EffectivePermissions(userId: Id) returns (effective: set<string>)
      requires Valid(Contents())
      ensures forall p: Id :: p < |permissions| ==>
        (permissions[p] in effective <==> AllowedByRows(Contents(), userId, p))
      ensures forall key :: key in effective ==> key in permissions
    {
      var roleKeys, rows := GetUserAccess(userId);
      effective := GetUserEffectivePermissions(roleKeys, rows);
      forall p: Id | p < |permissions|
        ensures permissions[p] in effective <==> AllowedByRows(Contents(), userId, p)
      {
        assert ReadSoFar(Contents(), userId, rows, {}, p, ALLOW) && ReadSoFar(Contents(), userId, rows, {}, p, DENY);
      }
      assert forall key | Override(key, ALLOW) in rows :: Override(key, ALLOW).key in permissions;
    }

    method SetOverrides(userId: Id, overrides: seq<Override>) returns (r: Result<()>)
      modifies this`userPermissions
      ensures (Contents(), r) == SetPermissionOverrides(old(Contents()), userId, overrides)
      ensures old(Valid(Contents())) ==> Valid(Contents())
    {
      if exists o :: o in overrides && o.key !in permissions {
        return Err(BadRequest);
      }
      userPermissions := userPermissions - SlotsOf(userPermissions, userId);
      if old(Valid(Contents())) {
        InsertKeepsValid(userPermissions, permissions, userId, overrides);
      }
      userPermissions := InsertSkipDuplicates(userPermissions, permissions, userId, overrides);
      return Ok(());
    }

    method SetRoles(userId: Id, roleIds: seq<Id>, mode: RolesMode) returns (r: Result<()>)
      modifies this`userRoles
      ensures (Contents(), r) == AssignRoles(old(Contents()), userId, roleIds, mode)
    {
      if exists id :: id in roleIds && id >= roleCount {
        return Err(BadRequest);
      }
      if mode == Replace {
        userRoles := set ur | ur in userRoles && ur.userId != userId;
      }
      userRoles := userRoles + RoleRows(userId, roleIds);
      return Ok(());
    }
  }
}
