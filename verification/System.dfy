/** The whole service: runs that mix every modelled operation, and what holds in every state they reach. */
module System {
  import opened Prelude
  import opened Tables
  import Provisioning
  import Occupancy
  import Units
  import Requests
  import RequestOutcomes
  import Recipients
  import Notifications
  import Paging
  import Inbox

  // ----- the directory's operations

  /** Buildings and amenities; and what other services do to users and roles: they create users (of any organisation or
    * none), edit profiles, and add and replace role rows, and the model lets them do so in any way. A new role gets a
    * key and an id that no role has.
    */
  datatype AdminOp =
    | CreateBuilding(actor: Actor)
    | CreateAmenity(actor: Actor, buildingId: Id, isActive: bool, isDefault: bool)
    | UpdateAmenity(actor: Actor, buildingId: Id, amenityId: Id, active: Option<bool>, default: Option<bool>)
    | AddUser(user: User, roleRows: set<UserRole>)
    | UpdateProfile(userId: Id, name: string)
    | SetRoleRows(roleRows: set<UserRole>)
    | CreateRole(key: string, roleId: Id)

  function AdminStep(d: Dir, op: AdminOp): Dir {
    match op
    case CreateBuilding(actor) => Units.CreateBuilding(d, actor).0
    case CreateAmenity(actor, buildingId, isActive, isDefault) =>
      Units.CreateAmenity(d, actor, buildingId, isActive, isDefault).0
    case UpdateAmenity(actor, buildingId, amenityId, isActive, isDefault) =>
      Units.UpdateAmenity(d, actor, buildingId, amenityId, isActive, isDefault).0
    case AddUser(user, roleRows) => d.(users := d.users + [user], userRoles := d.userRoles + roleRows)
    case UpdateProfile(userId, name) =>
      if userId < |d.users| then d.(users := d.users[userId := d.users[userId].(name := name)]) else d
    case SetRoleRows(roleRows) => d.(userRoles := roleRows)
    case CreateRole(key, roleId) =>
      if key in d.roles || roleId in d.roles.Values then d else d.(roles := d.roles[key := roleId])
  }

  lemma UsersAndRolesKeep(d: Dir, e: Dir)
    requires Valid(d) && e == d.(users := e.users, roles := e.roles, userRoles := e.userRoles)
    requires forall key :: key in d.roles ==> key in e.roles && e.roles[key] == d.roles[key]
    requires |d.users| == |e.users| && forall i :: 0 <= i < |d.users| ==> UserEvolves(d.users[i], e.users[i])
    ensures Valid(e) && Evolves(d, e)
  {
    TenancySurvives(d, e);
    forall i | 0 <= i < |d.occupancies| ensures OccupancyTenancy(e, e.occupancies[i]) {
      assert OccupancyEvolves(d.occupancies[i], e.occupancies[i]);
    }
  }

  lemma AdminStepKeeps(d: Dir, op: AdminOp)
    requires Valid(d)
    ensures Valid(AdminStep(d, op)) && Evolves(d, AdminStep(d, op))
  {
    match op
    case CreateBuilding(actor) => Units.CreateBuildingKeeps(d, actor);
    case CreateAmenity(actor, buildingId, isActive, isDefault) =>
      Units.CreateAmenityKeeps(d, actor, buildingId, isActive, isDefault);
    case UpdateAmenity(actor, buildingId, amenityId, isActive, isDefault) =>
      Units.UpdateAmenityKeeps(d, actor, buildingId, amenityId, isActive, isDefault);
    case AddUser(user, roleRows) => NewUserKeeps(d, user, roleRows);
    case UpdateProfile(_, _) => UsersAndRolesKeep(d, AdminStep(d, op));
    case SetRoleRows(_) => UsersAndRolesKeep(d, AdminStep(d, op));
    case CreateRole(_, _) => UsersAndRolesKeep(d, AdminStep(d, op));
  }

  datatype DirOp =
    | Administer(admin: AdminOp)
    | CreateUnit(actor: Actor, buildingId: Id, unitLabel: string, amenityIds: Option<seq<Id>>)
    | UpdateUnit(actor: Actor, buildingId: Id, unitId: Id, update: Units.UnitUpdate)
    | CreateAssignment(actor: Actor, buildingId: Id, userId: Id, kind: AssignmentType)
    | CreateOccupancy(actor: Actor, buildingId: Id, unitId: Id, residentUserId: Id)
    | Onboard(actor: Actor, buildingId: Id, dto: Occupancy.Onboarding)
    | Provision(actor: Actor, effective: set<string>, payload: Provisioning.Payload, now: Time)

  function DirStep(d: Dir, op: DirOp): Dir {
    match op
    case Administer(admin) => AdminStep(d, admin)
    case CreateUnit(actor, buildingId, unitLabel, ids) => Units.CreateUnit(d, actor, buildingId, unitLabel, ids).0
    case UpdateUnit(actor, buildingId, unitId, update) => Units.UpdateUnit(d, actor, buildingId, unitId, update).0
    case CreateAssignment(actor, buildingId, userId, kind) =>
      Occupancy.CreateAssignment(d, actor, buildingId, userId, kind).0
    case CreateOccupancy(actor, buildingId, unitId, residentUserId) =>
      Occupancy.CreateOccupancy(d, actor, buildingId, unitId, residentUserId).0
    case Onboard(actor, buildingId, dto) => Occupancy.Onboard(d, actor, buildingId, dto).0
    case Provision(actor, effective, payload, now) => Provisioning.Provision(d, actor, effective, payload, now).0
  }

  lemma DirStepKeeps(d: Dir, op: DirOp)
    requires Valid(d)
    ensures Valid(DirStep(d, op)) && Evolves(d, DirStep(d, op))
  {
    match op
    case Administer(admin) => AdminStepKeeps(d, admin);
    case CreateUnit(actor, buildingId, unitLabel, ids) => Units.CreateUnitKeeps(d, actor, buildingId, unitLabel, ids);
    case UpdateUnit(actor, buildingId, unitId, update) => Units.UpdateUnitKeeps(d, actor, buildingId, unitId, update);
    case CreateAssignment(actor, buildingId, userId, kind) =>
      Occupancy.CreateAssignmentKeeps(d, actor, buildingId, userId, kind);
    case CreateOccupancy(actor, buildingId, unitId, residentUserId) =>
      Occupancy.CreateOccupancyKeeps(d, actor, buildingId, unitId, residentUserId);
    case Onboard(actor, buildingId, dto) => Occupancy.OnboardKeeps(d, actor, buildingId, dto);
    case Provision(actor, effective, payload, now) =>
      Provisioning.ProvisionKeepsIntegrity(d, actor, effective, payload, now);
  }

  // ----- the whole state

  /** `delivered` holds the positions of the emitted events whose handler has finished. */
  datatype State = State(dir: Dir, desk: Requests.Desk, inbox: Inbox.State, delivered: set<nat>)

  datatype Op =
    | OnDirectory(dirOp: DirOp)
    | OnDesk(deskOp: Requests.Op)
    | OnInbox(inboxOp: Inbox.Op)
    | Deliver(event: nat, userIds: seq<Id>, stamps: seq<Inbox.Stamp>)

  /** The handler of an emitted event runs once, some time later, in whatever order. */
  ghost predicate CanDeliver(s: State, event: nat, userIds: seq<Id>, stamps: seq<Inbox.Stamp>) {
    && event < |s.desk.events| && event !in s.delivered
    && Recipients.Enumerates(userIds, Recipients.RecipientsOf(s.dir, s.desk.events[event]))
    && |userIds| <= |stamps| && Inbox.Fresh(s.inbox.rows, stamps, |userIds|)
  }

  ghost function DeliveryOf(s: State, event: nat, userIds: seq<Id>, stamps: seq<Inbox.Stamp>): Inbox.Op
    requires event < |s.desk.events|
  {
    Inbox.OpCreate(Recipients.MessageFor(s.desk.events[event]), userIds, stamps)
  }

  /** Notifications come into being by delivery only; users read and dismiss them. */
  ghost function Step(s: State, op: Op): State {
    match op
    case OnDirectory(dirOp) => s.(dir := DirStep(s.dir, dirOp))
    case OnDesk(deskOp) => s.(desk := Requests.Call(s.dir, s.desk, deskOp).0)
    case OnInbox(inboxOp) => if inboxOp.OpCreate? then s else s.(inbox := Inbox.Step(s.inbox, inboxOp))
    case Deliver(event, userIds, stamps) =>
      if CanDeliver(s, event, userIds, stamps)
      then s.(inbox := Inbox.Step(s.inbox, DeliveryOf(s, event, userIds, stamps)), delivered := s.delivered + {event})
      else s
  }

  ghost function Run(s: State, ops: seq<Op>): State {
    if |ops| == 0 then s else Step(Run(s, ops[..|ops| - 1]), ops[|ops| - 1])
  }

  function Empty(roles: map<string, Id>): State {
    State(Dir([], [], [], roles, {}, {}, [], [], {}), Requests.Desk([], [], [], []), Inbox.State([], []), {})
  }

  // ----- the invariant of every run

  /** A notification is about a stored request of its organisation, and goes to someone of that organisation or to the
    * person who acted.
    */
  ghost predicate RowTenancy(d: Dir, k: Requests.Desk, n: Notifications.Notification) {
    && n.requestId < |k.requests| && n.orgId == k.requests[n.requestId].orgId
    && (n.recipientUserId == n.actorUserId || InOrg(d, n.recipientUserId, n.orgId))
  }

  ghost predicate InOrg(d: Dir, userId: Id, orgId: Id) {
    userId < |d.users| && d.users[userId].orgId == Some(orgId)
  }

  ghost predicate RowsTenancy(d: Dir, k: Requests.Desk, rows: Notifications.Rows) {
    forall i :: 0 <= i < |rows| ==> RowTenancy(d, k, rows[i])
  }

  ghost predicate Inv(s: State) {
    && Valid(s.dir)
    && Requests.DeskValid(s.dir, s.desk)
    && Requests.AssigneeIffAnnounced(s.desk)
    && RequestOutcomes.CommentsOfEvents(s.desk)
    && Paging.Table(s.inbox.rows)
    && RowsTenancy(s.dir, s.desk, s.inbox.rows)
    && (forall i :: i in s.delivered ==> i < |s.desk.events|)
  }

  /** What may become of a state. */
  ghost predicate MovesOn(s: State, t: State) {
    && Evolves(s.dir, t.dir)
    && Requests.DeskLater(s.desk, t.desk)
    && Inbox.RowsEvolve(s.inbox.rows, t.inbox.rows)
    && s.inbox.log <= t.inbox.log
    && s.delivered <= t.delivered
  }

  lemma EmptyIsValid(roles: map<string, Id>)
    ensures Inv(Empty(roles))
  {
  }

  lemma TenancyFollows(d: Dir, e: Dir, k: Requests.Desk, l: Requests.Desk, rows: Notifications.Rows,
                       later: Notifications.Rows)
    requires Evolves(d, e) && Requests.DeskLater(k, l) && RowsTenancy(d, k, rows)
    requires |later| == |rows| && Inbox.RowsEvolve(rows, later)
    ensures RowsTenancy(e, l, later)
  {
    forall i | 0 <= i < |later| ensures RowTenancy(e, l, later[i]) {
      assert RowTenancy(d, k, rows[i]) && Inbox.RowEvolves(rows[i], later[i]);
      var n := rows[i];
      assert Requests.Later(k.requests[n.requestId], l.requests[n.requestId]);
      assert InOrg(d, n.recipientUserId, n.orgId) ==> UserEvolves(d.users[n.recipientUserId], e.users[n.recipientUserId]);
    }
  }

  lemma EvolvesRefl(d: Dir)
    ensures Evolves(d, d)
  {
  }

  lemma DirectoryKeeps(s: State, op: DirOp)
    requires Inv(s)
    ensures var t := s.(dir := DirStep(s.dir, op)); Inv(t) && MovesOn(s, t)
  {
    var e := DirStep(s.dir, op);
    DirStepKeeps(s.dir, op);
    Requests.DirectoryEvolves(s.dir, e, s.desk);
    TenancyFollows(s.dir, e, s.desk, s.desk, s.inbox.rows, s.inbox.rows);
  }

  lemma DeskKeeps(s: State, op: Requests.Op)
    requires Inv(s)
    ensures var t := s.(desk := Requests.Call(s.dir, s.desk, op).0); Inv(t) && MovesOn(s, t)
  {
    var l := Requests.Call(s.dir, s.desk, op).0;
    Requests.CallKeeps(s.dir, s.desk, op);
    Requests.CallMovesOn(s.dir, s.desk, op);
    Requests.CallKeepsAnnouncements(s.dir, s.desk, op);
    RequestOutcomes.CallKeepsComments(s.dir, s.desk, op, l);
    EvolvesRefl(s.dir);
    TenancyFollows(s.dir, s.dir, s.desk, l, s.inbox.rows, s.inbox.rows);
  }

  lemma SameLength(s: Inbox.State, op: Inbox.Op)
    requires !op.OpCreate?
    ensures |Inbox.Step(s, op).rows| == |s.rows|
  {
  }

  /** A changed inbox, and a further event delivered. */
  lemma NewInboxKeeps(s: State, inbox: Inbox.State, delivered: set<nat>)
    requires Inv(s)
    requires Paging.Table(inbox.rows) && Inbox.RowsEvolve(s.inbox.rows, inbox.rows) && s.inbox.log <= inbox.log
    requires RowsTenancy(s.dir, s.desk, inbox.rows)
    requires s.delivered <= delivered && forall i :: i in delivered ==> i < |s.desk.events|
    ensures var t := s.(inbox := inbox, delivered := delivered); Inv(t) && MovesOn(s, t)
  {
    EvolvesRefl(s.dir);
  }

  lemma InboxKeeps(s: State, op: Inbox.Op)
    requires Inv(s) && !op.OpCreate?
    ensures var t := s.(inbox := Inbox.Step(s.inbox, op)); Inv(t) && MovesOn(s, t)
  {
    Inbox.StepKeeps(s.inbox, op);
    SameLength(s.inbox, op);
    EvolvesRefl(s.dir);
    TenancyFollows(s.dir, s.dir, s.desk, s.desk, s.inbox.rows, Inbox.Step(s.inbox, op).rows);
    NewInboxKeeps(s, Inbox.Step(s.inbox, op), s.delivered);
  }

  /** The rows a delivery adds. */
  lemma DeliveryAdds(s: State, event: nat, userIds: seq<Id>, stamps: seq<Inbox.Stamp>)
    requires CanDeliver(s, event, userIds, stamps)
    ensures |userIds| == |Recipients.RecipientsOf(s.dir, s.desk.events[event])|
    ensures Inbox.Step(s.inbox, DeliveryOf(s, event, userIds, stamps)).rows
         == s.inbox.rows + Inbox.NewRows(Recipients.MessageFor(s.desk.events[event]), userIds, stamps)
  {
    Recipients.FirstOccurrencesOfUnique(userIds);
    ElementsSize(userIds);
  }

  lemma NewRowsTenancy(d: Dir, k: Requests.Desk, ev: Requests.Event, userIds: seq<Id>, stamps: seq<Inbox.Stamp>)
    requires Requests.DeskValid(d, k) && Requests.EventTenancy(d, k, ev) && |userIds| <= |stamps|
    requires Elements(userIds) == Recipients.RecipientsOf(d, ev)
    ensures RowsTenancy(d, k, Inbox.NewRows(Recipients.MessageFor(ev), userIds, stamps))
  {
    var added := Inbox.NewRows(Recipients.MessageFor(ev), userIds, stamps);
    forall i | 0 <= i < |added| ensures RowTenancy(d, k, added[i]) {
      var u := userIds[i];
      assert u in Elements(userIds);
      if u != ev.actorUserId {
        Recipients.RecipientsStayInOrg(d, k, ev, u);
      }
    }
  }

  lemma AppendTenancy(d: Dir, k: Requests.Desk, rows: Notifications.Rows, added: Notifications.Rows)
    requires RowsTenancy(d, k, rows) && RowsTenancy(d, k, added)
    ensures RowsTenancy(d, k, rows + added)
  {
  }

  lemma DeliverKeeps(s: State, event: nat, userIds: seq<Id>, stamps: seq<Inbox.Stamp>)
    requires Inv(s) && CanDeliver(s, event, userIds, stamps)
    ensures var t := s.(inbox := Inbox.Step(s.inbox, DeliveryOf(s, event, userIds, stamps)),
                        delivered := s.delivered + {event});
      Inv(t) && MovesOn(s, t)
  {
    var ev := s.desk.events[event];
    Inbox.StepKeeps(s.inbox, DeliveryOf(s, event, userIds, stamps));
    DeliveryAdds(s, event, userIds, stamps);
    NewRowsTenancy(s.dir, s.desk, ev, userIds, stamps);
    AppendTenancy(s.dir, s.desk, s.inbox.rows, Inbox.NewRows(Recipients.MessageFor(ev), userIds, stamps));
    NewInboxKeeps(s, Inbox.Step(s.inbox, DeliveryOf(s, event, userIds, stamps)), s.delivered + {event});
  }

  lemma StepKeeps(s: State, op: Op)
    requires Inv(s)
    ensures Inv(Step(s, op)) && MovesOn(s, Step(s, op))
  {
    match op
    case OnDirectory(dirOp) => DirectoryKeeps(s, dirOp);
    case OnDesk(deskOp) => DeskKeeps(s, deskOp);
    case OnInbox(inboxOp) => if !inboxOp.OpCreate? { InboxKeeps(s, inboxOp); }
    case Deliver(event, userIds, stamps) =>
      if CanDeliver(s, event, userIds, stamps) { DeliverKeeps(s, event, userIds, stamps); }
  }

  lemma MovesOnTransitive(s: State, t: State, u: State)
    requires MovesOn(s, t) && MovesOn(t, u)
    ensures MovesOn(s, u)
  {
    EvolvesTransitive(s.dir, t.dir, u.dir);
    Requests.DeskLaterTransitive(s.desk, t.desk, u.desk);
    Inbox.RowsEvolveTransitive(s.inbox.rows, t.inbox.rows, u.inbox.rows);
  }

  /** The invariant holds after every run, and rows only move on: a user's organisation goes from none to one, an
    * occupancy from ACTIVE to ENDED, a request up the status machine; nothing is deleted.
    */
  lemma {:induction false} RunKeeps(s: State, ops: seq<Op>)
    requires Inv(s)
    ensures Inv(Run(s, ops)) && MovesOn(s, Run(s, ops))
  {
    if |ops| > 0 {
      var before := Run(s, ops[..|ops| - 1]);
      RunKeeps(s, ops[..|ops| - 1]);
      StepKeeps(before, ops[|ops| - 1]);
      MovesOnTransitive(s, before, Run(s, ops));
    }
  }

  lemma {:induction false} RunSplit(s: State, a: seq<Op>, b: seq<Op>)
    ensures Run(s, a + b) == Run(Run(s, a), b)
  {
    if |b| == 0 {
      assert a + b == a;
    } else {
      assert (a + b)[..|a + b| - 1] == a + b[..|b| - 1];
      RunSplit(s, a, b[..|b| - 1]);
    }
  }

  // ----- consequences

  /** In every reachable state and for every building, vacant units plus ACTIVE occupancies are all its units. */
  lemma {:induction false} BalanceInEveryState(roles: map<string, Id>, ops: seq<Op>, buildingId: Id)
    ensures var d := Run(Empty(roles), ops).dir;
      Occupancy.CountVacant(d.units, d.occupancies, buildingId, |d.units|) + Occupancy.CountActive(d.occupancies, buildingId)
        == Occupancy.CountUnits(d.units, buildingId, |d.units|)
  {
    EmptyIsValid(roles);
    RunKeeps(Empty(roles), ops);
    Occupancy.VacantPlusActiveIsTotal(Run(Empty(roles), ops).dir, buildingId);
  }

  /** What a later state still has of an earlier one: a closed request as it was, an occupancy that ended with its end,
    * a user's organisation, the time a notification was read.
    */
  ghost predicate KeepsPast(s: State, t: State) {
    && (forall i: Id | i < |s.desk.requests| && Requests.Closed(s.desk.requests[i].status) ::
          i < |t.desk.requests| && t.desk.requests[i] == s.desk.requests[i])
    && (forall i: Id | i < |s.dir.occupancies| && s.dir.occupancies[i].status == ENDED ::
          i < |t.dir.occupancies| && t.dir.occupancies[i] == s.dir.occupancies[i])
    && (forall i: Id | i < |s.dir.users| && s.dir.users[i].orgId.Some? ::
          i < |t.dir.users| && t.dir.users[i].orgId == s.dir.users[i].orgId)
    && (forall i: Id | i < |s.inbox.rows| && s.inbox.rows[i].readAt.Some? ::
          i < |t.inbox.rows| && t.inbox.rows[i].readAt == s.inbox.rows[i].readAt)
  }

  lemma MovingOnKeepsPast(s: State, t: State)
    requires MovesOn(s, t)
    ensures KeepsPast(s, t)
  {
    assert forall i: Id | i < |s.desk.requests| :: Requests.Later(s.desk.requests[i], t.desk.requests[i]);
    assert forall i: Id | i < |s.dir.occupancies| :: OccupancyEvolves(s.dir.occupancies[i], t.dir.occupancies[i]);
    assert forall i: Id | i < |s.dir.users| :: UserEvolves(s.dir.users[i], t.dir.users[i]);
    assert forall i: Id | i < |s.inbox.rows| :: Inbox.RowEvolves(s.inbox.rows[i], t.inbox.rows[i]);
  }

  /** Between any two states of a run of the service the past is kept. */
  lemma PastIsKept(roles: map<string, Id>, a: seq<Op>, b: seq<Op>)
    ensures MovesOn(Run(Empty(roles), a), Run(Empty(roles), a + b))
    ensures KeepsPast(Run(Empty(roles), a), Run(Empty(roles), a + b))
  {
    var s := Run(Empty(roles), a);
    EmptyIsValid(roles);
    RunKeeps(Empty(roles), a);
    RunSplit(Empty(roles), a, b);
    RunKeeps(s, b);
    MovingOnKeepsPast(s, Run(s, b));
  }

  // ----- at most three status changes

  ghost function RankAt(s: State, id: Id): nat {
    if id < |s.desk.requests| then Requests.Rank(s.desk.requests[id].status) else 0
  }

  ghost predicate ChangesStatus(s: State, t: State, id: Id) {
    id < |s.desk.requests| && id < |t.desk.requests| && s.desk.requests[id].status != t.desk.requests[id].status
  }

  ghost function StatusChanges(s: State, ops: seq<Op>, id: Id): nat {
    if |ops| == 0 then 0
    else
      StatusChanges(s, ops[..|ops| - 1], id)
      + if ChangesStatus(Run(s, ops[..|ops| - 1]), Run(s, ops), id) then 1 else 0
  }

  /** Every change of status raises the rank, and no step lowers it. */
  lemma {:induction false} ChangesRaiseRank(s: State, ops: seq<Op>, id: Id)
    requires Inv(s)
    ensures RankAt(s, id) + StatusChanges(s, ops, id) <= RankAt(Run(s, ops), id)
  {
    if |ops| > 0 {
      var before, after := Run(s, ops[..|ops| - 1]), Run(s, ops);
      ChangesRaiseRank(s, ops[..|ops| - 1], id);
      RunKeeps(s, ops[..|ops| - 1]);
      StepKeeps(before, ops[|ops| - 1]);
      assert id < |before.desk.requests| ==> Requests.Later(before.desk.requests[id], after.desk.requests[id]);
    }
  }

  /** No run changes the status of a request more than three times. */
  lemma {:induction false} AtMostThreeStatusChanges(s: State, ops: seq<Op>, id: Id)
    requires Inv(s)
    ensures StatusChanges(s, ops, id) <= 3
  {
    ChangesRaiseRank(s, ops, id);
  }

  // ----- conservation of events and notifications

  /** One for every successful call that announces something. */
  ghost function Emits(s: State, op: Op): nat {
    if op.OnDesk? && Requests.Call(s.dir, s.desk, op.deskOp).1.Ok? && Requests.Announces(op.deskOp).Some? then 1 else 0
  }

  /** The size of the recipient set of a delivered event. */
  ghost function FansOut(s: State, op: Op): nat {
    if op.Deliver? && CanDeliver(s, op.event, op.userIds, op.stamps)
    then |Recipients.RecipientsOf(s.dir, s.desk.events[op.event])|
    else 0
  }

  ghost function Emitted(s: State, ops: seq<Op>): nat {
    if |ops| == 0 then 0
    else Emitted(s, ops[..|ops| - 1]) + Emits(Run(s, ops[..|ops| - 1]), ops[|ops| - 1])
  }

  ghost function FannedOut(s: State, ops: seq<Op>): nat {
    if |ops| == 0 then 0
    else FannedOut(s, ops[..|ops| - 1]) + FansOut(Run(s, ops[..|ops| - 1]), ops[|ops| - 1])
  }

  lemma StepConserves(s: State, op: Op)
    ensures |Step(s, op).desk.events| == |s.desk.events| + Emits(s, op)
    ensures |Step(s, op).inbox.rows| == |s.inbox.rows| + FansOut(s, op)
  {
    match op
    case OnDirectory(_) =>
    case OnDesk(deskOp) => Requests.OneEventPerCall(s.dir, s.desk, deskOp);
    case OnInbox(inboxOp) => if !inboxOp.OpCreate? { SameLength(s.inbox, inboxOp); }
    case Deliver(event, userIds, stamps) =>
      if CanDeliver(s, event, userIds, stamps) { DeliveryAdds(s, event, userIds, stamps); }
  }

  /** Over every run the events emitted are the successful announcing calls, and the notifications created are the sum
    * of the sizes of the recipient sets.
    */
  lemma {:induction false} RunConserves(s: State, ops: seq<Op>)
    ensures |Run(s, ops).desk.events| == |s.desk.events| + Emitted(s, ops)
    ensures |Run(s, ops).inbox.rows| == |s.inbox.rows| + FannedOut(s, ops)
  {
    if |ops| > 0 {
      RunConserves(s, ops[..|ops| - 1]);
      StepConserves(Run(s, ops[..|ops| - 1]), ops[|ops| - 1]);
    }
  }

  // ----- the inbox of a run is a run of the inbox

  ghost function InboxOps(s: State, ops: seq<Op>): seq<Inbox.Op> {
    if |ops| == 0 then []
    else
      var before := Run(s, ops[..|ops| - 1]);
      var op := ops[|ops| - 1];
      InboxOps(s, ops[..|ops| - 1])
      + if op.OnInbox? && !op.inboxOp.OpCreate? then [op.inboxOp]
        else if op.Deliver? && CanDeliver(before, op.event, op.userIds, op.stamps)
        then [DeliveryOf(before, op.event, op.userIds, op.stamps)]
        else []
  }

  lemma {:induction false} InboxRuns(s: State, ops: seq<Op>)
    ensures Run(s, ops).inbox == Inbox.Run(s.inbox, InboxOps(s, ops))
  {
    if |ops| > 0 {
      var init := InboxOps(s, ops[..|ops| - 1]);
      InboxRuns(s, ops[..|ops| - 1]);
      var all := InboxOps(s, ops);
      assert all == init || (|all| == |init| + 1 && all[..|all| - 1] == init);
    }
  }

  /** A client that starts from a full snapshot in any state of the service and replays what is published to its room
    * holds exactly its rows of the table, and shows the server's unread count, whatever anyone does.
    */
  lemma {:induction false} ClientFollowsService(s: State, ops: seq<Op>, userId: Id, orgId: Id)
    requires Inv(s)
    ensures s.inbox.log <= Run(s, ops).inbox.log
    ensures var replica := Inbox.Replay(Inbox.Mine(s.inbox.rows, userId, orgId),
                                        Run(s, ops).inbox.log[|s.inbox.log|..], userId, orgId);
      && replica == Inbox.Mine(Run(s, ops).inbox.rows, userId, orgId)
      && Inbox.Badge(replica) == Inbox.CountUnread(Run(s, ops).inbox.rows, userId, orgId)
  {
    InboxRuns(s, ops);
    Inbox.ClientReplicates(s.inbox, InboxOps(s, ops), userId, orgId);
    Inbox.ClientCounts(s.inbox, InboxOps(s, ops), userId, orgId);
  }

  lemma {:induction false} InboxOpsGrow(s: State, a: seq<Op>, b: seq<Op>)
    ensures InboxOps(s, a) <= InboxOps(s, a + b)
  {
    if |b| == 0 {
      assert a + b == a;
    } else {
      assert (a + b)[..|a + b| - 1] == a + b[..|b| - 1];
      InboxOpsGrow(s, a, b[..|b| - 1]);
    }
  }

  /** The notification table at increasing points of one run of the service. */
  ghost predicate Moments(s: State, runs: seq<seq<Op>>, tables: seq<Notifications.Rows>) {
    && |runs| == |tables|
    && (forall i :: 0 <= i < |runs| ==> tables[i] == Run(s, runs[i]).inbox.rows)
    && (forall i, j :: 0 <= i <= j < |runs| ==> runs[i] <= runs[j])
  }

  ghost function InboxRunsOf(s: State, runs: seq<seq<Op>>): seq<seq<Inbox.Op>> {
    seq(|runs|, i requires 0 <= i < |runs| => InboxOps(s, runs[i]))
  }

  lemma MomentsAreSnapshots(s: State, runs: seq<seq<Op>>, tables: seq<Notifications.Rows>)
    requires Moments(s, runs, tables)
    ensures Inbox.Snapshots(s.inbox, InboxRunsOf(s, runs), tables)
  {
    forall i | 0 <= i < |runs| ensures tables[i] == Inbox.Run(s.inbox, InboxOps(s, runs[i])).rows {
      InboxRuns(s, runs[i]);
    }
    forall i, j | 0 <= i <= j < |runs| ensures InboxOps(s, runs[i]) <= InboxOps(s, runs[j]) {
      InboxOpsGrow(s, runs[i], runs[j][|runs[i]|..]);
      assert runs[i] + runs[j][|runs[i]|..] == runs[j];
    }
  }

  /** A client pages through its notifications while the whole service works on: a row that is there and passes the
    * filter at every fetch of the completed walk is returned exactly once.
    */
  lemma PagingThroughTraffic(
    s: State, runs: seq<seq<Op>>, tables: seq<Notifications.Rows>, pages: seq<Notifications.Page>,
    userId: Id, orgId: Id, o: Notifications.Options, id: string) returns (j: nat, a: nat)
    requires Inv(s) && Moments(s, runs, tables)
    requires Paging.Client(tables, pages, userId, orgId, o) && Paging.Completed(pages)
    requires forall t :: 0 <= t < |tables| ==>
      Paging.Present(tables[t], Notifications.WhereOf(userId, orgId, o, None), id)
    ensures j < |pages| && a < |pages[j].items| && pages[j].items[a].id == id
    ensures forall i, b :: 0 <= i < |pages| && 0 <= b < |pages[i].items| && pages[i].items[b].id == id ==> (i, b) == (j, a)
  {
    MomentsAreSnapshots(s, runs, tables);
    j, a := Inbox.StableRowExactlyOnce(s.inbox, InboxRunsOf(s, runs), tables, pages, userId, orgId, o, id);
  }
}
