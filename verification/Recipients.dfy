/** Who is notified about an event. */
module Recipients {
  import opened Prelude
  import opened Tables
  import opened Requests
  import Notifications
  import Inbox

  // ----- the recipient sets

  predicate RunsBuilding(d: Dir, orgId: Id, a: Assignment, buildingId: Id) {
    a.buildingId == buildingId && a.kind in {MANAGER, BUILDING_ADMIN} && ActiveUserInOrg(d, a.userId, orgId)
  }

  function BuildingManagersAndAdmins(d: Dir, orgId: Id, buildingId: Id): set<Id> {
    set a | a in d.assignments && RunsBuilding(d, orgId, a, buildingId) :: a.userId
  }

  predicate HoldsRole(d: Dir, userId: Id, key: string) {
    key in d.roles && UserRole(userId, d.roles[key]) in d.userRoles
  }

  predicate IsOrgAdmin(d: Dir, orgId: Id, userId: Id) {
    ActiveUserInOrg(d, userId, orgId) && (HoldsRole(d, userId, "org_admin") || HoldsRole(d, userId, "admin"))
  }

  function OrgAdmins(d: Dir, orgId: Id): set<Id> {
    set u: Id | u < |d.users| && IsOrgAdmin(d, orgId, u)
  }

  /** Whoever runs the building; the administrators of the organisation only if nobody does. */
  function OpsRecipients(d: Dir, orgId: Id, buildingId: Id): set<Id> {
    var recipients := BuildingManagersAndAdmins(d, orgId, buildingId);
    if recipients == {} then OrgAdmins(d, orgId) else recipients
  }

  function AssigneeOf(s: Snapshot): set<Id> {
    if s.assignedToUserId.Some? then {s.assignedToUserId.value} else {}
  }

  /** The people an event concerns, before the actor is taken out. */
  function Concerned(d: Dir, kind: EventKind, request: Snapshot): set<Id> {
    var ops := OpsRecipients(d, request.orgId, request.buildingId);
    match kind
    case Created => ops
    case Assigned => AssigneeOf(request) + {request.createdByUserId} + ops
    case StatusChanged => {request.createdByUserId} + AssigneeOf(request) + ops
    case Commented => {request.createdByUserId} + AssigneeOf(request) + ops
    case Canceled => ops + AssigneeOf(request)
  }

  function Finalize(recipients: set<Id>, actorUserId: Id): set<Id> {
    if recipients - {actorUserId} == {} then {actorUserId} else recipients - {actorUserId}
  }

  function RecipientsOf(d: Dir, ev: Event): set<Id> {
    Finalize(Concerned(d, ev.kind, ev.request), ev.actorUserId)
  }

  // ----- what follows

  /** Somebody is always notified, and the actor only when nobody else is concerned. */
  lemma SomeoneIsNotified(d: Dir, ev: Event)
    ensures RecipientsOf(d, ev) != {}
    ensures ev.actorUserId in RecipientsOf(d, ev) <==> Concerned(d, ev.kind, ev.request) <= {ev.actorUserId}
    ensures ev.actorUserId in RecipientsOf(d, ev) <==> RecipientsOf(d, ev) == {ev.actorUserId}
    ensures forall u :: u != ev.actorUserId ==> (u in RecipientsOf(d, ev) <==> u in Concerned(d, ev.kind, ev.request))
  {
    var rest := Concerned(d, ev.kind, ev.request) - {ev.actorUserId};
    if rest != {} {
      var u :| u in rest;
      assert u in Concerned(d, ev.kind, ev.request) && u != ev.actorUserId;
    }
  }

  /** Except for the actor, every recipient belongs to the organisation of the request. */
  lemma RecipientsStayInOrg(d: Dir, k: Desk, ev: Event, u: Id)
    requires DeskValid(d, k) && EventTenancy(d, k, ev)
    requires u in RecipientsOf(d, ev) && u != ev.actorUserId
    ensures u < |d.users| && d.users[u].orgId == Some(k.requests[ev.request.id].orgId)
  {
    assert RequestTenancy(d, k.requests[ev.request.id]);
    SomeoneIsNotified(d, ev);
  }

  /** Somebody active in the organisation runs the building, or nobody does and the person administers the organisation. */
  ghost predicate InCharge(d: Dir, orgId: Id, buildingId: Id, u: Id) {
    && u < |d.users| && d.users[u].isActive && d.users[u].orgId == Some(orgId)
    && (|| ManagesHere(d, buildingId, u)
        || (&& (exists key :: key in {"org_admin", "admin"} && key in d.roles && UserRole(u, d.roles[key]) in d.userRoles)
            && forall v: Id | v < |d.users| && d.users[v].isActive && d.users[v].orgId == Some(orgId) ::
                 !ManagesHere(d, buildingId, v)))
  }

  ghost predicate ManagesHere(d: Dir, buildingId: Id, u: Id) {
    Assignment(buildingId, u, MANAGER) in d.assignments || Assignment(buildingId, u, BUILDING_ADMIN) in d.assignments
  }

  lemma LocalIff(d: Dir, orgId: Id, buildingId: Id, u: Id)
    ensures u in BuildingManagersAndAdmins(d, orgId, buildingId) <==>
      u < |d.users| && d.users[u].isActive && d.users[u].orgId == Some(orgId) && ManagesHere(d, buildingId, u)
  {
    var manager, admin := Assignment(buildingId, u, MANAGER), Assignment(buildingId, u, BUILDING_ADMIN);
    assert RunsBuilding(d, orgId, manager, buildingId) <==> ActiveUserInOrg(d, u, orgId);
    assert RunsBuilding(d, orgId, admin, buildingId) <==> ActiveUserInOrg(d, u, orgId);
    if a :| a in d.assignments && RunsBuilding(d, orgId, a, buildingId) && a.userId == u {
      assert a == manager || a == admin;
    }
  }

  lemma OpsAreInCharge(d: Dir, orgId: Id, buildingId: Id, u: Id)
    ensures u in OpsRecipients(d, orgId, buildingId) <==> InCharge(d, orgId, buildingId, u)
  {
    var local := BuildingManagersAndAdmins(d, orgId, buildingId);
    forall v: Id ensures v in local <==>
      v < |d.users| && d.users[v].isActive && d.users[v].orgId == Some(orgId) && ManagesHere(d, buildingId, v)
    {
      LocalIff(d, orgId, buildingId, v);
    }
    assert HoldsRole(d, u, "org_admin") || HoldsRole(d, u, "admin") <==>
      exists key :: key in {"org_admin", "admin"} && key in d.roles && UserRole(u, d.roles[key]) in d.userRoles by {
      assert "org_admin" in {"org_admin", "admin"} && "admin" in {"org_admin", "admin"};
    }
    if local != {} {
      var v :| v in local;
    }
  }

  /** For every kind of event, exactly who is notified besides the actor: those in charge always; the creator unless the
    * request is new or canceled; the assignee unless it is new.
    */
  lemma NotifiedIff(d: Dir, ev: Event, u: Id)
    requires u != ev.actorUserId
    ensures u in RecipientsOf(d, ev) <==>
      || InCharge(d, ev.request.orgId, ev.request.buildingId, u)
      || (ev.kind in {Assigned, StatusChanged, Commented} && u == ev.request.createdByUserId)
      || (ev.kind in {Assigned, StatusChanged, Commented, Canceled} && ev.request.assignedToUserId == Some(u))
  {
    OpsAreInCharge(d, ev.request.orgId, ev.request.buildingId, u);
  }

  /** The operations team hears of every event; when it consists of the building's own people, the administrators of
    * the organisation hear of it only if they are concerned otherwise.
    */
  lemma OpsHearOfEverything(d: Dir, ev: Event, u: Id)
    requires u != ev.actorUserId
    ensures u in OpsRecipients(d, ev.request.orgId, ev.request.buildingId) ==> u in RecipientsOf(d, ev)
    ensures u in RecipientsOf(d, ev) ==>
      || u == ev.request.createdByUserId
      || Some(u) == ev.request.assignedToUserId
      || u in OpsRecipients(d, ev.request.orgId, ev.request.buildingId)
    ensures u in OpsRecipients(d, ev.request.orgId, ev.request.buildingId) <==>
      || (exists a :: a in d.assignments && RunsBuilding(d, ev.request.orgId, a, ev.request.buildingId) && a.userId == u)
      || (IsOrgAdmin(d, ev.request.orgId, u)
          && forall a :: a in d.assignments ==> !RunsBuilding(d, ev.request.orgId, a, ev.request.buildingId))
  {
    var orgId, buildingId := ev.request.orgId, ev.request.buildingId;
    SomeoneIsNotified(d, ev);
    var local := BuildingManagersAndAdmins(d, orgId, buildingId);
    if local == {} {
      forall a | a in d.assignments ensures !RunsBuilding(d, orgId, a, buildingId) {
        assert RunsBuilding(d, orgId, a, buildingId) ==> a.userId in local;
      }
    } else {
      var v :| v in local;
      assert exists a :: a in d.assignments && RunsBuilding(d, orgId, a, buildingId);
    }
  }

  /** The creator hears when someone else assigns, moves or discusses the request, but not when it is canceled, unless
    * they run the building, administer the organisation or are the assignee.
    */
  lemma CreatorHears(d: Dir, ev: Event)
    requires ev.request.createdByUserId != ev.actorUserId
    ensures ev.kind == Assigned || ev.kind == StatusChanged || ev.kind == Commented ==>
      ev.request.createdByUserId in RecipientsOf(d, ev)
    ensures ev.kind == Canceled ==>
      (ev.request.createdByUserId in RecipientsOf(d, ev) <==>
        || ev.request.assignedToUserId == Some(ev.request.createdByUserId)
        || ev.request.createdByUserId in OpsRecipients(d, ev.request.orgId, ev.request.buildingId))
  {
    SomeoneIsNotified(d, ev);
  }

  // ----- the notification of an event

  function KindOf(kind: EventKind): Notifications.Kind {
    match kind
    case Created => Notifications.REQUEST_CREATED
    case Assigned => Notifications.REQUEST_ASSIGNED
    case StatusChanged => Notifications.REQUEST_STATUS_CHANGED
    case Commented => Notifications.REQUEST_COMMENTED
    case Canceled => Notifications.REQUEST_CANCELED
  }

  function MessageFor(ev: Event): Inbox.Message {
    Inbox.Message(ev.request.orgId, KindOf(ev.kind), ev.request.id, ev.actorUserId)
  }

  /** An enumeration of a set, as `Array.from` gives it. */
  ghost predicate Enumerates(userIds: seq<Id>, recipients: set<Id>) {
    Elements(userIds) == recipients && NoDuplicates(userIds)
  }

  lemma {:induction false} FirstOccurrencesOfUnique(xs: seq<Id>)
    requires NoDuplicates(xs)
    ensures FirstOccurrences(xs) == xs
  {
    if |xs| > 0 {
      var init := xs[..|xs| - 1];
      FirstOccurrencesOfUnique(init);
      assert xs == init + [xs[|xs| - 1]];
      assert forall i :: 0 <= i < |init| ==> init[i] == xs[i];
    }
  }

  /** The new rows go to exactly the listed users. */
  lemma NewRowsReach(m: Inbox.Message, userIds: seq<Id>, stamps: seq<Inbox.Stamp>, u: Id)
    requires |userIds| <= |stamps|
    ensures u in Elements(userIds) <==>
      exists n :: n in Inbox.NewRows(m, userIds, stamps) && Inbox.IsMine(n, u, m.orgId)
  {
    var rows := Inbox.NewRows(m, userIds, stamps);
    if u in userIds {
      var i :| 0 <= i < |userIds| && userIds[i] == u;
      assert rows[i] in rows && Inbox.IsMine(rows[i], u, m.orgId);
    }
    if n :| n in rows && Inbox.IsMine(n, u, m.orgId) {
      var i :| 0 <= i < |rows| && rows[i] == n;
      assert userIds[i] == u;
    }
  }

  /** The notification names the event's organisation, request and actor, its kind matches, and it is unread. */
  lemma NotificationIs(ev: Event, userIds: seq<Id>, stamps: seq<Inbox.Stamp>, i: nat)
    requires i < |userIds| <= |stamps|
    ensures var n := Inbox.NewRows(MessageFor(ev), userIds, stamps)[i];
      && n.id == stamps[i].id && n.createdAt == stamps[i].createdAt
      && n.orgId == ev.request.orgId && n.recipientUserId == userIds[i]
      && n.requestId == ev.request.id && n.actorUserId == ev.actorUserId
      && n.readAt.None? && n.dismissedAt.None?
      && (n.kind == Notifications.REQUEST_CREATED <==> ev.kind == Created)
      && (n.kind == Notifications.REQUEST_ASSIGNED <==> ev.kind == Assigned)
      && (n.kind == Notifications.REQUEST_STATUS_CHANGED <==> ev.kind == StatusChanged)
      && (n.kind == Notifications.REQUEST_COMMENTED <==> ev.kind == Commented)
      && (n.kind == Notifications.REQUEST_CANCELED <==> ev.kind == Canceled)
  {
  }

  /** One delivery creates and publishes one row for every recipient and nothing else. */
  lemma {:induction false} DeliveryFansOut(d: Dir, s: Inbox.State, ev: Event, userIds: seq<Id>, stamps: seq<Inbox.Stamp>, u: Id)
    requires Enumerates(userIds, RecipientsOf(d, ev)) && |userIds| <= |stamps|
    ensures |FirstOccurrences(userIds)| <= |stamps|
    ensures var t := Inbox.CreateForUsers(s, MessageFor(ev), userIds, stamps);
      var added := Inbox.NewRows(MessageFor(ev), userIds, stamps);
      && t == Inbox.State(s.rows + added, s.log + Inbox.Announce(added))
      && |added| == |RecipientsOf(d, ev)|
      && (u in RecipientsOf(d, ev) <==> exists n :: n in added && Inbox.IsMine(n, u, ev.request.orgId))
  {
    FirstOccurrencesOfUnique(userIds);
    ElementsSize(userIds);
    NewRowsReach(MessageFor(ev), userIds, stamps, u);
  }
}
