/** The recipient resolver and the event listener over the mutable tables, proved against `Recipients`. */
module NotificationsListener {
  import opened Prelude
  import opened Tables
  import opened Requests
  import opened Recipients
  import Database
  import Inbox
  import NotificationsService

  class NotificationRecipientResolver {
    const db: Database.Database

    constructor (db: Database.Database)
      ensures this.db == db
    {
      this.db := db;
    }

    /** The rows come in no particular order. */
    method GetBuildingManagersAndAdmins(orgId: Id, buildingId: Id) returns (recipients: set<Id>)
      ensures recipients == BuildingManagersAndAdmins(db.Contents(), orgId, buildingId)
    {
      var assignments := set a | a in db.assignments && a.buildingId == buildingId && a.kind in {MANAGER, BUILDING_ADMIN};
      recipients := {};
      ghost var seen: set<Assignment> := {};
      while assignments != {}
        invariant seen + assignments
               == set a | a in db.assignments && a.buildingId == buildingId && a.kind in {MANAGER, BUILDING_ADMIN}
        invariant recipients == set a | a in seen && RunsBuilding(db.Contents(), orgId, a, buildingId) :: a.userId
        decreases assignments
      {
        var assignment :| assignment in assignments;
        assignments, seen := assignments - {assignment}, seen + {assignment};
        if ActiveUserInOrg(db.Contents(), assignment.userId, orgId) {
          recipients := recipients + {assignment.userId};
        }
      }
    }

    method ResolveOpsRecipients(orgId: Id, buildingId: Id) returns (recipients: set<Id>)
      ensures recipients == OpsRecipients(db.Contents(), orgId, buildingId)
    {
      recipients := GetBuildingManagersAndAdmins(orgId, buildingId);
      if |recipients| == 0 {
        recipients := OrgAdmins(db.Contents(), orgId);
      }
    }

    /** `forEach` with `add`. */
    method AddAll(recipients: set<Id>, more: set<Id>) returns (all: set<Id>)
      ensures all == recipients + more
    {
      all := recipients;
      var waiting := more;
      while waiting != {}
        invariant waiting <= more && all == recipients + (more - waiting)
        decreases waiting
      {
        var id :| id in waiting;
        waiting := waiting - {id};
        all := all + {id};
      }
    }

    method FinalizeRecipients(recipients: set<Id>, actorUserId: Id) returns (r: set<Id>)
      ensures r == Finalize(recipients, actorUserId)
    {
      r := recipients - {actorUserId};
      if |r| == 0 {
        r := r + {actorUserId};
      }
    }

    method ResolveForRequestCreated(request: Snapshot, actorUserId: Id) returns (recipients: set<Id>)
      ensures recipients == Finalize(Concerned(db.Contents(), Created, request), actorUserId)
    {
      recipients := ResolveOpsRecipients(request.orgId, request.buildingId);
      recipients := FinalizeRecipients(recipients, actorUserId);
    }

    method ResolveForRequestAssigned(request: Snapshot, actorUserId: Id) returns (recipients: set<Id>)
      ensures recipients == Finalize(Concerned(db.Contents(), Assigned, request), actorUserId)
    {
      recipients := {};
      if request.assignedToUserId.Some? {
        recipients := recipients + {request.assignedToUserId.value};
      }
      recipients := recipients + {request.createdByUserId};
      var opsRecipients := ResolveOpsRecipients(request.orgId, request.buildingId);
      recipients := AddAll(recipients, opsRecipients);
      assert recipients == Concerned(db.Contents(), Assigned, request);
      recipients := FinalizeRecipients(recipients, actorUserId);
    }

    method ResolveForRequestStatusChanged(request: Snapshot, actorUserId: Id) returns (recipients: set<Id>)
      ensures recipients == Finalize(Concerned(db.Contents(), StatusChanged, request), actorUserId)
    {
      recipients := {request.createdByUserId};
      if request.assignedToUserId.Some? {
        recipients := recipients + {request.assignedToUserId.value};
      }
      var opsRecipients := ResolveOpsRecipients(request.orgId, request.buildingId);
      recipients := AddAll(recipients, opsRecipients);
      assert recipients == Concerned(db.Contents(), StatusChanged, request);
      recipients := FinalizeRecipients(recipients, actorUserId);
    }

    method ResolveForRequestCommented(request: Snapshot, actorUserId: Id) returns (recipients: set<Id>)
      ensures recipients == Finalize(Concerned(db.Contents(), Commented, request), actorUserId)
    {
      recipients := {request.createdByUserId};
      if request.assignedToUserId.Some? {
        recipients := recipients + {request.assignedToUserId.value};
      }
      var opsRecipients := ResolveOpsRecipients(request.orgId, request.buildingId);
      recipients := AddAll(recipients, opsRecipients);
      assert recipients == Concerned(db.Contents(), Commented, request);
      recipients := FinalizeRecipients(recipients, actorUserId);
    }

    method ResolveForRequestCanceled(request: Snapshot, actorUserId: Id) returns (recipients: set<Id>)
      ensures recipients == Finalize(Concerned(db.Contents(), Canceled, request), actorUserId)
    {
      recipients := ResolveOpsRecipients(request.orgId, request.buildingId);
      if request.assignedToUserId.Some? {
        recipients := recipients + {request.assignedToUserId.value};
      }
      assert recipients == Concerned(db.Contents(), Canceled, request);
      recipients := FinalizeRecipients(recipients, actorUserId);
    }
  }

  /** `Array.from` on a set: every element once, in some order. */
  method ArrayFrom(recipients: set<Id>) returns (userIds: seq<Id>)
    ensures Enumerates(userIds, recipients)
  {
    userIds := [];
    var waiting := recipients;
    while waiting != {}
      invariant waiting <= recipients
      invariant Enumerates(userIds, recipients - waiting)
      decreases waiting
    {
      var id :| id in waiting;
      waiting := waiting - {id};
      assert id !in Elements(userIds);
      assert Elements(userIds + [id]) == Elements(userIds) + {id};
      assert recipients - waiting == recipients - (waiting + {id}) + {id};
      userIds := userIds + [id];
    }
  }

  class NotificationsListener {
    const recipientResolver: NotificationRecipientResolver
    const notificationsService: NotificationsService.NotificationsStore

    constructor (resolver: NotificationRecipientResolver, service: NotificationsService.NotificationsStore)
      ensures recipientResolver == resolver && notificationsService == service
    {
      recipientResolver, notificationsService := resolver, service;
    }

    /** The five handlers: resolve, then create and publish one notification for every recipient. */
    method Handle(ev: Event, stamps: seq<Inbox.Stamp>) returns (userIds: seq<Id>)
      requires |RecipientsOf(recipientResolver.db.Contents(), ev)| <= |stamps|
      modifies notificationsService
      ensures Enumerates(userIds, RecipientsOf(old(recipientResolver.db.Contents()), ev)) && |userIds| <= |stamps|
      ensures FirstOccurrences(userIds) == userIds
      ensures notificationsService.Contents()
           == Inbox.CreateForUsers(old(notificationsService.Contents()), MessageFor(ev), userIds, stamps)
    {
      var recipients: set<Id>;
      match ev.kind {
        case Created => recipients := recipientResolver.ResolveForRequestCreated(ev.request, ev.actorUserId);
        case Assigned => recipients := recipientResolver.ResolveForRequestAssigned(ev.request, ev.actorUserId);
        case StatusChanged => recipients := recipientResolver.ResolveForRequestStatusChanged(ev.request, ev.actorUserId);
        case Commented => recipients := recipientResolver.ResolveForRequestCommented(ev.request, ev.actorUserId);
        case Canceled => recipients := recipientResolver.ResolveForRequestCanceled(ev.request, ev.actorUserId);
      }
      userIds := ArrayFrom(recipients);
      ElementsSize(userIds);
      FirstOccurrencesOfUnique(userIds);
      notificationsService.CreateForUsers(MessageFor(ev), userIds, stamps);
    }
  }
}
