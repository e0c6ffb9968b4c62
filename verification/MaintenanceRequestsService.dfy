/** The maintenance request service over its mutable tables, proved against `Requests`. */
module MaintenanceRequestsService {
  import opened Prelude
  import opened Tables
  import opened BuildingAccess
  import opened R = Requests
  import Database

  class MaintenanceDesk {
    const db: Database.Database
    var requests: seq<Request>
    var comments: seq<Comment>
    var attachments: seq<Attachment>
    var events: seq<Event>

    function Contents(): Desk
      reads this
    {
      Desk(requests, comments, attachments, events)
    }

    constructor (db: Database.Database)
      ensures this.db == db && Contents() == Desk([], [], [], [])
      ensures DeskValid(db.Contents(), Contents())
    {
      this.db := db;
      requests, comments, attachments, events := [], [], [], [];
    }

    // ----- repository

    method FindByIdForCreator(orgId: Id, userId: Id, id: Id) returns (r: Option<Request>)
      ensures r == if IsOwn(Contents(), orgId, userId, id) then Some(requests[id]) else None
    {
      if id < |requests| && requests[id].orgId == orgId && requests[id].createdByUserId == userId {
        return Some(requests[id]);
      }
      return None;
    }

    method FindByIdForBuilding(orgId: Id, buildingId: Id, id: Id) returns (r: Option<Request>)
      ensures r == if IsInBuilding(Contents(), orgId, buildingId, id) then Some(requests[id]) else None
    {
      if id < |requests| && requests[id].orgId == orgId && requests[id].buildingId == buildingId {
        return Some(requests[id]);
      }
      return None;
    }

    method UpdateById(id: Id, r: Request)
      requires id < |requests|
      modifies this`requests
      ensures requests == old(requests)[id := r]
    {
      requests := requests[id := r];
    }

    method CreateComment(id: Id, authorUserId: Id, message: string) returns (commentId: Id)
      modifies this`comments
      ensures comments == old(comments) + [Comment(id, authorUserId, message)] && commentId == |old(comments)|
    {
      commentId := |comments|;
      comments := comments + [Comment(id, authorUserId, message)];
    }

    method CreateAttachments(id: Id, orgId: Id, userId: Id, files: seq<File>)
      modifies this`attachments
      ensures attachments == old(attachments) + AttachmentRows(id, orgId, userId, files)
    {
      if |files| == 0 {
        assert attachments + AttachmentRows(id, orgId, userId, files) == attachments;
        return;
      }
      attachments := attachments + AttachmentRows(id, orgId, userId, files);
    }

    method EmitEvent(kind: EventKind, id: Id, r: Request, actorUserId: Id, commentId: Option<Id>)
      modifies this`events
      ensures events == old(events) + [Event(kind, ToEventRequest(id, r), actorUserId, commentId)]
    {
      events := events + [Event(kind, ToEventRequest(id, r), actorUserId, commentId)];
    }

    // ----- the resident's operations

    method CreateResidentRequest(actor: Actor, dto: NewRequest) returns (r: Result<Id>)
      modifies this
      ensures (Contents(), r) == R.CreateResidentRequest(db.Contents(), old(Contents()), actor, dto)
      ensures db.Contents() == old(db.Contents())
      ensures Promised(db.Contents(), old(Contents()), Contents())
    {
      CreatePromises(db.Contents(), Contents(), actor, dto);
      if actor.orgId.None? {
        return Err(Forbidden);
      }
      if actor.sub.None? {
        return Err(Unauthorized);
      }
      var orgId, userId := actor.orgId.value, actor.sub.value;
      var found := FindActive(db.occupancies, ActiveWhere(None, Some(userId)));
      if found.None? || !BuildingInOrg(db.Contents(), db.occupancies[found.value].buildingId, orgId) {
        return Err(Forbidden);
      }
      var o := db.occupancies[found.value];
      var id := |requests|;
      var request := Request(orgId, o.buildingId, o.unitId, userId, dto.title, dto.description,
                             NormalizeType(dto.requestType), NormalizePriority(dto.priority), OPEN, None, None, None, None);
      requests := requests + [request];
      CreateAttachments(id, orgId, userId, dto.files);
      EmitEvent(Created, id, request, userId, None);
      return Ok(id);
    }

    method UpdateResidentRequest(actor: Actor, id: Id, title: Field, description: Field) returns (r: Result<()>)
      modifies this`requests
      ensures (Contents(), r) == R.UpdateResidentRequest(old(Contents()), actor, id, title, description)
      ensures Promised(db.Contents(), old(Contents()), Contents())
    {
      UpdatePromises(db.Contents(), Contents(), actor, id, title, description);
      if actor.orgId.None? {
        return Err(Forbidden);
      }
      if actor.sub.None? {
        return Err(Unauthorized);
      }
      var found := FindByIdForCreator(actor.orgId.value, actor.sub.value, id);
      if found.None? {
        return Err(NotFound);
      }
      var request := found.value;
      if request.status != OPEN {
        return Err(Conflict);
      }
      if (!title.Given? || title.text == "") && description == Undefined {
        return Err(BadRequest);
      }
      if title.Given? {
        request := request.(title := title.text);
      }
      if description.Given? {
        request := request.(description := Some(description.text));
      }
      UpdateById(id, request);
      return Ok(());
    }

    method CancelResidentRequest(actor: Actor, id: Id, now: Time) returns (r: Result<()>)
      modifies this`requests, this`events
      ensures (Contents(), r) == R.CancelResidentRequest(old(Contents()), actor, id, now)
      ensures Promised(db.Contents(), old(Contents()), Contents())
    {
      CancelOwnPromises(db.Contents(), Contents(), actor, id, now);
      if actor.orgId.None? {
        return Err(Forbidden);
      }
      if actor.sub.None? {
        return Err(Unauthorized);
      }
      var found := FindByIdForCreator(actor.orgId.value, actor.sub.value, id);
      if found.None? {
        return Err(NotFound);
      }
      var request := found.value;
      if request.status == COMPLETED || request.status == CANCELED {
        return Err(Conflict);
      }
      request := request.(status := CANCELED, canceledAt := Some(now));
      UpdateById(id, request);
      EmitEvent(Canceled, id, request, actor.sub.value, None);
      return Ok(());
    }

    method AddResidentComment(actor: Actor, id: Id, message: string) returns (r: Result<()>)
      modifies this`comments, this`events
      ensures (Contents(), r) == R.AddResidentComment(old(Contents()), actor, id, message)
      ensures Promised(db.Contents(), old(Contents()), Contents())
    {
      CommentOwnPromises(db.Contents(), Contents(), actor, id, message);
      if actor.orgId.None? {
        return Err(Forbidden);
      }
      if actor.sub.None? {
        return Err(Unauthorized);
      }
      var found := FindByIdForCreator(actor.orgId.value, actor.sub.value, id);
      if found.None? {
        return Err(NotFound);
      }
      var request := found.value;
      if request.status == CANCELED || request.status == COMPLETED {
        return Err(Conflict);
      }
      var commentId := CreateComment(id, actor.sub.value, message);
      EmitEvent(Commented, id, request, actor.sub.value, Some(commentId));
      return Ok(());
    }

    // ----- the building's operations

    /** The checks every building endpoint starts with. */
    method EnterBuilding(actor: Actor, buildingId: Id) returns (r: Result<Option<AssignmentType>>)
      ensures r == CallerIn(db.Contents(), actor, buildingId)
    {
      if actor.orgId.None? {
        return Err(Forbidden);
      }
      if actor.sub.None? {
        return Err(Unauthorized);
      }
      if !BuildingInOrg(db.Contents(), buildingId, actor.orgId.value) {
        return Err(NotFound);
      }
      return Ok(GetBuildingAssignmentType(db.Contents(), buildingId, actor.sub.value));
    }

    method AssignRequest(actor: Actor, buildingId: Id, id: Id, staffUserId: Id, now: Time) returns (r: Result<()>)
      modifies this`requests, this`events
      ensures (Contents(), r) == R.AssignRequest(db.Contents(), old(Contents()), actor, buildingId, id, staffUserId, now)
      ensures Promised(db.Contents(), old(Contents()), Contents())
    {
      AssignPromises(db.Contents(), Contents(), actor, buildingId, id, staffUserId, now);
      var held :- EnterBuilding(actor, buildingId);
      if held == Some(STAFF) {
        return Err(Forbidden);
      }
      var found := FindByIdForBuilding(actor.orgId.value, buildingId, id);
      if found.None? {
        return Err(NotFound);
      }
      var request := found.value;
      if request.status != OPEN && request.status != ASSIGNED {
        return Err(Conflict);
      }
      if !ActiveUserInOrg(db.Contents(), staffUserId, actor.orgId.value) {
        return Err(BadRequest);
      }
      if Assignment(buildingId, staffUserId, STAFF) !in db.assignments {
        return Err(BadRequest);
      }
      request := request.(assignedToUserId := Some(staffUserId), assignedAt := Some(now), status := ASSIGNED);
      UpdateById(id, request);
      EmitEvent(Assigned, id, request, actor.sub.value, None);
      return Ok(());
    }

    method UpdateRequestStatus(actor: Actor, buildingId: Id, id: Id, status: Status, now: Time) returns (r: Result<()>)
      modifies this`requests, this`events
      ensures (Contents(), r) == R.UpdateRequestStatus(db.Contents(), old(Contents()), actor, buildingId, id, status, now)
      ensures Promised(db.Contents(), old(Contents()), Contents())
    {
      StatusPromises(db.Contents(), Contents(), actor, buildingId, id, status, now);
      var held :- EnterBuilding(actor, buildingId);
      var found := FindByIdForBuilding(actor.orgId.value, buildingId, id);
      if found.None? {
        return Err(NotFound);
      }
      var request := found.value;
      if status !in TRANSITIONS(request.status) {
        return Err(Conflict);
      }
      if held == Some(STAFF) {
        if request.assignedToUserId != actor.sub {
          return Err(Forbidden);
        }
      }
      request := request.(status := status, completedAt := if status == COMPLETED then Some(now) else request.completedAt);
      UpdateById(id, request);
      EmitEvent(StatusChanged, id, request, actor.sub.value, None);
      return Ok(());
    }

    method CancelBuildingRequest(actor: Actor, effective: set<string>, buildingId: Id, id: Id, now: Time)
      returns (r: Result<()>)
      modifies this`requests, this`events
      ensures (Contents(), r)
           == R.CancelBuildingRequest(db.Contents(), old(Contents()), actor, effective, buildingId, id, now)
      ensures Promised(db.Contents(), old(Contents()), Contents())
    {
      CancelPromises(db.Contents(), Contents(), actor, effective, buildingId, id, now);
      var held :- EnterBuilding(actor, buildingId);
      if held.None? {
        if "requests.update_status" !in effective {
          return Err(Forbidden);
        }
      }
      if held == Some(STAFF) {
        return Err(Forbidden);
      }
      var found := FindByIdForBuilding(actor.orgId.value, buildingId, id);
      if found.None? {
        return Err(NotFound);
      }
      var request := found.value;
      if request.status == COMPLETED || request.status == CANCELED {
        return Err(Conflict);
      }
      request := request.(status := CANCELED, canceledAt := Some(now));
      UpdateById(id, request);
      EmitEvent(Canceled, id, request, actor.sub.value, None);
      return Ok(());
    }

    method AddBuildingComment(actor: Actor, buildingId: Id, id: Id, message: string) returns (r: Result<()>)
      modifies this`comments, this`events
      ensures (Contents(), r) == R.AddBuildingComment(db.Contents(), old(Contents()), actor, buildingId, id, message)
      ensures Promised(db.Contents(), old(Contents()), Contents())
    {
      CommentPromises(db.Contents(), Contents(), actor, buildingId, id, message);
      var held :- EnterBuilding(actor, buildingId);
      var found := FindByIdForBuilding(actor.orgId.value, buildingId, id);
      if found.None? {
        return Err(NotFound);
      }
      if held == Some(STAFF) && found.value.assignedToUserId != actor.sub {
        return Err(Forbidden);
      }
      var commentId := CreateComment(id, actor.sub.value, message);
      EmitEvent(Commented, id, found.value, actor.sub.value, Some(commentId));
      return Ok(());
    }

    method AddBuildingAttachments(actor: Actor, buildingId: Id, id: Id, files: seq<File>) returns (r: Result<()>)
      modifies this`attachments
      ensures (Contents(), r)
           == R.AddBuildingAttachments(db.Contents(), old(Contents()), actor, buildingId, id, files)
      ensures Promised(db.Contents(), old(Contents()), Contents())
    {
      AttachPromises(db.Contents(), Contents(), actor, buildingId, id, files);
      var held :- EnterBuilding(actor, buildingId);
      var found := FindByIdForBuilding(actor.orgId.value, buildingId, id);
      if found.None? {
        return Err(NotFound);
      }
      if found.value.status == CANCELED || found.value.status == COMPLETED {
        return Err(Conflict);
      }
      if held == Some(STAFF) && found.value.assignedToUserId != actor.sub {
        return Err(Forbidden);
      }
      CreateAttachments(id, actor.orgId.value, actor.sub.value, files);
      return Ok(());
    }
  }
}
