/** When each operation on maintenance requests succeeds, and what it then stores and announces, in terms of the stored
  * fields.
  */
module RequestOutcomes {
  import opened Prelude
  import opened Tables
  import opened BuildingAccess
  import opened Requests

  // ----- what may change

  /** Only the request's row may differ, and it is `r`. */
  ghost predicate RowIs(k: Desk, e: Desk, id: Id, r: Request) {
    id < |k.requests| && e.requests == k.requests[..id] + [r] + k.requests[id + 1..]
  }

  ghost predicate NoNewText(k: Desk, e: Desk) {
    e.comments == k.comments && e.attachments == k.attachments
  }

  /** One event is announced, with the request as it is stored now. */
  ghost predicate OneEvent(k: Desk, e: Desk, kind: EventKind, id: Id, actor: Actor, commentId: Option<Id>) {
    && id < |e.requests| && actor.sub.Some?
    && var r := e.requests[id];
       var request := Snapshot(id, r.orgId, r.buildingId, r.unitId, r.title, r.status, r.createdByUserId, r.assignedToUserId);
       e.events == k.events + [Event(kind, request, actor.sub.value, commentId)]
  }

  /** The files, in order, as attachments of the request from the caller. */
  ghost predicate FilesStored(k: Desk, e: Desk, id: Id, actor: Actor, files: seq<File>) {
    && actor.sub.Some? && actor.orgId.Some?
    && |e.attachments| == |k.attachments| + |files| && k.attachments <= e.attachments
    && forall i :: 0 <= i < |files| ==>
         e.attachments[|k.attachments| + i] == Attachment(id, actor.orgId.value, actor.sub.value, files[i])
  }

  // ----- the resident

  /** The caller's own request, in the organisation of the token. */
  ghost predicate Own(k: Desk, actor: Actor, id: Id) {
    && actor.orgId.Some? && actor.sub.Some? && id < |k.requests|
    && k.requests[id].orgId == actor.orgId.value && k.requests[id].createdByUserId == actor.sub.value
  }

  ghost predicate Open(r: Request) {
    r.status != COMPLETED && r.status != CANCELED
  }

  /** The words for types and priorities; anything else is left empty. */
  lemma WordsAre(word: Option<string>)
    ensures NormalizePriority(word) == Some(LOW) <==> word == Some("LOW")
    ensures NormalizePriority(word) == Some(NORMAL) <==> word == Some("MEDIUM")
    ensures NormalizePriority(word) == Some(HIGH) <==> word == Some("HIGH")
    ensures NormalizeType(word) == Some(CLEANING) <==> word == Some("CLEANING")
    ensures NormalizeType(word) == Some(ELECTRICAL) <==> word == Some("ELECTRICAL")
    ensures NormalizeType(word) == Some(MAINTENANCE) <==> word == Some("MAINTENANCE")
    ensures NormalizeType(word) == Some(PLUMBING_AC_HEATING) <==> word == Some("PLUMBING_AC_HEATING")
    ensures NormalizeType(word) == Some(OTHER) <==> word == Some("OTHER")
  {
  }

  /** The first ACTIVE occupancy of a user. */
  ghost predicate FirstHome(occs: seq<Occupancy>, userId: Id, i: nat) {
    && i < |occs| && occs[i].status == ACTIVE && occs[i].residentUserId == userId
    && forall j :: 0 <= j < i && occs[j].status == ACTIVE ==> occs[j].residentUserId != userId
  }

  lemma FirstHomeIff(occs: seq<Occupancy>, userId: Id, i: nat)
    ensures FirstHome(occs, userId, i) <==> FindActive(occs, ActiveWhere(None, Some(userId))) == Some(i)
  {
    var w := ActiveWhere(None, Some(userId));
    assert forall j :: 0 <= j < |occs| ==> (w.Matches(occs[j]) <==> occs[j].status == ACTIVE && occs[j].residentUserId == userId);
  }

  /** A new request is OPEN, about the unit the caller lives in, with the given texts and files, and it is announced. */
  lemma RequestCreated(d: Dir, k: Desk, actor: Actor, dto: NewRequest, i: nat)
    requires actor.orgId.Some? && actor.sub.Some? && FirstHome(d.occupancies, actor.sub.value, i)
    ensures var (e, r) := CreateResidentRequest(d, k, actor, dto);
      var o := d.occupancies[i];
      && (r.Ok? <==> o.buildingId < |d.buildings| && d.buildings[o.buildingId].orgId == actor.orgId.value)
      && (r.Err? ==> e == k && r.error == Forbidden)
      && (r.Ok? ==>
           && r.value == |k.requests|
           && e.requests == k.requests + [Request(
                actor.orgId.value, o.buildingId, o.unitId, actor.sub.value, dto.title, dto.description,
                NormalizeType(dto.requestType), NormalizePriority(dto.priority), OPEN, None, None, None, None)]
           && e.comments == k.comments && FilesStored(k, e, |k.requests|, actor, dto.files)
           && OneEvent(k, e, Created, |k.requests|, actor, None))
  {
    FirstHomeIff(d.occupancies, actor.sub.value, i);
  }

  /** Without an ACTIVE occupancy nothing is created. */
  lemma RequestNotCreated(d: Dir, k: Desk, actor: Actor, dto: NewRequest)
    requires actor.orgId.None? || actor.sub.None? ||
      forall j :: 0 <= j < |d.occupancies| && d.occupancies[j].status == ACTIVE ==>
        d.occupancies[j].residentUserId != actor.sub.value
    ensures var (e, r) := CreateResidentRequest(d, k, actor, dto);
      e == k && r == Err(if actor.orgId.Some? && actor.sub.None? then Unauthorized else Forbidden)
  {
  }

  /** Editing stores exactly the given texts, keeps the others, and announces nothing. */
  lemma Edited(k: Desk, actor: Actor, id: Id, title: Field, description: Field)
    ensures var (e, r) := UpdateResidentRequest(k, actor, id, title, description);
      && (r.Ok? <==>
           && Own(k, actor, id) && k.requests[id].status == OPEN
           && (description != Undefined || (title.Given? && title.text != "")))
      && (r.Err? ==> e == k)
      && (r.Ok? ==>
           var was := k.requests[id];
           && RowIs(k, e, id, Request(
                was.orgId, was.buildingId, was.unitId, was.createdByUserId,
                if title.Given? then title.text else was.title,
                if description.Given? then Some(description.text) else was.description,
                was.requestType, was.priority, OPEN, was.assignedToUserId, was.assignedAt, was.completedAt, was.canceledAt))
           && NoNewText(k, e) && e.events == k.events)
    ensures var r := UpdateResidentRequest(k, actor, id, title, description).1;
      var expected :=
        OwnError(k, actor, id, if Own(k, actor, id) && k.requests[id].status == OPEN then BadRequest else Conflict);
      r.Err? ==> r.error == expected
  {
  }

  /** The error of a call on one's own request, where `otherwise` is that of a reachable request. */
  ghost function OwnError(k: Desk, actor: Actor, id: Id, otherwise: Error): Error {
    if actor.orgId.None? then Forbidden
    else if actor.sub.None? then Unauthorized
    else if !Own(k, actor, id) then NotFound
    else otherwise
  }

  lemma CanceledByResident(k: Desk, actor: Actor, id: Id, now: Time)
    ensures var (e, r) := CancelResidentRequest(k, actor, id, now);
      && (r.Ok? <==> Own(k, actor, id) && Open(k.requests[id]))
      && (r.Err? ==> e == k)
      && (r.Ok? ==>
           && RowIs(k, e, id, k.requests[id].(status := CANCELED, canceledAt := Some(now)))
           && NoNewText(k, e) && OneEvent(k, e, Canceled, id, actor, None))
    ensures var r := CancelResidentRequest(k, actor, id, now).1;
      r.Err? ==> r.error == OwnError(k, actor, id, Conflict)
  {
  }

  /** A comment is stored with its author and text, and the event names it. */
  ghost predicate CommentStored(k: Desk, e: Desk, actor: Actor, id: Id, message: string) {
    && actor.sub.Some? && e.requests == k.requests && e.attachments == k.attachments
    && e.comments == k.comments + [Comment(id, actor.sub.value, message)]
    && OneEvent(k, e, Commented, id, actor, Some(|k.comments|))
  }

  lemma CommentedByResident(k: Desk, actor: Actor, id: Id, message: string)
    ensures var (e, r) := AddResidentComment(k, actor, id, message);
      && (r.Ok? <==> Own(k, actor, id) && Open(k.requests[id]))
      && (r.Err? ==> e == k)
      && (r.Ok? ==> CommentStored(k, e, actor, id, message))
    ensures var r := AddResidentComment(k, actor, id, message).1;
      r.Err? ==> r.error == OwnError(k, actor, id, Conflict)
  {
  }

  // ----- the building's side

  /** A request of the building, and a caller of the building's organisation. */
  ghost predicate InBuilding(d: Dir, k: Desk, actor: Actor, buildingId: Id, id: Id) {
    && actor.sub.Some? && actor.orgId.Some?
    && buildingId < |d.buildings| && d.buildings[buildingId].orgId == actor.orgId.value
    && id < |k.requests| && k.requests[id].orgId == actor.orgId.value && k.requests[id].buildingId == buildingId
  }

  ghost predicate Has(d: Dir, buildingId: Id, actor: Actor, kind: AssignmentType) {
    actor.sub.Some? && Assignment(buildingId, actor.sub.value, kind) in d.assignments
  }

  /** The caller holds STAFF and nothing stronger in the building. */
  ghost predicate MereStaff(d: Dir, buildingId: Id, actor: Actor) {
    Has(d, buildingId, actor, STAFF) && !Has(d, buildingId, actor, MANAGER) && !Has(d, buildingId, actor, BUILDING_ADMIN)
  }

  ghost predicate Outsider(d: Dir, buildingId: Id, actor: Actor) {
    !Has(d, buildingId, actor, STAFF) && !Has(d, buildingId, actor, MANAGER) && !Has(d, buildingId, actor, BUILDING_ADMIN)
  }

  lemma HeldIff(d: Dir, actor: Actor, buildingId: Id)
    ensures CallerIn(d, actor, buildingId).Ok? <==>
      && actor.sub.Some? && actor.orgId.Some?
      && buildingId < |d.buildings| && d.buildings[buildingId].orgId == actor.orgId.value
    ensures CallerIn(d, actor, buildingId).Ok? ==>
      && (CallerIn(d, actor, buildingId).value == Some(STAFF) <==> MereStaff(d, buildingId, actor))
      && (CallerIn(d, actor, buildingId).value == None <==> Outsider(d, buildingId, actor))
  {
    if CallerIn(d, actor, buildingId).Ok? {
      HeldByCaller(d, actor, buildingId);
    }
  }

  /** The error of a call in a building: first the caller and the building, then what forbids the call whatever the request
    * is, then the request, then `otherwise`.
    */
  ghost function BuildingError(d: Dir, k: Desk, actor: Actor, buildingId: Id, id: Id, forbidden: bool, otherwise: Error): Error {
    if actor.orgId.None? then Forbidden
    else if actor.sub.None? then Unauthorized
    else if !(buildingId < |d.buildings| && d.buildings[buildingId].orgId == actor.orgId.value) then NotFound
    else if forbidden then Forbidden
    else if !InBuilding(d, k, actor, buildingId, id) then NotFound
    else otherwise
  }

  lemma AssignedTo(d: Dir, k: Desk, actor: Actor, buildingId: Id, id: Id, staffUserId: Id, now: Time)
    ensures var (e, r) := AssignRequest(d, k, actor, buildingId, id, staffUserId, now);
      && (r.Ok? <==>
           && InBuilding(d, k, actor, buildingId, id) && !MereStaff(d, buildingId, actor)
           && (k.requests[id].status == OPEN || k.requests[id].status == ASSIGNED)
           && staffUserId < |d.users| && d.users[staffUserId].isActive && d.users[staffUserId].orgId == actor.orgId
           && Assignment(buildingId, staffUserId, STAFF) in d.assignments)
      && (r.Err? ==> e == k)
      && (r.Ok? ==>
           && RowIs(k, e, id, k.requests[id].(
                status := ASSIGNED, assignedToUserId := Some(staffUserId), assignedAt := Some(now)))
           && NoNewText(k, e) && OneEvent(k, e, Assigned, id, actor, None))
    ensures var r := AssignRequest(d, k, actor, buildingId, id, staffUserId, now).1;
      r.Err? ==> r.error == BuildingError(
        d, k, actor, buildingId, id, MereStaff(d, buildingId, actor),
        if id < |k.requests| && k.requests[id].status in {OPEN, ASSIGNED} then BadRequest else Conflict)
  {
    HeldIff(d, actor, buildingId);
  }

  predicate OneStep(s: Status, t: Status) {
    (s == OPEN && t == ASSIGNED) || (s == ASSIGNED && t == IN_PROGRESS) || (s == IN_PROGRESS && t == COMPLETED)
  }

  /** The status endpoint goes one step along OPEN, ASSIGNED, IN_PROGRESS, COMPLETED. */
  lemma StatusSet(d: Dir, k: Desk, actor: Actor, buildingId: Id, id: Id, status: Status, now: Time)
    ensures var (e, r) := UpdateRequestStatus(d, k, actor, buildingId, id, status, now);
      && (r.Ok? <==>
           && InBuilding(d, k, actor, buildingId, id)
           && OneStep(k.requests[id].status, status)
           && (MereStaff(d, buildingId, actor) ==> k.requests[id].assignedToUserId == actor.sub))
      && (r.Err? ==> e == k)
      && (r.Ok? ==>
           && RowIs(k, e, id,
                    if status == COMPLETED then k.requests[id].(status := COMPLETED, completedAt := Some(now))
                    else k.requests[id].(status := status))
           && NoNewText(k, e) && OneEvent(k, e, StatusChanged, id, actor, None))
    ensures var r := UpdateRequestStatus(d, k, actor, buildingId, id, status, now).1;
      r.Err? ==> r.error == BuildingError(
        d, k, actor, buildingId, id, false,
        if id < |k.requests| && OneStep(k.requests[id].status, status) then Forbidden else Conflict)
  {
    HeldIff(d, actor, buildingId);
  }

  lemma CanceledByBuilding(d: Dir, k: Desk, actor: Actor, effective: set<string>, buildingId: Id, id: Id, now: Time)
    ensures var (e, r) := CancelBuildingRequest(d, k, actor, effective, buildingId, id, now);
      && (r.Ok? <==>
           && InBuilding(d, k, actor, buildingId, id) && Open(k.requests[id]) && !MereStaff(d, buildingId, actor)
           && (Outsider(d, buildingId, actor) ==> "requests.update_status" in effective))
      && (r.Err? ==> e == k)
      && (r.Ok? ==>
           && RowIs(k, e, id, k.requests[id].(status := CANCELED, canceledAt := Some(now)))
           && NoNewText(k, e) && OneEvent(k, e, Canceled, id, actor, None))
    ensures var r := CancelBuildingRequest(d, k, actor, effective, buildingId, id, now).1;
      var forbidden := MereStaff(d, buildingId, actor)
        || (Outsider(d, buildingId, actor) && "requests.update_status" !in effective);
      r.Err? ==> r.error == BuildingError(d, k, actor, buildingId, id, forbidden, Conflict)
  {
    HeldIff(d, actor, buildingId);
  }

  lemma CommentedByBuilding(d: Dir, k: Desk, actor: Actor, buildingId: Id, id: Id, message: string)
    ensures var (e, r) := AddBuildingComment(d, k, actor, buildingId, id, message);
      && (r.Ok? <==>
           && InBuilding(d, k, actor, buildingId, id)
           && (MereStaff(d, buildingId, actor) ==> k.requests[id].assignedToUserId == actor.sub))
      && (r.Err? ==> e == k)
      && (r.Ok? ==> CommentStored(k, e, actor, id, message))
    ensures var r := AddBuildingComment(d, k, actor, buildingId, id, message).1;
      r.Err? ==> r.error == BuildingError(d, k, actor, buildingId, id, false, Forbidden)
  {
    HeldIff(d, actor, buildingId);
  }

  lemma FilesAttached(d: Dir, k: Desk, actor: Actor, buildingId: Id, id: Id, files: seq<File>)
    ensures var (e, r) := AddBuildingAttachments(d, k, actor, buildingId, id, files);
      && (r.Ok? <==>
           && InBuilding(d, k, actor, buildingId, id) && Open(k.requests[id])
           && (MereStaff(d, buildingId, actor) ==> k.requests[id].assignedToUserId == actor.sub))
      && (r.Err? ==> e == k)
      && (r.Ok? ==>
           && e.requests == k.requests && e.comments == k.comments && e.events == k.events
           && FilesStored(k, e, id, actor, files))
    ensures var r := AddBuildingAttachments(d, k, actor, buildingId, id, files).1;
      r.Err? ==> r.error == BuildingError(
        d, k, actor, buildingId, id, false, if id < |k.requests| && Open(k.requests[id]) then Forbidden else Conflict)
  {
    HeldIff(d, actor, buildingId);
  }

  // ----- comments over a run

  /** Exactly the events of comments name a comment, and it is stored, on the event's request, by the event's actor. */
  ghost predicate CommentsOfEvents(k: Desk) {
    forall i :: 0 <= i < |k.events| ==> NamesComment(k, k.events[i])
  }

  ghost predicate NamesComment(k: Desk, ev: Event) {
    && (ev.commentId.Some? <==> ev.kind == Commented)
    && (ev.commentId.Some? ==>
         && ev.commentId.value < |k.comments|
         && k.comments[ev.commentId.value].requestId == ev.request.id
         && k.comments[ev.commentId.value].authorUserId == ev.actorUserId)
  }

  /** A successful comment is stored; every other call leaves the comments alone. */
  ghost predicate CommentsAfter(k: Desk, op: Op, e: Desk, r: Result<()>) {
    if r.Ok? && (op.OpCommentOwn? || op.OpComment?)
    then op.actor.sub.Some? && e.comments == k.comments + [Comment(op.id, op.actor.sub.value, op.message)]
    else e.comments == k.comments
  }

  lemma CommentsAfterCall(d: Dir, k: Desk, op: Op)
    ensures CommentsAfter(k, op, Call(d, k, op).0, Call(d, k, op).1)
  {
  }

  lemma CommentsFollow(k: Desk, op: Op, e: Desk, r: Result<()>)
    requires CommentsOfEvents(k) && EmitsItsEvent(k, op, e, r) && CommentsAfter(k, op, e, r)
    ensures CommentsOfEvents(e)
  {
    forall i | 0 <= i < |e.events| ensures NamesComment(e, e.events[i]) {
      if i < |k.events| {
        assert NamesComment(k, k.events[i]);
      }
    }
  }

  /** Every call keeps that. */
  lemma CallKeepsComments(d: Dir, k: Desk, op: Op, e: Desk)
    requires CommentsOfEvents(k) && e == Call(d, k, op).0
    ensures CommentsOfEvents(e)
  {
    OneEventPerCall(d, k, op);
    CommentsAfterCall(d, k, op);
    CommentsFollow(k, op, e, Call(d, k, op).1);
  }
}
