/** Maintenance requests: what each operation of the service does to the request tables and which event it emits. */
module Requests {
  import opened Prelude
  import opened Tables
  import opened BuildingAccess

  datatype RequestType = CLEANING | ELECTRICAL | MAINTENANCE | PLUMBING_AC_HEATING | OTHER
  datatype Priority = LOW | NORMAL | HIGH
  datatype Status = OPEN | ASSIGNED | IN_PROGRESS | COMPLETED | CANCELED

  datatype Request = Request(
    orgId: Id, buildingId: Id, unitId: Id, createdByUserId: Id,
    title: string, description: Option<string>, requestType: Option<RequestType>, priority: Option<Priority>,
    status: Status,
    assignedToUserId: Option<Id>, assignedAt: Option<Time>,
    completedAt: Option<Time>, canceledAt: Option<Time>)

  datatype Comment = Comment(requestId: Id, authorUserId: Id, message: string)
  datatype File = File(fileName: string, mimeType: string, sizeBytes: int, url: string)
  datatype Attachment = Attachment(requestId: Id, orgId: Id, uploadedByUserId: Id, file: File)

  datatype EventKind = Created | Assigned | StatusChanged | Commented | Canceled

  /** The request as the event carries it. */
  datatype Snapshot = Snapshot(
    id: Id, orgId: Id, buildingId: Id, unitId: Id, title: string, status: Status,
    createdByUserId: Id, assignedToUserId: Option<Id>)

  datatype Event = Event(kind: EventKind, request: Snapshot, actorUserId: Id, commentId: Option<Id>)

  /** Requests, comments and attachments are never deleted: the id of a row is its position. */
  datatype Desk = Desk(
    requests: seq<Request>, comments: seq<Comment>, attachments: seq<Attachment>, events: seq<Event>)

  // ----- the status machine

  function TRANSITIONS(s: Status): set<Status> {
    match s
    case OPEN => {ASSIGNED}
    case ASSIGNED => {IN_PROGRESS}
    case IN_PROGRESS => {COMPLETED}
    case COMPLETED => {}
    case CANCELED => {}
  }

  predicate Closed(s: Status) {
    s == COMPLETED || s == CANCELED
  }

  // ----- lookups

  function Caller(actor: Actor): Result<Id> {
    if actor.orgId.None? then Err(Forbidden)
    else if actor.sub.None? then Err(Unauthorized)
    else Ok(actor.sub.value)
  }

  /** `findByIdForCreator`. */
  predicate IsOwn(k: Desk, orgId: Id, userId: Id, id: Id) {
    id < |k.requests| && k.requests[id].orgId == orgId && k.requests[id].createdByUserId == userId
  }

  /** `findByIdForBuilding`. */
  predicate IsInBuilding(k: Desk, orgId: Id, buildingId: Id, id: Id) {
    id < |k.requests| && k.requests[id].orgId == orgId && k.requests[id].buildingId == buildingId
  }

  /** The caller's own request. */
  function FindOwn(k: Desk, actor: Actor, id: Id): (r: Result<Request>)
    ensures r.Ok? ==> id < |k.requests| && r.value == k.requests[id]
    ensures r.Ok? ==> Caller(actor).Ok? && r.value.orgId == actor.orgId.value && r.value.createdByUserId == actor.sub.value
  {
    var userId :- Caller(actor);
    if IsOwn(k, actor.orgId.value, userId, id) then Ok(k.requests[id]) else Err(NotFound)
  }

  /** The caller's assignment in a building of the caller's organisation. */
  function CallerIn(d: Dir, actor: Actor, buildingId: Id): Result<Option<AssignmentType>> {
    var userId :- Caller(actor);
    if !BuildingInOrg(d, buildingId, actor.orgId.value) then Err(NotFound)
    else Ok(GetBuildingAssignmentType(d, buildingId, userId))
  }

  function FindInBuilding(k: Desk, actor: Actor, buildingId: Id, id: Id): (r: Result<Request>)
    ensures r.Ok? ==> id < |k.requests| && r.value == k.requests[id]
  {
    if actor.orgId.Some? && IsInBuilding(k, actor.orgId.value, buildingId, id) then Ok(k.requests[id]) else Err(NotFound)
  }

  /** Staff may touch only the requests assigned to them. */
  predicate StaffMayTouch(held: Option<AssignmentType>, r: Request, actor: Actor) {
    held == Some(STAFF) ==> r.assignedToUserId == actor.sub
  }

  // ----- effects

  function ToEventRequest(id: Id, r: Request): Snapshot {
    Snapshot(id, r.orgId, r.buildingId, r.unitId, r.title, r.status, r.createdByUserId, r.assignedToUserId)
  }

  function Emit(k: Desk, kind: EventKind, id: Id, actor: Actor, commentId: Option<Id>): Desk
    requires id < |k.requests| && actor.sub.Some?
  {
    k.(events := k.events + [Event(kind, ToEventRequest(id, k.requests[id]), actor.sub.value, commentId)])
  }

  /** Store a changed request and announce it. */
  function Save(k: Desk, id: Id, r: Request, kind: EventKind, actor: Actor): Desk
    requires id < |k.requests| && actor.sub.Some?
  {
    Emit(k.(requests := k.requests[id := r]), kind, id, actor, None)
  }

  function AddComment(k: Desk, id: Id, actor: Actor, message: string): Desk
    requires id < |k.requests| && actor.sub.Some?
  {
    Emit(k.(comments := k.comments + [Comment(id, actor.sub.value, message)]), Commented, id, actor, Some(|k.comments|))
  }

  function AttachmentRows(id: Id, orgId: Id, userId: Id, files: seq<File>): (rows: seq<Attachment>)
    ensures forall j :: 0 <= j < |rows| ==> rows[j].requestId == id
  {
    seq(|files|, i requires 0 <= i < |files| => Attachment(id, orgId, userId, files[i]))
  }

  // ----- the resident's operations

  /** Type and priority come as texts. */
  datatype NewRequest = NewRequest(
    title: string, description: Option<string>, requestType: Option<string>, priority: Option<string>, files: seq<File>)

  function NormalizePriority(value: Option<string>): Option<Priority> {
    if value == Some("LOW") then Some(LOW)
    else if value == Some("MEDIUM") then Some(NORMAL)
    else if value == Some("HIGH") then Some(HIGH)
    else None
  }

  function NormalizeType(value: Option<string>): Option<RequestType> {
    if value == Some("CLEANING") then Some(CLEANING)
    else if value == Some("ELECTRICAL") then Some(ELECTRICAL)
    else if value == Some("MAINTENANCE") then Some(MAINTENANCE)
    else if value == Some("PLUMBING_AC_HEATING") then Some(PLUMBING_AC_HEATING)
    else if value == Some("OTHER") then Some(OTHER)
    else None
  }

  function CreateResidentRequest(d: Dir, k: Desk, actor: Actor, dto: NewRequest): (Desk, Result<Id>) {
    if Caller(actor).Err? then (k, Err(Caller(actor).error))
    else
      var userId, id := actor.sub.value, |k.requests|;
      var found := FindActive(d.occupancies, ActiveWhere(None, Some(userId)));
      if found.None? || !BuildingInOrg(d, d.occupancies[found.value].buildingId, actor.orgId.value) then (k, Err(Forbidden))
      else
        var o := d.occupancies[found.value];
        var r := Request(actor.orgId.value, o.buildingId, o.unitId, userId, dto.title, dto.description,
                         NormalizeType(dto.requestType), NormalizePriority(dto.priority), OPEN, None, None, None, None);
        var stored := k.(requests := k.requests + [r],
                         attachments := k.attachments + AttachmentRows(id, actor.orgId.value, userId, dto.files));
        (Emit(stored, Created, id, actor, None), Ok(id))
  }

  /** A field of the edit form: left out, explicitly null, or given. */
  datatype Field = Undefined | Null | Given(text: string)

  function UpdateResidentRequest(k: Desk, actor: Actor, id: Id, title: Field, description: Field): (Desk, Result<()>) {
    var found := FindOwn(k, actor, id);
    if found.Err? then (k, Err(found.error))
    else if found.value.status != OPEN then (k, Err(Conflict))
    else if (!title.Given? || title.text == "") && description.Undefined? then (k, Err(BadRequest))
    else
      var r := found.value.(
        title := if title.Given? then title.text else found.value.title,
        description := if description.Given? then Some(description.text) else found.value.description);
      (k.(requests := k.requests[id := r]), Ok(()))
  }

  function CancelResidentRequest(k: Desk, actor: Actor, id: Id, now: Time): (Desk, Result<()>) {
    var found := FindOwn(k, actor, id);
    if found.Err? then (k, Err(found.error))
    else if Closed(found.value.status) then (k, Err(Conflict))
    else (Save(k, id, found.value.(status := CANCELED, canceledAt := Some(now)), Canceled, actor), Ok(()))
  }

  function AddResidentComment(k: Desk, actor: Actor, id: Id, message: string): (Desk, Result<()>) {
    var found := FindOwn(k, actor, id);
    if found.Err? then (k, Err(found.error))
    else if Closed(found.value.status) then (k, Err(Conflict))
    else (AddComment(k, id, actor, message), Ok(()))
  }

  // ----- the building's operations

  predicate MayBeAssigned(d: Dir, orgId: Id, buildingId: Id, staffUserId: Id) {
    ActiveUserInOrg(d, staffUserId, orgId) && Assignment(buildingId, staffUserId, STAFF) in d.assignments
  }

  function AssignRequest(d: Dir, k: Desk, actor: Actor, buildingId: Id, id: Id, staffUserId: Id, now: Time)
    : (Desk, Result<()>)
  {
    var held := CallerIn(d, actor, buildingId);
    if held.Err? then (k, Err(held.error))
    else if held.value == Some(STAFF) then (k, Err(Forbidden))
    else
      var found := FindInBuilding(k, actor, buildingId, id);
      if found.Err? then (k, Err(found.error))
      else if found.value.status != OPEN && found.value.status != ASSIGNED then (k, Err(Conflict))
      else if !MayBeAssigned(d, actor.orgId.value, buildingId, staffUserId) then (k, Err(BadRequest))
      else
        var r := found.value.(assignedToUserId := Some(staffUserId), assignedAt := Some(now), status := ASSIGNED);
        (Save(k, id, r, Assigned, actor), Ok(()))
  }

  function UpdateRequestStatus(d: Dir, k: Desk, actor: Actor, buildingId: Id, id: Id, status: Status, now: Time)
    : (Desk, Result<()>)
  {
    var held := CallerIn(d, actor, buildingId);
    if held.Err? then (k, Err(held.error))
    else
      var found := FindInBuilding(k, actor, buildingId, id);
      if found.Err? then (k, Err(found.error))
      else if status !in TRANSITIONS(found.value.status) then (k, Err(Conflict))
      else if !StaffMayTouch(held.value, found.value, actor) then (k, Err(Forbidden))
      else
        var r := found.value.(
          status := status, completedAt := if status == COMPLETED then Some(now) else found.value.completedAt);
        (Save(k, id, r, StatusChanged, actor), Ok(()))
  }

  function CancelBuildingRequest(d: Dir, k: Desk, actor: Actor, effective: set<string>, buildingId: Id, id: Id, now: Time)
    : (Desk, Result<()>)
  {
    var held := CallerIn(d, actor, buildingId);
    if held.Err? then (k, Err(held.error))
    else if held.value.None? && "requests.update_status" !in effective then (k, Err(Forbidden))
    else if held.value == Some(STAFF) then (k, Err(Forbidden))
    else
      var found := FindInBuilding(k, actor, buildingId, id);
      if found.Err? then (k, Err(found.error))
      else if Closed(found.value.status) then (k, Err(Conflict))
      else (Save(k, id, found.value.(status := CANCELED, canceledAt := Some(now)), Canceled, actor), Ok(()))
  }

  /** Unlike a resident, the building's side may comment on a closed request. */
  function AddBuildingComment(d: Dir, k: Desk, actor: Actor, buildingId: Id, id: Id, message: string): (Desk, Result<()>) {
    var held := CallerIn(d, actor, buildingId);
    if held.Err? then (k, Err(held.error))
    else
      var found := FindInBuilding(k, actor, buildingId, id);
      if found.Err? then (k, Err(found.error))
      else if !StaffMayTouch(held.value, found.value, actor) then (k, Err(Forbidden))
      else (AddComment(k, id, actor, message), Ok(()))
  }

  function AddBuildingAttachments(d: Dir, k: Desk, actor: Actor, buildingId: Id, id: Id, files: seq<File>)
    : (Desk, Result<()>)
  {
    var held := CallerIn(d, actor, buildingId);
    if held.Err? then (k, Err(held.error))
    else
      var found := FindInBuilding(k, actor, buildingId, id);
      if found.Err? then (k, Err(found.error))
      else if Closed(found.value.status) then (k, Err(Conflict))
      else if !StaffMayTouch(held.value, found.value, actor) then (k, Err(Forbidden))
      else (k.(attachments := k.attachments + AttachmentRows(id, actor.orgId.value, actor.sub.value, files)), Ok(()))
  }

  // ----- one call of any of them

  datatype Op =
    | OpCreate(actor: Actor, dto: NewRequest)
    | OpEdit(actor: Actor, id: Id, title: Field, description: Field)
    | OpCancelOwn(actor: Actor, id: Id, now: Time)
    | OpCommentOwn(actor: Actor, id: Id, message: string)
    | OpAssign(actor: Actor, buildingId: Id, id: Id, staffUserId: Id, now: Time)
    | OpSetStatus(actor: Actor, buildingId: Id, id: Id, status: Status, now: Time)
    | OpCancel(actor: Actor, effective: set<string>, buildingId: Id, id: Id, now: Time)
    | OpComment(actor: Actor, buildingId: Id, id: Id, message: string)
    | OpAttach(actor: Actor, buildingId: Id, id: Id, files: seq<File>)

  function Call(d: Dir, k: Desk, op: Op): (Desk, Result<()>) {
    match op
    case OpCreate(actor, dto) =>
      var (e, r) := CreateResidentRequest(d, k, actor, dto);
      (e, if r.Ok? then Ok(()) else Err(r.error))
    case OpEdit(actor, id, title, description) => UpdateResidentRequest(k, actor, id, title, description)
    case OpCancelOwn(actor, id, now) => CancelResidentRequest(k, actor, id, now)
    case OpCommentOwn(actor, id, message) => AddResidentComment(k, actor, id, message)
    case OpAssign(actor, buildingId, id, staffUserId, now) => AssignRequest(d, k, actor, buildingId, id, staffUserId, now)
    case OpSetStatus(actor, buildingId, id, status, now) => UpdateRequestStatus(d, k, actor, buildingId, id, status, now)
    case OpCancel(actor, effective, buildingId, id, now) =>
      CancelBuildingRequest(d, k, actor, effective, buildingId, id, now)
    case OpComment(actor, buildingId, id, message) => AddBuildingComment(d, k, actor, buildingId, id, message)
    case OpAttach(actor, buildingId, id, files) => AddBuildingAttachments(d, k, actor, buildingId, id, files)
  }

  /** The kind of event a successful call emits. */
  function Announces(op: Op): Option<EventKind> {
    match op
    case OpCreate(_, _) => Some(Created)
    case OpEdit(_, _, _, _) => None
    case OpCancelOwn(_, _, _) => Some(Canceled)
    case OpCommentOwn(_, _, _) => Some(Commented)
    case OpAssign(_, _, _, _, _) => Some(Assigned)
    case OpSetStatus(_, _, _, _, _) => Some(StatusChanged)
    case OpCancel(_, _, _, _, _) => Some(Canceled)
    case OpComment(_, _, _, _) => Some(Commented)
    case OpAttach(_, _, _, _) => None
  }

  /** The request a call is about. */
  function Subject(k: Desk, op: Op): Id {
    if op.OpCreate? then |k.requests| else op.id
  }

  /** The comment a call writes. */
  function NewComment(k: Desk, op: Op): Option<Id> {
    if op.OpComment? || op.OpCommentOwn? then Some(|k.comments|) else None
  }

  /** A failed call changes nothing; a successful one emits exactly one event, of its kind, with the stored request and
    * the caller as actor, except that editing and attaching emit none.
    */
  ghost predicate EmitsItsEvent(k: Desk, op: Op, e: Desk, r: Result<()>) {
    var id := Subject(k, op);
    && (r.Err? ==> e == k)
    && (r.Ok? && Announces(op).None? ==> e.events == k.events)
    && (r.Ok? && Announces(op).Some? ==>
         && op.actor.sub.Some? && id < |e.requests|
         && e.events == k.events
              + [Event(Announces(op).value, ToEventRequest(id, e.requests[id]), op.actor.sub.value, NewComment(k, op))])
  }

  lemma OneEventPerCall(d: Dir, k: Desk, op: Op)
    ensures EmitsItsEvent(k, op, Call(d, k, op).0, Call(d, k, op).1)
  {
  }

  // ----- lifecycle

  /** The timestamps and the assignee of a request agree with its status. ASSIGNED does not imply an assignee. */
  ghost predicate Lifecycle(r: Request) {
    && (r.completedAt.Some? <==> r.status == COMPLETED)
    && (r.canceledAt.Some? <==> r.status == CANCELED)
    && (r.assignedAt.Some? <==> r.assignedToUserId.Some?)
    && (r.assignedToUserId.Some? ==> r.status != OPEN)
  }

  /** A request names the organisation of its building, a unit of the building, a creator of the organisation, and
    * as assignee only someone with a STAFF assignment in the building.
    */
  ghost predicate RequestTenancy(d: Dir, r: Request) {
    && BuildingInOrg(d, r.buildingId, r.orgId)
    && UnitInBuilding(d, r.unitId, r.buildingId)
    && r.createdByUserId < |d.users| && d.users[r.createdByUserId].orgId == Some(r.orgId)
    && (r.assignedToUserId.Some? ==> IsStaff(d, r.orgId, r.buildingId, r.assignedToUserId.value))
  }

  ghost predicate IsStaff(d: Dir, orgId: Id, buildingId: Id, userId: Id) {
    && Assignment(buildingId, userId, STAFF) in d.assignments
    && userId < |d.users| && d.users[userId].orgId == Some(orgId)
  }

  /** An event is about a stored request and names its fixed fields. */
  ghost predicate EventTenancy(d: Dir, k: Desk, ev: Event) {
    && ev.request.id < |k.requests|
    && var r := k.requests[ev.request.id];
       && ev.request.orgId == r.orgId && ev.request.buildingId == r.buildingId
       && ev.request.createdByUserId == r.createdByUserId
       && (ev.request.assignedToUserId.Some? ==> IsStaff(d, r.orgId, r.buildingId, ev.request.assignedToUserId.value))
  }

  ghost predicate DeskValid(d: Dir, k: Desk) {
    && (forall i :: 0 <= i < |k.requests| ==> Lifecycle(k.requests[i]) && RequestTenancy(d, k.requests[i]))
    && (forall i :: 0 <= i < |k.events| ==> EventTenancy(d, k, k.events[i]))
  }

  function Rank(s: Status): nat {
    match s
    case OPEN => 0
    case ASSIGNED => 1
    case IN_PROGRESS => 2
    case COMPLETED => 3
    case CANCELED => 3
  }

  /** What may become of a request: the status only moves up in rank, title and description are frozen once it has left
    * OPEN, the assignee once it has left ASSIGNED, and everything once it is closed.
    */
  ghost predicate Later(r: Request, s: Request) {
    && s.orgId == r.orgId && s.buildingId == r.buildingId && s.unitId == r.unitId
    && s.createdByUserId == r.createdByUserId && s.requestType == r.requestType && s.priority == r.priority
    && (s.status == r.status || Rank(r.status) < Rank(s.status))
    && (r.status != OPEN ==> s.title == r.title && s.description == r.description)
    && (r.assignedToUserId.Some? ==> s.assignedToUserId.Some?)
    && (Rank(r.status) >= 2 ==> s.assignedToUserId == r.assignedToUserId && s.assignedAt == r.assignedAt)
    && (Closed(r.status) ==> s == r)
  }

  /** What may become of the tables: nothing is deleted, requests only move on, and closed requests get no attachments. */
  ghost predicate DeskLater(k: Desk, e: Desk) {
    && |k.requests| <= |e.requests|
    && (forall i :: 0 <= i < |k.requests| ==> Later(k.requests[i], e.requests[i]))
    && k.comments <= e.comments && k.attachments <= e.attachments && k.events <= e.events
    && (forall j :: |k.attachments| <= j < |e.attachments| ==> NotClosed(k, e.attachments[j].requestId))
  }

  ghost predicate NotClosed(k: Desk, id: Id) {
    id < |k.requests| ==> !Closed(k.requests[id].status)
  }

  lemma DeskLaterTransitive(a: Desk, b: Desk, c: Desk)
    requires DeskLater(a, b) && DeskLater(b, c)
    ensures DeskLater(a, c)
  {
    forall i | 0 <= i < |a.requests| ensures Later(a.requests[i], c.requests[i]) {
      assert Later(a.requests[i], b.requests[i]) && Later(b.requests[i], c.requests[i]);
    }
    forall j | |a.attachments| <= j < |c.attachments| ensures NotClosed(a, c.attachments[j].requestId) {
      var id := c.attachments[j].requestId;
      if j < |b.attachments| {
        assert c.attachments[j] == b.attachments[j];
      } else if id < |a.requests| {
        assert NotClosed(b, id) && Later(a.requests[id], b.requests[id]);
      }
    }
  }

  // ----- every call keeps them

  /** A call touches one request: it adds it or moves it on, and files go to it only while it is not closed. */
  ghost predicate OneChange(k: Desk, e: Desk, id: Id) {
    Frame(k, e, id) && MovesOn(k, e, id) && Appends(k, e, id)
  }

  ghost predicate Frame(k: Desk, e: Desk, id: Id) {
    && id <= |k.requests| && id < |e.requests|
    && e.requests == (if id < |k.requests| then k.requests[id := e.requests[id]] else k.requests + [e.requests[id]])
  }

  ghost predicate MovesOn(k: Desk, e: Desk, id: Id) {
    id < |k.requests| && id < |e.requests| ==> Later(k.requests[id], e.requests[id])
  }

  ghost predicate Appends(k: Desk, e: Desk, id: Id) {
    && k.comments <= e.comments && k.events <= e.events && k.attachments <= e.attachments
    && (k.attachments < e.attachments ==> NotClosed(k, id))
    && (forall j :: |k.attachments| <= j < |e.attachments| ==> e.attachments[j].requestId == id)
  }

  lemma CallFrame(d: Dir, k: Desk, op: Op)
    requires Call(d, k, op).1.Ok?
    ensures Frame(k, Call(d, k, op).0, Subject(k, op))
  {
  }

  lemma CallLater(d: Dir, k: Desk, op: Op)
    requires Call(d, k, op).1.Ok?
    ensures MovesOn(k, Call(d, k, op).0, Subject(k, op))
  {
  }

  lemma CallAppends(d: Dir, k: Desk, op: Op)
    requires Call(d, k, op).1.Ok?
    ensures Appends(k, Call(d, k, op).0, Subject(k, op))
  {
    assert Call(d, k, op).0.attachments == k.attachments
      + if op.OpCreate? then AttachmentRows(Subject(k, op), op.actor.orgId.value, op.actor.sub.value, op.dto.files)
        else if op.OpAttach? then AttachmentRows(Subject(k, op), op.actor.orgId.value, op.actor.sub.value, op.files)
        else [];
  }

  lemma CallChangesOne(d: Dir, k: Desk, op: Op)
    requires Call(d, k, op).1.Ok?
    ensures OneChange(k, Call(d, k, op).0, Subject(k, op))
  {
    CallFrame(d, k, op);
    CallLater(d, k, op);
    CallAppends(d, k, op);
  }

  /** Only an assignment touches the assignee and the time of assignment. */
  ghost predicate HasAssigneeAfter(k: Desk, op: Op, e: Desk) {
    var id := Subject(k, op);
    && id < |e.requests|
    && var r := e.requests[id];
       if op.OpAssign? then r.assignedToUserId == Some(op.staffUserId) && r.assignedAt == Some(op.now)
       else if id < |k.requests| then
         r.assignedToUserId == k.requests[id].assignedToUserId && r.assignedAt == k.requests[id].assignedAt
       else r.assignedToUserId.None? && r.assignedAt.None?
  }

  lemma AssigneeAfter(d: Dir, k: Desk, op: Op)
    requires Call(d, k, op).1.Ok?
    ensures HasAssigneeAfter(k, op, Call(d, k, op).0)
  {
  }

  /** Every call moves requests only forward, deletes nothing, and attaches nothing to a closed request; a successful
    * one touches only the request it is about, and the assignee only if it is an assignment.
    */
  lemma CallMovesOn(d: Dir, k: Desk, op: Op)
    ensures DeskLater(k, Call(d, k, op).0)
    ensures Call(d, k, op).1.Ok? ==>
      OneChange(k, Call(d, k, op).0, Subject(k, op)) && HasAssigneeAfter(k, op, Call(d, k, op).0)
  {
    OneEventPerCall(d, k, op);
    if Call(d, k, op).1.Ok? {
      CallChangesOne(d, k, op);
      AssigneeAfter(d, k, op);
    }
  }

  ghost predicate Kept(d: Dir, e: Desk, id: Id) {
    id < |e.requests| && Lifecycle(e.requests[id]) && RequestTenancy(d, e.requests[id])
  }

  /** The touched request keeps or gets its lifecycle and tenancy. */
  lemma SubjectKeeps(d: Dir, k: Desk, op: Op)
    requires Valid(d) && Call(d, k, op).1.Ok?
    requires Subject(k, op) < |k.requests| ==> Kept(d, k, Subject(k, op))
    ensures Kept(d, Call(d, k, op).0, Subject(k, op))
  {
    if op.OpCreate? {
      var o := d.occupancies[FindActive(d.occupancies, ActiveWhere(None, Some(op.actor.sub.value))).value];
      assert OccupancyTenancy(d, o);
    }
  }

  lemma ChangeKeeps(d: Dir, k: Desk, op: Op, e: Desk, r: Result<()>)
    requires DeskValid(d, k) && EmitsItsEvent(k, op, e, r)
    requires r.Ok? ==> OneChange(k, e, Subject(k, op)) && Kept(d, e, Subject(k, op))
    ensures DeskValid(d, e)
  {
    forall i | 0 <= i < |e.events| ensures EventTenancy(d, e, e.events[i]) {
      if i < |k.events| {
        assert EventTenancy(d, k, k.events[i]);
      }
    }
  }

  /** Every call keeps the lifecycle of every request and the tenancy of requests and events. */
  lemma CallKeeps(d: Dir, k: Desk, op: Op)
    requires Valid(d) && DeskValid(d, k)
    ensures DeskValid(d, Call(d, k, op).0)
  {
    var (e, r) := Call(d, k, op);
    OneEventPerCall(d, k, op);
    if r.Ok? {
      CallChangesOne(d, k, op);
      SubjectKeeps(d, k, op);
    }
    ChangeKeeps(d, k, op, e, r);
  }

  /** The directory may evolve under the requests. */
  lemma DirectoryEvolves(d: Dir, e: Dir, k: Desk)
    requires Evolves(d, e) && DeskValid(d, k)
    ensures DeskValid(e, k)
  {
    forall u: Id, orgId: Id | u < |d.users| && d.users[u].orgId == Some(orgId)
      ensures u < |e.users| && e.users[u].orgId == Some(orgId)
    {
      assert UserEvolves(d.users[u], e.users[u]);
    }
    forall i | 0 <= i < |k.requests| ensures RequestTenancy(e, k.requests[i]) {
      assert RequestTenancy(d, k.requests[i]);
    }
    forall i | 0 <= i < |k.events| ensures EventTenancy(e, k, k.events[i]) {
      assert EventTenancy(d, k, k.events[i]);
    }
  }

  // ----- who has an assignee

  ghost predicate Concerns(ev: Event, kind: EventKind, id: Id) {
    ev.kind == kind && ev.request.id == id
  }

  ghost predicate Announced(events: seq<Event>, kind: EventKind, id: Id) {
    exists i :: 0 <= i < |events| && Concerns(events[i], kind, id)
  }

  /** The status alone does not tell whether a request has an assignee; the events do: it has one exactly when an
    * assignment of it was announced.
    */
  ghost predicate AssigneeIffAnnounced(k: Desk) {
    && (forall i :: 0 <= i < |k.events| ==> k.events[i].request.id < |k.requests|)
    && forall id :: 0 <= id < |k.requests| ==>
         (k.requests[id].assignedToUserId.Some? <==> Announced(k.events, Assigned, id))
  }

  lemma AnnouncedNext(events: seq<Event>, ev: Event, kind: EventKind, id: Id)
    ensures Announced(events + [ev], kind, id) <==> Announced(events, kind, id) || Concerns(ev, kind, id)
  {
    var after := events + [ev];
    assert after[|events|] == ev;
    if i :| 0 <= i < |events| && Concerns(events[i], kind, id) {
      assert Concerns(after[i], kind, id);
    }
  }

  lemma AnnouncementsAgree(k: Desk, op: Op, e: Desk, r: Result<()>)
    requires AssigneeIffAnnounced(k) && r.Ok? && EmitsItsEvent(k, op, e, r) && OneChange(k, e, Subject(k, op))
    requires HasAssigneeAfter(k, op, e)
    ensures AssigneeIffAnnounced(e)
  {
    if Announces(op).Some? {
      var id, ev := Subject(k, op), e.events[|k.events|];
      assert e.events == k.events + [ev];
      forall other: Id | other < |e.requests|
        ensures e.requests[other].assignedToUserId.Some? <==> Announced(e.events, Assigned, other)
      {
        AnnouncedNext(k.events, ev, Assigned, other);
        assert Concerns(ev, Assigned, other) <==> op.OpAssign? && other == id;
      }
    }
  }

  lemma CallKeepsAnnouncements(d: Dir, k: Desk, op: Op)
    requires AssigneeIffAnnounced(k)
    ensures AssigneeIffAnnounced(Call(d, k, op).0)
  {
    OneEventPerCall(d, k, op);
    if Call(d, k, op).1.Ok? {
      CallChangesOne(d, k, op);
      AssigneeAfter(d, k, op);
      AnnouncementsAgree(k, op, Call(d, k, op).0, Call(d, k, op).1);
    }
  }

  /** Every ASSIGNED request has an assignee. */
  ghost predicate AssignedHaveAssignees(k: Desk) {
    forall i :: 0 <= i < |k.requests| && k.requests[i].status == ASSIGNED ==> k.requests[i].assignedToUserId.Some?
  }

  ghost predicate StatusIs(k: Desk, op: Op, e: Desk) {
    var id := Subject(k, op);
    && id < |e.requests|
    && var s := e.requests[id].status;
       if op.OpAssign? then s == ASSIGNED
       else if op.OpSetStatus? then
         s == op.status && id < |k.requests| && (s == ASSIGNED ==> k.requests[id].status == OPEN)
       else s == ASSIGNED ==> id < |k.requests| && k.requests[id].status == ASSIGNED
  }

  lemma StatusAfter(d: Dir, k: Desk, op: Op)
    requires Call(d, k, op).1.Ok?
    ensures StatusIs(k, op, Call(d, k, op).0)
  {
  }

  lemma AssigneesAfter(k: Desk, op: Op, e: Desk)
    requires AssignedHaveAssignees(k) && forall i :: 0 <= i < |k.requests| ==> Lifecycle(k.requests[i])
    requires OneChange(k, e, Subject(k, op)) && HasAssigneeAfter(k, op, e) && StatusIs(k, op, e)
    ensures AssignedHaveAssignees(e) <==> !(op.OpSetStatus? && op.status == ASSIGNED)
  {
    var id := Subject(k, op);
    assert id < |k.requests| ==> Lifecycle(k.requests[id]);
    assert e.requests[id].status == ASSIGNED ==> (AssignedHaveAssignees(e) ==> e.requests[id].assignedToUserId.Some?);
  }

  /** A call keeps that every ASSIGNED request has an assignee, if and only if it is no successful use of the status
    * endpoint with ASSIGNED; `StatusAllowedIff` says when that succeeds.
    */
  lemma AssigneesKeptIff(d: Dir, k: Desk, op: Op)
    requires DeskValid(d, k) && AssignedHaveAssignees(k)
    ensures AssignedHaveAssignees(Call(d, k, op).0) <==>
      !(op.OpSetStatus? && op.status == ASSIGNED && Call(d, k, op).1.Ok?)
  {
    OneEventPerCall(d, k, op);
    if Call(d, k, op).1.Ok? {
      CallChangesOne(d, k, op);
      AssigneeAfter(d, k, op);
      StatusAfter(d, k, op);
      AssigneesAfter(k, op, Call(d, k, op).0);
    }
  }

  /** ASSIGNED does not imply an assignee: anyone but staff may take an OPEN request to ASSIGNED through the status
    * endpoint, and then nobody is assigned.
    */
  lemma StatusWithoutAssignee(d: Dir, k: Desk, actor: Actor, buildingId: Id, id: Id, now: Time)
    requires CallerIn(d, actor, buildingId).Ok? && CallerIn(d, actor, buildingId).value != Some(STAFF)
    requires IsInBuilding(k, actor.orgId.value, buildingId, id)
    requires k.requests[id].status == OPEN && Lifecycle(k.requests[id])
    ensures var (e, r) := UpdateRequestStatus(d, k, actor, buildingId, id, ASSIGNED, now);
      r.Ok? && e.requests[id].status == ASSIGNED && e.requests[id].assignedToUserId.None?
  {
  }

  ghost function ExampleDirectory(): Dir {
    var users := [User("r@x.org", "Resident", Some(0), true), User("m@x.org", "Manager", Some(0), true)];
    Dir([Building(0)], [Unit(0, "A-101")], users, map[], {}, {Assignment(0, 1, MANAGER)}, [], [], {})
  }

  ghost function ExampleDesk(): Desk {
    Desk([Request(0, 0, 0, 0, "Leak", None, None, None, OPEN, None, None, None, None)], [], [], [])
  }

  lemma ExampleIsValid()
    ensures Valid(ExampleDirectory()) && DeskValid(ExampleDirectory(), ExampleDesk())
  {
    assert AssignmentTenancy(ExampleDirectory(), Assignment(0, 1, MANAGER));
  }

  /** A valid state in which the manager does so. */
  lemma AssignedWithoutAssignee()
    ensures Valid(ExampleDirectory()) && DeskValid(ExampleDirectory(), ExampleDesk())
    ensures var (e, r) := UpdateRequestStatus(ExampleDirectory(), ExampleDesk(), Actor(Some(1), Some(0)), 0, 0, ASSIGNED, 0);
      r.Ok? && |e.requests| == 1 && e.requests[0].status == ASSIGNED && e.requests[0].assignedToUserId.None?
  {
    ExampleIsValid();
    AssignmentTypeIsStrongest(ExampleDirectory(), 0, 1, STAFF);
    StatusWithoutAssignee(ExampleDirectory(), ExampleDesk(), Actor(Some(1), Some(0)), 0, 0, 0);
  }

  // ----- who may do what

  /** A resident can file a request exactly when some occupancy of theirs is ACTIVE and their token names their own
    * organisation.
    */
  lemma CreateAllowedIff(d: Dir, k: Desk, actor: Actor, dto: NewRequest)
    requires Valid(d) && Caller(actor).Ok?
    ensures CreateResidentRequest(d, k, actor, dto).1.Ok? <==>
      && (exists o :: o in d.occupancies && o.status == ACTIVE && o.residentUserId == actor.sub.value)
      && actor.sub.value < |d.users| && d.users[actor.sub.value].orgId == actor.orgId
  {
    var w := ActiveWhere(None, actor.sub);
    var found := FindActive(d.occupancies, w);
    if found.Some? {
      var o := d.occupancies[found.value];
      assert o in d.occupancies && OccupancyTenancy(d, o);
    } else {
      forall o | o in d.occupancies ensures !w.Matches(o) {
        var i :| 0 <= i < |d.occupancies| && d.occupancies[i] == o;
      }
    }
  }

  /** The STAFF assignment is the user's only one in the building. */
  predicate OnlyStaff(d: Dir, buildingId: Id, userId: Id) {
    && Assignment(buildingId, userId, STAFF) in d.assignments
    && Assignment(buildingId, userId, MANAGER) !in d.assignments
    && Assignment(buildingId, userId, BUILDING_ADMIN) !in d.assignments
  }

  predicate Unassigned(d: Dir, buildingId: Id, userId: Id) {
    && Assignment(buildingId, userId, STAFF) !in d.assignments
    && Assignment(buildingId, userId, MANAGER) !in d.assignments
    && Assignment(buildingId, userId, BUILDING_ADMIN) !in d.assignments
  }

  lemma HeldByCaller(d: Dir, actor: Actor, buildingId: Id)
    requires CallerIn(d, actor, buildingId).Ok?
    ensures CallerIn(d, actor, buildingId).value == Some(STAFF) <==> OnlyStaff(d, buildingId, actor.sub.value)
    ensures CallerIn(d, actor, buildingId).value == None <==> Unassigned(d, buildingId, actor.sub.value)
  {
    AssignmentTypeIsStrongest(d, buildingId, actor.sub.value, STAFF);
    var held := GetBuildingAssignmentType(d, buildingId, actor.sub.value);
    if held.Some? {
      AssignmentTypeIsStrongest(d, buildingId, actor.sub.value, held.value);
    }
  }

  /** A request of the building, for a caller of the building's organisation. */
  predicate Reaches(d: Dir, k: Desk, actor: Actor, buildingId: Id, id: Id) {
    && actor.sub.Some? && actor.orgId.Some?
    && BuildingInOrg(d, buildingId, actor.orgId.value)
    && IsInBuilding(k, actor.orgId.value, buildingId, id)
  }

  lemma AssignAllowedIff(d: Dir, k: Desk, actor: Actor, buildingId: Id, id: Id, staffUserId: Id, now: Time)
    ensures AssignRequest(d, k, actor, buildingId, id, staffUserId, now).1.Ok? <==>
      && Reaches(d, k, actor, buildingId, id)
      && !OnlyStaff(d, buildingId, actor.sub.value)
      && k.requests[id].status in {OPEN, ASSIGNED}
      && staffUserId < |d.users| && d.users[staffUserId].isActive && d.users[staffUserId].orgId == actor.orgId
      && Assignment(buildingId, staffUserId, STAFF) in d.assignments
  {
    if CallerIn(d, actor, buildingId).Ok? {
      HeldByCaller(d, actor, buildingId);
    }
  }

  lemma StatusAllowedIff(d: Dir, k: Desk, actor: Actor, buildingId: Id, id: Id, status: Status, now: Time)
    ensures UpdateRequestStatus(d, k, actor, buildingId, id, status, now).1.Ok? <==>
      && Reaches(d, k, actor, buildingId, id)
      && (OnlyStaff(d, buildingId, actor.sub.value) ==> k.requests[id].assignedToUserId == actor.sub)
      && Rank(status) == Rank(k.requests[id].status) + 1 && status != CANCELED
  {
    if CallerIn(d, actor, buildingId).Ok? {
      HeldByCaller(d, actor, buildingId);
    }
  }

  lemma CancelAllowedIff(d: Dir, k: Desk, actor: Actor, effective: set<string>, buildingId: Id, id: Id, now: Time)
    ensures CancelBuildingRequest(d, k, actor, effective, buildingId, id, now).1.Ok? <==>
      && Reaches(d, k, actor, buildingId, id)
      && !OnlyStaff(d, buildingId, actor.sub.value)
      && (Unassigned(d, buildingId, actor.sub.value) ==> "requests.update_status" in effective)
      && Rank(k.requests[id].status) < 3
  {
    if CallerIn(d, actor, buildingId).Ok? {
      HeldByCaller(d, actor, buildingId);
    }
  }

  /** A successful call stays in the caller's organisation; the resident's calls stay with their own requests; and
    * someone who is only STAFF in the building neither assigns nor cancels and touches only requests assigned to them.
    */
  lemma CallerScope(d: Dir, k: Desk, op: Op)
    requires Call(d, k, op).1.Ok? && !op.OpCreate?
    ensures op.id < |k.requests| && op.actor.sub.Some? && Some(k.requests[op.id].orgId) == op.actor.orgId
    ensures op.OpEdit? || op.OpCancelOwn? || op.OpCommentOwn? ==> k.requests[op.id].createdByUserId == op.actor.sub.value
    ensures op.OpAssign? || op.OpSetStatus? || op.OpCancel? || op.OpComment? || op.OpAttach? ==>
      && k.requests[op.id].buildingId == op.buildingId
      && (GetBuildingAssignmentType(d, op.buildingId, op.actor.sub.value) == Some(STAFF) ==>
           !op.OpAssign? && !op.OpCancel? && k.requests[op.id].assignedToUserId == op.actor.sub)
  {
  }

  // ----- what every call promises

  /** Requests move on, and integrity is kept. */
  ghost predicate Promised(d: Dir, k: Desk, e: Desk) {
    DeskLater(k, e) && (Valid(d) && DeskValid(d, k) ==> DeskValid(d, e))
  }

  lemma CallPromises(d: Dir, k: Desk, op: Op, e: Desk)
    requires e == Call(d, k, op).0
    ensures Promised(d, k, e)
  {
    CallMovesOn(d, k, op);
    if Valid(d) && DeskValid(d, k) {
      CallKeeps(d, k, op);
    }
  }

  lemma CreatePromises(d: Dir, k: Desk, actor: Actor, dto: NewRequest)
    ensures Promised(d, k, CreateResidentRequest(d, k, actor, dto).0)
  {
    CallPromises(d, k, OpCreate(actor, dto),
                 CreateResidentRequest(d, k, actor, dto).0);
  }

  lemma UpdatePromises(d: Dir, k: Desk, actor: Actor, id: Id, title: Field, description: Field)
    ensures Promised(d, k, UpdateResidentRequest(k, actor, id, title, description).0)
  {
    CallPromises(d, k, OpEdit(actor, id, title, description),
                 UpdateResidentRequest(k, actor, id, title, description).0);
  }

  lemma CancelOwnPromises(d: Dir, k: Desk, actor: Actor, id: Id, now: Time)
    ensures Promised(d, k, CancelResidentRequest(k, actor, id, now).0)
  {
    CallPromises(d, k, OpCancelOwn(actor, id, now),
                 CancelResidentRequest(k, actor, id, now).0);
  }

  lemma CommentOwnPromises(d: Dir, k: Desk, actor: Actor, id: Id, message: string)
    ensures Promised(d, k, AddResidentComment(k, actor, id, message).0)
  {
    CallPromises(d, k, OpCommentOwn(actor, id, message),
                 AddResidentComment(k, actor, id, message).0);
  }

  lemma AssignPromises(d: Dir, k: Desk, actor: Actor, buildingId: Id, id: Id, staffUserId: Id, now: Time)
    ensures Promised(d, k, AssignRequest(d, k, actor, buildingId, id, staffUserId, now).0)
  {
    CallPromises(d, k, OpAssign(actor, buildingId, id, staffUserId, now),
                 AssignRequest(d, k, actor, buildingId, id, staffUserId, now).0);
  }

  lemma StatusPromises(d: Dir, k: Desk, actor: Actor, buildingId: Id, id: Id, status: Status, now: Time)
    ensures Promised(d, k, UpdateRequestStatus(d, k, actor, buildingId, id, status, now).0)
  {
    CallPromises(d, k, OpSetStatus(actor, buildingId, id, status, now),
                 UpdateRequestStatus(d, k, actor, buildingId, id, status, now).0);
  }

  lemma CancelPromises(d: Dir, k: Desk, actor: Actor, effective: set<string>, buildingId: Id, id: Id, now: Time)
    ensures Promised(d, k, CancelBuildingRequest(d, k, actor, effective, buildingId, id, now).0)
  {
    CallPromises(d, k, OpCancel(actor, effective, buildingId, id, now),
                 CancelBuildingRequest(d, k, actor, effective, buildingId, id, now).0);
  }

  lemma CommentPromises(d: Dir, k: Desk, actor: Actor, buildingId: Id, id: Id, message: string)
    ensures Promised(d, k, AddBuildingComment(d, k, actor, buildingId, id, message).0)
  {
    CallPromises(d, k, OpComment(actor, buildingId, id, message),
                 AddBuildingComment(d, k, actor, buildingId, id, message).0);
  }

  lemma AttachPromises(d: Dir, k: Desk, actor: Actor, buildingId: Id, id: Id, files: seq<File>)
    ensures Promised(d, k, AddBuildingAttachments(d, k, actor, buildingId, id, files).0)
  {
    CallPromises(d, k, OpAttach(actor, buildingId, id, files),
                 AddBuildingAttachments(d, k, actor, buildingId, id, files).0);
  }
}
