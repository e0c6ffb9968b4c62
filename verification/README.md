# A verified model of the property management backend

The backend keeps buildings, units, users, occupancies and maintenance requests of several organisations in one
database, and notifies people about requests. This project models the parts of it that hold state, loops or
arithmetic, and proves what they are for.

- **Directory** (`Tables`, `Database`, `Provisioning`, `OrgUsersProvisionService`, `Occupancy`, `Units`,
  `DirectoryServices`, `ProvisioningOutcomes`, `DirectoryOutcomes`). The tables, every operation that writes
  occupancies, assignments, role rows or amenity links, and one integrity predicate that all of them keep: at most one
  ACTIVE occupancy per unit (which no database constraint says), everything a row refers to lies in the same
  organisation or building, and `endAt` is set exactly on ENDED rows.
- **Provisioning under concurrency** (`ProvisionInterleaving`, `ProvisionMoves`, `ProvisionSchedules`,
  `ProvisionAlone`). Any number of `provision` transactions, interleaved statement by statement under READ COMMITTED
  with the row lock of the unit; one that runs alone does what the sequential function does.
- **Requests** (`Requests`, `RequestOutcomes`, `MaintenanceRequestsService`). The status machine, who may do what, and the
  events.
- **Notifications** (`Recipients`, `NotificationsListener`, `Inbox`, `InboxOutcomes`, `NotificationsService`, `Notifications`,
  `Paging`, `ListingOutcomes`, `Cursor`, `CursorOutcomes`). Who is notified, the states of a notification, the client
  replica fed by published events, and keyset paging by an opaque cursor while the table changes.
- **Access** (`AccessControl`, `BuildingAccess`) and **metrics** (`Metrics`).
- **Runs of the whole service** (`System`). Runs that mix every operation above, with events delivered once and in any
  order, and what holds in every state such a run reaches.

What each operation does is stated twice: as a function, and in the `...Outcomes` modules, independently of it, in terms of
the stored fields: exactly when it succeeds, what every row is afterwards, and what is announced.

Services that write are `class`es or methods over a class of tables, proved equal to functions on the table contents;
the theorems are about those functions. A transaction that throws restores the tables it started from.

Identifiers of users, buildings, units, occupancies, amenities and requests are positions in their tables, which only
grow. Time, new notification ids and the set of effective permissions that a call uses are parameters.

Three claims are false of the code, and are stated as what does hold:

- A MOVE grant leaves its user exactly one ACTIVE occupancy in the building, on the target unit, when calls do not
  overlap (`MoveLeavesOne`). Interleaved, the unit lock does not give that. After the schedule of `MoveMissesALaterRow` the
  user has two; after that of `MovesEndEachOther`, two moves that end each other's target, the user has none. It holds
  if and only if the update ended every other committed row of the user in the building and the row found on the
  target unit is still ACTIVE (`MoveIsExclusiveIff`); that is, unless a transaction of the same user for another unit
  has committed one of two things in the meantime (`MoveIsExclusiveBySchedule`): a row in the building after the search,
  still ACTIVE, or the end of the row that the check found.
- ASSIGNED does not imply an assignee (`StatusWithoutAssignee`, and `AssignedWithoutAssignee` for a valid state). A call
  keeps it if and only if it is no successful use of the status endpoint with ASSIGNED (`AssigneesKeptIff`), and a request
  has an assignee exactly when an assignment of it was announced (`CallKeepsAnnouncements`).
- Creating a building assignment is two statements without a transaction, so a failing call may leave a row behind:
  `AssignmentAtomicIff` says exactly when it does not.

Where documentation and code differ, the model follows the code. The repository's README (lines 261-265) says that a
comment notifies "the other side", an assignment the resident and the staff member, and a status change the resident;
the code notifies the creator, the assignee and the operations recipients in all three cases, without the actor. A
cancellation by the building's side emits the same event as one by the resident. The provisioning options `atomic` and
`idempotent` are accepted and never read: every call behaves as if both were set, and in mode `ERROR` the repeated call
answers 409 while changing nothing. The same README (line 256) gives the cursor of a listing as an id;
it is the encoded pair of time and id, as docs/API.md (line 454) says.

## Model

| member | source | states |
|---|---|---|
| Provisioning.ProvisionKeepsIntegrity | src/modules/users/org-users-provision.service.ts:56-165 | Every outcome of `provision`, for every payload and actor, keeps the integrity of the directory; users only gain an organisation, occupancies only end |
| Provisioning.ProvisionIdempotent | src/modules/users/org-users-provision.service.ts:56-165 | Two calls leave the tables of one, for every payload and state, at whatever times, and also if the actor's rights changed between two calls of which the first succeeded |
| Provisioning.ProvisionRepeats | src/modules/users/org-users-provision.service.ts:73-126 | In LINK mode the repeated call succeeds with the same user and occupancy, reported as linked instead of created |
| Provisioning.ResolvedUser | src/modules/users/org-users-provision.service.ts:70-126 | The target is an active user of the organisation, is created exactly if the normalised email finds nobody, and is whom the email finds from then on |
| Provisioning.RightsGranted | src/modules/users/org-users-provision.service.ts:252-345 | A role row or assignment exists afterwards exactly if it existed before or the payload asks for it (admin role included for a BUILDING_ADMIN); duplicates and blanks in the payload do not matter |
| Provisioning.GrantTouchesTarget | src/modules/users/org-users-provision.service.ts:70-165 | No user but the target changes and at most one is created; buildings, units, roles and amenities stay |
| Provisioning.GrantOnOccupancies | src/modules/users/org-users-provision.service.ts:347-423 | A successful call with a resident grant changes the occupancies as the grant says and nothing else |
| Provisioning.MoveLeavesOne | src/modules/users/org-users-provision.service.ts:373-416 | After a MOVE the returned row is the user's one ACTIVE occupancy in the building, on the target unit |
| Provisioning.ManagerFrame | src/modules/users/org-users-provision.service.ts:177-250 | Without `users.write` no role row and no existing user changes, no BUILDING_ADMIN assignment appears, and every assignment or occupancy touched lies in a building the actor manages or administers |
| ProvisioningOutcomes.TrimStrips | src/modules/users/org-users-provision.service.ts:425-435 | Trimming removes the blanks at both ends of a text and nothing else |
| ProvisioningOutcomes.ExistingTarget | src/modules/users/org-users-provision.service.ts:77-101 | When the email is taken up to case: exactly who may be linked, with which change of the user row and which error |
| ProvisioningOutcomes.NewTarget | src/modules/users/org-users-provision.service.ts:102-126 | When the email is free: exactly when a user is created, and the whole new row |
| ProvisioningOutcomes.AdmittedIff | src/modules/users/org-users-provision.service.ts:45-68 | A call gets past the gate exactly if it asks for no `super_admin` and the actor has `users.write` or asks for what a manager may grant, in terms of stored assignments; with the error |
| ProvisioningOutcomes.OldRowAfterGrant | src/modules/users/org-users-provision.service.ts:392-405 | An old occupancy row changes exactly if the grant is a MOVE and the row is an ACTIVE one of the same user, in the building, on another unit; then it keeps its parties and is ENDED now |
| ProvisioningOutcomes.AddChangesNoRow | src/modules/users/org-users-provision.service.ts:392-405 | An ADD, or no resident grant, changes no old row |
| ProvisioningOutcomes.NewRowAfterGrant | src/modules/users/org-users-provision.service.ts:373-416 | At most one row is appended, exactly when the unit had no ACTIVE one, and it is the user's ACTIVE row on the unit; otherwise the reply names the user's row on the unit |
| ProvisioningOutcomes.ResidentGrantIff | src/modules/users/org-users-provision.service.ts:357-379 | A resident grant succeeds exactly for a unit of a building of the organisation that nobody else holds; which error otherwise |
| ProvisioningOutcomes.GrantSucceedsIff | src/modules/users/org-users-provision.service.ts:56-165 | Past the gate a call succeeds exactly if its user, roles, buildings and resident grant do |
| ProvisioningOutcomes.ReplyOfGrant | src/modules/users/org-users-provision.service.ts:151-164 | The reply says whether the user is new and lists the payload's keys and assignments without blanks and duplicates |
| ProvisioningOutcomes.FailureChangesNothing | src/modules/users/org-users-provision.service.ts:56-165 | A call that fails, at the gate or later, leaves every table as it was |
| OrgUsersProvisionService.DedupeAssignments | src/modules/users/org-users-provision.service.ts:437-449 | The loop returns the first occurrence of each grant, in order |
| OrgUsersProvisionService.AssertManagerProvisioningAllowed | src/modules/users/org-users-provision.service.ts:177-250 | The checks and set computations reject exactly what a manager may not grant |
| OrgUsersProvisionService.ApplyBuildingAssignments | src/modules/users/org-users-provision.service.ts:282-322 | The upsert loop adds exactly the listed rows, or fails if some building is not of the organisation |
| OrgUsersProvisionService.ApplyOrgRoles | src/modules/users/org-users-provision.service.ts:252-280 | All role rows are added, or none if a key is unknown |
| OrgUsersProvisionService.EnsureAdminRoleForBuildingAdmins | src/modules/users/org-users-provision.service.ts:324-345 | A BUILDING_ADMIN grant brings the admin role, or fails if it is not configured |
| OrgUsersProvisionService.ApplyResidentGrant | src/modules/users/org-users-provision.service.ts:347-423 | The statements on occupancies do what the specified grant does, with its errors |
| OrgUsersProvisionService.FindOrCreateUser | src/modules/users/org-users-provision.service.ts:70-126 | Find, link or create with every error of the source |
| OrgUsersProvisionService.Provision | src/modules/users/org-users-provision.service.ts:34-166 | One call over the mutable tables: reply and tables are those of the specification, a throw changes nothing, integrity is kept |
| ProvisionInterleaving.OneActiveInEveryCommittedState | src/modules/users/org-users-provision.service.ts:371-416 | For any transactions and any schedule of their statements, no committed state has two ACTIVE occupancies on a unit |
| ProvisionInterleaving.CommittedRowsOnlyEnd | src/modules/users/org-users-provision.service.ts:392-416 | At every step of every schedule committed rows are never deleted or reactivated, end only by a MOVE of their own resident, and new rows go to units vacant until then |
| ProvisionMoves.MoveIsExclusiveIff | src/modules/users/org-users-provision.service.ts:371-416 | In every schedule a committing MOVE leaves its user exactly one ACTIVE row in the building, on the target unit, if and only if its update ended every other committed row of the user there and the row it had found on the unit is still ACTIVE |
| ProvisionMoves.MoveIsExclusiveBySchedule | src/modules/users/org-users-provision.service.ts:371-416 | The same condition as an event of the schedule: it fails exactly when a transaction of the same user for another unit committed a row in the building after the search, still ACTIVE, or committed the end of the row found by the check |
| ProvisionMoves.MoveIsExclusiveWithoutRival | src/modules/users/org-users-provision.service.ts:371-416 | A MOVE does what it is for whenever no such transaction commits between its check and its commit |
| ProvisionSchedules.MoveMissesALaterRow | src/modules/users/org-users-provision.service.ts:371-416 | A schedule of a MOVE and an ADD after which the user has two ACTIVE rows in the building |
| ProvisionSchedules.MovesEndEachOther | src/modules/users/org-users-provision.service.ts:392-416 | A schedule of two MOVEs of one user after which both have committed and the user has no ACTIVE row, although the update of the second had ended every other committed row |
| ProvisionAlone.AloneIsSequential | src/modules/users/org-users-provision.service.ts:371-416 | A transaction nobody interleaves with commits exactly the rows of the sequential grant, or aborts and changes nothing when that is refused |
| Tables.VacantIffNoneFound | src/modules/users/org-users-provision.service.ts:373-379 | The first-match query finds nothing exactly if no ACTIVE row is on the unit |
| Tables.InsertKeeps | src/modules/occupancies/occupancies.repo.ts:13-36 | Inserting after the vacancy check keeps integrity |
| Occupancy.CreateOccupancyKeeps | src/modules/occupancies/occupancies.service.ts:24-55 | Direct creation keeps integrity |
| Occupancy.OnboardKeeps | src/modules/residents/residents.service.ts:25-89 | Onboarding keeps integrity |
| Occupancy.CreateAssignmentKeeps | src/modules/building-assignments/building-assignments.service.ts:25-64 | Assignment creation keeps integrity, also when it fails half way |
| Occupancy.AssignmentAtomicIff | src/modules/building-assignments/building-assignments.service.ts:41-63 | A failing call leaves the tables unchanged exactly if it is no BUILDING_ADMIN, or the admin role exists, or an earlier check rejects it |
| Occupancy.VacantPlusActiveIsTotal | src/modules/units/units.repo.ts:94-109 | With integrity, vacant units plus ACTIVE occupancies are all units of the building |
| Occupancy.BalancedIffOneActive | src/modules/units/units.repo.ts:94-109 | For any occupancies that lie in the building of their unit: that balance holds for every building if and only if no unit has two ACTIVE rows |
| DirectoryServices.CreateActiveIfVacant | src/modules/occupancies/occupancies.repo.ts:8-37 | Check then insert, over the mutable table; integrity is kept if the row lies in its unit's building |
| DirectoryServices.CreateOccupancy | src/modules/occupancies/occupancies.service.ts:24-55 | The guards in their order, then the insert; integrity is kept, whatever the outcome |
| DirectoryServices.Onboard | src/modules/residents/residents.service.ts:25-89 | User, role row and occupancy are created together or not at all; integrity is kept |
| DirectoryServices.CreateAssignment | src/modules/building-assignments/building-assignments.service.ts:25-64 | The row is stored before the role is looked up; integrity is kept even so |
| DirectoryServices.CreateUnit | src/modules/units/units.service.ts:24-78 | Guards, row and links over the mutable tables; links stay in their building |
| DirectoryServices.UpdateUnit | src/modules/units/units.service.ts:118-169 | Guards, label, and deletion and re-creation of links; links stay in their building |
| DirectoryServices.CountVacant | src/modules/units/units.service.ts:196-209 | Total minus vacant in the reply is the number of ACTIVE occupancies of the building |
| DirectoryOutcomes.OccupancyCreated | src/modules/occupancies/occupancies.service.ts:24-55 | An occupancy is created exactly for an active member on a free unit of the organisation; the whole new row, and the error otherwise |
| DirectoryOutcomes.Onboarded | src/modules/residents/residents.service.ts:25-89 | When onboarding succeeds, and the whole new user, role row and occupancy; the error otherwise |
| DirectoryOutcomes.AssignmentCreated | src/modules/building-assignments/building-assignments.service.ts:25-95 | When an assignment succeeds, and exactly which assignment and role rows exist afterwards, also when it fails half way |
| DirectoryOutcomes.UnitCreated | src/modules/units/units.service.ts:24-78 | When a unit is created, with its label and exactly which links |
| DirectoryOutcomes.UnitUpdated | src/modules/units/units.service.ts:118-169 | When a unit is updated, its label afterwards, and exactly which links; other units stay |
| DirectoryOutcomes.UnitCountIs | src/modules/units/units.repo.ts:94-98 | The unit count is the size of the set of the building's units |
| DirectoryOutcomes.VacantCountIs | src/modules/units/units.repo.ts:100-109 | The vacancy count is the size of the set of its units without an ACTIVE occupancy |
| DirectoryOutcomes.ActiveCountIs | src/modules/occupancies/occupancies.repo.ts:53-60 | The active count is the size of the set of its ACTIVE occupancies |
| Units.AmenityIdsPassIff | src/modules/units/units.service.ts:243-260 | Comparing two counts accepts exactly the duplicate-free lists of active amenities of the building |
| Units.DefaultsPass | src/modules/units/units.service.ts:235-241 | The default amenities always pass that check |
| Units.CreateUnitKeeps | src/modules/units/units.service.ts:24-65 | A new unit's links stay in its building |
| Units.UpdateUnitKeeps | src/modules/units/units.service.ts:118-169 | An updated unit's links stay in its building |
| Units.UpdateReplacesLinks | src/modules/units/units.service.ts:155-166 | After an update the unit's links are exactly the listed ones, or as before when the field is omitted or the call fails; other units keep theirs |
| Units.CreateLinks | src/modules/units/units.service.ts:38-62 | A new unit is linked exactly to the listed amenities, or to all active defaults |
| Requests.CallKeeps | src/modules/maintenance-requests/maintenance-requests.service.ts:48-743 | Every call keeps the lifecycle (timestamps and assignee agree with the status) and the tenancy of requests, assignees and events |
| Requests.CallMovesOn | src/modules/maintenance-requests/maintenance-requests.service.ts:396-428 | Every call moves requests only up in rank; text is frozen out of OPEN, the assignee after ASSIGNED, everything when closed; closed requests get no attachments; a call touches one request, and the assignee only if it assigns |
| Requests.DirectoryEvolves | src/modules/maintenance-requests/maintenance-requests.service.ts:403-418 | Whatever happens to the directory, requests keep their tenancy and assignees their STAFF assignment |
| Requests.OneEventPerCall | src/modules/maintenance-requests/maintenance-requests.service.ts:95-98 | A failed call changes nothing; a successful one emits exactly one event of its kind, with the stored request, the caller and the comment written; editing and attaching emit none |
| Requests.CallKeepsAnnouncements | src/modules/maintenance-requests/maintenance-requests.service.ts:420-435 | Every call keeps: a request has an assignee exactly if its assignment was announced |
| Requests.AssigneesKeptIff | src/modules/maintenance-requests/maintenance-requests.constants.ts:9-22 | A call keeps that every ASSIGNED request has an assignee if and only if it is no successful use of the status endpoint with ASSIGNED |
| Requests.StatusWithoutAssignee | src/modules/maintenance-requests/maintenance-requests.constants.ts:13 | Anyone but staff can take any OPEN request to ASSIGNED without an assignee |
| Requests.AssignedWithoutAssignee | src/modules/maintenance-requests/maintenance-requests.constants.ts:13 | A valid state in which that happens |
| Requests.CreateAllowedIff | src/modules/maintenance-requests/maintenance-requests.service.ts:58-65 | A resident can file a request exactly if they have an ACTIVE occupancy and their token names their organisation |
| Requests.AssignAllowedIff | src/modules/maintenance-requests/maintenance-requests.service.ts:364-418 | Exactly when an assignment succeeds, in terms of the stored rows |
| Requests.StatusAllowedIff | src/modules/maintenance-requests/maintenance-requests.service.ts:440-482 | Exactly when a status change succeeds: one rank up, never to CANCELED, and by mere staff only if they are the assignee |
| Requests.CancelAllowedIff | src/modules/maintenance-requests/maintenance-requests.service.ts:506-554 | Exactly when the building's side may cancel |
| Requests.CallerScope | src/modules/maintenance-requests/maintenance-requests.service.ts:130-743 | No call touches another organisation's request; residents touch their own; mere staff neither assign nor cancel and touch only what is assigned to them |
| RequestOutcomes.RequestCreated | src/modules/maintenance-requests/maintenance-requests.service.ts:58-101 | The whole new row, files and event of a new request, and exactly when it is refused |
| RequestOutcomes.WordsAre | src/modules/maintenance-requests/maintenance-requests.service.ts:752-788 | Exactly which words stand for which type and priority |
| RequestOutcomes.Edited | src/modules/maintenance-requests/maintenance-requests.service.ts:130-161 | Exactly when an edit succeeds, and that exactly the given texts replace the stored ones |
| RequestOutcomes.CanceledByResident | src/modules/maintenance-requests/maintenance-requests.service.ts:163-207 | Exactly when the resident may cancel, the row and the event afterwards |
| RequestOutcomes.CommentedByResident | src/modules/maintenance-requests/maintenance-requests.service.ts:209-258 | Exactly when the resident may comment; the comment is stored with author and text, and the event names it |
| RequestOutcomes.AssignedTo | src/modules/maintenance-requests/maintenance-requests.service.ts:362-438 | Exactly when an assignment succeeds, the row and the event afterwards |
| RequestOutcomes.StatusSet | src/modules/maintenance-requests/maintenance-requests.service.ts:440-504 | Exactly the three status changes and who may make them, the row and the event afterwards |
| RequestOutcomes.CanceledByBuilding | src/modules/maintenance-requests/maintenance-requests.service.ts:506-573 | Exactly when the building's side may cancel, the row and the event afterwards |
| RequestOutcomes.CommentedByBuilding | src/modules/maintenance-requests/maintenance-requests.service.ts:575-634 | Exactly when the building's side may comment; the comment is stored and named |
| RequestOutcomes.FilesAttached | src/modules/maintenance-requests/maintenance-requests.service.ts:674-743 | Exactly when files are attached, and each stored attachment |
| RequestOutcomes.CommentsAfterCall | src/modules/maintenance-requests/maintenance-requests.service.ts:237-245 | Comments are added by successful comment calls and by no other call |
| RequestOutcomes.CallKeepsComments | src/modules/maintenance-requests/maintenance-requests.service.ts:250-255 | Every call keeps: exactly comment events name a comment, stored on the event's request by the event's actor |
| MaintenanceRequestsService.MaintenanceDesk.EnterBuilding | src/common/building-access/building-access.service.ts:28-57 | The checks every building endpoint starts with, and the caller's assignment |
| MaintenanceRequestsService.MaintenanceDesk.CreateResidentRequest | src/modules/maintenance-requests/maintenance-requests.service.ts:48-101 | The new tables, event and reply are the specified ones, with every error in its order; requests only move on and integrity is kept |
| MaintenanceRequestsService.MaintenanceDesk.UpdateResidentRequest | src/modules/maintenance-requests/maintenance-requests.service.ts:130-161 | The same, for editing: only while OPEN, falling back to the stored text |
| MaintenanceRequestsService.MaintenanceDesk.CancelResidentRequest | src/modules/maintenance-requests/maintenance-requests.service.ts:163-207 | The same, for canceling one's own request |
| MaintenanceRequestsService.MaintenanceDesk.AddResidentComment | src/modules/maintenance-requests/maintenance-requests.service.ts:209-258 | The same, for commenting on one's own open request |
| MaintenanceRequestsService.MaintenanceDesk.AssignRequest | src/modules/maintenance-requests/maintenance-requests.service.ts:362-438 | The same, for assigning |
| MaintenanceRequestsService.MaintenanceDesk.UpdateRequestStatus | src/modules/maintenance-requests/maintenance-requests.service.ts:440-504 | The same, for the status endpoint |
| MaintenanceRequestsService.MaintenanceDesk.CancelBuildingRequest | src/modules/maintenance-requests/maintenance-requests.service.ts:506-573 | The same, for canceling by the building's side |
| MaintenanceRequestsService.MaintenanceDesk.AddBuildingComment | src/modules/maintenance-requests/maintenance-requests.service.ts:575-634 | The same, for comments by the building's side, also on closed requests |
| MaintenanceRequestsService.MaintenanceDesk.AddBuildingAttachments | src/modules/maintenance-requests/maintenance-requests.service.ts:674-743 | The same, for attachments |
| Recipients.SomeoneIsNotified | src/modules/notifications/notification-recipient.resolver.ts:134-140 | Recipients are never empty, and contain the actor exactly if nobody else is concerned, and then only the actor |
| Recipients.RecipientsStayInOrg | src/modules/notifications/notification-recipient.resolver.ts:100-132 | Except for the actor every recipient belongs to the organisation of the request |
| Recipients.OpsHearOfEverything | src/modules/notifications/notification-recipient.resolver.ts:89-98 | The operations recipients hear of every event; they are the active managers and admins of the building, and organisation admins exactly if there are none |
| Recipients.CreatorHears | src/modules/notifications/notification-recipient.resolver.ts:20-87 | When the creator is notified about somebody else's action, for each kind of event |
| Recipients.NotifiedIff | src/modules/notifications/notification-recipient.resolver.ts:9-140 | For every kind of event and everybody but the actor, exactly who is notified, from the event's fields and who is in charge |
| Recipients.OpsAreInCharge | src/modules/notifications/notification-recipient.resolver.ts:89-132 | Exactly who is in charge, in terms of stored users, assignments and role rows |
| Recipients.NotificationIs | src/modules/notifications/notifications.listener.ts:19-127 | The kind, organisation, request and actor of each notification |
| Recipients.DeliveryFansOut | src/modules/notifications/notifications.listener.ts:19-106 | Handling an event creates and publishes one notification for every recipient and no other |
| NotificationsListener.NotificationRecipientResolver.GetBuildingManagersAndAdmins | src/modules/notifications/notification-recipient.resolver.ts:100-117 | The loop collects exactly the active managers and admins of the building who belong to the organisation |
| NotificationsListener.NotificationRecipientResolver.ResolveOpsRecipients | src/modules/notifications/notification-recipient.resolver.ts:89-98 | The fallback to organisation admins |
| NotificationsListener.NotificationRecipientResolver.ResolveForRequestCreated | src/modules/notifications/notification-recipient.resolver.ts:9-18 | The recipients of a new request |
| NotificationsListener.NotificationRecipientResolver.ResolveForRequestAssigned | src/modules/notifications/notification-recipient.resolver.ts:20-37 | The recipients of an assignment |
| NotificationsListener.NotificationRecipientResolver.ResolveForRequestStatusChanged | src/modules/notifications/notification-recipient.resolver.ts:39-54 | The recipients of a status change |
| NotificationsListener.NotificationRecipientResolver.ResolveForRequestCommented | src/modules/notifications/notification-recipient.resolver.ts:56-73 | The recipients of a comment |
| NotificationsListener.NotificationRecipientResolver.ResolveForRequestCanceled | src/modules/notifications/notification-recipient.resolver.ts:75-87 | The recipients of a cancellation |
| NotificationsListener.NotificationsListener.Handle | src/modules/notifications/notifications.listener.ts:19-106 | A handler resolves the recipients and creates their notifications |
| Inbox.ClientReplicates | src/modules/notifications/notifications.service.ts:76-188 | From a full snapshot, replaying the published events gives exactly the user's rows after every run of calls by anyone |
| Inbox.ClientCounts | src/modules/notifications/notifications.repo.ts:170-175 | The replica's unread badge is the server's unread count |
| Inbox.ReadAllHitsUnread | src/modules/notifications/notifications.repo.ts:123-135 | Reading all changes as many rows as the server counted unread, and leaves none unread |
| Inbox.RunKeeps | src/modules/notifications/notifications.repo.ts:103-168 | Over every run no row is deleted or handed over, and `readAt` once set never changes |
| Inbox.SnapshotsAreStable | src/modules/notifications/notifications.repo.ts:103-168 | Whatever calls run between fetches, an id keeps its creation time and ids stay unique |
| Inbox.NoIdTwiceUnderTraffic | src/modules/notifications/notifications.service.ts:29-51 | Paging while any calls run in between never returns an id twice |
| Inbox.StableRowExactlyOnce | src/modules/notifications/notifications.service.ts:29-51 | A row that matched at every fetch of a completed walk is returned exactly once |
| InboxOutcomes.ReadOne | src/modules/notifications/notifications.service.ts:99-122 | Exactly what marking as read stores and publishes, for every row and caller |
| InboxOutcomes.DismissedOne | src/modules/notifications/notifications.service.ts:138-163 | The same, for dismissing |
| InboxOutcomes.UndismissedOne | src/modules/notifications/notifications.service.ts:165-188 | The same, for undoing a dismissal |
| InboxOutcomes.ReadThemAll | src/modules/notifications/notifications.service.ts:124-136 | The same, for reading all |
| InboxOutcomes.UnreadCountIs | src/modules/notifications/notifications.repo.ts:170-175 | The unread count is the size of the set of the user's unread, undismissed rows |
| InboxOutcomes.CreatedForUsers | src/modules/notifications/notifications.service.ts:54-97 | Each new row and each published event of a creation |
| NotificationsService.NotificationsStore.UpdateMany | src/modules/notifications/notifications.repo.ts:103-168 | The loop updates exactly the rows its `where` clause hits and returns their exact number |
| NotificationsService.NotificationsStore.CreateManyAndReturn | src/modules/notifications/notifications.repo.ts:24-41 | The loop creates one row for every input, in order |
| NotificationsService.NotificationsStore.CreateForUsers | src/modules/notifications/notifications.service.ts:54-97 | One row and one event for every different user |
| NotificationsService.NotificationsStore.MarkRead | src/modules/notifications/notifications.service.ts:99-122 | Reads an unread, undismissed row and publishes; otherwise silent or 404 |
| NotificationsService.NotificationsStore.MarkAllRead | src/modules/notifications/notifications.service.ts:124-136 | Reads every unread, undismissed row and publishes if there was one |
| NotificationsService.NotificationsStore.Dismiss | src/modules/notifications/notifications.service.ts:138-163 | Dismisses once and publishes |
| NotificationsService.NotificationsStore.Undismiss | src/modules/notifications/notifications.service.ts:165-188 | Undoes a dismissal and publishes |
| Notifications.QueryMember | src/modules/notifications/notifications.repo.ts:74-98 | The query returns exactly the matching rows |
| Paging.QueryDescending | src/modules/notifications/notifications.repo.ts:94-98 | Strictly in descending order of (createdAt, id) |
| Paging.QueryAfterRow | src/modules/notifications/notifications.repo.ts:84-92 | The keyset condition cuts the listing right after the row of the cursor |
| Paging.NoIdTwice | src/modules/notifications/notifications.service.ts:29-51 | Following `nextCursor` over arbitrarily changing tables returns no id twice, if ids keep their creation time |
| Paging.EveryStableRowReturned | src/modules/notifications/notifications.service.ts:29-51 | A completed walk returns every row that was there and matched throughout |
| Paging.StaticWalk | src/modules/notifications/notifications.service.ts:29-51 | On an unchanging table the pages concatenate to exactly the filtered, sorted rows, in max(1, ceil(n/limit)) pages |
| Paging.StaticWalkEnds | src/modules/notifications/notifications.service.ts:45-49 | On an unchanging table every walk can be completed |
| ListingOutcomes.PageItems | src/modules/notifications/notifications.repo.ts:74-98 | Every item of every page is a stored row of the caller that passes the options, the items are in order, and there are at most as many as the limit |
| ListingOutcomes.FirstPageIsAll | src/modules/notifications/notifications.service.ts:45-51 | A first page without successor holds every row the caller may see |
| ListingOutcomes.WalkContents | src/modules/notifications/notifications.repo.ts:74-98 | A completed walk over an unchanging table returns exactly the rows the caller may see, newest first |
| ListingOutcomes.WalkAgreesWithReplica | src/modules/notifications/notifications.repo.ts:74-98 | A full walk lists the client's replica, and a walk over unread rows has as many items as the badge shows |
| ListingOutcomes.LimitIs | src/modules/notifications/notifications.service.ts:29-32 | The page size asked for, within 1 to 100, and 20 by default |
| ListingOutcomes.TextLessIsLexicographic | src/modules/notifications/notifications.repo.ts:96 | Ids compare at the first difference, a prefix first |
| Cursor.CursorRoundTrip | src/modules/notifications/notifications.service.ts:194-223 | Decoding an encoded cursor gives back millisecond timestamp and id, for every four-digit year and every non-empty ASCII id without a bar |
| Cursor.Base64RoundTrip | src/modules/notifications/notifications.service.ts:196 | Base64 (section 4 of RFC 4648) loses no byte |
| Cursor.TimestampRoundTrip | src/modules/notifications/notifications.service.ts:195 | The timestamp text (section 5.6 of RFC 3339) loses no millisecond, leap years included |
| CursorOutcomes.Base64Is | src/modules/notifications/notifications.service.ts:196 | Every group of three bytes, begun or full, becomes four characters of the alphabet with the same 24 bits, padded with '=' |
| CursorOutcomes.AlphabetIs | src/modules/notifications/notifications.service.ts:196 | The alphabet of section 4 of RFC 4648 |
| CursorOutcomes.Epoch | src/modules/notifications/notifications.service.ts:195 | Time zero is midnight of 1 January 1970 |
| CursorOutcomes.DayLater | src/modules/notifications/notifications.service.ts:195 | A day later is the next date of the calendar at the same time of day, leap years included |
| CursorOutcomes.ClockCounts | src/modules/notifications/notifications.service.ts:195 | The time of day counts the milliseconds since midnight |
| CursorOutcomes.FieldsAreUnique | src/modules/notifications/notifications.service.ts:195 | Every valid date and time is the one of exactly one timestamp |
| CursorOutcomes.TimestampLayout | src/modules/notifications/notifications.service.ts:195 | The layout of the text in section 5.6 of RFC 3339, in UTC |
| CursorOutcomes.CursorBytes | src/modules/notifications/notifications.service.ts:194-197 | The bytes behind a cursor are timestamp, bar and id |
| CursorOutcomes.AcceptedTexts | src/modules/notifications/notifications.service.ts:207-222 | Exactly the texts with one bar, a timestamp before and something behind it are accepted |
| AccessControl.FoldIsRolesPlusAllowMinusDeny | src/modules/access-control/access-control.service.ts:18-28 | With one row per key the fold is (roles union ALLOW) minus DENY, in whatever order the rows come |
| AccessControl.GetUserEffectivePermissions | src/modules/access-control/access-control.service.ts:14-31 | The loop over the overrides computes that set |
| AccessControl.OverridesStored | src/modules/access-control/user-access.service.ts:34-60 | After a successful call a user's overrides are the first occurrence of each listed key, and other users keep theirs |
| AccessControl.FirstOverrideDecides | src/modules/access-control/user-access.service.ts:34-60 | Written and read back, the first occurrence of a key decides it, and the roles decide the others |
| AccessControl.RolesAfterAssign | src/modules/access-control/user-access.service.ts:10-32 | Which roles everyone holds after adding or replacing |
| AccessControl.RoleKeysIff | src/modules/access-control/access-control.repo.ts:147-171 | The role keys read for a user are exactly the permissions of the roles the user holds |
| AccessControl.AcceptedIff | src/modules/access-control/user-access.service.ts:10-60 | Overrides and roles are accepted exactly if every key and id is known; a refusal changes nothing |
| AccessControl.FirstEffectIs | src/modules/access-control/user-access.service.ts:34-60 | Which override of a list is the first of its key |
| AccessControl.EffectiveAfterAdministration | src/modules/access-control/user-access.service.ts:10-60 | After roles and overrides are set, exactly which keys are effective: the first override decides, and without one the roles listed or kept |
| AccessControl.EffectiveWithoutRoles | src/modules/access-control/user-access.service.ts:10-60 | A user without roles may do exactly what the first overrides allow |
| AccessControl.AccessControlRepo.EffectivePermissions | src/modules/access-control/access-control.service.ts:14-31 | From the stored rows alone: the override of a permission decides, and without one the roles held |
| AccessControl.AccessControlRepo.GetUserAccess | src/modules/access-control/access-control.repo.ts:147-186 | Reads exactly the permissions of the user's roles, and each override once |
| AccessControl.AccessControlRepo.SetOverrides | src/modules/access-control/access-control.repo.ts:126-145 | Delete and re-create, or reject unknown keys before writing |
| AccessControl.AccessControlRepo.SetRoles | src/modules/access-control/access-control.repo.ts:93-124 | Replace or add, or reject unknown roles before writing |
| BuildingAccess.AssignmentTypeIsStrongest | src/common/building-access/building-access.service.ts:42-57 | The search returns the strongest assignment held, and nothing exactly if none is held |
| BuildingAccess.WriteAccess | src/common/building-access/building-access.service.ts:70-141 | Writers may read; without global permissions exactly building admins, and managers where allowed, write, and they belong to the organisation |
| BuildingAccess.AccessIff | src/common/building-access/building-access.service.ts:28-141 | Exactly who may read and who may write, in terms of stored rows, and with which error |
| Metrics.WindowIsLastSamples | src/infra/metrics/request-metrics.service.ts:29-39 | After any run a bucket holds exactly the last `maxSamples` durations since the last flush |
| Metrics.PercentileIsNearestRank | src/infra/metrics/request-metrics.service.ts:67-76 | The reported sample is the least number with at least ceil(q*n) samples at or below it |
| Metrics.PercentilesOrdered | src/infra/metrics/request-metrics.service.ts:67-76 | Rounded percentiles are ordered as their quantiles |
| Metrics.ReportIs | src/infra/metrics/request-metrics.service.ts:41-76 | A logged line names its route, the number of samples, and the rounded nearest ranks of one half, 95 and 99 hundredths |
| Metrics.DisabledStaysEmpty | src/infra/metrics/request-metrics.service.ts:29-32 | A disabled service records nothing |
| Metrics.RequestMetricsService.Record | src/infra/metrics/request-metrics.service.ts:29-39 | Push and shift on the bucket of a route, nothing when disabled |
| Metrics.RequestMetricsService.Flush | src/infra/metrics/request-metrics.service.ts:41-64 | Exactly one line for every route with samples, then all buckets are empty |
| System.RunKeeps | prisma/schema.prisma:218-255 | The invariant of directory, requests and notifications holds after every run of all operations, and rows only move on |
| System.BalanceInEveryState | src/modules/units/units.repo.ts:94-109 | In every reachable state vacant units plus ACTIVE occupancies are all units, for every building |
| System.PastIsKept | src/modules/maintenance-requests/maintenance-requests.service.ts:149-197 | Between any two states of a run closed requests, ended occupancies, users' organisations and reading times stay as they are |
| System.AtMostThreeStatusChanges | src/modules/maintenance-requests/maintenance-requests.constants.ts:9-22 | No run changes the status of a request more than three times |
| System.RunConserves | src/modules/notifications/notifications.service.ts:62-78 | Over every run events are the successful announcing calls, and notifications created are the sum of the recipient set sizes |
| System.ClientFollowsService | src/modules/notifications/notifications.service.ts:76-188 | The client replica and its badge equal the table in every run of the whole service |
| System.PagingThroughTraffic | src/modules/notifications/notifications.service.ts:29-51 | A stable row is returned exactly once by a walk during any run of the whole service |

## Left out

- DirectoryServices.Onboard: one atomic step, as are `createActiveIfVacant`, building assignments, unit and request
  operations and the find-then-update calls of notifications. They take no lock, so their interleavings are not covered
  by the integrity theorems; only `provision` is interleaved.
- ProvisionInterleaving.OneActiveInEveryCommittedState: the statements on users, roles and assignments are one step that
  picks the user, since they do not affect occupancies; a deadlock is a transaction that waits until it aborts.
- Cursor.CursorRoundTrip: characters outside ASCII and Node's lenient decoding of malformed base64 and timestamps;
  decoding is strict on what the encoder produces.
- OrgUsersProvisionService.FindOrCreateUser: trimming and lower-casing outside ASCII, pattern characters in the
  case-insensitive match, password hashing, temporary passwords and the unique index on the exact email.
- OrgUsersProvisionService.ApplyOrgRoles: replies with the keys in payload order, where the database decides the order.
- OrgUsersProvisionService.ApplyBuildingAssignments: the ids of assignment rows, which nothing else refers to.
- Metrics.PercentileIsNearestRank: quantiles are exact numbers; the floating-point error of `length * quantile`.
- NotificationsService.NotificationsStore.CreateForUsers: empty user ids, which identifiers here cannot be, and the
  title, body and further data of a notification.
- Notifications.QueryMember: ids are compared character by character; a database collation may order them differently,
  which the paging theorems do not depend on beyond the order being total.
- System.RunConserves: a handler that fails is an event never delivered; process crashes are not modelled.
- Order of unordered queries: `findFirst` returns the first match in table order.
- Error messages: errors are their HTTP kind.
- OrgUsersProvisionService.Provision: the email and name in the reply repeat the user row; the permission lookup is an
  input.
- DirectoryServices.CreateUnit: the checks of unit type and owner, and the other fields of a unit.
- DirectoryServices.UpdateUnit: the checks of unit type and owner, and the other fields of a unit.
- NotificationsListener.NotificationsListener.Handle: title, body and further data of the notification.
- Creation times of requests, comments and attachments, and row ids of attachments.
- Unit types, owners, decimal unit fields, organisation profile, and the uniqueness of amenity names.
- Users are created, their profiles edited and role rows written by other services in `System` without their own
  checks: any such write is allowed.
- Authentication: the caller's user id and organisation come with the call. The permissions it is checked against are a
  parameter of the call too, related to the tables by `AccessControl` only.
- Listing endpoints other than notifications, response mapping, controllers, validation of payloads, the Socket.IO
  gateway, logging, storage and queues.
