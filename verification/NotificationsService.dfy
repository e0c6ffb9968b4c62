/** The notification service over its mutable table and event log, proved against `Inbox`. */
module NotificationsService {
  import opened Prelude
  import opened Notifications
  import Inbox

  class NotificationsStore {
    var rows: Rows
    var log: seq<Inbox.Published>

    function Contents(): Inbox.State
      reads this
    {
      Inbox.State(rows, log)
    }

    constructor ()
      ensures Contents() == Inbox.State([], [])
    {
      rows, log := [], [];
    }

    method PublishToUser(orgId: Id, userId: Id, e: Inbox.Event)
      modifies this`log
      ensures log == old(log) + [Inbox.Published(orgId, userId, e)]
    {
      log := log + [Inbox.Published(orgId, userId, e)];
    }

    /** `updateMany`: the number of rows its `where` clause hits. */
    method UpdateMany(u: Inbox.Update) returns (count: nat)
      modifies this`rows
      ensures rows == Inbox.UpdateMany(old(rows), u)
      ensures count == Inbox.CountHits(old(rows), u)
    {
      count := 0;
      for i := 0 to |rows|
        invariant count == Inbox.CountHits(rows[..i], u)
      {
        assert rows[..i + 1][..i] == rows[..i];
        if u.Hits(rows[i]) {
          count := count + 1;
        }
      }
      assert rows[..|rows|] == rows;
      rows := Inbox.UpdateMany(rows, u);
    }

    /** Rows are created one at a time, in the order of the recipients. */
    method CreateManyAndReturn(m: Inbox.Message, userIds: seq<Id>, stamps: seq<Inbox.Stamp>) returns (created: Rows)
      requires |userIds| <= |stamps|
      modifies this`rows
      ensures created == Inbox.NewRows(m, userIds, stamps)
      ensures rows == old(rows) + created
    {
      created := [];
      for i := 0 to |userIds|
        invariant |created| == i
        invariant forall k :: 0 <= k < i ==> created[k] == Inbox.RowFor(m, userIds[k], stamps[k])
        invariant rows == old(rows) + created
      {
        var row := Inbox.RowFor(m, userIds[i], stamps[i]);
        rows := rows + [row];
        created := created + [row];
      }
    }

    method CreateForUsers(m: Inbox.Message, userIds: seq<Id>, stamps: seq<Inbox.Stamp>)
      requires |FirstOccurrences(userIds)| <= |stamps|
      modifies this
      ensures Contents() == Inbox.CreateForUsers(old(Contents()), m, userIds, stamps)
    {
      var unique := FirstOccurrences(userIds);
      if |unique| == 0 {
        assert rows + Inbox.NewRows(m, unique, stamps) == rows;
        assert log + Inbox.Announce(Inbox.NewRows(m, unique, stamps)) == log;
        return;
      }
      var created := CreateManyAndReturn(m, unique, stamps);
      for i := 0 to |created|
        invariant rows == old(rows) + created
        invariant log == old(log) + Inbox.Announce(created)[..i]
      {
        PublishToUser(m.orgId, created[i].recipientUserId, Inbox.New(created[i]));
      }
      assert Inbox.Announce(created)[..|created|] == Inbox.Announce(created);
    }

    method MarkRead(id: string, userId: Id, orgId: Id, now: Time) returns (r: Result<()>)
      modifies this
      ensures (Contents(), r) == Inbox.MarkRead(old(Contents()), id, userId, orgId, now)
    {
      var existing := Inbox.FindForUser(rows, id, userId, orgId);
      if existing.None? {
        return Err(NotFound);
      }
      if rows[existing.value].readAt.None? && rows[existing.value].dismissedAt.None? {
        var _ := UpdateMany(Inbox.SetRead(id, userId, orgId, now));
        PublishToUser(orgId, userId, Inbox.Read(id, now));
      }
      return Ok(());
    }

    method MarkAllRead(userId: Id, orgId: Id, now: Time)
      modifies this
      ensures Contents() == Inbox.MarkAllRead(old(Contents()), userId, orgId, now)
    {
      var u := Inbox.SetAllRead(userId, orgId, now);
      Inbox.CountHitsPositive(rows, u);
      var updated := UpdateMany(u);
      if updated > 0 {
        PublishToUser(orgId, userId, Inbox.ReadAll(now));
      } else {
        assert forall i :: 0 <= i < |old(rows)| ==> old(rows)[i] in old(rows);
        assert rows == old(rows);
      }
    }

    method Dismiss(id: string, userId: Id, orgId: Id, now: Time) returns (r: Result<()>)
      modifies this
      ensures (Contents(), r) == Inbox.DismissOne(old(Contents()), id, userId, orgId, now)
    {
      var existing := Inbox.FindForUser(rows, id, userId, orgId);
      if existing.None? {
        return Err(NotFound);
      }
      if rows[existing.value].dismissedAt.None? {
        var _ := UpdateMany(Inbox.SetDismissed(id, userId, orgId, now));
        PublishToUser(orgId, userId, Inbox.Dismiss(id, now));
      }
      return Ok(());
    }

    method Undismiss(id: string, userId: Id, orgId: Id) returns (r: Result<()>)
      modifies this
      ensures (Contents(), r) == Inbox.UndismissOne(old(Contents()), id, userId, orgId)
    {
      var existing := Inbox.FindForUser(rows, id, userId, orgId);
      if existing.None? {
        return Err(NotFound);
      }
      if rows[existing.value].dismissedAt.Some? {
        var _ := UpdateMany(Inbox.ClearDismissed(id, userId, orgId));
        PublishToUser(orgId, userId, Inbox.Undismiss(id));
      }
      return Ok(());
    }
  }
}
