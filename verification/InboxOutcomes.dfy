/** What the notification calls store and publish, in terms of the stored fields. */
module InboxOutcomes {
  import opened Prelude
  import opened Notifications
  import opened Paging
  import opened Inbox

  /** The row with this id belongs to the user, in the organisation. */
  ghost predicate OwnRow(rows: Rows, i: nat, id: string, userId: Id, orgId: Id) {
    i < |rows| && rows[i].id == id && rows[i].recipientUserId == userId && rows[i].orgId == orgId
  }

  ghost predicate OwnsNone(rows: Rows, id: string, userId: Id, orgId: Id) {
    forall i: nat :: !OwnRow(rows, i, id, userId, orgId)
  }

  lemma FoundIff(rows: Rows, id: string, userId: Id, orgId: Id)
    requires UniqueIds(rows)
    ensures FindForUser(rows, id, userId, orgId).None? <==> OwnsNone(rows, id, userId, orgId)
    ensures forall i: nat | OwnRow(rows, i, id, userId, orgId) :: FindForUser(rows, id, userId, orgId) == Some(i)
  {
    var found := FindForUser(rows, id, userId, orgId);
    if found.Some? {
      assert OwnRow(rows, found.value, id, userId, orgId);
    }
  }

  /** Only row `i` differs, and it is `n`; the event went to the user's room. */
  ghost predicate OneRow(s: State, t: State, i: nat, n: Notification, p: Published) {
    i < |s.rows| && t.rows == s.rows[i := n] && t.log == s.log + [p]
  }

  lemma UpdateOne(s: State, u: Update, e: Event, i: nat)
    requires UniqueIds(s.rows) && !u.SetAllRead? && i < |s.rows| && s.rows[i].id == u.id && u.Hits(s.rows[i])
    ensures OneRow(s, Publish(s, u, e), i, u.Set(s.rows[i]), Published(u.orgId, u.userId, e))
  {
    forall j | 0 <= j < |s.rows| ensures Updated(s.rows[j], u) == if j == i then u.Set(s.rows[i]) else s.rows[j] {
    }
    assert UpdateMany(s.rows, u) == s.rows[i := u.Set(s.rows[i])];
  }

  /** Marking a row of one's own as read sets its reading time and says so, if it was unread and not dismissed, and else
    * does nothing; for any other row the call fails.
    */
  lemma ReadOne(s: State, id: string, userId: Id, orgId: Id, now: Time)
    requires UniqueIds(s.rows)
    ensures var (t, r) := MarkRead(s, id, userId, orgId, now);
      && (OwnsNone(s.rows, id, userId, orgId) <==> r == Err(NotFound)) && (r.Err? ==> t == s)
      && forall i: nat | OwnRow(s.rows, i, id, userId, orgId) ::
           && r == Ok(())
           && if s.rows[i].readAt.None? && s.rows[i].dismissedAt.None?
              then OneRow(s, t, i, s.rows[i].(readAt := Some(now)), Published(orgId, userId, Read(id, now)))
              else t == s
  {
    FoundIff(s.rows, id, userId, orgId);
    forall i: nat | OwnRow(s.rows, i, id, userId, orgId) && s.rows[i].readAt.None? && s.rows[i].dismissedAt.None?
      ensures OneRow(s, Publish(s, SetRead(id, userId, orgId, now), Read(id, now)), i,
                     s.rows[i].(readAt := Some(now)), Published(orgId, userId, Read(id, now)))
    {
      UpdateOne(s, SetRead(id, userId, orgId, now), Read(id, now), i);
    }
  }

  /** Dismissing works on read and unread rows alike, once. */
  lemma DismissedOne(s: State, id: string, userId: Id, orgId: Id, now: Time)
    requires UniqueIds(s.rows)
    ensures var (t, r) := DismissOne(s, id, userId, orgId, now);
      && (OwnsNone(s.rows, id, userId, orgId) <==> r == Err(NotFound)) && (r.Err? ==> t == s)
      && forall i: nat | OwnRow(s.rows, i, id, userId, orgId) ::
           && r == Ok(())
           && if s.rows[i].dismissedAt.None?
              then OneRow(s, t, i, s.rows[i].(dismissedAt := Some(now)), Published(orgId, userId, Dismiss(id, now)))
              else t == s
  {
    FoundIff(s.rows, id, userId, orgId);
    forall i: nat | OwnRow(s.rows, i, id, userId, orgId) && s.rows[i].dismissedAt.None?
      ensures OneRow(s, Publish(s, SetDismissed(id, userId, orgId, now), Dismiss(id, now)), i,
                     s.rows[i].(dismissedAt := Some(now)), Published(orgId, userId, Dismiss(id, now)))
    {
      UpdateOne(s, SetDismissed(id, userId, orgId, now), Dismiss(id, now), i);
    }
  }

  /** Undoing a dismissal clears it and nothing else. */
  lemma UndismissedOne(s: State, id: string, userId: Id, orgId: Id)
    requires UniqueIds(s.rows)
    ensures var (t, r) := UndismissOne(s, id, userId, orgId);
      && (OwnsNone(s.rows, id, userId, orgId) <==> r == Err(NotFound)) && (r.Err? ==> t == s)
      && forall i: nat | OwnRow(s.rows, i, id, userId, orgId) ::
           && r == Ok(())
           && if s.rows[i].dismissedAt.Some?
              then OneRow(s, t, i, s.rows[i].(dismissedAt := None), Published(orgId, userId, Undismiss(id)))
              else t == s
  {
    FoundIff(s.rows, id, userId, orgId);
    forall i: nat | OwnRow(s.rows, i, id, userId, orgId) && s.rows[i].dismissedAt.Some?
      ensures OneRow(s, Publish(s, ClearDismissed(id, userId, orgId), Undismiss(id)), i,
                     s.rows[i].(dismissedAt := None), Published(orgId, userId, Undismiss(id)))
    {
      UpdateOne(s, ClearDismissed(id, userId, orgId), Undismiss(id), i);
    }
  }

  /** The row counts as unread for the user. */
  ghost predicate UnreadOf(n: Notification, userId: Id, orgId: Id) {
    n.recipientUserId == userId && n.orgId == orgId && n.readAt.None? && n.dismissedAt.None?
  }

  /** Reading all sets the reading time of exactly the user's unread, undismissed rows, with one event if there is any. */
  lemma ReadThemAll(s: State, userId: Id, orgId: Id, now: Time)
    ensures var t := MarkAllRead(s, userId, orgId, now);
      && |t.rows| == |s.rows|
      && (forall i :: 0 <= i < |s.rows| ==>
            if UnreadOf(s.rows[i], userId, orgId) then t.rows[i] == s.rows[i].(readAt := Some(now))
            else t.rows[i] == s.rows[i])
      && t.log == s.log + if UnreadRows(s.rows, userId, orgId) != {} then [Published(orgId, userId, ReadAll(now))] else []
  {
    var u := SetAllRead(userId, orgId, now);
    assert forall i :: 0 <= i < |s.rows| ==> (u.Hits(s.rows[i]) <==> UnreadOf(s.rows[i], userId, orgId));
    assert forall i :: 0 <= i < |s.rows| ==> s.rows[i] in s.rows;
    assert s.log + [] == s.log;
    if n :| n in s.rows && u.Hits(n) {
      var i :| 0 <= i < |s.rows| && s.rows[i] == n;
      assert i in UnreadRows(s.rows, userId, orgId);
    }
    if i :| i in UnreadRows(s.rows, userId, orgId) {
      assert s.rows[i] in s.rows && u.Hits(s.rows[i]);
    }
  }

  /** The unread count is the number of those rows. */
  lemma {:induction false} UnreadCountIs(rows: Rows, userId: Id, orgId: Id)
    ensures CountUnread(rows, userId, orgId) == |UnreadRows(rows, userId, orgId)|
  {
    if |rows| > 0 {
      var k := |rows| - 1;
      UnreadCountIs(rows[..k], userId, orgId);
      assert UnreadRows(rows, userId, orgId) == UnreadRows(rows[..k], userId, orgId)
        + if UnreadOf(rows[k], userId, orgId) then {k} else {};
    }
  }

  ghost function UnreadRows(rows: Rows, userId: Id, orgId: Id): set<int> {
    set i | 0 <= i < |rows| && UnreadOf(rows[i], userId, orgId)
  }

  /** A creation adds one unread row for every different user, in order of first occurrence, and publishes each to its
    * user; the rows that were there stay.
    */
  lemma CreatedForUsers(s: State, m: Message, userIds: seq<Id>, stamps: seq<Stamp>)
    requires |FirstOccurrences(userIds)| <= |stamps|
    ensures var t := CreateForUsers(s, m, userIds, stamps);
      var users := FirstOccurrences(userIds);
      && s.rows <= t.rows && s.log <= t.log
      && |t.rows| == |s.rows| + |users| && |t.log| == |s.log| + |users|
      && NoDuplicates(users) && (forall u :: u in users <==> u in userIds)
      && forall i :: 0 <= i < |users| ==>
           var n := t.rows[|s.rows| + i];
           && n == Notification(
                stamps[i].id, m.orgId, users[i], m.kind, m.requestId, m.actorUserId, stamps[i].createdAt, None, None)
           && t.log[|s.log| + i] == Published(m.orgId, users[i], New(n))
  {
  }
}
