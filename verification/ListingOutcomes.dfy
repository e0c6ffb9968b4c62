/** What a listing of notifications contains, in terms of the stored fields. */
module ListingOutcomes {
  import opened Prelude
  import opened Notifications
  import opened Paging
  import Inbox

  /** A row the caller may see under the options. */
  ghost predicate Wanted(n: Notification, userId: Id, orgId: Id, o: Options) {
    && n.recipientUserId == userId && n.orgId == orgId
    && (o.unreadOnly ==> n.readAt.None?)
    && (o.includeDismissed || n.dismissedAt.None?)
  }

  /** `createdAt` descending, and `id` descending where it is equal. */
  ghost predicate InOrder(rows: Rows) {
    forall i, j :: 0 <= i < j < |rows| ==>
      || rows[j].createdAt < rows[i].createdAt
      || (rows[j].createdAt == rows[i].createdAt && TextLess(rows[j].id, rows[i].id))
  }

  ghost predicate DiffersAt(a: string, b: string, k: int) {
    0 <= k < |a| && k < |b| && a[..k] == b[..k] && a[k] != b[k]
  }

  lemma DiffersLater(a: string, b: string, k: int)
    requires |a| > 0 && |b| > 0 && a[0] == b[0]
    ensures DiffersAt(a, b, k) <==> DiffersAt(a[1..], b[1..], k - 1)
  {
    if 1 <= k <= |a| && k <= |b| {
      assert a[..k] == [a[0]] + a[1..][..k - 1];
      assert b[..k] == [b[0]] + b[1..][..k - 1];
      assert a[..k] == b[..k] ==> a[..k][1..] == b[..k][1..];
      assert a[..k][1..] == a[1..][..k - 1] && b[..k][1..] == b[1..][..k - 1];
    }
  }

  /** A word comes first if it is a proper prefix, or has the smaller character at the first difference. */
  ghost predicate Before(a: string, b: string) {
    (a <= b && a != b) || exists k :: DiffersAt(a, b, k) && a[k] < b[k]
  }

  /** Ids compare like words in a dictionary. */
  lemma {:induction false} TextLessIsLexicographic(a: string, b: string)
    ensures TextLess(a, b) <==> Before(a, b)
  {
    if |a| > 0 && |b| > 0 {
      assert a == [a[0]] + a[1..] && b == [b[0]] + b[1..];
      if a[0] != b[0] {
        assert DiffersAt(a, b, 0);
        assert forall k :: DiffersAt(a, b, k) ==> k == 0;
      } else {
        TextLessIsLexicographic(a[1..], b[1..]);
        if k :| DiffersAt(a, b, k) && a[k] < b[k] {
          DiffersLater(a, b, k);
        }
        if k :| DiffersAt(a[1..], b[1..], k) && a[1..][k] < b[1..][k] {
          DiffersLater(a, b, k + 1);
          assert DiffersAt(a, b, k + 1) && a[k + 1] < b[k + 1];
        }
      }
    }
  }

  lemma WantedIff(n: Notification, userId: Id, orgId: Id, o: Options)
    ensures WhereOf(userId, orgId, o, None).Matches(n) <==> Wanted(n, userId, orgId, o)
  {
  }

  /** The page size: 20 unless asked otherwise, and never outside 1 to 100. */
  lemma LimitIs(o: Options)
    ensures o.limit.None? ==> Limit(o) == 20
    ensures o.limit.Some? && 1 <= o.limit.value <= 100 ==> Limit(o) == o.limit.value
    ensures o.limit.Some? && o.limit.value < 1 ==> Limit(o) == 1
    ensures o.limit.Some? && o.limit.value > 100 ==> Limit(o) == 100
  {
  }

  lemma SliceItems(rows: Rows, w: Where, limit: nat)
    requires UniqueIds(rows) && limit > 0
    ensures var items := Fetch(rows, w, limit).items;
      && (forall n :: n in items ==> n in rows && w.Matches(n))
      && InOrder(items) && |items| <= limit
  {
    FetchContents(rows, w, limit);
    var items := Fetch(rows, w, limit).items;
    forall n | n in items ensures n in rows && w.Matches(n) {
      QueryMember(rows, w, n);
    }
    assert Descending(items);
  }

  /** Every item of a page is a stored row of the caller, of the kind asked for; the items are in order; and there are at
    * most as many as the limit.
    */
  lemma PageItems(rows: Rows, userId: Id, orgId: Id, o: Options, page: Page)
    requires Table(rows) && ListForUser(rows, userId, orgId, o) == Ok(page)
    ensures forall n :: n in page.items ==> n in rows && Wanted(n, userId, orgId, o)
    ensures InOrder(page.items) && |page.items| <= Limit(o)
  {
    SliceItems(rows, WhereOf(userId, orgId, o, CursorKey(o).value), Limit(o));
  }

  /** A first page that names no successor holds every row the caller may see. */
  lemma FirstPageIsAll(rows: Rows, userId: Id, orgId: Id, o: Options, page: Page, n: Notification)
    requires Table(rows) && o.cursor.None? && ListForUser(rows, userId, orgId, o) == Ok(page) && page.nextCursor.None?
    ensures n in page.items <==> n in rows && Wanted(n, userId, orgId, o)
  {
    var w := WhereOf(userId, orgId, o, None);
    FetchContents(rows, w, Limit(o));
    QueryMember(rows, w, n);
    WantedIff(n, userId, orgId, o);
  }

  /** A completed walk over an unchanging table returns exactly the rows the caller may see, in order. */
  lemma {:induction false} WalkContents(rows: Rows, pages: seq<Page>, userId: Id, orgId: Id, o: Options, n: Notification)
    requires Client(Constant(rows, |pages|), pages, userId, orgId, o) && Completed(pages)
    ensures n in Concat(pages) <==> n in rows && Wanted(n, userId, orgId, o)
    ensures InOrder(Concat(pages))
  {
    StaticWalk(rows, pages, userId, orgId, o);
    QueryMember(rows, WhereOf(userId, orgId, o, None), n);
    WantedIff(n, userId, orgId, o);
    assert Received(Constant(rows, |pages|), pages, userId, orgId, o, 0);
    QueryDescending(rows, WhereOf(userId, orgId, o, None));
  }

  // ----- how many

  lemma {:induction false} InsertSize(n: Notification, rows: Rows)
    ensures |InsertDesc(n, rows)| == |rows| + 1
  {
    if |rows| > 0 {
      InsertSize(n, rows[1..]);
    }
  }

  lemma {:induction false} SortSize(rows: Rows)
    ensures |SortDesc(rows)| == |rows|
  {
    if |rows| > 0 {
      SortSize(rows[1..]);
      InsertSize(rows[0], SortDesc(rows[1..]));
    }
  }

  lemma {:induction false} FilterSnoc(init: Rows, n: Notification, w: Where)
    ensures Filter(init + [n], w) == Filter(init, w) + if w.Matches(n) then [n] else []
  {
    if |init| > 0 {
      assert (init + [n])[1..] == init[1..] + [n];
      FilterSnoc(init[1..], n, w);
    }
  }

  lemma {:induction false} UnreadSize(rows: Rows, userId: Id, orgId: Id, w: Where)
    requires w == Where(orgId, userId, true, false, None)
    ensures |Filter(rows, w)| == Inbox.CountUnread(rows, userId, orgId)
  {
    if |rows| > 0 {
      var k := |rows| - 1;
      assert rows == rows[..k] + [rows[k]];
      FilterSnoc(rows[..k], rows[k], w);
      UnreadSize(rows[..k], userId, orgId, w);
    }
  }

  lemma {:induction false} MineSize(rows: Rows, userId: Id, orgId: Id, w: Where)
    requires w == Where(orgId, userId, false, true, None)
    ensures Filter(rows, w) == Inbox.Mine(rows, userId, orgId)
  {
    if |rows| > 0 {
      var k := |rows| - 1;
      assert rows == rows[..k] + [rows[k]];
      FilterSnoc(rows[..k], rows[k], w);
      MineSize(rows[..k], userId, orgId, w);
    }
  }

  /** A full walk over everything is a listing of the replica a client keeps, and a walk over what is unread and not
    * dismissed has as many items as the badge shows.
    */
  lemma {:induction false} WalkAgreesWithReplica(rows: Rows, pages: seq<Page>, userId: Id, orgId: Id, o: Options)
    requires Client(Constant(rows, |pages|), pages, userId, orgId, o) && Completed(pages)
    ensures !o.unreadOnly && o.includeDismissed ==> Concat(pages) == SortDesc(Inbox.Mine(rows, userId, orgId))
    ensures o.unreadOnly && !o.includeDismissed ==> |Concat(pages)| == Inbox.CountUnread(rows, userId, orgId)
  {
    var w := WhereOf(userId, orgId, o, None);
    StaticWalk(rows, pages, userId, orgId, o);
    SortSize(Filter(rows, w));
    if !o.unreadOnly && o.includeDismissed {
      MineSize(rows, userId, orgId, w);
    }
    if o.unreadOnly && !o.includeDismissed {
      UnreadSize(rows, userId, orgId, w);
    }
  }
}
