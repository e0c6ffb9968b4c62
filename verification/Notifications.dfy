/** Notification rows, their order in a listing, and one page of the listing. */
module Notifications {
  import opened Prelude
  import opened Cursor

  datatype Kind =
    | REQUEST_CREATED | REQUEST_ASSIGNED | REQUEST_STATUS_CHANGED | REQUEST_COMMENTED | REQUEST_CANCELED

  datatype Notification = Notification(
    id: string, orgId: Id, recipientUserId: Id, kind: Kind, requestId: Id, actorUserId: Id, createdAt: Time,
    readAt: Option<Time>, dismissedAt: Option<Time>)

  // ----- the order (createdAt desc, id desc)

  function TextLess(a: string, b: string): bool {
    if |b| == 0 then false
    else if |a| == 0 then true
    else a[0] < b[0] || (a[0] == b[0] && TextLess(a[1..], b[1..]))
  }

  datatype Key = Key(createdAt: Time, id: string)

  function KeyOf(n: Notification): Key {
    Key(n.createdAt, n.id)
  }

  /** `a` comes strictly after `b` in a listing; the keyset condition of the query. */
  predicate After(a: Key, b: Key) {
    a.createdAt < b.createdAt || (a.createdAt == b.createdAt && TextLess(a.id, b.id))
  }

  lemma {:induction false} TextLessTransitive(a: string, b: string, c: string)
    requires TextLess(a, b) && TextLess(b, c)
    ensures TextLess(a, c)
  {
    if |a| > 0 && a[0] == b[0] && b[0] == c[0] {
      TextLessTransitive(a[1..], b[1..], c[1..]);
    }
  }

  lemma {:induction false} TextLessTotal(a: string, b: string)
    ensures TextLess(a, b) || a == b || TextLess(b, a)
    ensures !(TextLess(a, b) && (a == b || TextLess(b, a)))
  {
    if |a| > 0 && |b| > 0 && a[0] == b[0] {
      TextLessTotal(a[1..], b[1..]);
      assert a == [a[0]] + a[1..] && b == [b[0]] + b[1..];
    }
  }

  lemma AfterTransitive(a: Key, b: Key, c: Key)
    requires After(a, b) && After(b, c)
    ensures After(a, c)
  {
    if a.createdAt == b.createdAt == c.createdAt {
      TextLessTransitive(a.id, b.id, c.id);
    }
  }

  lemma AfterTotal(a: Key, b: Key)
    ensures After(a, b) || a == b || After(b, a)
    ensures !(After(a, b) && (a == b || After(b, a)))
  {
    TextLessTotal(a.id, b.id);
  }

  // ----- the query

  /** The `where` clause of the listing. */
  datatype Where = Where(
    orgId: Id, userId: Id, unreadOnly: bool, includeDismissed: bool, after: Option<Key>)
  {
    predicate Matches(n: Notification) {
      && n.orgId == orgId && n.recipientUserId == userId
      && (unreadOnly ==> n.readAt.None?)
      && (!includeDismissed ==> n.dismissedAt.None?)
      && (after.Some? ==> After(KeyOf(n), after.value))
    }
  }

  type Rows = seq<Notification>

  function Filter(rows: Rows, w: Where): Rows {
    if |rows| == 0 then []
    else if w.Matches(rows[0]) then [rows[0]] + Filter(rows[1..], w)
    else Filter(rows[1..], w)
  }

  function InsertDesc(n: Notification, rows: Rows): Rows {
    if |rows| == 0 || After(KeyOf(rows[0]), KeyOf(n)) then [n] + rows
    else [rows[0]] + InsertDesc(n, rows[1..])
  }

  function SortDesc(rows: Rows): Rows {
    if |rows| == 0 then [] else InsertDesc(rows[0], SortDesc(rows[1..]))
  }

  /** `findMany` with the two `orderBy` columns and no `take`. */
  function Query(rows: Rows, w: Where): Rows {
    SortDesc(Filter(rows, w))
  }

  lemma {:induction false} FilterMember(rows: Rows, w: Where, n: Notification)
    ensures n in Filter(rows, w) <==> n in rows && w.Matches(n)
  {
    if |rows| > 0 {
      FilterMember(rows[1..], w, n);
      assert n in rows <==> n == rows[0] || n in rows[1..];
    }
  }

  lemma {:induction false} InsertMember(m: Notification, rows: Rows, n: Notification)
    ensures n in InsertDesc(m, rows) <==> n == m || n in rows
  {
    if |rows| > 0 && !After(KeyOf(rows[0]), KeyOf(m)) {
      InsertMember(m, rows[1..], n);
      assert n in rows <==> n == rows[0] || n in rows[1..];
    }
  }

  lemma {:induction false} SortMember(rows: Rows, n: Notification)
    ensures n in SortDesc(rows) <==> n in rows
  {
    if |rows| > 0 {
      SortMember(rows[1..], n);
      InsertMember(rows[0], SortDesc(rows[1..]), n);
      assert n in rows <==> n == rows[0] || n in rows[1..];
    }
  }

  /** The query returns exactly the matching rows. */
  lemma QueryMember(rows: Rows, w: Where, n: Notification)
    ensures n in Query(rows, w) <==> n in rows && w.Matches(n)
  {
    FilterMember(rows, w, n);
    SortMember(Filter(rows, w), n);
  }

  function Take(rows: Rows, n: nat): Rows {
    if |rows| <= n then rows else rows[..n]
  }

  // ----- one page

  /** One fetch: at most `limit` rows, and the key to continue from if there are more. */
  datatype Slice = Slice(items: Rows, next: Option<Key>)

  /** One row more than asked for is read to see whether there is a next page. */
  function Fetch(rows: Rows, w: Where, limit: nat): (s: Slice)
    requires limit > 0
    ensures s.next.Some? ==> |s.items| > 0 && s.items[|s.items| - 1] in rows
    ensures s.next.Some? ==> s.next.value == KeyOf(s.items[|s.items| - 1])
  {
    var items := Take(Query(rows, w), limit + 1);
    if |items| > limit then
      QueryMember(rows, w, items[limit - 1]);
      Slice(items[..limit], Some(KeyOf(items[limit - 1])))
    else Slice(items, None)
  }

  const DEFAULT_LIMIT := 20
  const MAX_LIMIT := 100

  datatype Options = Options(unreadOnly: bool, includeDismissed: bool, cursor: Option<string>, limit: Option<int>)

  datatype Page = Page(items: Rows, nextCursor: Option<string>)

  function Limit(o: Options): (limit: nat)
    ensures 1 <= limit <= 100
  {
    var asked := if o.limit.Some? then o.limit.value else DEFAULT_LIMIT;
    if asked < 1 then 1 else if asked > MAX_LIMIT then MAX_LIMIT else asked
  }

  ghost predicate AllEncodable(rows: Rows) {
    forall n :: n in rows ==> Encodable(n.createdAt, n.id)
  }

  function WhereOf(userId: Id, orgId: Id, o: Options, after: Option<Key>): Where {
    Where(orgId, userId, o.unreadOnly, o.includeDismissed, after)
  }

  /** An absent or empty cursor starts at the front. */
  function CursorKey(o: Options): Result<Option<Key>> {
    if o.cursor.None? || o.cursor.value == "" then Ok(None)
    else
      var position :- DecodeCursor(o.cursor.value);
      Ok(Some(Key(position.0, position.1)))
  }

  function ListForUser(rows: Rows, userId: Id, orgId: Id, o: Options): Result<Page>
    requires AllEncodable(rows)
  {
    var after :- CursorKey(o);
    var slice := Fetch(rows, WhereOf(userId, orgId, o, after), Limit(o));
    if slice.next.Some? then
      Ok(Page(slice.items, Some(EncodeCursor(slice.next.value.createdAt, slice.next.value.id))))
    else Ok(Page(slice.items, None))
  }
}
