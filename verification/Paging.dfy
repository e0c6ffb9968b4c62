/** Following `nextCursor` through the notifications of a user, while the table changes and while it does not. */
module Paging {
  import opened Prelude
  import opened Cursor
  import opened Notifications

  // ----- sorted listings

  ghost predicate UniqueIds(rows: Rows) {
    forall i, j :: 0 <= i < j < |rows| ==> rows[i].id != rows[j].id
  }

  /** Every row comes strictly before the later ones. */
  ghost predicate Descending(rows: Rows) {
    forall i, j :: 0 <= i < j < |rows| ==> After(KeyOf(rows[j]), KeyOf(rows[i]))
  }

  lemma {:induction false} InsertDescending(n: Notification, rows: Rows)
    requires Descending(rows) && forall m :: m in rows ==> m.id != n.id
    ensures Descending(InsertDesc(n, rows))
  {
    if |rows| > 0 {
      AfterTotal(KeyOf(rows[0]), KeyOf(n));
      if After(KeyOf(rows[0]), KeyOf(n)) {
        forall j | 0 < j < |rows| ensures After(KeyOf(rows[j]), KeyOf(n)) {
          AfterTransitive(KeyOf(rows[j]), KeyOf(rows[0]), KeyOf(n));
        }
      } else {
        assert forall m :: m in rows[1..] ==> m in rows;
        InsertDescending(n, rows[1..]);
        var rest := InsertDesc(n, rows[1..]);
        forall j | 0 <= j < |rest| ensures After(KeyOf(rest[j]), KeyOf(rows[0])) {
          InsertMember(n, rows[1..], rest[j]);
          if rest[j] != n {
            var k :| 0 <= k < |rows[1..]| && rows[1..][k] == rest[j];
            assert rows[k + 1] == rest[j];
          }
        }
      }
    }
  }

  lemma {:induction false} FilterUnique(rows: Rows, w: Where)
    requires UniqueIds(rows)
    ensures UniqueIds(Filter(rows, w))
  {
    if |rows| > 0 {
      FilterUnique(rows[1..], w);
      var rest := Filter(rows[1..], w);
      forall j | 0 <= j < |rest| ensures rest[j].id != rows[0].id {
        FilterMember(rows[1..], w, rest[j]);
      }
    }
  }

  lemma {:induction false} SortDescending(rows: Rows)
    requires UniqueIds(rows)
    ensures Descending(SortDesc(rows))
  {
    if |rows| > 0 {
      SortDescending(rows[1..]);
      forall m | m in SortDesc(rows[1..]) ensures m.id != rows[0].id {
        SortMember(rows[1..], m);
      }
      InsertDescending(rows[0], SortDesc(rows[1..]));
    }
  }

  lemma QueryDescending(rows: Rows, w: Where)
    requires UniqueIds(rows)
    ensures Descending(Query(rows, w))
  {
    FilterUnique(rows, w);
    SortDescending(Filter(rows, w));
  }

  // ----- a cursor cuts the listing

  function Later(rows: Rows, k: Key): Rows {
    if |rows| == 0 then []
    else if After(KeyOf(rows[0]), k) then [rows[0]] + Later(rows[1..], k)
    else Later(rows[1..], k)
  }

  lemma {:induction false} FilterLater(rows: Rows, w: Where, k: Key)
    requires w.after.None?
    ensures Filter(rows, w.(after := Some(k))) == Later(Filter(rows, w), k)
  {
    if |rows| > 0 {
      FilterLater(rows[1..], w, k);
      if w.Matches(rows[0]) {
        assert Filter(rows, w)[1..] == Filter(rows[1..], w);
      }
    }
  }

  lemma {:induction false} InsertLater(n: Notification, rows: Rows, k: Key)
    ensures Later(InsertDesc(n, rows), k) == if After(KeyOf(n), k) then InsertDesc(n, Later(rows, k)) else Later(rows, k)
  {
    if |rows| > 0 && !After(KeyOf(rows[0]), KeyOf(n)) {
      InsertLater(n, rows[1..], k);
      assert InsertDesc(n, rows)[1..] == InsertDesc(n, rows[1..]);
    } else {
      assert InsertDesc(n, rows)[1..] == rows;
      if |rows| > 0 && After(KeyOf(n), k) {
        AfterTransitive(KeyOf(rows[0]), KeyOf(n), k);
      }
    }
  }

  lemma {:induction false} SortLater(rows: Rows, k: Key)
    ensures SortDesc(Later(rows, k)) == Later(SortDesc(rows), k)
  {
    if |rows| > 0 {
      SortLater(rows[1..], k);
      InsertLater(rows[0], SortDesc(rows[1..]), k);
      if After(KeyOf(rows[0]), k) {
        assert Later(rows, k)[1..] == Later(rows[1..], k);
      }
    }
  }

  /** In a descending listing the rows after the cursor row are the rest of the listing. */
  lemma {:induction false} LaterIsRest(rows: Rows, i: nat)
    requires Descending(rows) && i < |rows|
    ensures Later(rows, KeyOf(rows[i])) == rows[i + 1..]
  {
    AfterTotal(KeyOf(rows[0]), KeyOf(rows[i]));
    if i == 0 {
      AllLater(rows[1..], KeyOf(rows[0]));
    } else {
      LaterIsRest(rows[1..], i - 1);
    }
  }

  lemma {:induction false} AllLater(rows: Rows, k: Key)
    requires forall i :: 0 <= i < |rows| ==> After(KeyOf(rows[i]), k)
    ensures Later(rows, k) == rows
  {
    if |rows| > 0 {
      AllLater(rows[1..], k);
    }
  }

  lemma QueryAfterRow(rows: Rows, w: Where, i: nat)
    requires UniqueIds(rows) && w.after.None? && i < |Query(rows, w)|
    ensures Query(rows, w.(after := Some(KeyOf(Query(rows, w)[i])))) == Query(rows, w)[i + 1..]
  {
    var k := KeyOf(Query(rows, w)[i]);
    QueryDescending(rows, w);
    FilterLater(rows, w, k);
    SortLater(Filter(rows, w), k);
    LaterIsRest(Query(rows, w), i);
  }

  // ----- walks by key

  ghost function Reached(slices: seq<Slice>, i: nat): Option<Key>
    requires i <= |slices|
  {
    if i == 0 then None else slices[i - 1].next
  }

  /** Slice `i` was fetched from table `i`, from where the slice before it ended. */
  ghost predicate Fetched(tables: seq<Rows>, slices: seq<Slice>, w: Where, limit: nat, i: nat)
    requires |tables| == |slices| && i < |slices| && limit > 0
  {
    && UniqueIds(tables[i])
    && slices[i] == Fetch(tables[i], w.(after := Reached(slices, i)), limit)
    && (i < |slices| - 1 ==> slices[i].next.Some?)
  }

  ghost predicate Walk(tables: seq<Rows>, slices: seq<Slice>, w: Where, limit: nat) {
    && |tables| == |slices| > 0 && limit > 0 && w.after.None?
    && forall i :: 0 <= i < |slices| ==> Fetched(tables, slices, w, limit, i)
  }

  ghost predicate Finished(slices: seq<Slice>) {
    |slices| > 0 && slices[|slices| - 1].next.None?
  }

  /** A fetch returns the front of the matching rows: all of them if nothing follows, and otherwise `limit`. */
  lemma FetchContents(rows: Rows, w: Where, limit: nat)
    requires UniqueIds(rows) && limit > 0
    ensures var s, all := Fetch(rows, w, limit), Query(rows, w);
      && Descending(all) && s.items <= all
      && (s.next.None? <==> |all| <= limit)
      && (s.next.None? ==> s.items == all)
      && (s.next.Some? ==> |s.items| == limit && s.next == Some(KeyOf(all[limit - 1])))
  {
    QueryDescending(rows, w);
  }

  /** What a walk knows of slice `i`: its rows match, come after the key reached, and in order, and its end is the key
    * of its last row.
    */
  ghost predicate Facts(rows: Rows, s: Slice, w: Where, reached: Option<Key>) {
    && Descending(s.items)
    && (forall n :: n in s.items ==>
          n in rows && w.Matches(n) && (reached.Some? ==> After(KeyOf(n), reached.value)))
    && (s.next.Some? ==> |s.items| > 0 && s.next.value == KeyOf(s.items[|s.items| - 1]))
  }

  lemma FetchFacts(rows: Rows, w: Where, limit: nat, reached: Option<Key>)
    requires UniqueIds(rows) && limit > 0 && w.after.None?
    ensures Facts(rows, Fetch(rows, w.(after := reached), limit), w, reached)
  {
    var here := w.(after := reached);
    var s := Fetch(rows, here, limit);
    FetchContents(rows, here, limit);
    forall n | n in s.items
      ensures n in rows && w.Matches(n) && (reached.Some? ==> After(KeyOf(n), reached.value))
    {
      QueryMember(rows, here, n);
    }
  }

  lemma SliceFacts(tables: seq<Rows>, slices: seq<Slice>, w: Where, limit: nat, i: nat)
    requires Walk(tables, slices, w, limit) && i < |slices|
    ensures Facts(tables[i], slices[i], w, Reached(slices, i))
    ensures i < |slices| - 1 ==> slices[i].next.Some?
  {
    assert Fetched(tables, slices, w, limit, i);
    FetchFacts(tables[i], w, limit, Reached(slices, i));
  }

  /** Every row of a later slice comes strictly after the key on which an earlier slice ended. */
  lemma {:induction false} LaterSliceIsAfter(
    tables: seq<Rows>, slices: seq<Slice>, w: Where, limit: nat, i: nat, j: nat, n: Notification)
    requires Walk(tables, slices, w, limit) && i < j < |slices| && n in slices[j].items
    ensures slices[i].next.Some? && After(KeyOf(n), slices[i].next.value)
    decreases j
  {
    SliceFacts(tables, slices, w, limit, i);
    SliceFacts(tables, slices, w, limit, j);
    if i < j - 1 {
      var prev := slices[j - 1];
      SliceFacts(tables, slices, w, limit, j - 1);
      LaterSliceIsAfter(tables, slices, w, limit, i, j - 1, prev.items[|prev.items| - 1]);
      AfterTransitive(KeyOf(n), prev.next.value, slices[i].next.value);
    }
  }

  /** Rows may be inserted, updated and deleted between fetches, but an id keeps its creation time. */
  ghost predicate StableKeys(tables: seq<Rows>) {
    forall i, j, m, n | 0 <= i < |tables| && 0 <= j < |tables| && m in tables[i] && n in tables[j] ::
      m.id == n.id ==> m.createdAt == n.createdAt
  }

  lemma NoKeyTwice(tables: seq<Rows>, slices: seq<Slice>, w: Where, limit: nat, i: nat, a: nat, j: nat, b: nat)
    requires Walk(tables, slices, w, limit) && StableKeys(tables)
    requires i <= j < |slices| && a < |slices[i].items| && b < |slices[j].items| && (i == j ==> a < b)
    ensures slices[i].items[a].id != slices[j].items[b].id
  {
    var x, y := slices[i].items[a], slices[j].items[b];
    SliceFacts(tables, slices, w, limit, i);
    SliceFacts(tables, slices, w, limit, j);
    assert x in slices[i].items && y in slices[j].items;
    if i < j {
      LaterSliceIsAfter(tables, slices, w, limit, i, j, y);
      if a < |slices[i].items| - 1 {
        AfterTransitive(KeyOf(y), slices[i].next.value, KeyOf(x));
      }
    }
    AfterTotal(KeyOf(y), KeyOf(x));
  }

  /** The row with this id is in the table and passes the filter. */
  ghost predicate Present(rows: Rows, w: Where, id: string) {
    exists n :: n in rows && n.id == id && w.Matches(n)
  }

  ghost predicate Returned(items: Rows, id: string) {
    exists n :: n in items && n.id == id
  }

  /** A matching row after the key reached is fetched, or comes after the end of the fetch. */
  lemma FetchedOrLater(rows: Rows, w: Where, limit: nat, reached: Option<Key>, n: Notification)
    requires UniqueIds(rows) && limit > 0 && w.after.None?
    requires n in rows && w.Matches(n) && (reached.Some? ==> After(KeyOf(n), reached.value))
    ensures var s := Fetch(rows, w.(after := reached), limit);
      n in s.items || (s.next.Some? && After(KeyOf(n), s.next.value))
  {
    var here := w.(after := reached);
    var all, s := Query(rows, here), Fetch(rows, here, limit);
    FetchContents(rows, here, limit);
    QueryMember(rows, here, n);
    var p :| 0 <= p < |all| && all[p] == n;
    if p < |s.items| {
      assert s.items[p] == n;
    } else {
      assert After(KeyOf(all[p]), KeyOf(all[limit - 1]));
    }
  }

  lemma SliceOrLater(tables: seq<Rows>, slices: seq<Slice>, w: Where, limit: nat, i: nat, n: Notification)
    requires Walk(tables, slices, w, limit) && i < |slices|
    requires n in tables[i] && w.Matches(n) && (Reached(slices, i).Some? ==> After(KeyOf(n), Reached(slices, i).value))
    ensures n in slices[i].items || (slices[i].next.Some? && After(KeyOf(n), slices[i].next.value))
  {
    assert Fetched(tables, slices, w, limit, i);
    FetchedOrLater(tables[i], w, limit, Reached(slices, i), n);
  }

  lemma {:induction false} ReturnedFrom(
    tables: seq<Rows>, slices: seq<Slice>, w: Where, limit: nat, k: Key, i: nat) returns (j: nat)
    requires Walk(tables, slices, w, limit) && Finished(slices) && i < |slices|
    requires forall t :: 0 <= t < |tables| ==> Present(tables[t], w, k.id)
    requires forall t, n :: 0 <= t < |tables| && n in tables[t] && n.id == k.id ==> n.createdAt == k.createdAt
    requires Reached(slices, i).Some? ==> After(k, Reached(slices, i).value)
    ensures i <= j < |slices| && Returned(slices[j].items, k.id)
    decreases |slices| - i
  {
    assert Present(tables[i], w, k.id);
    var n :| n in tables[i] && n.id == k.id && w.Matches(n);
    assert KeyOf(n) == k;
    SliceOrLater(tables, slices, w, limit, i, n);
    if n in slices[i].items {
      assert Returned(slices[i].items, k.id);
      j := i;
    } else {
      j := ReturnedFrom(tables, slices, w, limit, k, i + 1);
    }
  }

  // ----- walks by text cursor

  /** A table a client may meet. */
  ghost predicate Table(rows: Rows) {
    UniqueIds(rows) && AllEncodable(rows)
  }

  ghost function CursorBefore(pages: seq<Page>, i: nat): Option<string>
    requires i <= |pages|
  {
    if i == 0 then None else pages[i - 1].nextCursor
  }

  /** The client fetched page `i` from table `i` with the cursor text of the page before. */
  ghost predicate Received(tables: seq<Rows>, pages: seq<Page>, userId: Id, orgId: Id, o: Options, i: nat)
    requires |tables| == |pages| && i < |pages|
  {
    && Table(tables[i])
    && ListForUser(tables[i], userId, orgId, o.(cursor := CursorBefore(pages, i))) == Ok(pages[i])
    && (i < |pages| - 1 ==> pages[i].nextCursor.Some?)
  }

  ghost predicate Client(tables: seq<Rows>, pages: seq<Page>, userId: Id, orgId: Id, o: Options) {
    && |tables| == |pages| > 0
    && forall i :: 0 <= i < |pages| ==> Received(tables, pages, userId, orgId, o, i)
  }

  ghost predicate Completed(pages: seq<Page>) {
    |pages| > 0 && pages[|pages| - 1].nextCursor.None?
  }

  function SliceOf(p: Page): Slice {
    Slice(p.items, if p.nextCursor.None? || |p.items| == 0 then None else Some(KeyOf(p.items[|p.items| - 1])))
  }

  function SlicesOf(pages: seq<Page>): (slices: seq<Slice>)
    ensures |slices| == |pages|
  {
    seq(|pages|, i requires 0 <= i < |pages| => SliceOf(pages[i]))
  }

  /** The cursor text loses nothing. */
  lemma KeyOfText(o: Options, k: Key, text: string)
    requires Encodable(k.createdAt, k.id) && text == EncodeCursor(k.createdAt, k.id)
    ensures CursorKey(o.(cursor := Some(text))) == Ok(Some(k))
  {
    CursorRoundTrip(k.createdAt, k.id);
  }

  lemma PageOf(rows: Rows, userId: Id, orgId: Id, o: Options, after: Option<Key>, s: Slice)
    requires Table(rows) && CursorKey(o) == Ok(after) && s == Fetch(rows, WhereOf(userId, orgId, o, after), Limit(o))
    ensures var page := ListForUser(rows, userId, orgId, o);
      && page.Ok? && page.value.items == s.items
      && (page.value.nextCursor.Some? <==> s.next.Some?)
      && (s.next.Some? ==>
           && Encodable(s.next.value.createdAt, s.next.value.id)
           && page.value.nextCursor.value == EncodeCursor(s.next.value.createdAt, s.next.value.id))
  {
  }

  /** One page by text is one fetch by key. */
  lemma PageIsSlice(rows: Rows, userId: Id, orgId: Id, o: Options, after: Option<Key>)
    requires Table(rows) && CursorKey(o) == Ok(after)
    ensures var page := ListForUser(rows, userId, orgId, o);
      && page.Ok? && SliceOf(page.value) == Fetch(rows, WhereOf(userId, orgId, o, after), Limit(o))
      && (page.value.nextCursor.Some? <==> SliceOf(page.value).next.Some?)
      && CursorKey(o.(cursor := page.value.nextCursor)) == Ok(SliceOf(page.value).next)
  {
    var s := Fetch(rows, WhereOf(userId, orgId, o, after), Limit(o));
    PageOf(rows, userId, orgId, o, after, s);
    if s.next.Some? {
      KeyOfText(o, s.next.value, ListForUser(rows, userId, orgId, o).value.nextCursor.value);
    }
  }

  lemma ReceivedIsFetched(
    tables: seq<Rows>, pages: seq<Page>, userId: Id, orgId: Id, o: Options, i: nat, after: Option<Key>)
    requires Client(tables, pages, userId, orgId, o) && i < |pages|
    requires CursorKey(o.(cursor := CursorBefore(pages, i))) == Ok(after)
    ensures SliceOf(pages[i]) == Fetch(tables[i], WhereOf(userId, orgId, o, after), Limit(o))
    ensures pages[i].nextCursor.Some? <==> SliceOf(pages[i]).next.Some?
    ensures CursorKey(o.(cursor := pages[i].nextCursor)) == Ok(SliceOf(pages[i]).next)
  {
    assert Received(tables, pages, userId, orgId, o, i);
    PageIsSlice(tables[i], userId, orgId, o.(cursor := CursorBefore(pages, i)), after);
  }

  /** The cursor text of every page stands for the key on which its slice ended. */
  lemma {:induction false} CursorOfPage(tables: seq<Rows>, pages: seq<Page>, userId: Id, orgId: Id, o: Options, i: nat)
    requires Client(tables, pages, userId, orgId, o) && i <= |pages|
    ensures CursorKey(o.(cursor := CursorBefore(pages, i))) == Ok(Reached(SlicesOf(pages), i))
  {
    if i > 0 {
      CursorOfPage(tables, pages, userId, orgId, o, i - 1);
      ReceivedIsFetched(tables, pages, userId, orgId, o, i - 1, Reached(SlicesOf(pages), i - 1));
    }
  }

  lemma ClientFetched(tables: seq<Rows>, pages: seq<Page>, userId: Id, orgId: Id, o: Options, i: nat)
    requires Client(tables, pages, userId, orgId, o) && i < |pages|
    ensures Fetched(tables, SlicesOf(pages), WhereOf(userId, orgId, o, None), Limit(o), i)
    ensures pages[i].nextCursor.Some? <==> SlicesOf(pages)[i].next.Some?
  {
    assert Received(tables, pages, userId, orgId, o, i);
    CursorOfPage(tables, pages, userId, orgId, o, i);
    ReceivedIsFetched(tables, pages, userId, orgId, o, i, Reached(SlicesOf(pages), i));
  }

  lemma ClientWalks(tables: seq<Rows>, pages: seq<Page>, userId: Id, orgId: Id, o: Options)
    requires Client(tables, pages, userId, orgId, o)
    ensures Walk(tables, SlicesOf(pages), WhereOf(userId, orgId, o, None), Limit(o))
    ensures Completed(pages) <==> Finished(SlicesOf(pages))
  {
    forall i | 0 <= i < |pages|
      ensures Fetched(tables, SlicesOf(pages), WhereOf(userId, orgId, o, None), Limit(o), i)
    {
      ClientFetched(tables, pages, userId, orgId, o, i);
    }
    ClientFetched(tables, pages, userId, orgId, o, |pages| - 1);
  }

  /** No id is returned twice, whatever happens to the table between the fetches. */
  lemma NoIdTwice(tables: seq<Rows>, pages: seq<Page>, userId: Id, orgId: Id, o: Options, i: nat, a: nat, j: nat, b: nat)
    requires Client(tables, pages, userId, orgId, o) && StableKeys(tables)
    requires i <= j < |pages| && a < |pages[i].items| && b < |pages[j].items| && (i == j ==> a < b)
    ensures pages[i].items[a].id != pages[j].items[b].id
  {
    ClientWalks(tables, pages, userId, orgId, o);
    NoKeyTwice(tables, SlicesOf(pages), WhereOf(userId, orgId, o, None), Limit(o), i, a, j, b);
  }

  /** A row that is in the table and passes the filter at every fetch of a completed walk is returned; together with
    * `NoIdTwice`, exactly once.
    */
  lemma EveryStableRowReturned(
    tables: seq<Rows>, pages: seq<Page>, userId: Id, orgId: Id, o: Options, id: string) returns (j: nat)
    requires Client(tables, pages, userId, orgId, o) && StableKeys(tables) && Completed(pages)
    requires forall t :: 0 <= t < |tables| ==> Present(tables[t], WhereOf(userId, orgId, o, None), id)
    ensures j < |pages| && Returned(pages[j].items, id)
  {
    var w := WhereOf(userId, orgId, o, None);
    ClientWalks(tables, pages, userId, orgId, o);
    assert Present(tables[0], w, id);
    var n :| n in tables[0] && n.id == id && w.Matches(n);
    j := ReturnedFrom(tables, SlicesOf(pages), w, Limit(o), KeyOf(n), 0);
  }

  // ----- a table that does not change

  function Constant(rows: Rows, n: nat): (tables: seq<Rows>)
    ensures |tables| == n
  {
    seq(n, _ => rows)
  }

  function Min(a: nat, b: nat): nat {
    if a <= b then a else b
  }

  /** Where slice `i` starts: i * limit. */
  function Offset(i: nat, limit: nat): nat {
    if i == 0 then 0 else Offset(i - 1, limit) + limit
  }

  lemma {:induction false} OffsetIs(i: nat, limit: nat)
    ensures Offset(i, limit) == i * limit
  {
    if i > 0 {
      OffsetIs(i - 1, limit);
      assert i * limit == (i - 1) * limit + limit;
    }
  }

  /** On an unchanging table slice `i` is the `i`-th stretch of the sorted listing. */
  ghost predicate Stretch(all: Rows, s: Slice, from: nat, limit: nat) {
    && from <= |all| && limit > 0
    && s.items == all[from..Min(from + limit, |all|)]
    && (s.next.Some? <==> from + limit < |all|)
    && (s.next.Some? ==> s.next.value == KeyOf(all[from + limit - 1]))
  }

  lemma FirstStretch(rows: Rows, w: Where, limit: nat)
    requires UniqueIds(rows) && limit > 0
    ensures Stretch(Query(rows, w), Fetch(rows, w, limit), 0, limit)
  {
    FetchContents(rows, w, limit);
  }

  lemma NextStretch(rows: Rows, w: Where, limit: nat, prev: Slice, from: nat)
    requires UniqueIds(rows) && w.after.None? && limit > 0
    requires Stretch(Query(rows, w), prev, from, limit) && prev.next.Some?
    ensures Stretch(Query(rows, w), Fetch(rows, w.(after := prev.next), limit), from + limit, limit)
  {
    var all, rest := Query(rows, w), Query(rows, w.(after := prev.next));
    QueryAfterRow(rows, w, from + limit - 1);
    FetchContents(rows, w.(after := prev.next), limit);
    assert rest == all[from + limit..];
    assert |rest| > limit ==> rest[..limit] == all[from + limit..from + limit + limit];
  }

  lemma FetchedFromSame(rows: Rows, slices: seq<Slice>, w: Where, limit: nat, i: nat)
    requires Walk(Constant(rows, |slices|), slices, w, limit) && i < |slices|
    ensures UniqueIds(rows) && slices[i] == Fetch(rows, w.(after := Reached(slices, i)), limit)
    ensures i > 0 ==> slices[i - 1].next.Some?
  {
    var tables := Constant(rows, |slices|);
    assert Fetched(tables, slices, w, limit, i);
    assert i > 0 ==> Fetched(tables, slices, w, limit, i - 1);
  }

  lemma StretchStep(rows: Rows, slices: seq<Slice>, w: Where, limit: nat, i: nat, from: nat)
    requires Walk(Constant(rows, |slices|), slices, w, limit) && i < |slices|
    requires if i == 0 then from == 0
             else from >= limit && Stretch(Query(rows, w), slices[i - 1], from - limit, limit)
    ensures Stretch(Query(rows, w), slices[i], from, limit)
  {
    FetchedFromSame(rows, slices, w, limit, i);
    if i == 0 {
      assert w.(after := None) == w;
      FirstStretch(rows, w, limit);
    } else {
      NextStretch(rows, w, limit, slices[i - 1], from - limit);
    }
  }

  lemma {:induction false} StaticSlice(rows: Rows, slices: seq<Slice>, w: Where, limit: nat, i: nat)
    requires Walk(Constant(rows, |slices|), slices, w, limit) && i < |slices|
    ensures Stretch(Query(rows, w), slices[i], Offset(i, limit), limit)
  {
    if i > 0 {
      StaticSlice(rows, slices, w, limit, i - 1);
    }
    StretchStep(rows, slices, w, limit, i, Offset(i, limit));
  }

  function Concat(pages: seq<Page>): Rows {
    if |pages| == 0 then [] else Concat(pages[..|pages| - 1]) + pages[|pages| - 1].items
  }

  /** Page `i` is the `i`-th stretch of a listing. */
  ghost predicate StretchAt(all: Rows, pages: seq<Page>, limit: nat, i: nat)
    requires i < |pages|
  {
    Stretch(all, SliceOf(pages[i]), Offset(i, limit), limit) && (i < |pages| - 1 ==> SliceOf(pages[i]).next.Some?)
  }

  ghost predicate Stretches(all: Rows, pages: seq<Page>, limit: nat) {
    forall i :: 0 <= i < |pages| ==> StretchAt(all, pages, limit, i)
  }

  lemma AppendStretch(all: Rows, pages: seq<Page>, limit: nat, m: nat)
    requires 0 < m <= |pages| && StretchAt(all, pages, limit, m - 1)
    requires Concat(pages[..m - 1]) == all[..Min(Offset(m - 1, limit), |all|)]
    ensures Concat(pages[..m]) == all[..Min(Offset(m, limit), |all|)]
  {
    var front := pages[..m];
    assert front[..m - 1] == pages[..m - 1] && front[m - 1] == pages[m - 1];
    var a, b := Offset(m - 1, limit), Min(Offset(m, limit), |all|);
    assert all[..a] + all[a..b] == all[..b];
  }

  lemma {:induction false} ConcatStretches(all: Rows, pages: seq<Page>, limit: nat, m: nat)
    requires Stretches(all, pages, limit) && m <= |pages|
    ensures Concat(pages[..m]) == all[..Min(Offset(m, limit), |all|)]
  {
    if m > 0 {
      ConcatStretches(all, pages, limit, m - 1);
      assert StretchAt(all, pages, limit, m - 1);
      AppendStretch(all, pages, limit, m);
    }
  }

  /** max(1, ceil(n / limit)) */
  function PageCount(n: nat, limit: nat): nat
    requires limit > 0
  {
    if n == 0 then 1 else (n + limit - 1) / limit
  }

  /** A completed walk over an unchanging table returns exactly the filtered rows in order, in max(1, ceil(n/limit))
    * pages.
    */
  lemma {:induction false} StaticWalk(rows: Rows, pages: seq<Page>, userId: Id, orgId: Id, o: Options)
    requires Client(Constant(rows, |pages|), pages, userId, orgId, o) && Completed(pages)
    ensures var all := Query(rows, WhereOf(userId, orgId, o, None));
      Concat(pages) == all && |pages| == PageCount(|all|, Limit(o))
  {
    var w, limit := WhereOf(userId, orgId, o, None), Limit(o);
    var slices := SlicesOf(pages);
    ClientWalks(Constant(rows, |pages|), pages, userId, orgId, o);
    forall i | 0 <= i < |pages|
      ensures StretchAt(Query(rows, w), pages, limit, i)
    {
      StaticSlice(rows, slices, w, limit, i);
      SliceFacts(Constant(rows, |pages|), slices, w, limit, i);
      assert slices[i] == SliceOf(pages[i]);
    }
    StretchesCover(Query(rows, w), pages, limit);
  }

  lemma StretchesCover(all: Rows, pages: seq<Page>, limit: nat)
    requires Stretches(all, pages, limit) && limit > 0
    requires |pages| > 0 && SliceOf(pages[|pages| - 1]).next.None?
    ensures Concat(pages) == all && |pages| == PageCount(|all|, limit)
  {
    var n := |pages|;
    ConcatStretches(all, pages, limit, n);
    assert StretchAt(all, pages, limit, n - 1);
    assert Offset(n, limit) == Offset(n - 1, limit) + limit;
    assert pages[..n] == pages && all[..|all|] == all;
    if n > 1 {
      assert StretchAt(all, pages, limit, n - 2);
      assert Offset(n - 1, limit) == Offset(n - 2, limit) + limit;
    }
    SliceCount(|all|, limit, n);
  }

  lemma SliceCount(size: nat, limit: nat, n: nat)
    requires limit > 0 && n > 0 && size <= Offset(n - 1, limit) + limit
    requires n > 1 ==> Offset(n - 1, limit) < size
    ensures n == PageCount(size, limit)
  {
    OffsetIs(n - 1, limit);
    OffsetIs(n, limit);
    if size > 0 {
      QuotientIs(size + limit - 1, limit, n);
    }
  }

  lemma QuotientIs(x: nat, d: nat, q: nat)
    requires d > 0 && q * d <= x < q * d + d
    ensures x / d == q
  {
    var p := x / d;
    assert p * d <= x < p * d + d;
    if p < q {
      Multiple(q - p, d);
    } else if p > q {
      Multiple(p - q, d);
    }
    assert (p - q) * d == p * d - q * d;
    assert (q - p) * d == q * d - p * d;
  }

  lemma Multiple(k: nat, d: nat)
    requires k > 0
    ensures k * d >= d
  {
  }

  lemma {:induction false} OffsetGrows(i: nat, limit: nat)
    requires limit > 0
    ensures Offset(i, limit) >= i
  {
    if i > 0 {
      OffsetGrows(i - 1, limit);
    }
  }

  /** As long as a page names a successor there are more rows than pages. */
  lemma MoreRowsThanPages(rows: Rows, pages: seq<Page>, userId: Id, orgId: Id, o: Options)
    requires Client(Constant(rows, |pages|), pages, userId, orgId, o) && !Completed(pages)
    ensures |pages| < |Query(rows, WhereOf(userId, orgId, o, None))|
  {
    ClientWalks(Constant(rows, |pages|), pages, userId, orgId, o);
    StaticSlice(rows, SlicesOf(pages), WhereOf(userId, orgId, o, None), Limit(o), |pages| - 1);
    OffsetGrows(|pages| - 1, Limit(o));
  }

  lemma NextPage(rows: Rows, pages: seq<Page>, userId: Id, orgId: Id, o: Options) returns (page: Page)
    requires Table(rows)
    requires |pages| > 0 ==> Client(Constant(rows, |pages|), pages, userId, orgId, o) && !Completed(pages)
    ensures Client(Constant(rows, |pages| + 1), pages + [page], userId, orgId, o)
  {
    var next := o.(cursor := CursorBefore(pages, |pages|));
    if |pages| > 0 {
      CursorOfPage(Constant(rows, |pages|), pages, userId, orgId, o, |pages|);
    }
    PageIsSlice(rows, userId, orgId, next, Reached(SlicesOf(pages), |pages|));
    page := ListForUser(rows, userId, orgId, next).value;
    LongerClient(rows, pages, userId, orgId, o, page);
  }

  /** Following `nextCursor` on an unchanging table reaches a page without one. */
  lemma {:induction false} StaticWalkEnds(rows: Rows, pages: seq<Page>, userId: Id, orgId: Id, o: Options)
    returns (whole: seq<Page>)
    requires Table(rows)
    requires |pages| > 0 ==> Client(Constant(rows, |pages|), pages, userId, orgId, o)
    ensures Client(Constant(rows, |whole|), whole, userId, orgId, o) && Completed(whole) && pages <= whole
    decreases |Query(rows, WhereOf(userId, orgId, o, None))| + 1 - |pages|
  {
    if Completed(pages) {
      whole := pages;
    } else {
      if |pages| > 0 {
        MoreRowsThanPages(rows, pages, userId, orgId, o);
      }
      var page := NextPage(rows, pages, userId, orgId, o);
      whole := StaticWalkEnds(rows, pages + [page], userId, orgId, o);
    }
  }

  lemma LongerClient(rows: Rows, pages: seq<Page>, userId: Id, orgId: Id, o: Options, page: Page)
    requires Table(rows)
    requires |pages| > 0 ==> Client(Constant(rows, |pages|), pages, userId, orgId, o) && !Completed(pages)
    requires ListForUser(rows, userId, orgId, o.(cursor := CursorBefore(pages, |pages|))) == Ok(page)
    ensures Client(Constant(rows, |pages| + 1), pages + [page], userId, orgId, o)
  {
    var longer, tables := pages + [page], Constant(rows, |pages| + 1);
    forall i | 0 <= i < |longer|
      ensures Received(tables, longer, userId, orgId, o, i)
    {
      if i < |pages| {
        SamePage(rows, pages, userId, orgId, o, page, i);
      } else {
        assert CursorBefore(longer, i) == CursorBefore(pages, i);
      }
    }
  }

  lemma SamePage(rows: Rows, pages: seq<Page>, userId: Id, orgId: Id, o: Options, page: Page, i: nat)
    requires Client(Constant(rows, |pages|), pages, userId, orgId, o) && !Completed(pages) && i < |pages|
    ensures Received(Constant(rows, |pages| + 1), pages + [page], userId, orgId, o, i)
  {
    assert Received(Constant(rows, |pages|), pages, userId, orgId, o, i);
    assert CursorBefore(pages + [page], i) == CursorBefore(pages, i);
  }
}
