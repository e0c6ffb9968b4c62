/** The states of notifications and the events published about them: a client that replays its events holds exactly
  * its rows of the table.
  */
module Inbox {
  import opened Prelude
  import opened Cursor
  import opened Notifications
  import opened Paging

  /** What is published to the room of one user. */
  datatype Event =
    | New(row: Notification)
    | Read(id: string, readAt: Time)
    | ReadAll(readAt: Time)
    | Dismiss(id: string, dismissedAt: Time)
    | Undismiss(id: string)

  datatype Published = Published(orgId: Id, userId: Id, event: Event)

  datatype State = State(rows: Rows, log: seq<Published>)

  // ----- updateMany

  /** The four bulk updates, each with its `where` clause and its data. */
  datatype Update =
    | SetRead(id: string, userId: Id, orgId: Id, at: Time)
    | SetAllRead(userId: Id, orgId: Id, at: Time)
    | SetDismissed(id: string, userId: Id, orgId: Id, at: Time)
    | ClearDismissed(id: string, userId: Id, orgId: Id)
  {
    predicate Hits(n: Notification) {
      && n.recipientUserId == userId && n.orgId == orgId
      && match this
         case SetRead(id, _, _, _) => n.id == id && n.readAt.None? && n.dismissedAt.None?
         case SetAllRead(_, _, _) => n.readAt.None? && n.dismissedAt.None?
         case SetDismissed(id, _, _, _) => n.id == id && n.dismissedAt.None?
         case ClearDismissed(id, _, _) => n.id == id && n.dismissedAt.Some?
    }

    function Set(n: Notification): Notification {
      match this
      case SetRead(_, _, _, at) => n.(readAt := Some(at))
      case SetAllRead(_, _, at) => n.(readAt := Some(at))
      case SetDismissed(_, _, _, at) => n.(dismissedAt := Some(at))
      case ClearDismissed(_, _, _) => n.(dismissedAt := None)
    }
  }

  function Updated(n: Notification, u: Update): Notification {
    if u.Hits(n) then u.Set(n) else n
  }

  function UpdateMany(rows: Rows, u: Update): Rows {
    seq(|rows|, i requires 0 <= i < |rows| => Updated(rows[i], u))
  }

  /** How many rows the `where` clause hits. */
  function CountHits(rows: Rows, u: Update): nat {
    if |rows| == 0 then 0 else CountHits(rows[..|rows| - 1], u) + if u.Hits(rows[|rows| - 1]) then 1 else 0
  }

  lemma {:induction false} CountHitsPositive(rows: Rows, u: Update)
    ensures CountHits(rows, u) > 0 <==> exists n :: n in rows && u.Hits(n)
  {
    if |rows| > 0 {
      var init, last := rows[..|rows| - 1], rows[|rows| - 1];
      CountHitsPositive(init, u);
      assert rows == init + [last];
      assert forall n :: n in rows <==> n in init || n == last;
    }
  }

  // ----- the service

  function IsMine(n: Notification, userId: Id, orgId: Id): bool {
    n.recipientUserId == userId && n.orgId == orgId
  }

  /** `findByIdForUser`. */
  function FindForUser(rows: Rows, id: string, userId: Id, orgId: Id): (r: Option<nat>)
    ensures r.Some? ==> r.value < |rows| && rows[r.value].id == id && IsMine(rows[r.value], userId, orgId)
    ensures r.None? ==> forall i :: 0 <= i < |rows| ==> !(rows[i].id == id && IsMine(rows[i], userId, orgId))
  {
    if |rows| == 0 then None
    else
      var k := |rows| - 1;
      var r := FindForUser(rows[..k], id, userId, orgId);
      if r.Some? then r else if rows[k].id == id && IsMine(rows[k], userId, orgId) then Some(k) else None
  }

  /** The id and creation time the database gives a new row. */
  datatype Stamp = Stamp(id: string, createdAt: Time)

  datatype Message = Message(orgId: Id, kind: Kind, requestId: Id, actorUserId: Id)

  function RowFor(m: Message, userId: Id, stamp: Stamp): Notification {
    Notification(stamp.id, m.orgId, userId, m.kind, m.requestId, m.actorUserId, stamp.createdAt, None, None)
  }

  /** The stamps are usable for that many rows: new ids, all different, and encodable in a cursor. */
  ghost predicate Fresh(rows: Rows, stamps: seq<Stamp>, n: nat) {
    && n <= |stamps|
    && (forall i, j :: 0 <= i < j < n ==> stamps[i].id != stamps[j].id)
    && (forall i, k :: 0 <= i < n && 0 <= k < |rows| ==> stamps[i].id != rows[k].id)
    && (forall i :: 0 <= i < n ==> Encodable(stamps[i].createdAt, stamps[i].id))
  }

  function NewRows(m: Message, userIds: seq<Id>, stamps: seq<Stamp>): Rows
    requires |userIds| <= |stamps|
  {
    seq(|userIds|, i requires 0 <= i < |userIds| => RowFor(m, userIds[i], stamps[i]))
  }

  function Announce(rows: Rows): seq<Published> {
    seq(|rows|, i requires 0 <= i < |rows| => Published(rows[i].orgId, rows[i].recipientUserId, New(rows[i])))
  }

  /** One row and one event for every different recipient. */
  function CreateForUsers(s: State, m: Message, userIds: seq<Id>, stamps: seq<Stamp>): State
    requires |FirstOccurrences(userIds)| <= |stamps|
  {
    var rows := NewRows(m, FirstOccurrences(userIds), stamps);
    State(s.rows + rows, s.log + Announce(rows))
  }

  function Publish(s: State, u: Update, e: Event): State {
    State(UpdateMany(s.rows, u), s.log + [Published(u.orgId, u.userId, e)])
  }

  function MarkRead(s: State, id: string, userId: Id, orgId: Id, now: Time): (State, Result<()>) {
    var found := FindForUser(s.rows, id, userId, orgId);
    if found.None? then (s, Err(NotFound))
    else if s.rows[found.value].readAt.Some? || s.rows[found.value].dismissedAt.Some? then (s, Ok(()))
    else (Publish(s, SetRead(id, userId, orgId, now), Read(id, now)), Ok(()))
  }

  function MarkAllRead(s: State, userId: Id, orgId: Id, now: Time): State {
    var u := SetAllRead(userId, orgId, now);
    if exists n :: n in s.rows && u.Hits(n) then Publish(s, u, ReadAll(now)) else s
  }

  function DismissOne(s: State, id: string, userId: Id, orgId: Id, now: Time): (State, Result<()>) {
    var found := FindForUser(s.rows, id, userId, orgId);
    if found.None? then (s, Err(NotFound))
    else if s.rows[found.value].dismissedAt.Some? then (s, Ok(()))
    else (Publish(s, SetDismissed(id, userId, orgId, now), Dismiss(id, now)), Ok(()))
  }

  function UndismissOne(s: State, id: string, userId: Id, orgId: Id): (State, Result<()>) {
    var found := FindForUser(s.rows, id, userId, orgId);
    if found.None? then (s, Err(NotFound))
    else if s.rows[found.value].dismissedAt.None? then (s, Ok(()))
    else (Publish(s, ClearDismissed(id, userId, orgId), Undismiss(id)), Ok(()))
  }

  datatype Op =
    | OpCreate(m: Message, userIds: seq<Id>, stamps: seq<Stamp>)
    | OpRead(id: string, userId: Id, orgId: Id, now: Time)
    | OpReadAll(userId: Id, orgId: Id, now: Time)
    | OpDismiss(id: string, userId: Id, orgId: Id, now: Time)
    | OpUndismiss(id: string, userId: Id, orgId: Id)

  /** One atomic service call; a creation whose stamps the database would not hand out does not happen. */
  ghost function Step(s: State, op: Op): State {
    match op
    case OpCreate(m, userIds, stamps) =>
      if Fresh(s.rows, stamps, |FirstOccurrences(userIds)|) then CreateForUsers(s, m, userIds, stamps) else s
    case OpRead(id, userId, orgId, now) => MarkRead(s, id, userId, orgId, now).0
    case OpReadAll(userId, orgId, now) => MarkAllRead(s, userId, orgId, now)
    case OpDismiss(id, userId, orgId, now) => DismissOne(s, id, userId, orgId, now).0
    case OpUndismiss(id, userId, orgId) => UndismissOne(s, id, userId, orgId).0
  }

  ghost function Run(s: State, ops: seq<Op>): State {
    if |ops| == 0 then s else Step(Run(s, ops[..|ops| - 1]), ops[|ops| - 1])
  }

  // ----- what a step does to the rows

  /** Identity, owner and creation time are fixed, and a reading time once set never changes. */
  ghost predicate RowEvolves(n: Notification, m: Notification) {
    && m == n.(readAt := m.readAt, dismissedAt := m.dismissedAt)
    && (n.readAt.Some? ==> m.readAt == n.readAt)
  }

  ghost predicate RowsEvolve(rows: Rows, later: Rows) {
    |rows| <= |later| && forall i :: 0 <= i < |rows| ==> RowEvolves(rows[i], later[i])
  }

  lemma UpdateManyKeeps(rows: Rows, u: Update)
    requires Table(rows)
    ensures Table(UpdateMany(rows, u)) && RowsEvolve(rows, UpdateMany(rows, u))
  {
    var later := UpdateMany(rows, u);
    assert forall i :: 0 <= i < |rows| ==> RowEvolves(rows[i], later[i]);
    forall n | n in later ensures Encodable(n.createdAt, n.id) {
      var i :| 0 <= i < |later| && later[i] == n;
      assert rows[i] in rows;
    }
  }

  lemma NewRowsKeep(rows: Rows, m: Message, userIds: seq<Id>, stamps: seq<Stamp>)
    requires Table(rows) && Fresh(rows, stamps, |userIds|)
    ensures var later := rows + NewRows(m, userIds, stamps); Table(later) && RowsEvolve(rows, later)
  {
    var later := rows + NewRows(m, userIds, stamps);
    assert forall i :: 0 <= i < |rows| ==> RowEvolves(rows[i], later[i]);
    forall n | n in later ensures Encodable(n.createdAt, n.id) {
      var i :| 0 <= i < |later| && later[i] == n;
      if i < |rows| {
        assert rows[i] in rows;
      }
    }
  }

  ghost predicate Kept(s: State, t: State) {
    Table(t.rows) && RowsEvolve(s.rows, t.rows) && s.log <= t.log
  }

  lemma SameKept(s: State)
    requires Table(s.rows)
    ensures Kept(s, s)
  {
  }

  lemma PublishKeeps(s: State, u: Update, e: Event, t: State)
    requires Table(s.rows) && t == Publish(s, u, e)
    ensures Kept(s, t)
  {
    UpdateManyKeeps(s.rows, u);
  }

  lemma CreateKeeps(s: State, m: Message, userIds: seq<Id>, stamps: seq<Stamp>, t: State)
    requires Table(s.rows) && Fresh(s.rows, stamps, |FirstOccurrences(userIds)|)
    requires t == CreateForUsers(s, m, userIds, stamps)
    ensures Kept(s, t)
  {
    NewRowsKeep(s.rows, m, FirstOccurrences(userIds), stamps);
  }

  lemma StepKeeps(s: State, op: Op)
    requires Table(s.rows)
    ensures var t := Step(s, op);
      Table(t.rows) && RowsEvolve(s.rows, t.rows) && s.log <= t.log
  {
    var t := Step(s, op);
    if t == s {
      SameKept(s);
    } else {
      match op
      case OpCreate(m, userIds, stamps) => CreateKeeps(s, m, userIds, stamps, t);
      case OpRead(id, u, o, now) => PublishKeeps(s, SetRead(id, u, o, now), Read(id, now), t);
      case OpReadAll(u, o, now) => PublishKeeps(s, SetAllRead(u, o, now), ReadAll(now), t);
      case OpDismiss(id, u, o, now) => PublishKeeps(s, SetDismissed(id, u, o, now), Dismiss(id, now), t);
      case OpUndismiss(id, u, o) => PublishKeeps(s, ClearDismissed(id, u, o), Undismiss(id), t);
    }
    assert Kept(s, t);
  }

  lemma RowsEvolveTransitive(a: Rows, b: Rows, c: Rows)
    requires RowsEvolve(a, b) && RowsEvolve(b, c)
    ensures RowsEvolve(a, c)
  {
    forall i | 0 <= i < |a| ensures RowEvolves(a[i], c[i]) {
      assert RowEvolves(a[i], b[i]) && RowEvolves(b[i], c[i]);
    }
  }

  /** Over every run rows only evolve: none is deleted or handed over, and `readAt` once set never changes. */
  lemma {:induction false} RunKeeps(s: State, ops: seq<Op>)
    requires Table(s.rows)
    ensures var t := Run(s, ops);
      Table(t.rows) && RowsEvolve(s.rows, t.rows) && s.log <= t.log
  {
    if |ops| > 0 {
      var init := Run(s, ops[..|ops| - 1]);
      RunKeeps(s, ops[..|ops| - 1]);
      StepKeeps(init, ops[|ops| - 1]);
      RowsEvolveTransitive(s.rows, init.rows, Run(s, ops).rows);
    }
  }

  // ----- the client

  /** The rows of one user in one organisation. */
  function Mine(rows: Rows, userId: Id, orgId: Id): Rows {
    if |rows| == 0 then []
    else
      var k := |rows| - 1;
      if IsMine(rows[k], userId, orgId) then Mine(rows[..k], userId, orgId) + [rows[k]] else Mine(rows[..k], userId, orgId)
  }

  /** What a client does to each row it holds when it receives an event other than `New`. */
  function ClientRow(n: Notification, e: Event): Notification {
    match e
    case New(_) => n
    case Read(id, readAt) => if n.id == id then n.(readAt := Some(readAt)) else n
    case ReadAll(readAt) => if n.readAt.None? && n.dismissedAt.None? then n.(readAt := Some(readAt)) else n
    case Dismiss(id, at) => if n.id == id then n.(dismissedAt := Some(at)) else n
    case Undismiss(id) => if n.id == id then n.(dismissedAt := None) else n
  }

  function ClientRows(rows: Rows, e: Event): Rows {
    seq(|rows|, i requires 0 <= i < |rows| => ClientRow(rows[i], e))
  }

  function Receive(rows: Rows, e: Event): Rows {
    if e.New? then rows + [e.row] else ClientRows(rows, e)
  }

  /** The client's rows after the events of the log that went to its room. */
  function Replay(rows: Rows, log: seq<Published>, userId: Id, orgId: Id): Rows {
    if |log| == 0 then rows
    else
      var before := Replay(rows, log[..|log| - 1], userId, orgId);
      var p := log[|log| - 1];
      if p.userId == userId && p.orgId == orgId then Receive(before, p.event) else before
  }

  lemma {:induction false} ReplayAppend(rows: Rows, a: seq<Published>, b: seq<Published>, userId: Id, orgId: Id)
    ensures Replay(rows, a + b, userId, orgId) == Replay(Replay(rows, a, userId, orgId), b, userId, orgId)
  {
    if |b| == 0 {
      assert a + b == a;
    } else {
      assert (a + b)[..|a + b| - 1] == a + b[..|b| - 1];
      ReplayAppend(rows, a, b[..|b| - 1], userId, orgId);
    }
  }

  /** If the table changes row by row as the client does, so does the client's part of it. */
  lemma {:induction false} MineFollows(rows: Rows, later: Rows, e: Event, userId: Id, orgId: Id)
    requires |later| == |rows|
    requires forall i :: 0 <= i < |rows| ==> IsMine(later[i], userId, orgId) == IsMine(rows[i], userId, orgId)
    requires forall i :: 0 <= i < |rows| && IsMine(rows[i], userId, orgId) ==> later[i] == ClientRow(rows[i], e)
    ensures Mine(later, userId, orgId) == ClientRows(Mine(rows, userId, orgId), e)
  {
    if |rows| > 0 {
      var k := |rows| - 1;
      MineFollows(rows[..k], later[..k], e, userId, orgId);
      var mine := Mine(rows[..k], userId, orgId);
      assert ClientRows(mine + [rows[k]], e) == ClientRows(mine, e) + [ClientRow(rows[k], e)];
    }
  }

  lemma {:induction false} MineUntouched(rows: Rows, later: Rows, userId: Id, orgId: Id)
    requires |later| == |rows|
    requires forall i :: 0 <= i < |rows| ==> IsMine(later[i], userId, orgId) == IsMine(rows[i], userId, orgId)
    requires forall i :: 0 <= i < |rows| && IsMine(rows[i], userId, orgId) ==> later[i] == rows[i]
    ensures Mine(later, userId, orgId) == Mine(rows, userId, orgId)
  {
    if |rows| > 0 {
      MineUntouched(rows[..|rows| - 1], later[..|rows| - 1], userId, orgId);
    }
  }

  /** The event published with an update tells the owner what the update did, and nobody else is concerned. */
  lemma UpdateIsEvent(rows: Rows, u: Update, e: Event, userId: Id, orgId: Id)
    requires !e.New?
    requires forall n :: n in rows && IsMine(n, u.userId, u.orgId) ==> Updated(n, u) == ClientRow(n, e)
    ensures Mine(UpdateMany(rows, u), userId, orgId)
         == Replay(Mine(rows, userId, orgId), [Published(u.orgId, u.userId, e)], userId, orgId)
  {
    var p := [Published(u.orgId, u.userId, e)];
    assert p[..0] == [];
    if userId == u.userId && orgId == u.orgId {
      MineFollows(rows, UpdateMany(rows, u), e, userId, orgId);
    } else {
      MineUntouched(rows, UpdateMany(rows, u), userId, orgId);
    }
  }

  lemma {:induction false} AnnounceIsAppend(rows: Rows, added: Rows, userId: Id, orgId: Id)
    ensures Mine(rows + added, userId, orgId) == Replay(Mine(rows, userId, orgId), Announce(added), userId, orgId)
  {
    if |added| == 0 {
      assert rows + added == rows;
    } else {
      var k := |added| - 1;
      assert (rows + added)[..|rows + added| - 1] == rows + added[..k];
      assert Announce(added)[..k] == Announce(added[..k]);
      AnnounceIsAppend(rows, added[..k], userId, orgId);
    }
  }

  /** With unique ids, the row found by id is the only one an update by id can mean. */
  lemma OnlyRow(rows: Rows, i: nat, n: Notification)
    requires UniqueIds(rows) && i < |rows| && n in rows && n.id == rows[i].id
    ensures n == rows[i]
  {
  }

  lemma PublishReplays(s: State, u: Update, e: Event, userId: Id, orgId: Id)
    requires !e.New?
    requires forall n :: n in s.rows && IsMine(n, u.userId, u.orgId) ==> Updated(n, u) == ClientRow(n, e)
    ensures var t := Publish(s, u, e);
      Mine(t.rows, userId, orgId) == Replay(Mine(s.rows, userId, orgId), t.log[|s.log|..], userId, orgId)
  {
    UpdateIsEvent(s.rows, u, e, userId, orgId);
    assert Publish(s, u, e).log[|s.log|..] == [Published(u.orgId, u.userId, e)];
  }

  lemma StepReplays(s: State, op: Op, userId: Id, orgId: Id)
    requires Table(s.rows)
    ensures var t := Step(s, op);
      s.log <= t.log
      && Mine(t.rows, userId, orgId) == Replay(Mine(s.rows, userId, orgId), t.log[|s.log|..], userId, orgId)
  {
    var t := Step(s, op);
    if t == s {
      assert t.log[|s.log|..] == [];
    } else {
      match op
      case OpCreate(m, userIds, stamps) =>
        var added := NewRows(m, FirstOccurrences(userIds), stamps);
        AnnounceIsAppend(s.rows, added, userId, orgId);
        assert t.log[|s.log|..] == Announce(added);
      case OpRead(id, u, o, now) =>
        var i := FindForUser(s.rows, id, u, o).value;
        forall n | n in s.rows && n.id == id ensures n == s.rows[i] {
          OnlyRow(s.rows, i, n);
        }
        PublishReplays(s, SetRead(id, u, o, now), Read(id, now), userId, orgId);
      case OpReadAll(u, o, now) =>
        PublishReplays(s, SetAllRead(u, o, now), ReadAll(now), userId, orgId);
      case OpDismiss(id, u, o, now) =>
        var i := FindForUser(s.rows, id, u, o).value;
        forall n | n in s.rows && n.id == id ensures n == s.rows[i] {
          OnlyRow(s.rows, i, n);
        }
        PublishReplays(s, SetDismissed(id, u, o, now), Dismiss(id, now), userId, orgId);
      case OpUndismiss(id, u, o) =>
        var i := FindForUser(s.rows, id, u, o).value;
        forall n | n in s.rows && n.id == id ensures n == s.rows[i] {
          OnlyRow(s.rows, i, n);
        }
        PublishReplays(s, ClearDismissed(id, u, o), Undismiss(id), userId, orgId);
    }
  }

  lemma ReplayExtends(rows: Rows, middle: Rows, a: seq<Published>, b: seq<Published>, c: seq<Published>,
                      userId: Id, orgId: Id)
    requires a <= b <= c && middle == Replay(rows, b[|a|..], userId, orgId)
    ensures Replay(rows, c[|a|..], userId, orgId) == Replay(middle, c[|b|..], userId, orgId)
  {
    ReplayAppend(rows, b[|a|..], c[|b|..], userId, orgId);
    assert c[|a|..] == b[|a|..] + c[|b|..];
  }

  /** From a full snapshot, replaying the published events gives exactly the user's rows of the table after every run
    * of service calls by anyone.
    */
  lemma {:induction false} ClientReplicates(s: State, ops: seq<Op>, userId: Id, orgId: Id)
    requires Table(s.rows)
    ensures s.log <= Run(s, ops).log
    ensures Mine(Run(s, ops).rows, userId, orgId)
         == Replay(Mine(s.rows, userId, orgId), Run(s, ops).log[|s.log|..], userId, orgId)
  {
    if |ops| == 0 {
      assert s.log[|s.log|..] == [];
    } else {
      var init := Run(s, ops[..|ops| - 1]);
      var t := Step(init, ops[|ops| - 1]);
      ClientReplicates(s, ops[..|ops| - 1], userId, orgId);
      RunKeeps(s, ops[..|ops| - 1]);
      StepReplays(init, ops[|ops| - 1], userId, orgId);
      ReplayExtends(Mine(s.rows, userId, orgId), Mine(init.rows, userId, orgId), s.log, init.log, t.log, userId, orgId);
    }
  }

  // ----- the unread count

  predicate Unread(n: Notification) {
    n.readAt.None? && n.dismissedAt.None?
  }

  /** `countUnread` on the server. */
  function CountUnread(rows: Rows, userId: Id, orgId: Id): nat {
    if |rows| == 0 then 0
    else
      var k := |rows| - 1;
      CountUnread(rows[..k], userId, orgId) + if IsMine(rows[k], userId, orgId) && Unread(rows[k]) then 1 else 0
  }

  /** Reading all hits exactly the rows the server counts as unread, and leaves none. */
  lemma {:induction false} ReadAllHitsUnread(rows: Rows, userId: Id, orgId: Id, now: Time)
    ensures CountHits(rows, SetAllRead(userId, orgId, now)) == CountUnread(rows, userId, orgId)
    ensures CountUnread(UpdateMany(rows, SetAllRead(userId, orgId, now)), userId, orgId) == 0
  {
    if |rows| > 0 {
      var u, k := SetAllRead(userId, orgId, now), |rows| - 1;
      ReadAllHitsUnread(rows[..k], userId, orgId, now);
      assert UpdateMany(rows, u)[..k] == UpdateMany(rows[..k], u);
    }
  }

  /** The badge a client computes from its own rows. */
  function Badge(mine: Rows): nat {
    if |mine| == 0 then 0
    else Badge(mine[..|mine| - 1]) + if Unread(mine[|mine| - 1]) then 1 else 0
  }

  lemma {:induction false} BadgeOfMine(rows: Rows, userId: Id, orgId: Id)
    ensures Badge(Mine(rows, userId, orgId)) == CountUnread(rows, userId, orgId)
  {
    if |rows| > 0 {
      var k := |rows| - 1;
      BadgeOfMine(rows[..k], userId, orgId);
      var mine := Mine(rows[..k], userId, orgId);
      assert (mine + [rows[k]])[..|mine|] == mine;
    }
  }

  /** The replica's badge is the server's count after every run. */
  lemma ClientCounts(s: State, ops: seq<Op>, userId: Id, orgId: Id)
    requires Table(s.rows)
    ensures s.log <= Run(s, ops).log
    ensures Badge(Replay(Mine(s.rows, userId, orgId), Run(s, ops).log[|s.log|..], userId, orgId))
         == CountUnread(Run(s, ops).rows, userId, orgId)
  {
    ClientReplicates(s, ops, userId, orgId);
    BadgeOfMine(Run(s, ops).rows, userId, orgId);
  }

  // ----- paging through a table that these calls change

  /** The tables at increasing points of one run. */
  ghost predicate Snapshots(s: State, runs: seq<seq<Op>>, tables: seq<Rows>) {
    && |runs| == |tables|
    && (forall i :: 0 <= i < |runs| ==> tables[i] == Run(s, runs[i]).rows)
    && (forall i, j :: 0 <= i <= j < |runs| ==> runs[i] <= runs[j])
  }

  lemma {:induction false} RunSplit(s: State, a: seq<Op>, b: seq<Op>)
    ensures Run(s, a + b) == Run(Run(s, a), b)
  {
    if |b| == 0 {
      assert a + b == a;
    } else {
      assert (a + b)[..|a + b| - 1] == a + b[..|b| - 1];
      RunSplit(s, a, b[..|b| - 1]);
    }
  }

  /** Whatever service calls run between the fetches, the tables meet the assumptions of the paging theorems. */
  lemma SnapshotsAreStable(s: State, runs: seq<seq<Op>>, tables: seq<Rows>)
    requires Table(s.rows) && Snapshots(s, runs, tables)
    ensures StableKeys(tables)
    ensures forall i :: 0 <= i < |tables| ==> Table(tables[i])
  {
    forall i | 0 <= i < |tables| ensures Table(tables[i]) {
      RunKeeps(s, runs[i]);
    }
    forall i, j, m, n | 0 <= i < |tables| && 0 <= j < |tables| && m in tables[i] && n in tables[j] && m.id == n.id
      ensures m.createdAt == n.createdAt
    {
      if i <= j {
        SameRow(s, runs[i], runs[j], m, n);
      } else {
        SameRow(s, runs[j], runs[i], n, m);
      }
    }
  }

  lemma SameRow(s: State, early: seq<Op>, late: seq<Op>, m: Notification, n: Notification)
    requires Table(s.rows) && early <= late
    requires m in Run(s, early).rows && n in Run(s, late).rows && m.id == n.id
    ensures m.createdAt == n.createdAt
  {
    RunKeeps(s, early);
    RunSplit(s, early, late[|early|..]);
    assert early + late[|early|..] == late;
    var mid, end := Run(s, early), Run(s, late);
    RunKeeps(mid, late[|early|..]);
    var i :| 0 <= i < |mid.rows| && mid.rows[i] == m;
    assert RowEvolves(mid.rows[i], end.rows[i]);
    OnlyRow(end.rows, i, n);
  }

  /** Paging and traffic together: a client that pages while the service runs any calls in between never receives an
    * id twice.
    */
  lemma NoIdTwiceUnderTraffic(
    s: State, runs: seq<seq<Op>>, tables: seq<Rows>, pages: seq<Page>, userId: Id, orgId: Id, o: Options,
    i: nat, a: nat, j: nat, b: nat)
    requires Table(s.rows) && Snapshots(s, runs, tables) && |pages| == |tables| > 0
    requires forall k | 0 <= k < |pages| :: Table(tables[k]) ==> Received(tables, pages, userId, orgId, o, k)
    requires i <= j < |pages| && a < |pages[i].items| && b < |pages[j].items| && (i == j ==> a < b)
    ensures pages[i].items[a].id != pages[j].items[b].id
  {
    SnapshotsAreStable(s, runs, tables);
    NoIdTwice(tables, pages, userId, orgId, o, i, a, j, b);
  }

  /** A row that is there and passes the filter at every fetch of a completed walk is returned exactly once. */
  lemma StableRowExactlyOnce(
    s: State, runs: seq<seq<Op>>, tables: seq<Rows>, pages: seq<Page>, userId: Id, orgId: Id, o: Options, id: string)
    returns (j: nat, a: nat)
    requires Table(s.rows) && Snapshots(s, runs, tables) && Client(tables, pages, userId, orgId, o) && Completed(pages)
    requires forall t :: 0 <= t < |tables| ==> Present(tables[t], WhereOf(userId, orgId, o, None), id)
    ensures j < |pages| && a < |pages[j].items| && pages[j].items[a].id == id
    ensures forall i, b :: 0 <= i < |pages| && 0 <= b < |pages[i].items| && pages[i].items[b].id == id ==> (i, b) == (j, a)
  {
    SnapshotsAreStable(s, runs, tables);
    j := EveryStableRowReturned(tables, pages, userId, orgId, o, id);
    a :| 0 <= a < |pages[j].items| && pages[j].items[a].id == id;
    forall i, b | 0 <= i < |pages| && 0 <= b < |pages[i].items| && pages[i].items[b].id == id
      ensures (i, b) == (j, a)
    {
      if i < j || (i == j && b < a) {
        NoIdTwice(tables, pages, userId, orgId, o, i, b, j, a);
      } else if j < i || (i == j && a < b) {
        NoIdTwice(tables, pages, userId, orgId, o, j, a, i, b);
      }
    }
  }
}
