/** Any number of provisioning transactions, interleaved statement by statement under READ COMMITTED.
  *
  * A statement sees the committed rows with the writes of its own transaction on top. `lockUnit` waits while another
  * transaction holds the unit row; `updateMany` waits while another transaction holds one of the rows it found, and
  * then re-checks them. Locks are held until the transaction commits or aborts. A transaction may abort at any point.
  */
module ProvisionInterleaving {
  import opened Prelude
  import opened Tables
  import opened Provisioning

  /** The statement a transaction runs next. */
  datatype Pc =
    | ResolveUser | FindUnit | LockUnit | CheckUnit | CheckUserUnit | FindOthers | EndOthers | CreateRow | Commit
    | Committed | Aborted

  /** `ended` and `inserted` are the uncommitted writes: rows set to ENDED at `endAt`, and the id of a new row. The
    * tables of users, roles and assignments are not part of this layer, so the statements on them are the single step
    * `ResolveUser`.
    */
  datatype Tx = Tx(
    pc: Pc, grant: ResidentGrant, userId: Id, existing: Option<Id>,
    candidates: set<Id>, ended: set<Id>, endAt: Time, inserted: Option<Id>)

  /** The occupancy table: the row of each id in use. */
  type Rows = Id -> Option<Occupancy>

  /** The committed rows, the transactions, and which transaction holds the lock of a unit row. An occupancy row is
    * locked by the transaction that has an uncommitted write on it.
    */
  datatype World = World(units: seq<Unit>, rows: Rows, txs: map<Id, Tx>, unitLocks: map<Id, Id>)

  predicate Occupies(o: Option<Occupancy>, unitId: Id) {
    o.Some? && OnUnit(o.value, unitId)
  }

  ghost predicate OneActiveRow(rows: Rows) {
    forall i, j, unitId | Occupies(rows(i), unitId) && Occupies(rows(j), unitId) :: i == j
  }

  ghost predicate VacantIn(rows: Rows, unitId: Id) {
    forall i :: !Occupies(rows(i), unitId)
  }

  function NewRow(tx: Tx): Occupancy {
    Occupancy(tx.grant.buildingId, tx.grant.unitId, tx.userId, ACTIVE, None)
  }

  /** What the transaction sees of a row, and what its commit makes visible to everyone. */
  function Seen(row: Option<Occupancy>, tx: Tx, i: Id): Option<Occupancy> {
    if tx.inserted == Some(i) then Some(NewRow(tx))
    else if i in tx.ended && row.Some? then Some(row.value.(status := ENDED, endAt := Some(tx.endAt)))
    else row
  }

  function View(w: World, tx: Tx): Rows {
    (i: Id) => Seen(w.rows(i), tx, i)
  }

  predicate LeavesRow(o: Option<Occupancy>, tx: Tx) {
    o.Some? && Leaves(o.value, tx.userId, tx.grant)
  }

  // ----- the statements

  /** What the database and the scheduler decide at a step: whether the transaction aborts here, the user that was
    * found or created, the row a query returns, the rows an update finds, the clock, and the id of a new row.
    */
  datatype Choice = Choice(abort: bool, userId: Id, found: Id, matches: set<Id>, now: Time, newId: Id)

  function Unlocked(w: World, t: Id): map<Id, Id>
    requires t in w.txs
  {
    var unitId := w.txs[t].grant.unitId;
    if unitId in w.unitLocks && w.unitLocks[unitId] == t then w.unitLocks - {unitId} else w.unitLocks
  }

  function Abort(w: World, t: Id): World
    requires t in w.txs
  {
    w.(txs := w.txs[t := w.txs[t].(pc := Aborted, ended := {}, inserted := None)], unitLocks := Unlocked(w, t))
  }

  /** The transaction after a read: it goes on with what it found, or throws. */
  ghost function AfterRead(w: World, tx: Tx, c: Choice): Tx {
    var rows := View(w, tx);
    var unitId := tx.grant.unitId;
    match tx.pc
    case ResolveUser => tx.(userId := c.userId, pc := FindUnit)
    case FindUnit =>
      if unitId < |w.units| && w.units[unitId].buildingId == tx.grant.buildingId then tx.(pc := LockUnit)
      else tx.(pc := Aborted)
    case CheckUnit =>
      if VacantIn(rows, unitId) then tx.(existing := None, pc := CheckUserUnit)
      else if !Occupies(rows(c.found), unitId) then tx
      else if rows(c.found).value.residentUserId == tx.userId then tx.(existing := Some(c.found), pc := FindOthers)
      else tx.(pc := Aborted)
    case CheckUserUnit =>
      if Occupies(rows(c.found), unitId) && rows(c.found).value.residentUserId == tx.userId
      then tx.(existing := Some(c.found), pc := FindOthers)
      else if forall i :: Occupies(rows(i), unitId) ==> rows(i).value.residentUserId != tx.userId
      then tx.(existing := None, pc := FindOthers)
      else tx
    case FindOthers =>
      if tx.grant.mode == ADD then tx.(pc := CreateRow)
      else if forall i :: i in c.matches <==> LeavesRow(rows(i), tx)
      then tx.(candidates := c.matches, pc := EndOthers)
      else tx
    case _ => tx
  }

  function Lock(w: World, t: Id): World
    requires t in w.txs
  {
    var unitId := w.txs[t].grant.unitId;
    if unitId in w.unitLocks then w
    else w.(txs := w.txs[t := w.txs[t].(pc := CheckUnit)], unitLocks := w.unitLocks[unitId := t])
  }

  /** The rows the update ends: those it found that still match. */
  function Hit(w: World, tx: Tx): set<Id> {
    set i | i in tx.candidates && LeavesRow(View(w, tx)(i), tx)
  }

  /** Another transaction has an uncommitted write on a row the update found. */
  ghost predicate Waits(w: World, t: Id)
    requires t in w.txs
  {
    exists u | u in w.txs && u != t :: w.txs[t].candidates * w.txs[u].ended != {}
  }

  ghost function End(w: World, t: Id, now: Time): World
    requires t in w.txs
  {
    var tx := w.txs[t];
    if Waits(w, t) then w
    else w.(txs := w.txs[t := tx.(ended := Hit(w, tx), endAt := now, pc := CreateRow)])
  }

  ghost predicate Unused(w: World, id: Id) {
    w.rows(id).None? && forall u :: u in w.txs ==> w.txs[u].inserted != Some(id)
  }

  ghost function Insert(w: World, t: Id, newId: Id): World
    requires t in w.txs
  {
    var tx := w.txs[t];
    if tx.existing.Some? then w.(txs := w.txs[t := tx.(pc := Commit)])
    else if !Unused(w, newId) then w
    else w.(txs := w.txs[t := tx.(inserted := Some(newId), pc := Commit)])
  }

  function CommitTx(w: World, t: Id): World
    requires t in w.txs
  {
    w.(rows := View(w, w.txs[t]),
       txs := w.txs[t := w.txs[t].(pc := Committed, ended := {}, inserted := None)],
       unitLocks := Unlocked(w, t))
  }

  /** One statement of transaction `t`; a statement that has to wait leaves the world as it is. */
  ghost function Step(w: World, t: Id, c: Choice): World {
    if t !in w.txs then w
    else
      var pc := w.txs[t].pc;
      if pc == Committed || pc == Aborted then w
      else if c.abort then Abort(w, t)
      else if pc == LockUnit then Lock(w, t)
      else if pc == EndOthers then End(w, t, c.now)
      else if pc == CreateRow then Insert(w, t, c.newId)
      else if pc == Commit then CommitTx(w, t)
      else
        var tx := AfterRead(w, w.txs[t], c);
        if tx.pc == Aborted then Abort(w, t) else w.(txs := w.txs[t := tx])
  }

  /** A schedule says which transaction runs its next statement, and with which choices. */
  type Schedule = seq<(Id, Choice)>

  ghost function Run(w: World, schedule: Schedule): World {
    if |schedule| == 0 then w
    else
      var last := schedule[|schedule| - 1];
      Step(Run(w, schedule[..|schedule| - 1]), last.0, last.1)
  }

  /** Committed rows with one ACTIVE row per unit, and any transactions, none of them started. */
  ghost predicate Initial(w: World) {
    && OneActiveRow(w.rows) && w.unitLocks == map[]
    && forall t :: t in w.txs ==> w.txs[t].pc == ResolveUser && w.txs[t].ended == {} && w.txs[t].inserted.None?
  }

  // ----- the invariant

  predicate HoldsUnit(pc: Pc) {
    pc in {CheckUnit, CheckUserUnit, FindOthers, EndOthers, CreateRow, Commit}
  }

  /** The transaction has found its unit vacant and is going to occupy it, or has already done so. */
  predicate Claims(tx: Tx) {
    || tx.pc == CheckUserUnit
    || (tx.pc in {FindOthers, EndOthers, CreateRow} && tx.existing.None?)
    || (tx.pc == Commit && tx.inserted.Some?)
  }

  /** What holds of a transaction's own writes and locks. */
  ghost predicate TxInv(rows: Rows, unitLocks: map<Id, Id>, t: Id, tx: Tx) {
    && (HoldsUnit(tx.pc) ==> tx.grant.unitId in unitLocks && unitLocks[tx.grant.unitId] == t)
    && (Claims(tx) ==> VacantIn(rows, tx.grant.unitId))
    && (tx.pc == EndOthers ==> tx.grant.mode == MOVE)
    && (tx.pc !in {CreateRow, Commit} ==> tx.ended == {})
    && (tx.pc != Commit ==> tx.inserted.None?)
    && (tx.inserted.Some? ==> rows(tx.inserted.value).None?)
    && (forall i | i in tx.ended :: tx.grant.mode == MOVE && LeavesRow(rows(i), tx))
  }

  /** No two transactions write the same row. */
  ghost predicate Apart(a: Tx, b: Tx) {
    a.ended !! b.ended && (a.inserted.Some? ==> a.inserted != b.inserted)
  }

  ghost predicate Inv(w: World) {
    && OneActiveRow(w.rows)
    && (forall t :: t in w.txs ==> TxInv(w.rows, w.unitLocks, t, w.txs[t]))
    && (forall t, u | t in w.txs && u in w.txs && t != u :: Apart(w.txs[t], w.txs[u]))
  }

  /** A step of `t` that commits nothing and takes no lock away from others only has to mind its own part. */
  lemma OwnStepKeepsInv(w: World, v: World, t: Id)
    requires Inv(w) && t in w.txs && t in v.txs
    requires v.rows == w.rows && v.txs == w.txs[t := v.txs[t]]
    requires TxInv(v.rows, v.unitLocks, t, v.txs[t])
    requires forall k | k in w.unitLocks && w.unitLocks[k] != t :: k in v.unitLocks && v.unitLocks[k] == w.unitLocks[k]
    requires forall u | u in w.txs && u != t :: Apart(v.txs[t], w.txs[u])
    ensures Inv(v)
  {
    forall u | u in v.txs
      ensures TxInv(v.rows, v.unitLocks, u, v.txs[u])
    {
      if u != t {
        assert TxInv(w.rows, w.unitLocks, u, w.txs[u]);
      }
    }
  }

  lemma AbortKeepsInv(w: World, t: Id)
    requires Inv(w) && t in w.txs
    ensures Inv(Abort(w, t))
  {
    OwnStepKeepsInv(w, Abort(w, t), t);
  }

  /** Before it writes anything, a transaction sees the committed rows. */
  lemma SeesCommitted(w: World, tx: Tx)
    requires tx.ended == {} && tx.inserted.None?
    ensures forall i :: View(w, tx)(i) == w.rows(i)
  {
  }

  lemma AfterCheckInv(w: World, t: Id, tx: Tx, c: Choice)
    requires TxInv(w.rows, w.unitLocks, t, tx) && tx.pc in {CheckUnit, CheckUserUnit}
    ensures var next := AfterRead(w, tx, c);
      next.ended == {} && next.inserted.None? && TxInv(w.rows, w.unitLocks, t, next)
  {
    SeesCommitted(w, tx);
    assert VacantIn(View(w, tx), tx.grant.unitId) ==> VacantIn(w.rows, tx.grant.unitId);
  }

  lemma AfterFindInv(w: World, t: Id, tx: Tx, c: Choice)
    requires TxInv(w.rows, w.unitLocks, t, tx) && tx.pc in {ResolveUser, FindUnit, FindOthers}
    ensures var next := AfterRead(w, tx, c);
      next.ended == {} && next.inserted.None? && TxInv(w.rows, w.unitLocks, t, next)
  {
  }

  lemma AfterReadInv(w: World, t: Id, c: Choice)
    requires t in w.txs && TxInv(w.rows, w.unitLocks, t, w.txs[t])
    requires w.txs[t].pc in {ResolveUser, FindUnit, CheckUnit, CheckUserUnit, FindOthers}
    ensures var tx := AfterRead(w, w.txs[t], c);
      tx.ended == {} && tx.inserted.None? && TxInv(w.rows, w.unitLocks, t, tx)
  {
    if w.txs[t].pc in {CheckUnit, CheckUserUnit} {
      AfterCheckInv(w, t, w.txs[t], c);
    } else {
      AfterFindInv(w, t, w.txs[t], c);
    }
  }

  lemma ReadKeepsInv(w: World, t: Id, c: Choice)
    requires Inv(w) && t in w.txs && w.txs[t].pc in {ResolveUser, FindUnit, CheckUnit, CheckUserUnit, FindOthers}
    ensures AfterRead(w, w.txs[t], c).pc != Aborted ==> Inv(w.(txs := w.txs[t := AfterRead(w, w.txs[t], c)]))
  {
    var tx := w.txs[t];
    assert TxInv(w.rows, w.unitLocks, t, tx);
    SeesCommitted(w, tx);
    if AfterRead(w, tx, c).pc != Aborted {
      AfterReadInv(w, t, c);
      assert forall u | u in w.txs && u != t :: Apart(tx, w.txs[u]);
      OwnStepKeepsInv(w, w.(txs := w.txs[t := AfterRead(w, tx, c)]), t);
    }
  }

  lemma LockKeepsInv(w: World, t: Id)
    requires Inv(w) && t in w.txs && w.txs[t].pc == LockUnit
    ensures Inv(Lock(w, t))
  {
    assert TxInv(w.rows, w.unitLocks, t, w.txs[t]);
    assert forall u | u in w.txs && u != t :: Apart(w.txs[t], w.txs[u]);
    OwnStepKeepsInv(w, Lock(w, t), t);
  }

  lemma EndKeepsInv(w: World, t: Id, now: Time)
    requires Inv(w) && t in w.txs && w.txs[t].pc == EndOthers
    ensures Inv(End(w, t, now))
  {
    var tx, v := w.txs[t], End(w, t, now);
    assert TxInv(w.rows, w.unitLocks, t, tx);
    SeesCommitted(w, tx);
    if !Waits(w, t) {
      forall u | u in w.txs && u != t
        ensures Apart(v.txs[t], w.txs[u])
      {
        assert Apart(tx, w.txs[u]);
        assert tx.candidates * w.txs[u].ended == {};
        assert Hit(w, tx) <= tx.candidates;
      }
      OwnStepKeepsInv(w, v, t);
    }
  }

  lemma InsertKeepsInv(w: World, t: Id, newId: Id)
    requires Inv(w) && t in w.txs && w.txs[t].pc == CreateRow
    ensures Inv(Insert(w, t, newId))
  {
    var v := Insert(w, t, newId);
    assert TxInv(w.rows, w.unitLocks, t, w.txs[t]);
    assert forall u | u in w.txs && u != t :: Apart(w.txs[t], w.txs[u]);
    OwnStepKeepsInv(w, v, t);
  }

  /** The effect of a commit: the rows the transaction ended, and its row on a unit that is vacant up to now. */
  lemma CommitEffect(w: World, t: Id, i: Id)
    requires Inv(w) && t in w.txs && w.txs[t].pc == Commit
    ensures var before, after, tx := w.rows(i), View(w, w.txs[t])(i), w.txs[t];
      && (before.Some? ==> after.Some? && OccupancyEvolves(before.value, after.value))
      && (before.Some? && after != before ==> i in tx.ended && tx.grant.mode == MOVE && LeavesRow(before, tx))
      && (before.None? && after.Some? ==>
            tx.inserted == Some(i) && after.value == NewRow(tx) && VacantIn(w.rows, tx.grant.unitId))
  {
    assert TxInv(w.rows, w.unitLocks, t, w.txs[t]);
  }

  lemma CommitKeepsOneActive(w: World, t: Id)
    requires Inv(w) && t in w.txs && w.txs[t].pc == Commit
    ensures OneActiveRow(View(w, w.txs[t]))
  {
    var rows := View(w, w.txs[t]);
    forall i, j, unitId | Occupies(rows(i), unitId) && Occupies(rows(j), unitId)
      ensures i == j
    {
      CommitEffect(w, t, i);
      CommitEffect(w, t, j);
      assert w.rows(i).Some? ==> Occupies(w.rows(i), unitId);
      assert w.rows(j).Some? ==> Occupies(w.rows(j), unitId);
    }
  }

  lemma CommitKeepsOthers(w: World, t: Id, u: Id)
    requires Inv(w) && t in w.txs && w.txs[t].pc == Commit && u in w.txs && u != t
    ensures var v := CommitTx(w, t);
      TxInv(v.rows, v.unitLocks, u, v.txs[u])
  {
    var v, tx := CommitTx(w, t), w.txs[u];
    assert TxInv(w.rows, w.unitLocks, t, w.txs[t]);
    assert TxInv(w.rows, w.unitLocks, u, tx);
    assert Apart(w.txs[t], tx);
    if Claims(tx) {
      assert HoldsUnit(tx.pc);
      forall i
        ensures !Occupies(v.rows(i), tx.grant.unitId)
      {
        CommitEffect(w, t, i);
        assert w.txs[t].grant.unitId != tx.grant.unitId;
        assert !Occupies(w.rows(i), tx.grant.unitId);
      }
    }
    forall i | i in tx.ended
      ensures LeavesRow(v.rows(i), tx)
    {
      CommitEffect(w, t, i);
    }
    if tx.inserted.Some? {
      CommitEffect(w, t, tx.inserted.value);
      assert Apart(tx, w.txs[t]);
    }
  }

  lemma CommitKeepsInv(w: World, t: Id)
    requires Inv(w) && t in w.txs && w.txs[t].pc == Commit
    ensures Inv(CommitTx(w, t))
  {
    var v := CommitTx(w, t);
    CommitKeepsOneActive(w, t);
    forall u | u in v.txs
      ensures TxInv(v.rows, v.unitLocks, u, v.txs[u])
    {
      if u != t {
        CommitKeepsOthers(w, t, u);
      }
    }
    forall a, b | a in v.txs && b in v.txs && a != b
      ensures Apart(v.txs[a], v.txs[b])
    {
      assert Apart(w.txs[a], w.txs[b]);
    }
  }

  lemma StepKeepsInv(w: World, t: Id, c: Choice)
    requires Inv(w)
    ensures Inv(Step(w, t, c))
  {
    if t in w.txs {
      var pc := w.txs[t].pc;
      AbortKeepsInv(w, t);
      if pc == LockUnit {
        LockKeepsInv(w, t);
      } else if pc == EndOthers {
        EndKeepsInv(w, t, c.now);
      } else if pc == CreateRow {
        InsertKeepsInv(w, t, c.newId);
      } else if pc == Commit {
        CommitKeepsInv(w, t);
      } else if pc != Committed && pc != Aborted {
        ReadKeepsInv(w, t, c);
      }
    }
  }

  lemma {:induction false} RunKeepsInv(w: World, schedule: Schedule)
    requires Initial(w)
    ensures Inv(Run(w, schedule))
  {
    if |schedule| > 0 {
      RunKeepsInv(w, schedule[..|schedule| - 1]);
      var last := schedule[|schedule| - 1];
      StepKeepsInv(Run(w, schedule[..|schedule| - 1]), last.0, last.1);
    }
  }

  /** However the statements of any number of transactions interleave, no committed state ever has two ACTIVE
    * occupancies on one unit.
    */
  lemma OneActiveInEveryCommittedState(w: World, schedule: Schedule)
    requires Initial(w)
    ensures var rows := Run(w, schedule).rows;
      forall i, j | && rows(i).Some? && rows(i).value.status == ACTIVE && rows(j).Some? && rows(j).value.status == ACTIVE
                    && rows(i).value.unitId == rows(j).value.unitId :: i == j
  {
    RunKeepsInv(w, schedule);
    var rows := Run(w, schedule).rows;
    assert forall i | rows(i).Some? && rows(i).value.status == ACTIVE :: Occupies(rows(i), rows(i).value.unitId);
  }

  /** At every step of every schedule: a committed row is never deleted or reactivated, only a MOVE of its own
    * resident within its building ends it, and a new row is ACTIVE on a unit that was vacant until then.
    */
  lemma {:induction false} CommittedRowsOnlyEnd(w: World, schedule: Schedule, t: Id, c: Choice, i: Id)
    requires Initial(w)
    ensures var now := Run(w, schedule);
      var before, after := now.rows(i), Step(now, t, c).rows(i);
      && (before.Some? ==> after.Some? && OccupancyEvolves(before.value, after.value))
      && (before.Some? && after != before ==>
           && t in now.txs
           && var tx, o := now.txs[t], before.value;
              && tx.grant.mode == MOVE && o.status == ACTIVE && o.residentUserId == tx.userId
              && o.buildingId == tx.grant.buildingId && o.unitId != tx.grant.unitId
              && after.value == Occupancy(o.buildingId, o.unitId, o.residentUserId, ENDED, Some(tx.endAt)))
      && (before.None? && after.Some? ==>
           && t in now.txs
           && var tx := now.txs[t];
              && after.value == Occupancy(tx.grant.buildingId, tx.grant.unitId, tx.userId, ACTIVE, None)
              && forall j | now.rows(j).Some? && now.rows(j).value.status == ACTIVE ::
                   now.rows(j).value.unitId != tx.grant.unitId)
  {
    RunKeepsInv(w, schedule);
    var now := Run(w, schedule);
    if t in now.txs && now.txs[t].pc == Commit {
      CommitEffect(now, t, i);
      assert forall j, unitId :: VacantIn(now.rows, unitId) ==> !Occupies(now.rows(j), unitId);
    }
  }
}
