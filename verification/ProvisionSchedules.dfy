/** Two schedules after which a MOVE has not left its user exactly one ACTIVE occupancy in the building: the lock of the
  * unit row does not order transactions on different units.
  */
module ProvisionSchedules {
  import opened Prelude
  import opened Tables
  import opened Provisioning
  import opened ProvisionInterleaving
  import opened ProvisionMoves

  function Grants(mode: GrantMode, unitId: Id): Tx {
    Tx(ResolveUser, ResidentGrant(0, unitId, mode), 0, None, {}, {}, 0, None)
  }

  /** A transaction that resolves user 7, finds no rows and inserts its row under `newId`. */
  function Plain(newId: Id): Choice {
    Choice(false, 7, 0, {}, 0, newId)
  }

  /** A transaction that resolves user 7, and finds the row it already has on its unit and one other row. */
  function Finds(found: Id, other: Id): Choice {
    Choice(false, 7, found, {other}, 0, 0)
  }

  lemma Extend(w: World, at: World, schedule: Schedule, t: Id, c: Choice) returns (longer: Schedule)
    requires Run(w, schedule) == at
    ensures Run(w, longer) == Step(at, t, c)
  {
    longer := schedule + [(t, c)];
    assert longer[..|schedule|] == schedule;
  }

  lemma ReadStep(w: World, at: World, schedule: Schedule, t: Id, c: Choice, tx: Tx) returns (next: World, longer: Schedule)
    requires Run(w, schedule) == at && t in at.txs
    requires at.txs[t].pc in {ResolveUser, FindUnit, CheckUnit, CheckUserUnit, FindOthers}
    requires tx == AfterRead(at, at.txs[t], c) && tx.pc != Aborted && !c.abort
    ensures next == at.(txs := at.txs[t := tx]) && Run(w, longer) == next
  {
    longer := Extend(w, at, schedule, t, c);
    next := Run(w, longer);
  }

  /** The first three statements of an unstarted transaction whose unit is free. */
  lemma ToCheck(w: World, at: World, schedule: Schedule, t: Id) returns (next: World, longer: Schedule)
    requires Run(w, schedule) == at && t in at.txs && at.txs[t].pc == ResolveUser
    requires at.txs[t].grant.unitId < |at.units|
    requires at.units[at.txs[t].grant.unitId].buildingId == at.txs[t].grant.buildingId
    requires at.txs[t].grant.unitId !in at.unitLocks
    ensures next == at.(txs := at.txs[t := at.txs[t].(userId := 7, pc := CheckUnit)],
                        unitLocks := at.unitLocks[at.txs[t].grant.unitId := t])
    ensures Run(w, longer) == next
  {
    var tx := at.txs[t];
    var a1, s1 := ReadStep(w, at, schedule, t, Plain(0), tx.(userId := 7, pc := FindUnit));
    var a2, s2 := ReadStep(w, a1, s1, t, Plain(0), tx.(userId := 7, pc := LockUnit));
    longer := Extend(w, a2, s2, t, Plain(0));
    next := Lock(a2, t);
    assert next.txs == at.txs[t := tx.(userId := 7, pc := CheckUnit)];
  }

  /** The two checks on an empty table. */
  lemma FindsVacant(w: World, at: World, schedule: Schedule, t: Id) returns (next: World, longer: Schedule)
    requires Run(w, schedule) == at && t in at.txs && at.txs[t].pc == CheckUnit
    requires at.txs[t].ended == {} && at.txs[t].inserted.None? && forall i :: at.rows(i).None?
    ensures next == at.(txs := at.txs[t := at.txs[t].(pc := FindOthers, existing := None)])
    ensures Run(w, longer) == next
  {
    var tx := at.txs[t];
    SeesCommitted(at, tx);
    var a1, s1 := ReadStep(w, at, schedule, t, Plain(0), tx.(pc := CheckUserUnit, existing := None));
    SeesCommitted(a1, a1.txs[t]);
    next, longer := ReadStep(w, a1, s1, t, Plain(0), tx.(pc := FindOthers, existing := None));
    assert next.txs == at.txs[t := tx.(pc := FindOthers, existing := None)];
  }

  /** The update of a MOVE that finds no rows. */
  lemma EndsNothing(w: World, at: World, schedule: Schedule, t: Id) returns (next: World, longer: Schedule)
    requires Run(w, schedule) == at && t in at.txs && at.txs[t].pc == FindOthers && at.txs[t].grant.mode == MOVE
    requires at.txs[t].ended == {} && at.txs[t].inserted.None? && forall i :: at.rows(i).None?
    ensures next == at.(txs := at.txs[t := at.txs[t].(pc := CreateRow, candidates := {}, endAt := 0)])
    ensures Run(w, longer) == next
  {
    var tx := at.txs[t];
    SeesCommitted(at, tx);
    var a1, s1 := ReadStep(w, at, schedule, t, Plain(0), tx.(candidates := {}, pc := EndOthers));
    longer := Extend(w, a1, s1, t, Plain(0));
    next := End(a1, t, 0);
    assert Hit(a1, a1.txs[t]) == {};
    assert next.txs == at.txs[t := tx.(pc := CreateRow, candidates := {}, endAt := 0)];
  }

  lemma InsertedRow(w: World, tx: Tx, newId: Id)
    requires tx.inserted == Some(newId) && tx.ended == {}
    ensures forall i :: View(w, tx)(i) == if i == newId then Some(NewRow(tx)) else w.rows(i)
  {
  }

  lemma CommittedInsert(at: World, t: Id, newId: Id, inserted: World, next: World)
    requires t in at.txs && at.txs[t].ended == {}
    requires inserted == at.(txs := at.txs[t := at.txs[t].(inserted := Some(newId), pc := Commit)])
    requires next == CommitTx(inserted, t)
    ensures forall i :: next.rows(i) == if i == newId then Some(NewRow(at.txs[t])) else at.rows(i)
    ensures t in next.txs && next.txs == at.txs[t := next.txs[t]] && next.txs[t].inserted.None?
  {
    InsertedRow(inserted, inserted.txs[t], newId);
  }

  lemma InsertStep(w: World, at: World, schedule: Schedule, t: Id, newId: Id) returns (next: World, longer: Schedule)
    requires Run(w, schedule) == at && t in at.txs && Unused(at, newId)
    requires at.txs[t].pc == CreateRow && at.txs[t].existing.None?
    ensures next == at.(txs := at.txs[t := at.txs[t].(inserted := Some(newId), pc := Commit)])
    ensures Run(w, longer) == next
  {
    longer := Extend(w, at, schedule, t, Plain(newId));
    next := Insert(at, t, newId);
  }

  lemma CommitStep(w: World, at: World, schedule: Schedule, t: Id) returns (longer: Schedule)
    requires Run(w, schedule) == at && t in at.txs && at.txs[t].pc == Commit
    ensures Run(w, longer) == CommitTx(at, t)
  {
    longer := Extend(w, at, schedule, t, Plain(0));
  }

  /** The insertion and the commit of a transaction that found its unit vacant. */
  lemma Finish(w: World, at: World, schedule: Schedule, t: Id, newId: Id) returns (next: World, longer: Schedule)
    requires Run(w, schedule) == at && t in at.txs && Unused(at, newId)
    requires at.txs[t].pc == CreateRow && at.txs[t].existing.None? && at.txs[t].ended == {}
    ensures Run(w, longer) == next
    ensures forall i :: next.rows(i) == if i == newId then Some(NewRow(at.txs[t])) else at.rows(i)
    ensures t in next.txs && next.txs == at.txs[t := next.txs[t]] && next.txs[t].inserted.None?
  {
    var a1, s1 := InsertStep(w, at, schedule, t, newId);
    longer := CommitStep(w, a1, s1, t);
    next := CommitTx(a1, t);
    CommittedInsert(at, t, newId, a1, next);
  }

  /** From the start of an ADD on an empty table to its insertion. */
  lemma AddUpToInsert(w: World, at: World, schedule: Schedule, t: Id) returns (next: World, longer: Schedule)
    requires Run(w, schedule) == at && t in at.txs && at.txs[t].pc == ResolveUser && at.txs[t].grant.mode == ADD
    requires at.txs[t].ended == {} && at.txs[t].inserted.None? && forall i :: at.rows(i).None?
    requires at.txs[t].grant.unitId < |at.units|
    requires at.units[at.txs[t].grant.unitId].buildingId == at.txs[t].grant.buildingId
    requires at.txs[t].grant.unitId !in at.unitLocks
    ensures next.rows == at.rows && Run(w, longer) == next
    ensures next.txs == at.txs[t := at.txs[t].(userId := 7, pc := CreateRow, existing := None)]
  {
    var tx := at.txs[t];
    next, longer := ToCheck(w, at, schedule, t);
    next, longer := FindsVacant(w, next, longer, t);
    assert next.txs == at.txs[t := tx.(userId := 7, pc := FindOthers, existing := None)];
    next, longer := ReadStep(w, next, longer, t, Plain(0), tx.(userId := 7, pc := CreateRow, existing := None));
    assert next.txs == at.txs[t := tx.(userId := 7, pc := CreateRow, existing := None)];
  }

  /** From the start of a MOVE on an empty table to its insertion. */
  lemma MoveUpToInsert(w: World, at: World, schedule: Schedule, t: Id) returns (next: World, longer: Schedule)
    requires Run(w, schedule) == at && t in at.txs && at.txs[t].pc == ResolveUser && at.txs[t].grant.mode == MOVE
    requires at.txs[t].ended == {} && at.txs[t].inserted.None? && forall i :: at.rows(i).None?
    requires at.txs[t].grant.unitId < |at.units|
    requires at.units[at.txs[t].grant.unitId].buildingId == at.txs[t].grant.buildingId
    requires at.txs[t].grant.unitId !in at.unitLocks
    ensures next.rows == at.rows && next.units == at.units && Run(w, longer) == next
    ensures next.unitLocks == at.unitLocks[at.txs[t].grant.unitId := t]
    ensures next.txs
         == at.txs[t := at.txs[t].(userId := 7, pc := CreateRow, existing := None, candidates := {}, endAt := 0)]
  {
    var tx := at.txs[t];
    next, longer := ToCheck(w, at, schedule, t);
    next, longer := FindsVacant(w, next, longer, t);
    next, longer := EndsNothing(w, next, longer, t);
  }

  lemma RowTooMany(rows: Rows)
    requires rows(10) == Some(Occupancy(0, 0, 7, ACTIVE, None)) && rows(20) == Some(Occupancy(0, 1, 7, ACTIVE, None))
    ensures forall tx: Tx | tx.userId == 7 && tx.grant == Grants(MOVE, 0).grant :: !Moved(rows, tx)
  {
    assert forall tx: Tx | tx.userId == 7 && tx.grant == Grants(MOVE, 0).grant ::
      Theirs(rows(10), tx) && Theirs(rows(20), tx);
  }

  /** A grant to user 7 in building 0, about to insert its row. */
  predicate AboutToInsert(tx: Tx, mode: GrantMode, unitId: Id) {
    && tx.grant == ResidentGrant(0, unitId, mode) && tx.userId == 7 && tx.pc == CreateRow
    && tx.existing.None? && tx.ended == {} && tx.inserted.None?
  }

  lemma BothUpToInsert(w: World) returns (next: World, schedule: Schedule)
    requires w.units == [Unit(0, "A"), Unit(0, "B")] && (forall i :: w.rows(i).None?)
    requires w.txs == map[1 := Grants(MOVE, 0), 2 := Grants(ADD, 1)] && w.unitLocks == map[]
    ensures next.rows == w.rows && next.txs.Keys == {1, 2} && Run(w, schedule) == next
    ensures AboutToInsert(next.txs[1], MOVE, 0) && AboutToInsert(next.txs[2], ADD, 1)
  {
    next, schedule := MoveUpToInsert(w, w, [], 1);
    next, schedule := AddUpToInsert(w, next, schedule, 2);
  }

  /** The schedule with a row too many: user 7 is moved to unit 0 by one transaction while another adds unit 1 between
    * the update of the first and its commit. Both commit, and user 7 has two ACTIVE rows in the building.
    */
  lemma MoveMissesALaterRow(w: World) returns (schedule: Schedule)
    requires w.units == [Unit(0, "A"), Unit(0, "B")] && (forall i :: w.rows(i).None?)
    requires w.txs == map[1 := Grants(MOVE, 0), 2 := Grants(ADD, 1)] && w.unitLocks == map[]
    ensures Initial(w)
    ensures Run(w, schedule).rows(10) == Some(Occupancy(0, 0, 7, ACTIVE, None))
    ensures Run(w, schedule).rows(20) == Some(Occupancy(0, 1, 7, ACTIVE, None))
    ensures forall tx: Tx | tx.userId == 7 && tx.grant == Grants(MOVE, 0).grant :: !Moved(Run(w, schedule).rows, tx)
  {
    var a, s := BothUpToInsert(w);
    var first := a.txs[1];
    a, s := Finish(w, a, s, 2, 20);
    assert a.txs[1] == first;
    a, schedule := Finish(w, a, s, 1, 10);
    RowTooMany(a.rows);
  }

  // ----- a schedule with no row left

  /** The check of a transaction whose user already holds the unit. */
  lemma ChecksItsRow(at: World, tx: Tx, found: Id, other: Id)
    requires tx.pc == CheckUnit && tx.userId == 7 && tx.ended == {} && tx.inserted.None?
    requires Occupies(at.rows(found), tx.grant.unitId) && at.rows(found).value.residentUserId == 7
    ensures AfterRead(at, tx, Finds(found, other)) == tx.(pc := FindOthers, existing := Some(found))
  {
    assert View(at, tx)(found) == at.rows(found);
  }

  /** The search of a MOVE that has one row to end. */
  lemma SearchesOther(at: World, tx: Tx, found: Id, other: Id)
    requires tx.pc == FindOthers && tx.grant.mode == MOVE && tx.ended == {} && tx.inserted.None?
    requires forall i :: LeavesRow(at.rows(i), tx) <==> i == other
    ensures AfterRead(at, tx, Finds(found, other)) == tx.(pc := EndOthers, candidates := {other})
  {
    assert forall i :: View(at, tx)(i) == at.rows(i);
  }

  /** The check and the search of a MOVE whose user already holds the unit. */
  lemma FindsItsRow(w: World, at: World, schedule: Schedule, t: Id, found: Id, other: Id)
    returns (next: World, longer: Schedule)
    requires Run(w, schedule) == at && t in at.txs && at.txs[t].pc == CheckUnit && at.txs[t].grant.mode == MOVE
    requires at.txs[t].userId == 7 && at.txs[t].ended == {} && at.txs[t].inserted.None?
    requires Occupies(at.rows(found), at.txs[t].grant.unitId) && at.rows(found).value.residentUserId == 7
    requires forall i :: LeavesRow(at.rows(i), at.txs[t]) <==> i == other
    ensures next == at.(txs := at.txs[t := at.txs[t].(pc := EndOthers, existing := Some(found), candidates := {other})])
    ensures Run(w, longer) == next
  {
    var tx := at.txs[t];
    var tx1 := tx.(pc := FindOthers, existing := Some(found));
    ChecksItsRow(at, tx, found, other);
    var a1, s1 := ReadStep(w, at, schedule, t, Finds(found, other), tx1);
    assert forall i :: LeavesRow(at.rows(i), tx1) <==> LeavesRow(at.rows(i), tx);
    SearchesOther(a1, tx1, found, other);
    next, longer := ReadStep(w, a1, s1, t, Finds(found, other), tx1.(pc := EndOthers, candidates := {other}));
    assert next.txs == at.txs[t := tx.(pc := EndOthers, existing := Some(found), candidates := {other})];
  }

  /** The update of that MOVE, when nobody else has ended the other row; it has nothing to insert. */
  lemma EndsOther(w: World, at: World, schedule: Schedule, t: Id, other: Id) returns (next: World, longer: Schedule)
    requires Run(w, schedule) == at && t in at.txs && at.txs[t].pc == EndOthers && at.txs[t].existing.Some?
    requires at.txs[t].candidates == {other} && at.txs[t].ended == {} && at.txs[t].inserted.None?
    requires LeavesRow(at.rows(other), at.txs[t])
    requires forall u :: u in at.txs && u != t ==> other !in at.txs[u].ended
    ensures next == at.(txs := at.txs[t := at.txs[t].(pc := Commit, ended := {other}, endAt := 0)])
    ensures Run(w, longer) == next
  {
    var tx := at.txs[t];
    SeesCommitted(at, tx);
    assert Hit(at, tx) == {other};
    assert !Waits(at, t);
    var s1 := Extend(w, at, schedule, t, Plain(0));
    var a1 := End(at, t, 0);
    assert Run(w, s1) == a1;
    longer := Extend(w, a1, s1, t, Plain(0));
    next := Insert(a1, t, 0);
    assert next.txs == at.txs[t := tx.(pc := Commit, ended := {other}, endAt := 0)];
  }

  /** From the start of such a MOVE to its commit. */
  lemma MoveUpToCommit(w: World, at: World, schedule: Schedule, t: Id, found: Id, other: Id)
    returns (next: World, longer: Schedule)
    requires Run(w, schedule) == at && t in at.txs && at.txs[t].pc == ResolveUser && at.txs[t].grant.mode == MOVE
    requires at.txs[t].ended == {} && at.txs[t].inserted.None?
    requires at.txs[t].grant.unitId < |at.units|
    requires at.units[at.txs[t].grant.unitId].buildingId == at.txs[t].grant.buildingId
    requires at.txs[t].grant.unitId !in at.unitLocks
    requires Occupies(at.rows(found), at.txs[t].grant.unitId) && at.rows(found).value.residentUserId == 7
    requires forall i :: LeavesRow(at.rows(i), at.txs[t].(userId := 7)) <==> i == other
    requires forall u :: u in at.txs && u != t ==> other !in at.txs[u].ended
    ensures next.rows == at.rows && next.units == at.units && Run(w, longer) == next
    ensures next.unitLocks == at.unitLocks[at.txs[t].grant.unitId := t]
    ensures next.txs == at.txs[t := at.txs[t].(userId := 7, pc := Commit, existing := Some(found),
                                              candidates := {other}, ended := {other}, endAt := 0)]
  {
    next, longer := ToCheck(w, at, schedule, t);
    assert forall i :: LeavesRow(next.rows(i), next.txs[t]) <==> LeavesRow(at.rows(i), at.txs[t].(userId := 7));
    next, longer := FindsItsRow(w, next, longer, t, found, other);
    next, longer := EndsOther(w, next, longer, t, other);
  }

  /** User 7 holds units 0 and 1, and nobody holds anything else. */
  ghost predicate TwoRows(rows: Rows) {
    forall i :: rows(i) == if i < 2 then Some(Occupancy(0, i, 7, ACTIVE, None)) else None
  }

  /** A MOVE of user 7 to a unit the user holds, about to commit; its update has ended the other row. */
  predicate Swapped(tx: Tx, unitId: Id) {
    && tx.grant == ResidentGrant(0, unitId, MOVE) && tx.userId == 7 && tx.pc == Commit
    && tx.existing == Some(unitId) && unitId < 2 && tx.ended == {1 - unitId} && tx.inserted.None?
  }

  lemma BothUpToCommit(w: World) returns (next: World, schedule: Schedule)
    requires w.units == [Unit(0, "A"), Unit(0, "B")] && TwoRows(w.rows)
    requires w.txs == map[1 := Grants(MOVE, 0), 2 := Grants(MOVE, 1)] && w.unitLocks == map[]
    ensures next.rows == w.rows && Run(w, schedule) == next
    ensures 1 in next.txs && 2 in next.txs && Swapped(next.txs[1], 0) && Swapped(next.txs[2], 1)
  {
    next, schedule := MoveUpToCommit(w, w, [], 1, 0, 1);
    var first := next.txs[1];
    next, schedule := MoveUpToCommit(w, next, schedule, 2, 1, 0);
    assert next.txs[1] == first;
  }

  lemma FirstCommit(at: World, i: Id)
    requires TwoRows(at.rows) && 1 in at.txs && Swapped(at.txs[1], 0)
    ensures CommitTx(at, 1).rows(i) ==
      if i == 0 then at.rows(0)
      else if i == 1 then Some(Occupancy(0, 1, 7, ENDED, Some(at.txs[1].endAt)))
      else None
  {
    assert CommitTx(at, 1).rows(i) == Seen(at.rows(i), at.txs[1], i);
  }

  lemma SecondCommit(now: World, i: Id)
    requires 2 in now.txs && Swapped(now.txs[2], 1)
    requires i != 0 && now.rows(i).Some? ==> now.rows(i).value.status == ENDED
    ensures LeavesRow(now.rows(i), now.txs[2]) ==> i in now.txs[2].ended
    ensures CommitTx(now, 2).rows(i).Some? ==> CommitTx(now, 2).rows(i).value.status == ENDED
  {
    assert CommitTx(now, 2).rows(i) == Seen(now.rows(i), now.txs[2], i);
  }

  lemma BothCommit(at: World)
    requires TwoRows(at.rows) && 1 in at.txs && 2 in at.txs && Swapped(at.txs[1], 0) && Swapped(at.txs[2], 1)
    ensures var now := CommitTx(at, 1);
      && (forall i | LeavesRow(now.rows(i), now.txs[2]) :: i in now.txs[2].ended)
      && (forall i | CommitTx(now, 2).rows(i).Some? :: CommitTx(now, 2).rows(i).value.status == ENDED)
  {
    var now := CommitTx(at, 1);
    forall i: Id
      ensures LeavesRow(now.rows(i), now.txs[2]) ==> i in now.txs[2].ended
      ensures CommitTx(now, 2).rows(i).Some? ==> CommitTx(now, 2).rows(i).value.status == ENDED
    {
      FirstCommit(at, i);
      SecondCommit(now, i);
    }
  }

  lemma InitialSwap(w: World)
    requires TwoRows(w.rows) && w.txs == map[1 := Grants(MOVE, 0), 2 := Grants(MOVE, 1)] && w.unitLocks == map[]
    ensures Initial(w)
  {
    assert forall i, unitId: Id | Occupies(w.rows(i), unitId) :: i == unitId;
  }

  /** The schedule with no row left: user 7 holds units 0 and 1; one transaction moves the user to unit 0 and another to
    * unit 1. Each finds its own row, ends the row of the other and commits, and neither waits. Both replies name a row
    * as ACTIVE, and afterwards user 7 has no ACTIVE row. Before the second commit its transaction has ended every
    * other committed row of the user.
    */
  lemma MovesEndEachOther(w: World) returns (schedule: Schedule, last: Schedule)
    requires w.units == [Unit(0, "A"), Unit(0, "B")] && TwoRows(w.rows)
    requires w.txs == map[1 := Grants(MOVE, 0), 2 := Grants(MOVE, 1)] && w.unitLocks == map[]
    ensures Initial(w)
    ensures var now := Run(w, schedule);
      && 2 in now.txs && Swapped(now.txs[2], 1) && Run(w, last) == CommitTx(now, 2)
      && forall i | LeavesRow(now.rows(i), now.txs[2]) :: i in now.txs[2].ended
    ensures forall i | Run(w, last).rows(i).Some? :: Run(w, last).rows(i).value.status == ENDED
    ensures !Moved(Run(w, last).rows, Run(w, schedule).txs[2])
  {
    InitialSwap(w);
    var at, s := BothUpToCommit(w);
    BothCommit(at);
    schedule := CommitStep(w, at, s, 1);
    last := CommitStep(w, CommitTx(at, 1), schedule, 2);
  }
}
