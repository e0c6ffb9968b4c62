/** A transaction that nobody interleaves with does what the sequential specification says: the statements of the
  * interleaved layer refine `Provisioning.GrantOccupancy`.
  */
module ProvisionAlone {
  import opened Prelude
  import opened Tables
  import opened Provisioning
  import opened ProvisionInterleaving
  import opened ProvisionSchedules

  /** The committed rows are these. */
  ghost predicate HoldsRows(rows: Rows, occs: seq<Occupancy>) {
    forall i: Id :: rows(i) == if i < |occs| then Some(occs[i]) else None
  }

  ghost predicate Alone(w: World, t: Id) {
    w.txs.Keys == {t}
  }

  /** What the database answers to its statements. */
  ghost predicate Answers(c: Choice, occs: seq<Occupancy>, userId: Id, g: ResidentGrant, now: Time) {
    && !c.abort && c.userId == userId && c.now == now && c.newId == |occs|
    && (var found := FindActive(occs, ActiveWhere(Some(g.unitId), None)); found.Some? ==> c.found == found.value)
    && c.matches == (set i: Id | i < |occs| && Leaves(occs[i], userId, g))
  }

  lemma NobodyThere(occs: seq<Occupancy>, rows: Rows, unitId: Id)
    requires HoldsRows(rows, occs)
    ensures FindActive(occs, ActiveWhere(Some(unitId), None)).None? <==> VacantIn(rows, unitId)
  {
    VacantIffNoneFound(occs, unitId);
    assert forall i: Id | i < |occs| :: Occupies(rows(i), unitId) <==> OnUnit(occs[i], unitId);
    if Vacant(occs, unitId) {
      forall i ensures !Occupies(rows(i), unitId) {
      }
    } else {
      var i: nat :| i < |occs| && OnUnit(occs[i], unitId);
      assert Occupies(rows(i), unitId);
    }
  }

  // ----- the statements up to the check

  lemma UpToCheck(w: World, schedule: Schedule, at: World, t: Id, c: Choice) returns (next: World, longer: Schedule)
    requires Run(w, schedule) == at && Alone(at, t) && at.txs[t].pc == ResolveUser && !c.abort && at.unitLocks == map[]
    requires at.txs[t].grant.unitId < |at.units|
    requires at.units[at.txs[t].grant.unitId].buildingId == at.txs[t].grant.buildingId
    ensures Run(w, longer) == next && next.rows == at.rows && Alone(next, t)
    ensures next.txs[t] == at.txs[t].(userId := c.userId, pc := CheckUnit)
  {
    var tx := at.txs[t];
    var a1, s1 := ReadStep(w, at, schedule, t, c, tx.(userId := c.userId, pc := FindUnit));
    var a2, s2 := ReadStep(w, a1, s1, t, c, tx.(userId := c.userId, pc := LockUnit));
    longer := Extend(w, a2, s2, t, c);
    next := Lock(a2, t);
  }

  lemma AbortStep(w: World, schedule: Schedule, at: World, t: Id, c: Choice) returns (longer: Schedule)
    requires Run(w, schedule) == at && t in at.txs && !c.abort
    requires at.txs[t].pc in {ResolveUser, FindUnit, CheckUnit, CheckUserUnit, FindOthers}
    requires AfterRead(at, at.txs[t], c).pc == Aborted
    ensures Run(w, longer) == Abort(at, t)
  {
    longer := Extend(w, at, schedule, t, c);
  }

  /** The check finds what the sequential check finds. */
  lemma ChecksRow(at: World, tx: Tx, c: Choice, occs: seq<Occupancy>, now: Time)
    requires tx.pc == CheckUnit && tx.ended == {} && tx.inserted.None? && HoldsRows(at.rows, occs)
    requires Answers(c, occs, tx.userId, tx.grant, now)
    ensures var found := FindActive(occs, ActiveWhere(Some(tx.grant.unitId), None));
      AfterRead(at, tx, c) ==
        if found.None? then tx.(existing := None, pc := CheckUserUnit)
        else if occs[found.value].residentUserId == tx.userId then tx.(existing := found, pc := FindOthers)
        else tx.(pc := Aborted)
  {
    SeesCommitted(at, tx);
    assert HoldsRows(View(at, tx), occs);
    NobodyThere(occs, View(at, tx), tx.grant.unitId);
  }

  lemma ChecksUserRow(at: World, tx: Tx, c: Choice, occs: seq<Occupancy>)
    requires tx.pc == CheckUserUnit && tx.ended == {} && tx.inserted.None? && HoldsRows(at.rows, occs)
    requires FindActive(occs, ActiveWhere(Some(tx.grant.unitId), None)).None?
    ensures AfterRead(at, tx, c) == tx.(existing := None, pc := FindOthers)
  {
    SeesCommitted(at, tx);
    assert HoldsRows(View(at, tx), occs);
    NobodyThere(occs, View(at, tx), tx.grant.unitId);
  }

  lemma UpToSearch(w: World, schedule: Schedule, at: World, t: Id, c: Choice, occs: seq<Occupancy>, now: Time)
    returns (next: World, longer: Schedule)
    requires Run(w, schedule) == at && Alone(at, t) && HoldsRows(at.rows, occs)
    requires at.txs[t].pc == CheckUnit && at.txs[t].ended == {} && at.txs[t].inserted.None?
    requires Answers(c, occs, at.txs[t].userId, at.txs[t].grant, now)
    requires var found := FindActive(occs, ActiveWhere(Some(at.txs[t].grant.unitId), None));
      found.Some? ==> occs[found.value].residentUserId == at.txs[t].userId
    ensures Run(w, longer) == next && next.rows == at.rows && Alone(next, t)
    ensures next.txs[t] == at.txs[t].(
      existing := FindActive(occs, ActiveWhere(Some(at.txs[t].grant.unitId), None)), pc := FindOthers)
  {
    var tx := at.txs[t];
    ChecksRow(at, tx, c, occs, now);
    if FindActive(occs, ActiveWhere(Some(tx.grant.unitId), None)).None? {
      var tx1 := tx.(existing := None, pc := CheckUserUnit);
      var a1, s1 := ReadStep(w, at, schedule, t, c, tx1);
      ChecksUserRow(a1, tx1, c, occs);
      next, longer := ReadStep(w, a1, s1, t, c, tx1.(pc := FindOthers));
    } else {
      next, longer := ReadStep(w, at, schedule, t, c, AfterRead(at, tx, c));
    }
  }

  // ----- the update

  /** The rows the update ends, as the sequential specification has them. */
  ghost function Ended(occs: seq<Occupancy>, userId: Id, g: ResidentGrant): set<Id> {
    set i: Id | i < |occs| && g.mode == MOVE && Leaves(occs[i], userId, g)
  }

  lemma Searches(at: World, tx: Tx, c: Choice, occs: seq<Occupancy>, now: Time)
    requires tx.pc == FindOthers && tx.ended == {} && tx.inserted.None? && HoldsRows(at.rows, occs)
    requires Answers(c, occs, tx.userId, tx.grant, now)
    ensures AfterRead(at, tx, c) ==
      if tx.grant.mode == ADD then tx.(pc := CreateRow) else tx.(candidates := c.matches, pc := EndOthers)
  {
    SeesCommitted(at, tx);
    assert forall i :: i in c.matches <==> LeavesRow(View(at, tx)(i), tx);
  }

  lemma HitsAll(at: World, t: Id, occs: seq<Occupancy>)
    requires Alone(at, t) && HoldsRows(at.rows, occs) && at.txs[t].ended == {} && at.txs[t].inserted.None?
    requires at.txs[t].candidates == set i: Id | i < |occs| && Leaves(occs[i], at.txs[t].userId, at.txs[t].grant)
    ensures Hit(at, at.txs[t]) == at.txs[t].candidates && !Waits(at, t)
  {
    SeesCommitted(at, at.txs[t]);
    assert forall i | i in at.txs[t].candidates :: LeavesRow(View(at, at.txs[t])(i), at.txs[t]);
  }

  lemma UpToInsert(w: World, schedule: Schedule, at: World, t: Id, c: Choice, occs: seq<Occupancy>, now: Time)
    returns (next: World, longer: Schedule)
    requires Run(w, schedule) == at && Alone(at, t) && HoldsRows(at.rows, occs)
    requires at.txs[t].pc == FindOthers && at.txs[t].ended == {} && at.txs[t].inserted.None?
    requires Answers(c, occs, at.txs[t].userId, at.txs[t].grant, now)
    ensures Run(w, longer) == next && next.rows == at.rows && Alone(next, t)
    ensures var tx, was := next.txs[t], at.txs[t];
      && tx.pc == CreateRow && tx.grant == was.grant && tx.userId == was.userId && tx.existing == was.existing
      && tx.inserted.None? && tx.ended == Ended(occs, was.userId, was.grant) && (tx.ended != {} ==> tx.endAt == now)
  {
    var tx := at.txs[t];
    Searches(at, tx, c, occs, now);
    if tx.grant.mode == ADD {
      next, longer := ReadStep(w, at, schedule, t, c, tx.(pc := CreateRow));
      assert Ended(occs, tx.userId, tx.grant) == {};
    } else {
      var a1, s1 := ReadStep(w, at, schedule, t, c, tx.(candidates := c.matches, pc := EndOthers));
      HitsAll(a1, t, occs);
      longer := Extend(w, a1, s1, t, c);
      next := End(a1, t, now);
      assert Ended(occs, tx.userId, tx.grant) == c.matches;
    }
  }

  // ----- the insertion and the commit

  lemma GrantRow(occs: seq<Occupancy>, userId: Id, g: ResidentGrant, now: Time, i: nat)
    requires GrantOccupancy(occs, userId, g, now).Ok?
    ensures var after := GrantOccupancy(occs, userId, g, now).value.0;
      var vacant := FindActive(occs, ActiveWhere(Some(g.unitId), None)).None?;
      && |after| == |occs| + (if vacant then 1 else 0)
      && (i < |occs| ==> after[i] == AfterMove(occs[i], userId, g, now))
      && (vacant ==> after[|occs|] == Occupancy(g.buildingId, g.unitId, userId, ACTIVE, None))
  {
  }

  /** The rows a commit leaves are those of the sequential specification. */
  lemma CommittedRows(at: World, tx: Tx, occs: seq<Occupancy>, now: Time)
    requires HoldsRows(at.rows, occs) && GrantOccupancy(occs, tx.userId, tx.grant, now).Ok?
    requires tx.ended == Ended(occs, tx.userId, tx.grant) && (tx.ended != {} ==> tx.endAt == now)
    requires var found := FindActive(occs, ActiveWhere(Some(tx.grant.unitId), None));
      tx.inserted == if found.None? then Some(|occs|) else None
    ensures HoldsRows(View(at, tx), GrantOccupancy(occs, tx.userId, tx.grant, now).value.0)
  {
    var after := GrantOccupancy(occs, tx.userId, tx.grant, now).value.0;
    forall i: Id ensures View(at, tx)(i) == if i < |after| then Some(after[i]) else None {
      GrantRow(occs, tx.userId, tx.grant, now, i);
      assert View(at, tx)(i) == Seen(at.rows(i), tx, i);
      assert i in tx.ended <==> i < |occs| && tx.grant.mode == MOVE && Leaves(occs[i], tx.userId, tx.grant);
    }
  }

  lemma UpToCommit(w: World, schedule: Schedule, at: World, t: Id, c: Choice, occs: seq<Occupancy>)
    returns (next: World, longer: Schedule)
    requires Run(w, schedule) == at && Alone(at, t) && HoldsRows(at.rows, occs) && !c.abort && c.newId == |occs|
    requires at.txs[t].pc == CreateRow && at.txs[t].inserted.None?
    ensures Run(w, longer) == next && next.rows == at.rows && Alone(next, t)
    ensures next.txs[t] ==
      at.txs[t].(pc := Commit, inserted := if at.txs[t].existing.Some? then None else Some(|occs|))
  {
    longer := Extend(w, at, schedule, t, c);
    next := Insert(at, t, c.newId);
  }

  lemma CommitStepWith(w: World, schedule: Schedule, at: World, t: Id) returns (longer: Schedule)
    requires Run(w, schedule) == at && t in at.txs && at.txs[t].pc == Commit
    ensures Run(w, longer) == CommitTx(at, t)
  {
    longer := CommitStep(w, at, schedule, t);
  }

  lemma GrantedAlone(w: World, schedule: Schedule, at: World, t: Id, c: Choice, occs: seq<Occupancy>, now: Time)
    returns (longer: Schedule)
    requires Run(w, schedule) == at && Alone(at, t) && HoldsRows(at.rows, occs)
    requires at.txs[t].pc == CheckUnit && at.txs[t].ended == {} && at.txs[t].inserted.None?
    requires Answers(c, occs, at.txs[t].userId, at.txs[t].grant, now)
    requires GrantOccupancy(occs, at.txs[t].userId, at.txs[t].grant, now).Ok?
    ensures var end := Run(w, longer);
      && t in end.txs && end.txs[t].pc == Committed
      && HoldsRows(end.rows, GrantOccupancy(occs, at.txs[t].userId, at.txs[t].grant, now).value.0)
  {
    var a1, s1 := UpToSearch(w, schedule, at, t, c, occs, now);
    var a2, s2 := UpToInsert(w, s1, a1, t, c, occs, now);
    var a3, s3 := UpToCommit(w, s2, a2, t, c, occs);
    longer := CommitStepWith(w, s3, a3, t);
    CommittedRows(a3, a3.txs[t], occs, now);
  }

  lemma RefusedAlone(w: World, schedule: Schedule, at: World, t: Id, c: Choice, occs: seq<Occupancy>, now: Time)
    returns (longer: Schedule)
    requires Run(w, schedule) == at && Alone(at, t) && HoldsRows(at.rows, occs)
    requires at.txs[t].pc == CheckUnit && at.txs[t].ended == {} && at.txs[t].inserted.None?
    requires Answers(c, occs, at.txs[t].userId, at.txs[t].grant, now)
    requires GrantOccupancy(occs, at.txs[t].userId, at.txs[t].grant, now).Err?
    ensures var end := Run(w, longer); t in end.txs && end.txs[t].pc == Aborted && HoldsRows(end.rows, occs)
  {
    ChecksRow(at, at.txs[t], c, occs, now);
    longer := AbortStep(w, schedule, at, t, c);
  }

  lemma SomeAnswers(occs: seq<Occupancy>, userId: Id, g: ResidentGrant, now: Time) returns (c: Choice)
    ensures Answers(c, occs, userId, g, now)
  {
    var found := FindActive(occs, ActiveWhere(Some(g.unitId), None));
    c := Choice(false, userId, if found.Some? then found.value else 0,
                (set i: Id | i < |occs| && Leaves(occs[i], userId, g)), now, |occs|);
  }

  /** Run alone, a transaction commits exactly the rows of the sequential grant, or aborts and changes nothing when the
    * sequential grant is refused.
    */
  lemma AloneIsSequential(w: World, t: Id, occs: seq<Occupancy>, userId: Id, now: Time) returns (schedule: Schedule)
    requires Alone(w, t) && w.unitLocks == map[] && HoldsRows(w.rows, occs)
    requires w.txs[t].pc == ResolveUser && w.txs[t].ended == {} && w.txs[t].inserted.None?
    requires w.txs[t].grant.unitId < |w.units|
    requires w.units[w.txs[t].grant.unitId].buildingId == w.txs[t].grant.buildingId
    ensures var end, sequential := Run(w, schedule), GrantOccupancy(occs, userId, w.txs[t].grant, now);
      && t in end.txs
      && (sequential.Ok? ==> end.txs[t].pc == Committed && HoldsRows(end.rows, sequential.value.0))
      && (sequential.Err? ==> end.txs[t].pc == Aborted && HoldsRows(end.rows, occs))
  {
    var c := SomeAnswers(occs, userId, w.txs[t].grant, now);
    var a1, s1 := UpToCheck(w, [], w, t, c);
    if GrantOccupancy(occs, userId, w.txs[t].grant, now).Ok? {
      schedule := GrantedAlone(w, s1, a1, t, c, occs, now);
    } else {
      schedule := RefusedAlone(w, s1, a1, t, c, occs, now);
    }
  }
}
