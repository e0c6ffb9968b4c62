/** When a MOVE, interleaved with other transactions, leaves its user exactly one ACTIVE occupancy in the building. */
module ProvisionMoves {
  import opened Prelude
  import opened Tables
  import opened Provisioning
  import opened ProvisionInterleaving

  /** The user's ACTIVE row on the target unit. */
  predicate Holds(o: Option<Occupancy>, tx: Tx) {
    Occupies(o, tx.grant.unitId) && o.value.residentUserId == tx.userId
  }

  /** An ACTIVE row of the user, in the building or on the target unit. */
  predicate Theirs(o: Option<Occupancy>, tx: Tx) {
    && o.Some? && o.value.status == ACTIVE && o.value.residentUserId == tx.userId
    && (o.value.buildingId == tx.grant.buildingId || o.value.unitId == tx.grant.unitId)
  }

  /** What a MOVE is for. */
  ghost predicate Moved(rows: Rows, tx: Tx) {
    exists i :: Holds(rows(i), tx) && forall j | Theirs(rows(j), tx) :: j == i
  }

  // ----- what other transactions do meanwhile

  predicate HasSearched(pc: Pc) {
    pc in {EndOthers, CreateRow, Commit}
  }

  predicate HasChecked(pc: Pc) {
    pc == FindOthers || HasSearched(pc)
  }

  /** The step commits another transaction, of the same user and for another unit. */
  ghost predicate RivalCommits(at: World, step: (Id, Choice), t: Id) {
    && t in at.txs && step.0 in at.txs && step.0 != t
    && at.txs[step.0].pc == Commit && !step.1.abort
    && at.txs[step.0].userId == at.txs[t].userId
    && at.txs[step.0].grant.unitId != at.txs[t].grant.unitId
  }

  /** The rival, for the same building, commits a new row after the search for rows to end. */
  ghost predicate Adds(at: World, step: (Id, Choice), t: Id, i: Id) {
    && RivalCommits(at, step, t) && HasSearched(at.txs[t].pc)
    && at.txs[step.0].grant.buildingId == at.txs[t].grant.buildingId
    && at.txs[step.0].inserted == Some(i)
  }

  /** The rival, a MOVE, commits the end of a row after the check found one. */
  ghost predicate Ends(at: World, step: (Id, Choice), t: Id, i: Id) {
    && RivalCommits(at, step, t) && HasChecked(at.txs[t].pc)
    && at.txs[step.0].grant.mode == MOVE && i in at.txs[step.0].ended
  }

  ghost predicate AddsAt(w: World, schedule: Schedule, t: Id, i: Id, k: nat) {
    k < |schedule| && Adds(Run(w, schedule[..k]), schedule[k], t, i)
  }

  ghost predicate EndsAt(w: World, schedule: Schedule, t: Id, i: Id, k: nat) {
    k < |schedule| && Ends(Run(w, schedule[..k]), schedule[k], t, i)
  }

  ghost predicate WasAdded(w: World, schedule: Schedule, t: Id, i: Id) {
    exists k :: AddsAt(w, schedule, t, i, k)
  }

  ghost predicate WasEnded(w: World, schedule: Schedule, t: Id, i: Id) {
    exists k :: EndsAt(w, schedule, t, i, k)
  }

  /** The rows that rivals added after the search, over the whole schedule. */
  ghost function Added(w: World, schedule: Schedule, t: Id): iset<Id> {
    iset i: Id | WasAdded(w, schedule, t, i)
  }

  /** The rows that rivals ended after the check. */
  ghost function Lost(w: World, schedule: Schedule, t: Id): iset<Id> {
    iset i: Id | WasEnded(w, schedule, t, i)
  }

  // ----- what a transaction knows

  /** The rows the transaction has found to end, or ended. */
  function Ending(tx: Tx): set<Id> {
    if tx.pc == EndOthers then tx.candidates else tx.ended
  }

  /** The rows a MOVE has to end are those it found and those added since. */
  ghost predicate KnowsOthers(rows: Rows, tx: Tx, added: iset<Id>) {
    && (tx.pc in {ResolveUser, FindUnit, LockUnit, CheckUnit, CheckUserUnit, FindOthers} ==> added == iset{})
    && (HasSearched(tx.pc) ==>
          && (tx.grant.mode == MOVE ==> forall i | LeavesRow(rows(i), tx) :: i in Ending(tx) || i in added)
          && (forall i | i in Ending(tx) :: rows(i).Some? && i !in added))
  }

  /** The row the check found is the only one on the unit, and still ACTIVE unless it was lost. */
  ghost predicate KnowsRow(rows: Rows, tx: Tx, lost: iset<Id>) {
    && (tx.pc in {ResolveUser, FindUnit, LockUnit, CheckUnit, CheckUserUnit} ==> lost == iset{})
    && (HasChecked(tx.pc) && tx.existing.Some? ==>
          && (tx.existing.value in lost <==> !Holds(rows(tx.existing.value), tx))
          && rows(tx.existing.value).Some?
          && forall i | Occupies(rows(i), tx.grant.unitId) :: i == tx.existing.value)
    && (tx.pc == Commit ==> (tx.existing.Some? <==> tx.inserted.None?))
  }

  ghost predicate Knows(rows: Rows, tx: Tx, added: iset<Id>, lost: iset<Id>) {
    KnowsOthers(rows, tx, added) && KnowsRow(rows, tx, lost)
  }

  // ----- the transaction's own steps

  lemma ReadKnowsOthers(w: World, tx: Tx, c: Choice, added: iset<Id>)
    requires tx.ended == {} && tx.inserted.None? && KnowsOthers(w.rows, tx, added)
    requires tx.pc in {ResolveUser, FindUnit, CheckUnit, CheckUserUnit, FindOthers}
    ensures KnowsOthers(w.rows, AfterRead(w, tx, c), added)
  {
    SeesCommitted(w, tx);
  }

  lemma ReadKnowsRow(w: World, tx: Tx, c: Choice, lost: iset<Id>)
    requires OneActiveRow(w.rows) && tx.ended == {} && tx.inserted.None? && KnowsRow(w.rows, tx, lost)
    requires tx.pc in {ResolveUser, FindUnit, CheckUnit, CheckUserUnit, FindOthers}
    ensures KnowsRow(w.rows, AfterRead(w, tx, c), lost)
  {
    SeesCommitted(w, tx);
  }

  lemma EndKnows(w: World, t: Id, now: Time, added: iset<Id>, lost: iset<Id>)
    requires t in w.txs && w.txs[t].pc == EndOthers && TxInv(w.rows, w.unitLocks, t, w.txs[t])
    requires Knows(w.rows, w.txs[t], added, lost)
    ensures Knows(w.rows, End(w, t, now).txs[t], added, lost)
  {
    SeesCommitted(w, w.txs[t]);
  }

  lemma OwnStepKnows(w: World, t: Id, c: Choice, added: iset<Id>, lost: iset<Id>)
    requires Inv(w) && t in w.txs && Knows(w.rows, w.txs[t], added, lost)
    ensures Knows(Step(w, t, c).rows, Step(w, t, c).txs[t], added, lost)
  {
    var pc := w.txs[t].pc;
    assert TxInv(w.rows, w.unitLocks, t, w.txs[t]);
    if pc == EndOthers {
      EndKnows(w, t, c.now, added, lost);
    } else if pc in {ResolveUser, FindUnit, CheckUnit, CheckUserUnit, FindOthers} {
      ReadKnowsOthers(w, w.txs[t], c, added);
      ReadKnowsRow(w, w.txs[t], c, lost);
    }
  }

  // ----- the steps of others

  ghost function AddedBy(at: World, step: (Id, Choice), t: Id): iset<Id> {
    iset i: Id | Adds(at, step, t, i)
  }

  ghost function LostBy(at: World, step: (Id, Choice), t: Id): iset<Id> {
    iset i: Id | Ends(at, step, t, i)
  }

  lemma CommitKnowsOthers(w: World, u: Id, c: Choice, t: Id, added: iset<Id>)
    requires Inv(w) && u in w.txs && w.txs[u].pc == Commit && !c.abort && t in w.txs && t != u
    requires KnowsOthers(w.rows, w.txs[t], added)
    ensures KnowsOthers(CommitTx(w, u).rows, w.txs[t], added + AddedBy(w, (u, c), t))
  {
    var after, tx := CommitTx(w, u).rows, w.txs[t];
    assert TxInv(w.rows, w.unitLocks, u, w.txs[u]);
    forall i
      ensures LeavesRow(after(i), tx) && !LeavesRow(w.rows(i), tx) && HasSearched(tx.pc) ==> Adds(w, (u, c), t, i)
      ensures w.rows(i).Some? ==> after(i).Some? && !Adds(w, (u, c), t, i)
    {
      CommitEffect(w, u, i);
    }
  }

  lemma CommitKnowsRow(w: World, u: Id, c: Choice, t: Id, lost: iset<Id>)
    requires Inv(w) && u in w.txs && w.txs[u].pc == Commit && !c.abort && t in w.txs && t != u
    requires KnowsRow(w.rows, w.txs[t], lost)
    ensures KnowsRow(CommitTx(w, u).rows, w.txs[t], lost + LostBy(w, (u, c), t))
  {
    var after, tx := CommitTx(w, u).rows, w.txs[t];
    if HasChecked(tx.pc) && tx.existing.Some? {
      assert TxInv(w.rows, w.unitLocks, u, w.txs[u]) && TxInv(w.rows, w.unitLocks, t, tx);
      CommitEffect(w, u, tx.existing.value);
      forall i | Occupies(after(i), tx.grant.unitId)
        ensures i == tx.existing.value
      {
        CommitEffect(w, u, i);
      }
    }
  }

  lemma StepKnows(w: World, step: (Id, Choice), t: Id, added: iset<Id>, lost: iset<Id>)
    requires Inv(w) && t in w.txs && Knows(w.rows, w.txs[t], added, lost)
    ensures var v := Step(w, step.0, step.1);
      t in v.txs && Knows(v.rows, v.txs[t], added + AddedBy(w, step, t), lost + LostBy(w, step, t))
  {
    var u, c := step.0, step.1;
    if u in w.txs && u != t && w.txs[u].pc == Commit && !c.abort {
      CommitKnowsOthers(w, u, c, t, added);
      CommitKnowsRow(w, u, c, t, lost);
    } else {
      assert AddedBy(w, step, t) == iset{} && LostBy(w, step, t) == iset{};
      assert added + iset{} == added && lost + iset{} == lost;
      if u == t {
        OwnStepKnows(w, t, c, added, lost);
      }
    }
  }

  lemma HistoryGrows(w: World, schedule: Schedule, t: Id)
    requires |schedule| > 0
    ensures var init, last := schedule[..|schedule| - 1], schedule[|schedule| - 1];
      && Added(w, schedule, t) == Added(w, init, t) + AddedBy(Run(w, init), last, t)
      && Lost(w, schedule, t) == Lost(w, init, t) + LostBy(Run(w, init), last, t)
  {
    var n := |schedule| - 1;
    var init := schedule[..n];
    assert forall k: nat | k < n :: init[..k] == schedule[..k];
    forall i: Id
      ensures i in Added(w, schedule, t) <==> i in Added(w, init, t) || Adds(Run(w, init), schedule[n], t, i)
      ensures i in Lost(w, schedule, t) <==> i in Lost(w, init, t) || Ends(Run(w, init), schedule[n], t, i)
    {
      assert AddsAt(w, schedule, t, i, n) <==> Adds(Run(w, init), schedule[n], t, i);
      assert EndsAt(w, schedule, t, i, n) <==> Ends(Run(w, init), schedule[n], t, i);
      assert forall k: nat | k < n :: AddsAt(w, schedule, t, i, k) <==> AddsAt(w, init, t, i, k);
      assert forall k: nat | k < n :: EndsAt(w, schedule, t, i, k) <==> EndsAt(w, init, t, i, k);
    }
  }

  lemma SameTransactions(w: World, t: Id, u: Id, c: Choice)
    ensures t in Step(w, u, c).txs <==> t in w.txs
  {
  }

  lemma {:induction false} RunKnows(w: World, schedule: Schedule, t: Id)
    requires Initial(w) && t in Run(w, schedule).txs
    ensures var now := Run(w, schedule);
      Knows(now.rows, now.txs[t], Added(w, schedule, t), Lost(w, schedule, t))
  {
    if |schedule| > 0 {
      var init, last := schedule[..|schedule| - 1], schedule[|schedule| - 1];
      SameTransactions(Run(w, init), t, last.0, last.1);
      RunKnows(w, init, t);
      RunKeepsInv(w, init);
      StepKnows(Run(w, init), last, t, Added(w, init, t), Lost(w, init, t));
      HistoryGrows(w, schedule, t);
    }
  }

  // ----- the theorem

  /** The commit in terms of what it writes; the unit of a row it ends is never its own. */
  lemma CommitOfMove(w: World, t: Id, i: Id)
    requires t in w.txs && TxInv(w.rows, w.unitLocks, t, w.txs[t])
    ensures var tx, row, after := w.txs[t], w.rows(i), CommitTx(w, t).rows(i);
      && (Theirs(after, tx) <==> Holds(after, tx) || LeavesRow(after, tx))
      && (LeavesRow(after, tx) <==> LeavesRow(row, tx) && i !in tx.ended)
      && (Holds(after, tx) <==> tx.inserted == Some(i) || Holds(row, tx))
  {
  }

  lemma MovedIff(w: World, t: Id, lost: iset<Id>)
    requires Inv(w) && t in w.txs && w.txs[t].pc == Commit && KnowsRow(w.rows, w.txs[t], lost)
    ensures var tx := w.txs[t];
      Moved(CommitTx(w, t).rows, tx) <==>
        && (forall i | LeavesRow(w.rows(i), tx) :: i in tx.ended)
        && (tx.existing.Some? ==> Holds(w.rows(tx.existing.value), tx))
  {
    var tx, after := w.txs[t], CommitTx(w, t).rows;
    assert TxInv(w.rows, w.unitLocks, t, tx);
    CommitKeepsOneActive(w, t);
    forall i: Id
      ensures Theirs(after(i), tx) <==> Holds(after(i), tx) || LeavesRow(after(i), tx)
      ensures LeavesRow(after(i), tx) <==> LeavesRow(w.rows(i), tx) && i !in tx.ended
      ensures Holds(after(i), tx) <==> tx.inserted == Some(i) || Holds(w.rows(i), tx)
    {
      CommitOfMove(w, t, i);
    }
    var i := if tx.inserted.Some? then tx.inserted.value else tx.existing.value;
    assert tx.existing.None? || Holds(w.rows(i), tx) ==> Holds(after(i), tx);
  }

  /** However the statements interleave: a MOVE that commits leaves its user exactly one ACTIVE row in the building, on
    * the target unit, if and only if its update ended every other committed row of the user there, and the row it
    * found on the unit, if any, is still ACTIVE.
    */
  lemma {:induction false} MoveIsExclusiveIff(w: World, schedule: Schedule, t: Id)
    requires Initial(w)
    requires t in Run(w, schedule).txs
    requires Run(w, schedule).txs[t].pc == Commit && Run(w, schedule).txs[t].grant.mode == MOVE
    ensures var now := Run(w, schedule);
      var tx := now.txs[t];
      Moved(CommitTx(now, t).rows, tx) <==>
        && (forall i | LeavesRow(now.rows(i), tx) :: i in tx.ended)
        && (tx.existing.Some? ==> Holds(now.rows(tx.existing.value), tx))
  {
    RunKeepsInv(w, schedule);
    RunKnows(w, schedule, t);
    MovedIff(Run(w, schedule), t, Lost(w, schedule, t));
  }

  /** The same in terms of the schedule: it fails exactly when another transaction of the same user, for another unit,
    * committed in between: either a row of the building, after this one searched for rows to end, that is still
    * ACTIVE; or the end of the row this one had found on its unit.
    */
  lemma {:induction false} MoveIsExclusiveBySchedule(w: World, schedule: Schedule, t: Id)
    requires Initial(w)
    requires t in Run(w, schedule).txs
    requires Run(w, schedule).txs[t].pc == Commit && Run(w, schedule).txs[t].grant.mode == MOVE
    ensures var now := Run(w, schedule);
      var tx := now.txs[t];
      Moved(CommitTx(now, t).rows, tx) <==>
        && (forall i | WasAdded(w, schedule, t, i) :: !LeavesRow(now.rows(i), tx))
        && (tx.existing.Some? ==> !WasEnded(w, schedule, t, tx.existing.value))
  {
    var now := Run(w, schedule);
    var tx := now.txs[t];
    MoveIsExclusiveIff(w, schedule, t);
    RunKnows(w, schedule, t);
    assert forall i :: i in Added(w, schedule, t) <==> WasAdded(w, schedule, t, i);
  }

  /** In particular a MOVE does what it is for when no rival commits while it is between its check and its commit. */
  lemma {:induction false} MoveIsExclusiveWithoutRival(w: World, schedule: Schedule, t: Id)
    requires Initial(w)
    requires t in Run(w, schedule).txs
    requires Run(w, schedule).txs[t].pc == Commit && Run(w, schedule).txs[t].grant.mode == MOVE
    requires forall k: nat | k < |schedule| && RivalCommits(Run(w, schedule[..k]), schedule[k], t) ::
      !HasChecked(Run(w, schedule[..k]).txs[t].pc)
    ensures Moved(CommitTx(Run(w, schedule), t).rows, Run(w, schedule).txs[t])
  {
    MoveIsExclusiveBySchedule(w, schedule, t);
  }
}
