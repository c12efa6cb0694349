/** The shape of every row, the agreement of the batch with the table, and the attempt and time budget. */
module ProtocolShape {
  import opened Wrappers
  import opened InboxRows
  import opened Protocol
  import opened ProtocolMoves
  import opened ProtocolBooks
  import opened ProtocolCustody
  import Backoff

  /** The mark of a death because the stored object was gone. */
  predicate MissingMark(row: Row) {
    row.lastStatus == None && row.lastError == Some(MISSING)
  }

  predicate Classified(row: Row, v: Backoff.Verdict) {
    row.lastStatus.Some? && Backoff.ClassifyStatus(row.lastStatus.value) == v
  }

  /** What each status says about the other columns. */
  predicate StatusShape(c: Config, row: Row)
    requires c.backoffSeconds != []
  {
    match row.status
    case Pending =>
      && row.attempts < c.maxAttempts
      && (row.attempts > 0 ==>
            && row.lastAttemptAt.Some?
            && row.nextAttemptAt == Some(row.lastAttemptAt.value + Backoff.DelayMs(c.backoffSeconds, row.attempts)))
    case Delivered =>
      && row.attempts >= 1 && row.lastAttemptAt.Some? && row.deliveredAt == row.lastAttemptAt
      && row.purgeAt == Some(row.deliveredAt.value + c.retentionMs)
      && Classified(row, Backoff.Delivered) && row.lastError == None
    case Rejected =>
      row.attempts >= 1 && row.lastAttemptAt.Some? && Classified(row, Backoff.Rejected)
    case Dead =>
      && row.attempts >= 1 && row.lastAttemptAt.Some?
      && (MissingMark(row) ||
          (row.attempts == c.maxAttempts && (row.lastStatus == None || Classified(row, Backoff.Retry))))
  }

  predicate RowShape(c: Config, row: Row, now: int)
    requires c.backoffSeconds != []
  {
    && (row.nextAttemptAt.Some? <==> row.status == Pending)
    && (row.purgeAt.Some? <==> row.status == Delivered)
    && row.attempts <= c.maxAttempts
    && (row.lastAttemptAt.Some? ==> row.lastAttemptAt.value <= now)
    && (row.lastError.Some? ==> |row.lastError.value| <= MAX_ERROR_CHARS)
    && StatusShape(c, row)
  }

  predicate Shapes(w: World, s: State)
    requires w.config.backoffSeconds != []
  {
    forall id | id in s.rows :: RowShape(w.config, s.rows[id], s.now)
  }

  // ----- the batch agrees with the table ----------------------------------------------------

  /** A row the pass has yet to settle: due when picked, and unchanged in the table unless removed. */
  predicate StillAsPicked(w: World, s: State, row: Row)
    requires w.config.backoffSeconds != []
  {
    && row.status == Pending && RowShape(w.config, row, s.now)
    && row.nextAttemptAt.Some? && row.nextAttemptAt.value <= s.now
    && (row.id in s.rows ==> s.rows[row.id] == row)
  }

  predicate BatchTrue(w: World, s: State)
    requires w.config.backoffSeconds != []
  {
    s.pass.Delivering? ==>
      && s.pass.at < |s.pass.batch|
      && (forall i | s.pass.at <= i < |s.pass.batch| :: StillAsPicked(w, s, s.pass.batch[i]))
      && (forall i, j | s.pass.at <= i < j < |s.pass.batch| :: s.pass.batch[i].id != s.pass.batch[j].id)
  }

  lemma RowShapeKept(w: World, s: State, step: Step, s': State, id: Id)
    requires ValidConfig(w.config)
    requires id in s.rows ==> RowShape(w.config, s.rows[id], s.now)
    requires BatchTrue(w, s) && ClockMoves(s, step, s')
    requires RowMoves(w, s, step, s', id) && id in s'.rows
    ensures RowShape(w.config, s'.rows[id], s'.now)
  {
    if Settles(w, s, step, s', id) {
      assert StillAsPicked(w, s, s.pass.batch[s.pass.at]);
    }
  }

  lemma ShapesKept(w: World, s: State, step: Step, s': State)
    requires ValidConfig(w.config)
    requires Shapes(w, s) && BatchTrue(w, s)
    requires RowsMove(w, s, step, s') && ClockMoves(s, step, s')
    ensures Shapes(w, s')
  {
    forall id | id in s'.rows
      ensures RowShape(w.config, s'.rows[id], s'.now)
    {
      assert RowMoves(w, s, step, s', id);
      RowShapeKept(w, s, step, s', id);
    }
  }

  /** Only a removal, or its own settle, can touch a row between its SELECT and its settle. */
  lemma StillAsPickedKept(w: World, s: State, step: Step, s': State, row: Row)
    requires ValidConfig(w.config)
    requires IdsFiled(s) && row.id in s.h.queued
    requires StillAsPicked(w, s, row) && RowMoves(w, s, step, s', row.id) && ClockMoves(s, step, s')
    requires !(step.Settle? && AtStage(s) && Current(s).id == row.id)
    ensures StillAsPicked(w, s', row)
  {
  }

  predicate PickedInOrder(s: State, step: Step) {
    step.AlarmFires? ==>
      && (forall i | 0 <= i < |step.due| :: Due(step.due[i], s.now))
      && (forall i, j | 0 <= i < j < |step.due| :: step.due[i].id != step.due[j].id)
  }

  lemma SelectionOrdered(w: World, s: State, step: Step)
    requires ValidConfig(w.config) && Enabled(w, s, step)
    ensures PickedInOrder(s, step)
  {
    if step.AlarmFires? {
      forall i, j | 0 <= i < j < |step.due|
        ensures step.due[i].id != step.due[j].id
      {
        assert Ahead(step.due[i], step.due[j]);
      }
    }
  }

  lemma BatchTrueKept(w: World, s: State, step: Step, s': State)
    requires ValidConfig(w.config)
    requires IdsFiled(s) && RowsFiled(w, s) && BatchFiled(w, s) && Shapes(w, s) && BatchTrue(w, s)
    requires RowsMove(w, s, step, s') && PassMoves(s, step, s') && ClockMoves(s, step, s')
    requires BatchTaken(s, step) && PickedInOrder(s, step)
    requires step.AlarmFires? ==> s'.rows == s.rows
    ensures BatchTrue(w, s')
  {
    if s'.pass.Delivering? && !step.AlarmFires? {
      assert s'.pass.batch == s.pass.batch && s.pass.at <= s'.pass.at;
      forall i | s'.pass.at <= i < |s'.pass.batch|
        ensures StillAsPicked(w, s', s'.pass.batch[i])
      {
        var row := s.pass.batch[i];
        assert StillAsPicked(w, s, row) && row == BatchOf(s.pass)[i];
        assert RowMoves(w, s, step, s', row.id);
        StillAsPickedKept(w, s, step, s', row);
      }
    }
  }

  // ----- the budget -------------------------------------------------------------------------

  /** After attempt k the waits between the attempts since the last (re)queue have all passed. */
  predicate WithinBudget(c: Config, first: map<Id, int>, id: Id, row: Row)
    requires c.backoffSeconds != []
  {
    row.attempts > 0 ==>
      && id in first && row.lastAttemptAt.Some?
      && row.lastAttemptAt.value >= first[id] + Backoff.TotalDelay(c.backoffSeconds, row.attempts - 1)
  }

  predicate Budget(w: World, s: State)
    requires w.config.backoffSeconds != []
  {
    forall id | id in s.rows :: WithinBudget(w.config, s.h.first, id, s.rows[id])
  }

  lemma RowBudgetKept(w: World, s: State, step: Step, s': State, id: Id)
    requires ValidConfig(w.config)
    requires id in s.rows ==> WithinBudget(w.config, s.h.first, id, s.rows[id])
    requires BatchTrue(w, s) && FirstMoves(s, step, s')
    requires RowMoves(w, s, step, s', id) && id in s'.rows
    ensures WithinBudget(w.config, s'.h.first, id, s'.rows[id])
  {
    if Settles(w, s, step, s', id) {
      assert StillAsPicked(w, s, s.pass.batch[s.pass.at]);
    }
  }

  lemma BudgetKept(w: World, s: State, step: Step, s': State)
    requires ValidConfig(w.config)
    requires Budget(w, s) && BatchTrue(w, s)
    requires RowsMove(w, s, step, s') && FirstMoves(s, step, s')
    ensures Budget(w, s')
  {
    forall id | id in s'.rows
      ensures WithinBudget(w.config, s'.h.first, id, s'.rows[id])
    {
      assert RowMoves(w, s, step, s', id);
      RowBudgetKept(w, s, step, s', id);
    }
  }

  // ----- deaths are explained ---------------------------------------------------------------

  /** A row dead with attempts to spare was delivered before, or a removal has erased its object. */
  predicate DeathsExplained(w: World, s: State) {
    forall id | id in s.rows && s.rows[id].status == Dead && s.rows[id].attempts < w.config.maxAttempts :: LetGo(s, id)
  }

  lemma DeathExplained(w: World, s: State, step: Step, s': State, id: Id)
    requires ValidConfig(w.config)
    requires DeathsExplained(w, s) && StageTrue(w, s)
    requires RowMoves(w, s, step, s', id) && RemovalsMove(s, step, s') && DeliveredMoves(s, step, s')
    requires id in s'.rows && s'.rows[id].status == Dead && s'.rows[id].attempts < w.config.maxAttempts
    ensures LetGo(s', id)
  {
    if Settles(w, s, step, s', id) {
      assert s.pass.stage.Missing?;
    }
  }

  lemma DeathsExplainedKept(w: World, s: State, step: Step, s': State)
    requires ValidConfig(w.config)
    requires DeathsExplained(w, s) && StageTrue(w, s)
    requires RowsMove(w, s, step, s') && RemovalsMove(s, step, s') && DeliveredMoves(s, step, s')
    ensures DeathsExplained(w, s')
  {
    forall id | id in s'.rows && s'.rows[id].status == Dead && s'.rows[id].attempts < w.config.maxAttempts
      ensures LetGo(s', id)
    {
      assert RowMoves(w, s, step, s', id);
      DeathExplained(w, s, step, s', id);
    }
  }

  // ----- all of it --------------------------------------------------------------------------

  predicate RowsTrue(w: World, s: State)
    requires w.config.backoffSeconds != []
  {
    Shapes(w, s) && BatchTrue(w, s) && Budget(w, s) && DeathsExplained(w, s)
  }

  lemma FiringKeepsRows(w: World, s: State, step: Step)
    requires ValidConfig(w.config) && Enabled(w, s, step)
    ensures step.AlarmFires? ==> Next(w, s, step).rows == s.rows
  {
  }

  lemma RowsTrueKept(w: World, s: State, step: Step)
    requires ValidConfig(w.config) && Enabled(w, s, step) && Books(w, s) && Custody(w, s) && RowsTrue(w, s)
    ensures RowsTrue(w, Next(w, s, step))
  {
    var s' := Next(w, s, step);
    TableFootprint(w, s, step);
    RemovalFootprint(w, s, step);
    BucketFootprint(w, s, step);
    PassFootprint(w, s, step);
    SettleFootprint(w, s, step);
    SelectionsTaken(w, s, step);
    SelectionOrdered(w, s, step);
    FiringKeepsRows(w, s, step);
    ShapesKept(w, s, step, s');
    BatchTrueKept(w, s, step, s');
    BudgetKept(w, s, step, s');
    DeathsExplainedKept(w, s, step, s');
  }
}
