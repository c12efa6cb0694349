/**
 * How fast the queue moves for an overdue row: each pass takes ten rows from in front of it, less those
 * whose attempt threw. `ProtocolStarvation` says from this who starves.
 */
module ProtocolFairness {
  import opened Wrappers
  import opened InboxRows
  import opened Protocol
  import opened ProtocolMoves
  import opened ProtocolBooks
  import opened ProtocolShape
  import opened ProtocolTheorems
  import Backoff

  /** The ids of the pending rows that go before `r`. */
  function AheadOf(s: State, r: Row): set<Id> {
    set id | id in s.rows && s.rows[id].status == Pending && Ahead(s.rows[id], r)
  }

  /** `r` is pending and its time has come. */
  predicate Overdue(s: State, r: Row) {
    r.status == Pending && r.nextAttemptAt.Some? && r.nextAttemptAt.value < s.now
  }

  /** Nothing ever gets in front of an overdue row. */
  lemma AheadShrinks(w: World, s: State, step: Step, s': State, r: Row)
    requires ValidConfig(w.config) && Overdue(s, r) && RowsMove(w, s, step, s')
    ensures AheadOf(s', r) <= AheadOf(s, r)
  {
    forall id | id in AheadOf(s', r)
      ensures id in AheadOf(s, r)
    {
      assert RowMoves(w, s, step, s', id);
    }
  }

  /** A row once settled is no longer in front. */
  lemma SettledNotAhead(w: World, s: State, step: Step, s': State, r: Row)
    requires ValidConfig(w.config) && Overdue(s, r) && RowsMove(w, s, step, s') && BatchTrue(w, s)
    requires step.Settle? && Settling(s) && s'.rows == NextRows(w.config, s, step)
    ensures Current(s).id !in AheadOf(s', r)
  {
    assert StillAsPicked(w, s, s.pass.batch[s.pass.at]);
  }

  function Ids(batch: seq<Row>): set<Id> {
    set i | 0 <= i < |batch| :: batch[i].id
  }

  predicate DistinctIds(batch: seq<Row>) {
    forall i, j | 0 <= i < j < |batch| :: batch[i].id != batch[j].id
  }

  lemma {:induction false} IdsCount(batch: seq<Row>)
    requires DistinctIds(batch)
    ensures |Ids(batch)| == |batch|
  {
    if batch == [] {
    } else {
      var front, last := batch[..|batch| - 1], batch[|batch| - 1];
      IdsCount(front);
      assert forall i | 0 <= i < |front| :: batch[i] == front[i];
      assert Ids(batch) == Ids(front) + {last.id};
      assert last.id !in Ids(front);
    }
  }

  // ----- the measure ------------------------------------------------------------------------

  /** `r` is still queued just as it was. */
  predicate Untouched(s: State, r: Row) {
    r.id in s.rows && s.rows[r.id] == r
  }

  /** `r` has been attempted or removed; it can then never look as it did. */
  predicate Left(s: State, r: Row) {
    && r.id in s.h.queued
    && (r.id in s.rows ==>
          s.rows[r.id].status != Pending ||
          (s.rows[r.id].nextAttemptAt.Some? && r.nextAttemptAt.Some? &&
           s.rows[r.id].nextAttemptAt.value > r.nextAttemptAt.value))
  }

  /** What a pass with these throws takes from in front of a row, unless the row's own attempt threw. */
  function Share(thrown: set<Id>, id: Id): nat {
    if id in thrown || |thrown| > ALARM_BATCH then 0 else ALARM_BATCH - |thrown|
  }

  function Shares(passes: seq<set<Id>>, id: Id): nat {
    if passes == [] then 0 else Shares(passes[..|passes| - 1], id) + Share(passes[|passes| - 1], id)
  }

  /** The passes that have ended with no delivery fault since `s0`. */
  function Since(s0: State, s: State): seq<set<Id>>
    requires |s0.h.passes| <= |s.h.passes|
  {
    s.h.passes[|s0.h.passes|..]
  }

  /** In a pass that left the row alone, only rows in front of it were attempted at all. */
  predicate Confined(passes: seq<set<Id>>, id: Id, front: set<Id>) {
    forall i | 0 <= i < |passes| :: id in passes[i] || passes[i] <= front
  }

  /** A batch of ten rows in front, so many of them done: those that did not throw are out of the way. */
  predicate TakingTen(batch: seq<Row>, done: nat, thrown: set<Id>, front: set<Id>, ahead: set<Id>, budget: int)
    requires done <= |batch|
  {
    && |batch| == ALARM_BATCH && DistinctIds(batch) && Ids(batch) <= front
    && thrown <= Ids(batch[..done])
    && (Ids(batch[..done]) - thrown) * ahead == {}
    && |ahead + (Ids(batch) - thrown)| <= budget
  }

  /** A pass that has taken its share. */
  predicate TakenTen(thrown: set<Id>, front: set<Id>, ahead: set<Id>, budget: int) {
    thrown <= front && |thrown| <= ALARM_BATCH && |ahead| + ALARM_BATCH - |thrown| <= budget
  }

  /** What the running pass has already earned. */
  predicate PassProgress(s: State, r: Row, thrown: set<Id>, front: set<Id>, budget: int) {
    r.id in thrown ||
    match s.pass
    case Idle => true
    case Delivering(batch, at, _) =>
      || r.id in Ids(batch[Backoff.Min(at, |batch|)..])
      || TakingTen(batch, Backoff.Min(at, |batch|), thrown, front, AheadOf(s, r), budget)
    case _ => TakenTen(thrown, front, AheadOf(s, r), budget)
  }

  /** Every pass since `s0` has taken its share from in front of `r`. */
  predicate Waiting(s0: State, s: State, r: Row) {
    && Overdue(s, r) && Untouched(s, r)
    && |s0.h.passes| <= |s.h.passes|
    && AheadOf(s, r) <= AheadOf(s0, r)
    && Confined(Since(s0, s), r.id, AheadOf(s0, r))
    && var budget := |AheadOf(s0, r)| - Shares(Since(s0, s), r.id);
       && |AheadOf(s, r)| <= budget
       && (s.thrown.Some? ==> PassProgress(s, r, s.thrown.value, AheadOf(s0, r), budget))
  }

  // ----- one step ---------------------------------------------------------------------------

  ghost predicate ThrownMoves(s: State, step: Step, s': State) {
    && s'.thrown == (if step.AlarmFires? then if step.due == [] || !step.fault then Some({}) else None
                     else if step.DeliverThrows? && AtStage(s) && s.thrown.Some? then
                       Some(s.thrown.value + {Current(s).id})
                     else s.thrown)
    && s'.h.passes == (if step.Rearm? && s.thrown.Some? then s.h.passes + [s.thrown.value] else s.h.passes)
  }

  /** What an attempt of the pass, and its SELECT, do to the table. */
  ghost predicate AttemptMoves(w: World, s: State, step: Step, s': State)
    requires w.config.backoffSeconds != []
  {
    && (step.AlarmFires? ==> IsDueBatch(s.rows, s.now, ALARM_BATCH, step.due) && s'.rows == s.rows)
    && (step.Settle? ==> Settling(s) && s'.rows == NextRows(w.config, s, step))
  }

  lemma ThrownFootprint(w: World, s: State, step: Step)
    requires ValidConfig(w.config) && Enabled(w, s, step)
    ensures ThrownMoves(s, step, Next(w, s, step))
  {
  }

  lemma AttemptFootprint(w: World, s: State, step: Step)
    requires ValidConfig(w.config) && Enabled(w, s, step)
    ensures AttemptMoves(w, s, step, Next(w, s, step))
  {
  }

  /** A batch without `r` is ten rows in front of it. */
  lemma FiringTakesTen(s: State, due: seq<Row>, r: Row)
    requires IsDueBatch(s.rows, s.now, ALARM_BATCH, due)
    requires Overdue(s, r) && Untouched(s, r)
    ensures DistinctIds(due)
    ensures r.id in Ids(due) || (|due| == ALARM_BATCH && Ids(due) <= AheadOf(s, r))
  {
    forall i, j | 0 <= i < j < |due|
      ensures due[i].id != due[j].id
    {
      assert Ahead(due[i], due[j]);
    }
    if r in due {
      var i :| 0 <= i < |due| && due[i] == r;
      assert due[i].id in Ids(due);
    } else {
      assert Due(s.rows[r.id], s.now);
    }
  }

  lemma FiringStarts(s: State, step: Step, s': State, r: Row, front: set<Id>, budget: int)
    requires step.AlarmFires? && IsDueBatch(s.rows, s.now, ALARM_BATCH, step.due) && s'.rows == s.rows
    requires ThrownMoves(s, step, s') && PassMoves(s, step, s') && s'.thrown == Some({})
    requires Overdue(s, r) && Untouched(s, r) && Overdue(s', r)
    requires AheadOf(s, r) <= front && |AheadOf(s, r)| <= budget
    ensures PassProgress(s', r, {}, front, budget)
  {
    FiringTakesTen(s, step.due, r);
    assert AheadOf(s', r) == AheadOf(s, r);
    assert step.due[0..] == step.due && step.due[..0] == [];
    if r.id !in Ids(step.due) {
      assert AheadOf(s', r) + (Ids(step.due) - {}) == AheadOf(s', r);
    }
  }

  /** What is left of a batch after its first row. */
  lemma StillToCome(batch: seq<Row>, at: nat, id: Id)
    requires at < |batch| && batch[at].id != id && id in Ids(batch[at..])
    ensures id in Ids(batch[at + 1..])
  {
    var i :| 0 <= i < |batch[at..]| && batch[at..][i].id == id;
    assert batch[at..][i] == batch[at + i];
    assert batch[at + 1..][i - 1].id == id;
  }

  /** What is done of a batch after one row more. */
  lemma DoneOneMore(batch: seq<Row>, at: nat)
    requires at < |batch|
    ensures Ids(batch[..at + 1]) == Ids(batch[..at]) + {batch[at].id}
  {
    var next := batch[..at + 1];
    assert next == batch[..at] + [batch[at]];
    assert next[at] == batch[at] && forall i | 0 <= i < at :: next[i] == batch[..at][i];
  }

  /** A batch all done has taken its size, less the throws, off the budget. */
  lemma BatchEarned(batch: seq<Row>, thrown: set<Id>, front: set<Id>, ahead: set<Id>, budget: int)
    requires TakingTen(batch, |batch|, thrown, front, ahead, budget)
    ensures TakenTen(thrown, front, ahead, budget)
  {
    assert batch[..|batch|] == batch;
    var taken := Ids(batch) - thrown;
    IdsCount(batch);
    assert Ids(batch) == taken + thrown;
    DisjointSize(taken, thrown);
    DisjointSize(ahead, taken);
  }

  /** One row more is done, by a settle that takes it out of the way or by a throw. */
  lemma OneMoreDone(batch: seq<Row>, at: nat, thrown: set<Id>, thrown': set<Id>, front: set<Id>,
                    ahead: set<Id>, ahead': set<Id>, budget: int)
    requires at < |batch| && TakingTen(batch, at, thrown, front, ahead, budget)
    requires ahead' <= ahead
    requires (thrown' == thrown && batch[at].id !in ahead') || thrown' == thrown + {batch[at].id}
    ensures TakingTen(batch, at + 1, thrown', front, ahead', budget)
  {
    DoneOneMore(batch, at);
    SetSize(ahead' + (Ids(batch) - thrown'), ahead + (Ids(batch) - thrown));
  }

  /** Where a row stands with a batch of which so many are done: still to come, or behind all ten. */
  predicate InBatch(batch: seq<Row>, done: nat, id: Id, thrown: set<Id>, front: set<Id>, ahead: set<Id>, budget: int)
    requires done <= |batch|
  {
    if done < |batch| then id in Ids(batch[done..]) || TakingTen(batch, done, thrown, front, ahead, budget)
    else TakenTen(thrown, front, ahead, budget)
  }

  lemma StillToComeOrLast(batch: seq<Row>, at: nat, id: Id, thrown: set<Id>, front: set<Id>, ahead: set<Id>,
                          budget: int)
    requires at < |batch| && batch[at].id != id && id in Ids(batch[at..])
    ensures InBatch(batch, at + 1, id, thrown, front, ahead, budget)
  {
    StillToCome(batch, at, id);
  }

  lemma TakingOneMore(batch: seq<Row>, at: nat, id: Id, thrown: set<Id>, front: set<Id>, ahead: set<Id>, budget: int)
    requires at < |batch| && TakingTen(batch, at + 1, thrown, front, ahead, budget)
    ensures InBatch(batch, at + 1, id, thrown, front, ahead, budget)
  {
    if at + 1 == |batch| {
      BatchEarned(batch, thrown, front, ahead, budget);
    }
  }

  lemma ProgressIs(s: State, r: Row, thrown: set<Id>, front: set<Id>, budget: int)
    requires AtStage(s) && r.id !in thrown
    ensures PassProgress(s, r, thrown, front, budget) <==>
            InBatch(s.pass.batch, s.pass.at, r.id, thrown, front, AheadOf(s, r), budget)
  {
  }

  lemma AdvancedIs(s: State, s': State, r: Row, thrown: set<Id>, front: set<Id>, budget: int)
    requires AtStage(s) && s'.pass == Advance(s.pass)
    requires InBatch(s.pass.batch, s.pass.at + 1, r.id, thrown, front, AheadOf(s', r), budget)
    ensures PassProgress(s', r, thrown, front, budget)
  {
  }

  /** A settle that takes its row out of the way moves the pass on. */
  lemma SettleAdvances(s: State, s': State, r: Row, thrown: set<Id>, front: set<Id>, budget: int)
    requires AtStage(s) && s'.pass == Advance(s.pass)
    requires PassProgress(s, r, thrown, front, budget) && AheadOf(s', r) <= AheadOf(s, r)
    requires Current(s).id !in AheadOf(s', r) && Current(s).id != r.id
    ensures PassProgress(s', r, thrown, front, budget)
  {
    if r.id !in thrown {
      var batch, at, ahead' := s.pass.batch, s.pass.at, AheadOf(s', r);
      ProgressIs(s, r, thrown, front, budget);
      if r.id in Ids(batch[at..]) {
        StillToComeOrLast(batch, at, r.id, thrown, front, ahead', budget);
      } else {
        OneMoreDone(batch, at, thrown, thrown, front, AheadOf(s, r), ahead', budget);
        TakingOneMore(batch, at, r.id, thrown, front, ahead', budget);
      }
      AdvancedIs(s, s', r, thrown, front, budget);
    }
  }

  /** So does a throw, at the price of one row. */
  lemma ThrowAdvances(s: State, s': State, r: Row, thrown: set<Id>, front: set<Id>, budget: int)
    requires AtStage(s) && s'.pass == Advance(s.pass)
    requires PassProgress(s, r, thrown, front, budget) && AheadOf(s', r) <= AheadOf(s, r)
    ensures PassProgress(s', r, thrown + {Current(s).id}, front, budget)
  {
    var thrown' := thrown + {Current(s).id};
    if r.id !in thrown' {
      var batch, at, ahead' := s.pass.batch, s.pass.at, AheadOf(s', r);
      ProgressIs(s, r, thrown, front, budget);
      if r.id in Ids(batch[at..]) {
        StillToComeOrLast(batch, at, r.id, thrown', front, ahead', budget);
      } else {
        OneMoreDone(batch, at, thrown, thrown', front, AheadOf(s, r), ahead', budget);
        TakingOneMore(batch, at, r.id, thrown', front, ahead', budget);
      }
      AdvancedIs(s, s', r, thrown', front, budget);
    }
  }

  /** A settle changes the row it is for. */
  lemma SettleTouches(w: World, s: State, step: Step, s': State, r: Row)
    requires ValidConfig(w.config) && BatchTrue(w, s)
    requires step.Settle? && Settling(s) && s'.rows == NextRows(w.config, s, step)
    requires Untouched(s, r) && Untouched(s', r) && r.status == Pending
    ensures Current(s).id != r.id
  {
    assert StillAsPicked(w, s, s.pass.batch[s.pass.at]);
  }

  lemma {:induction false} SetSize(a: set<Id>, b: set<Id>)
    requires a <= b
    ensures |a| <= |b|
  {
    assert b == a + (b - a);
    DisjointSize(a, b - a);
  }

  lemma DisjointSize(a: set<Id>, b: set<Id>)
    requires a !! b
    ensures |a + b| == |a| + |b|
  {
  }

  lemma TakingTenKept(batch: seq<Row>, done: nat, thrown: set<Id>, front: set<Id>,
                      ahead: set<Id>, ahead': set<Id>, budget: int)
    requires done <= |batch| && TakingTen(batch, done, thrown, front, ahead, budget) && ahead' <= ahead
    ensures TakingTen(batch, done, thrown, front, ahead', budget)
  {
    SetSize(ahead' + (Ids(batch) - thrown), ahead + (Ids(batch) - thrown));
  }

  /** Any other step leaves the pass's progress standing. */
  lemma OtherStepsKeepProgress(s: State, step: Step, s': State, r: Row, thrown: set<Id>, front: set<Id>, budget: int)
    requires AheadOf(s', r) <= AheadOf(s, r) && PassMoves(s, step, s')
    requires !step.AlarmFires? && !step.Settle? && !step.DeliverThrows?
    requires PassProgress(s, r, thrown, front, budget) && s'.pass != Idle
    ensures PassProgress(s', r, thrown, front, budget)
  {
    SetSize(AheadOf(s', r), AheadOf(s, r));
    if s.pass.Delivering? && r.id !in thrown {
      var batch, done := s.pass.batch, Backoff.Min(s.pass.at, |s.pass.batch|);
      assert s'.pass.Delivering? && s'.pass.batch == batch && s'.pass.at == s.pass.at;
      if r.id !in Ids(batch[done..]) {
        TakingTenKept(batch, done, thrown, front, AheadOf(s, r), AheadOf(s', r), budget);
      }
    }
  }

  /** The running pass keeps what it has earned. */
  lemma ProgressKept(w: World, s: State, step: Step, s': State, r: Row, front: set<Id>, budget: int)
    requires ValidConfig(w.config) && BatchTrue(w, s) && RowsMove(w, s, step, s')
    requires AttemptMoves(w, s, step, s') && PassMoves(s, step, s') && ThrownMoves(s, step, s')
    requires Overdue(s, r) && Untouched(s, r) && Overdue(s', r) && Untouched(s', r)
    requires AheadOf(s', r) <= AheadOf(s, r) <= front && |AheadOf(s, r)| <= budget
    requires s.thrown.Some? ==> PassProgress(s, r, s.thrown.value, front, budget)
    requires s'.thrown.Some? && s'.pass != Idle
    ensures PassProgress(s', r, s'.thrown.value, front, budget)
  {
    if step.AlarmFires? {
      FiringStarts(s, step, s', r, front, budget);
    } else if step.Settle? {
      SettledNotAhead(w, s, step, s', r);
      SettleTouches(w, s, step, s', r);
      SettleAdvances(s, s', r, s.thrown.value, front, budget);
    } else if step.DeliverThrows? {
      ThrowAdvances(s, s', r, s.thrown.value, front, budget);
    } else {
      OtherStepsKeepProgress(s, step, s', r, s.thrown.value, front, budget);
    }
  }

  /** The books of ended passes after one more. */
  lemma SinceOneMore(s0: State, s: State, s': State, thrown: set<Id>)
    requires |s0.h.passes| <= |s.h.passes| && s'.h.passes == s.h.passes + [thrown]
    ensures Since(s0, s') == Since(s0, s) + [thrown]
    ensures forall id :: Shares(Since(s0, s'), id) == Shares(Since(s0, s), id) + Share(thrown, id)
  {
    var next := Since(s0, s) + [thrown];
    assert next[..|next| - 1] == Since(s0, s);
  }

  /** At the end of a pass its share goes on the books. */
  lemma PassEnds(s0: State, s: State, step: Step, s': State, r: Row)
    requires Waiting(s0, s, r) && step.Rearm? && ThrownMoves(s, step, s') && PassMoves(s, step, s')
    requires s.thrown.Some? && AheadOf(s', r) <= AheadOf(s, r)
    requires Overdue(s', r) && Untouched(s', r)
    ensures Waiting(s0, s', r)
  {
    SinceOneMore(s0, s, s', s.thrown.value);
    SetSize(AheadOf(s', r), AheadOf(s, r));
  }

  /** Any other step leaves the books as they are. */
  lemma PassGoesOn(w: World, s0: State, s: State, step: Step, s': State, r: Row)
    requires ValidConfig(w.config) && BatchTrue(w, s) && RowsMove(w, s, step, s')
    requires AttemptMoves(w, s, step, s') && PassMoves(s, step, s') && ThrownMoves(s, step, s')
    requires !(step.Rearm? && s.thrown.Some?) && AheadOf(s', r) <= AheadOf(s, r)
    requires Waiting(s0, s, r) && Overdue(s', r) && Untouched(s', r)
    ensures Waiting(s0, s', r)
  {
    assert s'.h.passes == s.h.passes;
    if s'.thrown.Some? && s'.pass != Idle {
      ProgressKept(w, s, step, s', r, AheadOf(s0, r), |AheadOf(s0, r)| - Shares(Since(s0, s), r.id));
    }
    StillWaiting(s0, s, s', r);
  }

  lemma StillWaiting(s0: State, s: State, s': State, r: Row)
    requires Waiting(s0, s, r) && Overdue(s', r) && Untouched(s', r)
    requires s'.h.passes == s.h.passes && AheadOf(s', r) <= AheadOf(s, r)
    requires s'.thrown.Some? ==>
               PassProgress(s', r, s'.thrown.value, AheadOf(s0, r), |AheadOf(s0, r)| - Shares(Since(s0, s), r.id))
    ensures Waiting(s0, s', r)
  {
    SetSize(AheadOf(s', r), AheadOf(s, r));
  }

  /** One step, from its footprints, keeps the row's claim on the passes to come. */
  lemma WaitingKept(w: World, s0: State, s: State, step: Step, s': State, r: Row)
    requires ValidConfig(w.config) && BatchTrue(w, s) && RowsMove(w, s, step, s') && ClockMoves(s, step, s')
    requires AttemptMoves(w, s, step, s') && PassMoves(s, step, s') && ThrownMoves(s, step, s')
    requires AheadOf(s', r) <= AheadOf(s, r)
    requires Waiting(s0, s, r) && Untouched(s', r)
    ensures Waiting(s0, s', r)
  {
    if step.Rearm? && s.thrown.Some? {
      PassEnds(s0, s, step, s', r);
    } else {
      PassGoesOn(w, s0, s, step, s', r);
    }
  }

  // ----- whole runs -------------------------------------------------------------------------

  lemma SameRowStays(s: State, s': State, r: Row)
    requires Untouched(s, r) || Left(s, r)
    requires SameRow(s, s', r.id) && s.h.queued <= s'.h.queued
    ensures Untouched(s', r) || Left(s', r)
    ensures Untouched(s', r) ==> Untouched(s, r)
  {
  }

  lemma GoneHasLeft(s': State, r: Row)
    requires r.id in s'.h.queued && r.id !in s'.rows
    ensures Left(s', r) && !Untouched(s', r)
  {
  }

  lemma RequeuedHasLeft(s: State, step: Step, s': State, r: Row)
    requires Overdue(s, r) && Left(s, r) && Requeues(s, step, s', r.id) && r.id in s'.h.queued
    ensures Left(s', r) && !Untouched(s', r)
  {
  }

  lemma SettledHasLeft(w: World, s: State, step: Step, s': State, r: Row)
    requires ValidConfig(w.config) && Overdue(s, r)
    requires Settles(w, s, step, s', r.id) && r.id in s'.h.queued
    ensures Left(s', r) && !Untouched(s', r)
  {
  }

  /** A pending row leaves its place only by its own attempt or by a removal, and for good. */
  lemma UntouchedOrLeft(w: World, s: State, step: Step, s': State, r: Row)
    requires ValidConfig(w.config) && IdsFiled(s) && RowMoves(w, s, step, s', r.id) && QueuedMoves(s, step, s')
    requires Overdue(s, r) && (Untouched(s, r) || Left(s, r))
    ensures Untouched(s', r) || Left(s', r)
    ensures Untouched(s', r) ==> Untouched(s, r)
  {
    assert r.id in s.h.queued;
    if SameRow(s, s', r.id) {
      SameRowStays(s, s', r);
    } else if r.id !in s'.rows {
      GoneHasLeft(s', r);
    } else if Requeues(s, step, s', r.id) {
      RequeuedHasLeft(s, step, s', r);
    } else if Settles(w, s, step, s', r.id) {
      SettledHasLeft(w, s, step, s', r);
    } else {
      assert false;
    }
  }

  /** How a row that was overdue at `s0` stands later. */
  predicate Standing(s0: State, t: State, r: Row) {
    && Overdue(t, r)
    && AheadOf(t, r) <= AheadOf(s0, r)
    && |s0.h.passes| <= |t.h.passes|
    && (Untouched(t, r) || Left(t, r))
    && (Untouched(t, r) ==> Waiting(s0, t, r))
  }

  /** The parts of the invariant that matter here. */
  lemma ReachableGives(w: World, s: State)
    requires ValidConfig(w.config) && Reachable(w, s)
    ensures IdsFiled(s) && RowsFiled(w, s) && BatchTrue(w, s) && Shapes(w, s)
  {
    ReachableInv(w, s);
  }

  lemma {:induction false} WaitingAlongRun(w: World, s0: State, r: Row, steps: seq<Step>)
    requires ValidConfig(w.config) && Reachable(w, s0) && s0.pass == Idle
    requires Overdue(s0, r) && Untouched(s0, r)
    requires Run(w, s0, steps).Some?
    ensures Standing(s0, Run(w, s0, steps).value, r)
  {
    if steps == [] {
      assert Since(s0, s0) == [];
    } else {
      var front, step := steps[..|steps| - 1], steps[|steps| - 1];
      WaitingAlongRun(w, s0, r, front);
      LaterReachable(w, s0, front);
      WaitingStep(w, s0, Run(w, s0, front).value, step, r);
    }
  }

  lemma WaitingStep(w: World, s0: State, s: State, step: Step, r: Row)
    requires ValidConfig(w.config) && Reachable(w, s) && Enabled(w, s, step)
    requires Standing(s0, s, r)
    ensures Standing(s0, Next(w, s, step), r)
  {
    var s' := Next(w, s, step);
    ReachableGives(w, s);
    TableFootprint(w, s, step);
    EndsFootprint(w, s, step);
    BucketFootprint(w, s, step);
    PassFootprint(w, s, step);
    ThrownFootprint(w, s, step);
    AttemptFootprint(w, s, step);
    StandingKept(w, s0, s, step, s', r);
  }

  lemma StandingKept(w: World, s0: State, s: State, step: Step, s': State, r: Row)
    requires ValidConfig(w.config) && IdsFiled(s) && BatchTrue(w, s)
    requires RowsMove(w, s, step, s') && ClockMoves(s, step, s') && QueuedMoves(s, step, s')
    requires AttemptMoves(w, s, step, s') && PassMoves(s, step, s') && ThrownMoves(s, step, s')
    requires Standing(s0, s, r)
    ensures Standing(s0, s', r)
  {
    AheadShrinks(w, s, step, s', r);
    assert RowMoves(w, s, step, s', r.id);
    UntouchedOrLeft(w, s, step, s', r);
    if Untouched(s', r) {
      WaitingKept(w, s0, s, step, s', r);
    }
  }

  /**
   * From any moment between passes, the rows in front of an overdue row only ever get fewer, and every
   * pass that ends with no delivery fault and leaves it waiting takes ten of them away, less those
   * whose attempt threw. Only rows in front of it can be among the latter, unless its own attempt threw.
   */
  lemma EveryPassTakesItsShare(w: World, s0: State, id: Id, steps: seq<Step>)
    requires ValidConfig(w.config) && Reachable(w, s0) && s0.pass == Idle
    requires id in s0.rows && Overdue(s0, s0.rows[id])
    requires Run(w, s0, steps).Some?
    ensures
      var t, r := Run(w, s0, steps).value, s0.rows[id];
      && |s0.h.passes| <= |t.h.passes|
      && AheadOf(t, r) <= AheadOf(s0, r)
      && (Untouched(t, r) || Left(t, r))
      && (Untouched(t, r) ==>
            && |AheadOf(t, r)| + Shares(Since(s0, t), id) <= |AheadOf(s0, r)|
            && Confined(Since(s0, t), id, AheadOf(s0, r)))
  {
    ReachableGives(w, s0);
    WaitingAlongRun(w, s0, s0.rows[id], steps);
  }
}
