/**
 * What one step can do to each part of the state. The invariants are proved from these footprints, so
 * that no proof has to look at all the guards and effects at once.
 */
module ProtocolMoves {
  import opened Wrappers
  import opened InboxRows
  import opened Protocol

  // ----- the table --------------------------------------------------------------------------

  predicate SameRow(s: State, s': State, id: Id) {
    (id in s.rows <==> id in s'.rows) && (id in s.rows ==> s'.rows[id] == s.rows[id])
  }

  predicate Inserts(w: World, s: State, step: Step, s': State, id: Id) {
    && step.EmailEnqueue? && step.id == id && id in s.emails && s.emails[id] == Queueing && id in s.h.mail
    && id !in s.rows && id in s'.rows
    && s'.rows[id] == NewRow(InputOf(w.config, id, s.h.mail[id], s.now),
                             s.now + Delay(if step.configOk then Some(w.config) else None))
  }

  predicate Requeues(s: State, step: Step, s': State, id: Id) {
    && id in s.rows && s.rows[id].status != Pending
    && ((step.RetryOne? && step.id == id) || (step.RetryParked? && step.parked == s.rows[id].status))
    && id in s'.rows && s'.rows[id] == Requeued(s.rows[id], s.now)
  }

  predicate Settles(w: World, s: State, step: Step, s': State, id: Id) {
    && w.config.backoffSeconds != []
    && step.Settle? && AtStage(s) && (s.pass.stage.Missing? || s.pass.stage.Answered?)
    && Current(s).id == id && id in s.rows && s.rows[id].status == Pending
    && id in s'.rows
    && s'.rows[id] == Settled(w.config, s.rows[id], Current(s).attempts + 1,
                              StageEnding(s.pass.stage, step.text, step.thread), s.now)
  }

  predicate RemovedBy(s: State, step: Step, s': State, id: Id) {
    && step.RemoveRow? && step.call in s.removes && s.removes[step.call].erased && s.removes[step.call].id == id
    && id in s.rows && id !in s'.rows
  }

  predicate PurgedBy(s: State, step: Step, s': State, id: Id) {
    && step.PurgeRowsStep? && s.pass.Purged? && Named(s.pass.doomed, id)
    && id in s.rows && s.rows[id].purgeAt.Some? && id !in s'.rows
  }

  predicate RowMoves(w: World, s: State, step: Step, s': State, id: Id) {
    || SameRow(s, s', id)
    || Inserts(w, s, step, s', id)
    || Requeues(s, step, s', id)
    || Settles(w, s, step, s', id)
    || RemovedBy(s, step, s', id)
    || PurgedBy(s, step, s', id)
  }

  ghost predicate RowsMove(w: World, s: State, step: Step, s': State) {
    forall id: Id :: RowMoves(w, s, step, s', id)
  }

  /** The steps that write to the table. */
  predicate WritesRows(step: Step) {
    step.EmailEnqueue? || step.RetryOne? || step.RetryParked? || step.RemoveRow? || step.Settle? || step.PurgeRowsStep?
  }

  lemma OtherStepsKeepRows(w: World, s: State, step: Step)
    requires ValidConfig(w.config) && Enabled(w, s, step) && !WritesRows(step)
    ensures Next(w, s, step).rows == s.rows
  {
  }

  /** Every way a row can change: nothing else in the protocol touches the table. */
  lemma RowChange(w: World, s: State, step: Step, id: Id)
    requires ValidConfig(w.config) && Enabled(w, s, step)
    ensures RowMoves(w, s, step, Next(w, s, step), id)
  {
    if !WritesRows(step) {
      OtherStepsKeepRows(w, s, step);
    }
  }

  // ----- calls in flight --------------------------------------------------------------------

  predicate MailMoves(s: State, step: Step, s': State) {
    if step.EmailStart? then
      && step.id !in s.h.mail && Admissible(step.mail)
      && s'.h.mail == s.h.mail[step.id := step.mail]
    else s'.h.mail == s.h.mail
  }

  predicate EmailsMove(s: State, step: Step, s': State) {
    match step
    case EmailStart(id, mail) => id !in s.h.mail && s'.emails == s.emails[id := Storing]
    case EmailPut(id, took, threw) =>
      && id in s.emails && s.emails[id] == Storing && (threw || took)
      && s'.emails == if threw then s.emails - {id} else s.emails[id := Queueing]
    case EmailEnqueue(id, _, _) => id in s.emails && s.emails[id] == Queueing && s'.emails == s.emails - {id}
    case EmailLost(id) => id in s.emails && s'.emails == s.emails - {id}
    case _ => s'.emails == s.emails
  }

  predicate RemovesMove(s: State, step: Step, s': State) {
    match step
    case RemoveStart(call, id) =>
      id in s.rows && call !in s.removes && s'.removes == s.removes[call := Removal(id, s.rows[id].r2Key, false)]
    case RemoveErase(call, took, threw) =>
      && call in s.removes && !s.removes[call].erased && (threw || took)
      && s'.removes == if threw then s.removes - {call} else s.removes[call := s.removes[call].(erased := true)]
    case RemoveRow(call) => call in s.removes && s.removes[call].erased && s'.removes == s.removes - {call}
    case Evict(_) => s'.removes == map[]
    case _ => s'.removes == s.removes
  }

  // ----- the bucket -------------------------------------------------------------------------

  predicate BucketMoves(w: World, s: State, step: Step, s': State) {
    match step
    case EmailPut(id, took, threw) =>
      && id in s.emails && s.emails[id] == Storing && id in s.h.mail && (threw || took)
      && s'.bucket == if took then s.bucket[KeyOf(w.config, id) := s.h.mail[id].stored] else s.bucket
    case RemoveErase(call, took, threw) =>
      call in s.removes && s'.bucket == if took then s.bucket - {s.removes[call].key} else s.bucket
    case PurgeErase(gone, threw) =>
      && s.pass.Purging? && gone <= DoomedKeys(s.pass.doomed) && (threw || gone == DoomedKeys(s.pass.doomed))
      && s'.bucket == s.bucket - gone
    case _ => s'.bucket == s.bucket
  }

  // ----- the pass ---------------------------------------------------------------------------

  predicate PassMoves(s: State, step: Step, s': State) {
    match step
    case AlarmFires(due, fault) =>
      s.pass == Idle && s'.pass == if due != [] && !fault then Delivering(due, 0, Fetching) else Sweeping
    case GetObject =>
      && AtStage(s) && s.pass.stage == Fetching
      && s'.pass == Delivering(s.pass.batch, s.pass.at,
           if Current(s).r2Key in s.bucket then Reading(s.bucket[Current(s).r2Key]) else Missing)
    case Post(req) =>
      && AtStage(s) && s.pass.stage.Reading? && s'.pass == Delivering(s.pass.batch, s.pass.at, Posted(req))
    case Response(status) =>
      && AtStage(s) && s.pass.stage.Posted? && s'.pass == Delivering(s.pass.batch, s.pass.at, Answered(status))
    case Settle(_, _) => AtStage(s) && (s.pass.stage.Missing? || s.pass.stage.Answered?) && s'.pass == Advance(s.pass)
    case DeliverThrows => AtStage(s) && s'.pass == Advance(s.pass)
    case PurgeSelect(doomed, fault) =>
      s.pass == Sweeping && s'.pass == if fault || doomed == [] then Rearming else Purging(doomed)
    case PurgeErase(gone, threw) =>
      s.pass.Purging? && s'.pass == if threw then Rearming else Purged(s.pass.doomed)
    case PurgeRowsStep => s.pass.Purged? && s'.pass == Rearming
    case Rearm(_) => s.pass == Rearming && s'.pass == Idle
    case Evict(_) => s'.pass == Idle
    case _ => s'.pass == s.pass
  }

  // ----- the history ------------------------------------------------------------------------

  predicate QueuedMoves(s: State, step: Step, s': State) {
    s'.h.queued == if step.EmailEnqueue? then s.h.queued + {step.id} else s.h.queued
  }

  predicate EndsMove(s: State, step: Step, s': State) {
    match step
    case EmailPut(id, _, threw) =>
      s'.h.accepted == s.h.accepted && s'.h.failed == if threw then s.h.failed + {id} else s.h.failed
    case EmailEnqueue(id, _, replied) =>
      && s'.h.accepted == (if replied then s.h.accepted + {id} else s.h.accepted)
      && s'.h.failed == if replied then s.h.failed else s.h.failed + {id}
    case EmailLost(id) => s'.h.accepted == s.h.accepted && s'.h.failed == s.h.failed + {id}
    case _ => s'.h.accepted == s.h.accepted && s'.h.failed == s.h.failed
  }

  predicate RemovalsMove(s: State, step: Step, s': State) {
    match step
    case RemoveStart(_, id) => id in s.rows && s'.h.asked == s.h.asked + {id} && s'.h.erased == s.h.erased
    case RemoveErase(call, took, _) =>
      && call in s.removes && s'.h.asked == s.h.asked
      && s'.h.erased == if took then s.h.erased + {s.removes[call].id} else s.h.erased
    case _ => s'.h.asked == s.h.asked && s'.h.erased == s.h.erased
  }

  predicate DeliveredMoves(s: State, step: Step, s': State) {
    s'.h.delivered == if DeliversCurrent(s, step) then s.h.delivered + {Current(s).id} else s.h.delivered
  }

  predicate FirstMoves(s: State, step: Step, s': State) {
    s'.h.first == if SettlesFirst(s, step) then s.h.first[Current(s).id := s.now] else s.h.first
  }

  predicate ClockMoves(s: State, step: Step, s': State) {
    s.now <= s'.now && (!step.Tick? ==> s'.now == s.now)
  }

  // ----- all of it --------------------------------------------------------------------------

  lemma EmailFootprint(w: World, s: State, step: Step)
    requires ValidConfig(w.config) && Enabled(w, s, step)
    ensures MailMoves(s, step, Next(w, s, step)) && EmailsMove(s, step, Next(w, s, step))
  {
  }

  lemma RemovalFootprint(w: World, s: State, step: Step)
    requires ValidConfig(w.config) && Enabled(w, s, step)
    ensures RemovesMove(s, step, Next(w, s, step)) && RemovalsMove(s, step, Next(w, s, step))
  {
  }

  lemma BucketFootprint(w: World, s: State, step: Step)
    requires ValidConfig(w.config) && Enabled(w, s, step)
    ensures BucketMoves(w, s, step, Next(w, s, step)) && ClockMoves(s, step, Next(w, s, step))
  {
  }

  lemma PassFootprint(w: World, s: State, step: Step)
    requires ValidConfig(w.config) && Enabled(w, s, step)
    ensures PassMoves(s, step, Next(w, s, step))
  {
  }

  lemma EndsFootprint(w: World, s: State, step: Step)
    requires ValidConfig(w.config) && Enabled(w, s, step)
    ensures QueuedMoves(s, step, Next(w, s, step)) && EndsMove(s, step, Next(w, s, step))
  {
  }

  lemma SettleFootprint(w: World, s: State, step: Step)
    requires ValidConfig(w.config) && Enabled(w, s, step)
    ensures DeliveredMoves(s, step, Next(w, s, step)) && FirstMoves(s, step, Next(w, s, step))
  {
  }

  lemma TableFootprint(w: World, s: State, step: Step)
    requires ValidConfig(w.config) && Enabled(w, s, step)
    ensures RowsMove(w, s, step, Next(w, s, step))
  {
    forall id: Id
      ensures RowMoves(w, s, step, Next(w, s, step), id)
    {
      RowChange(w, s, step, id);
    }
  }
}
