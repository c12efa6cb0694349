/** Whatever is left to do is covered by an armed alarm. */
module ProtocolAlarm {
  import opened Wrappers
  import opened InboxRows
  import opened Protocol
  import opened ProtocolMoves
  import Backoff

  /** The row's next wake-up is covered: no later than itself, or than the rerun of a failed pass. */
  predicate RowCovered(s: State, row: Row) {
    Wake(row).Some? ==> s.alarm.Some? && s.alarm.value <= Backoff.Max(Wake(row).value, s.h.grace)
  }

  /** Whenever no pass is running, the alarm covers every row. */
  predicate AlarmCovers(s: State) {
    s.pass == Idle ==> forall id | id in s.rows :: RowCovered(s, s.rows[id])
  }

  /** A new or requeued row is armed for by the step that makes it so. */
  predicate ArmsFor(s: State, step: Step, s': State) {
    match step
    case Rearm(next) => s'.alarm == (if s.healthy then next else Some(s'.h.grace))
    case Evict(again) =>
      if s.pass == Idle then s'.alarm == s.alarm && s'.h.grace == s.h.grace else s'.alarm == Some(s'.h.grace)
    case AlarmFires(_, _) => true
    case _ =>
      && s'.h.grace == s.h.grace
      && (s.alarm.Some? ==> s'.alarm.Some? && s'.alarm.value <= s.alarm.value)
  }

  lemma AlarmFootprint(w: World, s: State, step: Step)
    requires ValidConfig(w.config) && Enabled(w, s, step)
    ensures ArmsFor(s, step, Next(w, s, step))
  {
  }

  /** The alarm covers a row the step has just queued. */
  lemma QueueingArms(w: World, s: State, step: Step, id: Id)
    requires ValidConfig(w.config) && Enabled(w, s, step)
    requires Inserts(w, s, step, Next(w, s, step), id) || Requeues(s, step, Next(w, s, step), id)
    ensures var s' := Next(w, s, step); id in s'.rows && RowCovered(s', s'.rows[id])
  {
  }

  predicate RearmsEarliest(s: State, step: Step) {
    step.Rearm? && s.healthy ==> forall id | id in s.rows && Wake(s.rows[id]).Some? ::
      step.next.Some? && step.next.value <= Wake(s.rows[id]).value
  }

  lemma RearmFootprint(w: World, s: State, step: Step)
    requires ValidConfig(w.config) && Enabled(w, s, step)
    ensures RearmsEarliest(s, step)
    ensures step.Rearm? || step.Evict? ==> Next(w, s, step).rows == s.rows
  {
  }

  lemma OldRowCovered(s: State, step: Step, s': State, id: Id)
    requires s'.pass == Idle && AlarmCovers(s)
    requires PassMoves(s, step, s') && ArmsFor(s, step, s') && RearmsEarliest(s, step)
    requires id in s.rows && id in s'.rows && s'.rows[id] == s.rows[id]
    ensures RowCovered(s', s'.rows[id])
  {
  }

  lemma AlarmCoversKept(w: World, s: State, step: Step)
    requires ValidConfig(w.config) && Enabled(w, s, step) && AlarmCovers(s)
    ensures AlarmCovers(Next(w, s, step))
  {
    var s' := Next(w, s, step);
    PassFootprint(w, s, step);
    AlarmFootprint(w, s, step);
    RearmFootprint(w, s, step);
    if s'.pass == Idle {
      forall id | id in s'.rows
        ensures RowCovered(s', s'.rows[id])
      {
        RowChange(w, s, step, id);
        if Inserts(w, s, step, s', id) || Requeues(s, step, s', id) {
          QueueingArms(w, s, step, id);
        } else {
          OldRowCovered(s, step, s', id);
        }
      }
    }
  }

  // ----- when the pass comes straight back --------------------------------------------------

  /** The row has something to do already. */
  predicate Calls(row: Row, now: int) {
    Due(row, now) || Expired(row, now)
  }

  /**
   * The alarm set at the end of a pass that did not fail lies in the future, or is cleared, exactly when
   * no row is left that is due or expired; with one left the pass comes straight back.
   */
  lemma ComesStraightBackIff(w: World, s: State, next: Option<int>)
    requires ValidConfig(w.config) && Enabled(w, s, Rearm(next)) && s.healthy
    ensures var t := Next(w, s, Rearm(next));
            t.alarm.Some? && t.alarm.value <= t.now <==> exists id :: id in s.rows && Calls(s.rows[id], s.now)
  {
    if next.Some? && next.value <= s.now {
      var id :| id in s.rows && Wake(s.rows[id]) == next;
      assert Calls(s.rows[id], s.now);
    }
    if id :| id in s.rows && Calls(s.rows[id], s.now) {
      assert Wake(s.rows[id]).Some? && Wake(s.rows[id]).value <= s.now;
    }
  }
}
