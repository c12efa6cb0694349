/** What an operator's retry comes to, at once and over the run that follows. */
module ProtocolRequeue {
  import opened Wrappers
  import opened InboxColumns
  import opened InboxRows
  import opened Protocol
  import opened ProtocolMoves
  import opened ProtocolTheorems

  /** An operator's retry that is for the row: of it alone, or of all rows parked like it. */
  predicate Retries(s: State, step: Step, id: Id) {
    && id in s.rows && s.rows[id].status != Pending
    && (step == RetryOne(id) || step == RetryParked(s.rows[id].status))
  }

  /**
   * Whatever it was parked for, a retried row is back on the queue with no attempt charged, its turn has
   * come, and the alarm is due for it. The rows the retry is not for stay as they are.
   */
  lemma RetriedIsReady(w: World, s: State, step: Step, id: Id)
    requires ValidConfig(w.config) && Enabled(w, s, step) && Retries(s, step, id)
    ensures
      var t := Next(w, s, step);
      && t.rows.Keys == s.rows.Keys && t.now == s.now
      && BackOnQueue(s.rows[id], s.now, t.rows[id]) && Ready(t.rows[id], t.now)
      && t.alarm.Some? && t.alarm.value <= t.now
      && forall k | k in s.rows && !Retries(s, step, k) :: t.rows[k] == s.rows[k]
  {
    assert step.RetryParked? ==> AnyIn(s.rows, step.parked);
  }

  /** The step settles an attempt on the row, or deletes it for an operator's removal. */
  predicate Serves(s: State, step: Step, id: Id) {
    || (step.Settle? && AtStage(s) && Current(s).id == id)
    || (step.RemoveRow? && step.call in s.removes && s.removes[step.call].id == id)
  }

  /** No step of the run does. */
  ghost predicate Unserved(w: World, s: State, steps: seq<Step>, id: Id)
    requires ValidConfig(w.config) && Run(w, s, steps).Some?
  {
    steps != [] ==>
      && Unserved(w, s, steps[..|steps| - 1], id)
      && !Serves(Run(w, s, steps[..|steps| - 1]).value, steps[|steps| - 1], id)
  }

  lemma UnservedRowStays(w: World, s: State, step: Step, s': State, id: Id)
    requires RowMoves(w, s, step, s', id) && !Serves(s, step, id)
    requires id in s.rows && s.rows[id].status == Pending && s.rows[id].purgeAt == None
    ensures id in s'.rows && s'.rows[id] == s.rows[id]
  {
  }

  lemma {:induction false} UnservedStays(w: World, s: State, steps: seq<Step>, id: Id)
    requires ValidConfig(w.config) && Run(w, s, steps).Some? && Unserved(w, s, steps, id)
    requires id in s.rows && s.rows[id].status == Pending && s.rows[id].purgeAt == None
    ensures id in Run(w, s, steps).value.rows && Run(w, s, steps).value.rows[id] == s.rows[id]
  {
    if steps == [] {
    } else {
      var front, step := steps[..|steps| - 1], steps[|steps| - 1];
      UnservedStays(w, s, front, id);
      RowChange(w, Run(w, s, front).value, step, id);
      UnservedRowStays(w, Run(w, s, front).value, step, Run(w, s, steps).value, id);
    }
  }

  /**
   * Over the run that follows a retry, whatever else is queued, settled or purged, the row stays as the
   * retry left it until an attempt on it is settled or an operator removes it. Its turn has come all that
   * time, and between passes an alarm is armed for it: for the retry itself at the latest, or for the rerun of
   * the last pass that failed.
   */
  lemma RetriedWaits(w: World, s: State, step: Step, id: Id, steps: seq<Step>)
    requires ValidConfig(w.config) && Reachable(w, s) && Enabled(w, s, step) && Retries(s, step, id)
    requires Run(w, Next(w, s, step), steps).Some? && Unserved(w, Next(w, s, step), steps, id)
    ensures
      var t := Run(w, Next(w, s, step), steps).value;
      && id in t.rows && BackOnQueue(s.rows[id], s.now, t.rows[id]) && Ready(t.rows[id], t.now)
      && (t.pass == Idle ==> t.alarm.Some? && (t.alarm.value <= s.now || t.alarm.value <= t.h.grace))
  {
    var s1 := Next(w, s, step);
    var t := Run(w, s1, steps).value;
    RetriedIsReady(w, s, step, id);
    UnservedStays(w, s1, steps, id);
    StepReachable(w, s, step);
    LaterReachable(w, s1, steps);
    RunKeepsPromises(w, s1, steps);
    if t.pass == Idle {
      WorkIsCovered(w, t, id);
    }
  }

  lemma StepReachable(w: World, s: State, step: Step)
    requires ValidConfig(w.config) && Reachable(w, s) && Enabled(w, s, step)
    ensures Reachable(w, Next(w, s, step))
  {
    LeadsNowhere(w, s);
    LeadsOn(w, s, s, step);
    LeadsReachable(w, s, Next(w, s, step));
  }
}
