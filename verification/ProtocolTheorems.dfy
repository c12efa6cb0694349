/** What holds of every run of the inbound protocol. */
module ProtocolTheorems {
  import opened Wrappers
  import opened InboxRows
  import opened Protocol
  import opened ProtocolMoves
  import opened ProtocolBooks
  import opened ProtocolCustody
  import opened ProtocolShape
  import opened ProtocolAlarm
  import opened ProtocolWire
  import Backoff
  import OdooController
  import Percent

  ghost predicate Inv(w: World, s: State)
    requires w.config.backoffSeconds != []
  {
    Books(w, s) && Custody(w, s) && RowsTrue(w, s) && AlarmCovers(s) && Wire(w, s)
  }

  lemma InitialInv(w: World, s: State)
    requires ValidConfig(w.config) && Initial(s)
    ensures Inv(w, s)
  {
  }

  /** Every step of the protocol keeps the invariant. */
  lemma InvKept(w: World, s: State, step: Step)
    requires ValidConfig(w.config) && Enabled(w, s, step) && Inv(w, s)
    ensures Inv(w, Next(w, s, step))
  {
    BooksKept(w, s, step);
    CustodyKept(w, s, step);
    RowsTrueKept(w, s, step);
    AlarmCoversKept(w, s, step);
    WireKept(w, s, step);
  }

  lemma {:induction false} RunKeepsInv(w: World, s: State, steps: seq<Step>)
    requires ValidConfig(w.config) && Inv(w, s)
    requires Run(w, s, steps).Some?
    ensures Inv(w, Run(w, s, steps).value)
  {
    if steps == [] {
    } else {
      var front, step := steps[..|steps| - 1], steps[|steps| - 1];
      RunKeepsInv(w, s, front);
      InvKept(w, Run(w, s, front).value, step);
    }
  }

  lemma ReachableInv(w: World, s: State)
    requires ValidConfig(w.config) && Reachable(w, s)
    ensures Inv(w, s)
  {
    var s0, steps :| Initial(s0) && Run(w, s0, steps) == Some(s);
    InitialInv(w, s0);
    RunKeepsInv(w, s0, steps);
  }

  // ----- no message is lost -----------------------------------------------------------------

  /** The row and, octet for octet, the stored message. */
  predicate InCustody(w: World, s: State, id: Id) {
    && id in s.rows && id in s.h.mail
    && KeyOf(w.config, id) in s.bucket && s.bucket[KeyOf(w.config, id)] == s.h.mail[id].stored
  }

  /**
   * No loss over any interleaving: a message `handleEmail` accepted is in custody until it is delivered
   * or a removal an operator asked for has erased its object. Asking alone ends nothing.
   */
  lemma NoMessageLost(w: World, s: State, id: Id)
    requires ValidConfig(w.config) && Reachable(w, s)
    requires id in s.h.accepted
    ensures InCustody(w, s, id) || id in s.h.delivered || (id in s.h.erased && id in s.h.asked)
  {
    ReachableInv(w, s);
    assert id in s.h.queued;
  }

  /** The promises made so far. */
  predicate Promised(s: State, t: State) {
    && s.h.accepted <= t.h.accepted && s.h.delivered <= t.h.delivered && s.h.erased <= t.h.erased
    && s.h.mail.Keys <= t.h.mail.Keys && (forall id | id in s.h.mail :: t.h.mail[id] == s.h.mail[id])
    && s.now <= t.now
  }

  lemma StepKeepsPromises(w: World, s: State, step: Step)
    requires ValidConfig(w.config) && Enabled(w, s, step)
    ensures Promised(s, Next(w, s, step))
  {
    EmailFootprint(w, s, step);
    EndsFootprint(w, s, step);
    SettleFootprint(w, s, step);
    RemovalFootprint(w, s, step);
    BucketFootprint(w, s, step);
  }

  lemma {:induction false} RunKeepsPromises(w: World, s: State, steps: seq<Step>)
    requires ValidConfig(w.config) && Run(w, s, steps).Some?
    ensures Promised(s, Run(w, s, steps).value)
  {
    if steps == [] {
    } else {
      var front, step := steps[..|steps| - 1], steps[|steps| - 1];
      RunKeepsPromises(w, s, front);
      StepKeepsPromises(w, Run(w, s, front).value, step);
    }
  }

  lemma {:induction false} RunsJoin(w: World, s: State, first: seq<Step>, then': seq<Step>)
    requires ValidConfig(w.config) && Run(w, s, first).Some?
    ensures Run(w, s, first + then') == Run(w, Run(w, s, first).value, then')
  {
    if then' == [] {
      assert first + then' == first;
    } else {
      var front := then'[..|then'| - 1];
      RunsJoin(w, s, first, front);
      assert (first + then')[..|first + then'| - 1] == first + front;
    }
  }

  lemma LaterReachable(w: World, s: State, steps: seq<Step>)
    requires ValidConfig(w.config) && Reachable(w, s) && Run(w, s, steps).Some?
    ensures Reachable(w, Run(w, s, steps).value)
  {
    var s0, before :| Initial(s0) && Run(w, s0, before) == Some(s);
    RunsJoin(w, s0, before, steps);
    assert Run(w, s0, before + steps) == Some(Run(w, s, steps).value);
  }

  lemma LeadsNowhere(w: World, s: State)
    requires ValidConfig(w.config)
    ensures Leads(w, s, s)
  {
    assert Run(w, s, []) == Some(s);
  }

  lemma LeadsOn(w: World, s: State, u: State, step: Step)
    requires ValidConfig(w.config) && Leads(w, s, u) && Enabled(w, u, step)
    ensures Leads(w, s, Next(w, u, step))
  {
    var steps :| Run(w, s, steps) == Some(u);
    var longer := steps + [step];
    assert longer[..|longer| - 1] == steps;
    assert Run(w, s, longer) == Some(Next(w, u, step));
  }

  lemma LeadsJoin(w: World, s: State, u: State, t: State)
    requires ValidConfig(w.config) && Leads(w, s, u) && Leads(w, u, t)
    ensures Leads(w, s, t)
  {
    var first :| Run(w, s, first) == Some(u);
    var then' :| Run(w, u, then') == Some(t);
    RunsJoin(w, s, first, then');
  }

  lemma LeadsReachable(w: World, s: State, t: State)
    requires ValidConfig(w.config) && Reachable(w, s) && Leads(w, s, t)
    ensures Reachable(w, t)
  {
    var steps :| Run(w, s, steps) == Some(t);
    LaterReachable(w, s, steps);
  }

  lemma LeadsKeepsPromises(w: World, s: State, t: State)
    requires ValidConfig(w.config) && Leads(w, s, t)
    ensures Promised(s, t)
  {
    var steps :| Run(w, s, steps) == Some(t);
    RunKeepsPromises(w, s, steps);
  }

  /** Once accepted, in every later state: in custody with the same octets, or delivered, or erased on request. */
  lemma AcceptedForGood(w: World, s: State, id: Id, steps: seq<Step>)
    requires ValidConfig(w.config) && Reachable(w, s)
    requires id in s.h.accepted && id in s.h.mail && Run(w, s, steps).Some?
    ensures
      var t := Run(w, s, steps).value;
      && id in t.h.mail && t.h.mail[id] == s.h.mail[id]
      && (InCustody(w, t, id) || id in t.h.delivered || (id in t.h.erased && id in t.h.asked))
  {
    RunKeepsPromises(w, s, steps);
    LaterReachable(w, s, steps);
    NoMessageLost(w, Run(w, s, steps).value, id);
  }

  /** No object is left behind: one without a row belongs to mail no row was ever inserted for. */
  lemma NoOrphan(w: World, s: State, k: Key)
    requires ValidConfig(w.config) && Reachable(w, s) && k in s.bucket
    ensures k.ulid in s.rows || (k.ulid !in s.h.queued && (k.ulid in s.emails || k.ulid in s.h.failed))
  {
    ReachableInv(w, s);
    assert k == KeyOf(w.config, k.ulid);
    assert HasObject(w, s, k.ulid);
  }

  // ----- removals, purges, deaths -----------------------------------------------------------

  /**
   * A row deleted by a purge was delivered, carried the very mark it was picked for, and that mark had
   * expired; its object is gone with it. A row requeued while the objects were being deleted stays.
   */
  lemma PurgeIsExact(w: World, s: State, id: Id)
    requires ValidConfig(w.config) && Reachable(w, s) && Enabled(w, s, PurgeRowsStep)
    requires id in s.rows
    ensures
      var s' := Next(w, s, PurgeRowsStep);
      && (id !in s'.rows ==>
            && s.rows[id].status == Delivered && s.rows[id].purgeAt.Some? && s.rows[id].purgeAt.value <= s.now
            && (exists i :: 0 <= i < |s.pass.doomed| && s.pass.doomed[i].id == id
                            && s.rows[id].purgeAt == Some(s.pass.doomed[i].purgeAt))
            && !HasObject(w, s', id))
      && (s.rows[id].status != Delivered ==> id in s'.rows && s'.rows[id] == s.rows[id])
  {
    RowChange(w, s, PurgeRowsStep, id);
    assert RowShape(w.config, s.rows[id], s.now) by {
      ReachableInv(w, s);
    }
    if id !in Next(w, s, PurgeRowsStep).rows {
      assert Named(s.pass.doomed, id);
      var i :| 0 <= i < |s.pass.doomed| && s.pass.doomed[i].id == id;
      DoomedIsTrue(w, s, i);
    }
  }

  lemma DoomedIsTrue(w: World, s: State, i: nat)
    requires ValidConfig(w.config) && Reachable(w, s) && s.pass.Purged? && i < |s.pass.doomed|
    ensures DoomTrue(s, s.pass.doomed[i]) && !HasObject(w, s, s.pass.doomed[i].id)
  {
    ReachableInv(w, s);
    assert DoomedOf(s.pass)[i] == s.pass.doomed[i];
  }

  /** A finished removal leaves neither the row nor the object, then or ever after. */
  lemma RemovalIsComplete(w: World, s: State, call: nat, steps: seq<Step>)
    requires ValidConfig(w.config) && Reachable(w, s) && Enabled(w, s, RemoveRow(call))
    requires Run(w, Next(w, s, RemoveRow(call)), steps).Some?
    ensures
      var t := Run(w, Next(w, s, RemoveRow(call)), steps).value;
      s.removes[call].id !in t.rows && !HasObject(w, t, s.removes[call].id)
  {
    var id, s1 := s.removes[call].id, Next(w, s, RemoveRow(call));
    ReachableInv(w, s);
    RowChange(w, s, RemoveRow(call), id);
    InvKept(w, s, RemoveRow(call));
    RemovalFootprint(w, s, RemoveRow(call));
    EndsFootprint(w, s, RemoveRow(call));
    GoneStaysGone(w, s1, id, steps);
  }

  lemma {:induction false} GoneStaysGone(w: World, s: State, id: Id, steps: seq<Step>)
    requires ValidConfig(w.config) && Inv(w, s)
    requires id in s.h.queued && id !in s.rows && Run(w, s, steps).Some?
    ensures
      var t := Run(w, s, steps).value;
      id in t.h.queued && id !in t.rows && !HasObject(w, t, id)
  {
    RunKeepsInv(w, s, steps);
    if steps == [] {
    } else {
      var front, step := steps[..|steps| - 1], steps[|steps| - 1];
      GoneStaysGone(w, s, id, front);
      var t := Run(w, s, front).value;
      RunKeepsInv(w, s, front);
      RowChange(w, t, step, id);
      EndsFootprint(w, t, step);
      NotInsertedTwice(w, t, step, Next(w, t, step), id);
    }
  }

  lemma NotInsertedTwice(w: World, s: State, step: Step, s': State, id: Id)
    requires IdsFiled(s) && RowMoves(w, s, step, s', id) && QueuedMoves(s, step, s')
    requires id in s.h.queued && id !in s.rows
    ensures id in s'.h.queued && id !in s'.rows
  {
  }

  /**
   * A message is settled dead for a missing object only if it was delivered before, or a removal of it
   * has erased the object and the row delete has not come.
   */
  lemma MissingIsExplained(w: World, s: State, text: string, thread: Option<int>)
    requires ValidConfig(w.config) && Reachable(w, s)
    requires Enabled(w, s, Settle(text, thread)) && s.pass.stage.Missing? && Applies(s)
    ensures Current(s).id in s.h.delivered || (Current(s).id in s.h.erased && Current(s).id in s.rows)
  {
    ReachableInv(w, s);
  }

  /** A dead row either spent its whole budget on failed attempts or is one of those. */
  lemma DeadMeansSpentOrLetGo(w: World, s: State, id: Id)
    requires ValidConfig(w.config) && Reachable(w, s)
    requires id in s.rows && s.rows[id].status == Dead
    ensures
      || s.rows[id].attempts == w.config.maxAttempts
      || (MissingMark(s.rows[id]) && (id in s.h.delivered || id in s.h.erased))
  {
    ReachableInv(w, s);
    assert RowShape(w.config, s.rows[id], s.now);
    assert s.rows[id].attempts < w.config.maxAttempts ==> LetGo(s, id);
  }

  // ----- no lost update ---------------------------------------------------------------------

  /**
   * When an attempt is settled, its row is either gone or exactly as the SELECT read it, so the guarded
   * UPDATE is a true increment; on a row removed meanwhile it changes nothing. No other row changes.
   */
  lemma SettleIsTrueIncrement(w: World, s: State, text: string, thread: Option<int>)
    requires ValidConfig(w.config) && Reachable(w, s) && Enabled(w, s, Settle(text, thread))
    ensures
      var row, s' := Current(s), Next(w, s, Settle(text, thread));
      && (row.id in s.rows ==>
            && s.rows[row.id] == row && row.status == Pending
            && row.id in s'.rows && s'.rows[row.id].attempts == s.rows[row.id].attempts + 1)
      && (row.id !in s.rows ==> s'.rows == s.rows)
      && (forall id | id in s.rows && id != row.id :: id in s'.rows && s'.rows[id] == s.rows[id])
  {
    assert StillAsPicked(w, s, Current(s)) by {
      ReachableInv(w, s);
      assert StillAsPicked(w, s, s.pass.batch[s.pass.at]);
    }
  }

  // ----- shape and budget -------------------------------------------------------------------

  /** Every row of every reachable state has the shape its status calls for. */
  lemma RowsHaveShape(w: World, s: State, id: Id)
    requires ValidConfig(w.config) && Reachable(w, s) && id in s.rows
    ensures RowShape(w.config, s.rows[id], s.now)
    ensures s.rows[id].status == Delivered <==> s.rows[id].purgeAt.Some?
    ensures s.rows[id].status == Pending ==> s.rows[id].attempts < w.config.maxAttempts
  {
    ReachableInv(w, s);
  }

  /**
   * A row that has used up its attempts has been tried for at least the whole schedule: from its first
   * attempt after the last (re)queue to its last one, all the waits in between have passed.
   */
  lemma ExhaustionTakesTheWholeSchedule(w: World, s: State, id: Id)
    requires ValidConfig(w.config) && Reachable(w, s)
    requires id in s.rows && s.rows[id].attempts == w.config.maxAttempts
    ensures id in s.h.first && s.rows[id].lastAttemptAt.Some?
    ensures s.rows[id].lastAttemptAt.value - s.h.first[id] >=
            Backoff.TotalDelay(w.config.backoffSeconds, w.config.maxAttempts - 1)
  {
    assert WithinBudget(w.config, s.h.first, id, s.rows[id]) by {
      ReachableInv(w, s);
    }
  }

  /** With the default schedule and 32 attempts that is 588 060 seconds. */
  lemma DefaultExhaustion(w: World, s: State, id: Id)
    requires ValidConfig(w.config) && Reachable(w, s)
    requires w.config.backoffSeconds == Backoff.DEFAULT_BACKOFF_SECONDS && w.config.maxAttempts == 32
    requires id in s.rows && s.rows[id].attempts == 32
    ensures id in s.h.first && s.rows[id].lastAttemptAt.Some?
    ensures s.rows[id].lastAttemptAt.value - s.h.first[id] >= 588_060_000
  {
    ExhaustionTakesTheWholeSchedule(w, s, id);
    Backoff.DefaultBudget();
  }

  // ----- the alarm --------------------------------------------------------------------------

  lemma CoveredInTime(c: Config, s: State, row: Row)
    requires c.backoffSeconds != [] && RowCovered(s, row) && RowShape(c, row, s.now)
    ensures row.status == Pending ==>
              && s.alarm.Some? && row.nextAttemptAt.Some?
              && (s.alarm.value <= row.nextAttemptAt.value || s.alarm.value <= s.h.grace)
    ensures row.purgeAt.Some? ==>
              s.alarm.Some? && (s.alarm.value <= row.purgeAt.value || s.alarm.value <= s.h.grace)
  {
  }

  /**
   * Whenever no pass is running, every pending row and every row waiting to be purged has an alarm
   * armed for it, no later than its own time or the rerun of the last pass that failed.
   */
  lemma WorkIsCovered(w: World, s: State, id: Id)
    requires ValidConfig(w.config) && Reachable(w, s) && s.pass == Idle
    requires id in s.rows
    ensures s.rows[id].status == Pending ==>
              && s.alarm.Some? && s.rows[id].nextAttemptAt.Some?
              && (s.alarm.value <= s.rows[id].nextAttemptAt.value || s.alarm.value <= s.h.grace)
    ensures s.rows[id].purgeAt.Some? ==>
              s.alarm.Some? && (s.alarm.value <= s.rows[id].purgeAt.value || s.alarm.value <= s.h.grace)
  {
    assert RowShape(w.config, s.rows[id], s.now) && RowCovered(s, s.rows[id]) by {
      ReachableInv(w, s);
    }
    CoveredInTime(w.config, s, s.rows[id]);
  }

  // ----- end to end -------------------------------------------------------------------------

  lemma DeliveredRowIsDelivered(w: World, s: State, id: Id)
    requires ValidConfig(w.config) && Reachable(w, s)
    requires id in s.rows && s.rows[id].status == Delivered
    ensures id in s.h.delivered
  {
    ReachableInv(w, s);
    assert RowShape(w.config, s.rows[id], s.now);
  }

  lemma DeliveredIsAnswered(w: World, s: State, id: Id)
    requires ValidConfig(w.config) && Reachable(w, s) && id in s.h.delivered
    ensures Handled(s, id) && AnsweredFor(s, id) && RequestsTrue(s)
  {
    ReachableInv(w, s);
  }

  /**
   * A row is delivered only if Odoo gave a request of that very row a delivery answer, and it has
   * posted the row's octets or has decided to ignore them.
   */
  lemma DeliveredMeansHandled(w: World, s: State, id: Id)
    requires ValidConfig(w.config) && Reachable(w, s)
    requires id in s.h.delivered || (id in s.rows && s.rows[id].status == Delivered)
    ensures id in s.h.mail
    ensures s.h.mail[id].stored in s.odoo.log || s.h.mail[id].stored in s.odoo.ignored
    ensures exists req, st ::
              && (req, st) in s.answers && 200 <= st < 300
              && req in s.requests && s.requests[req].id == id && s.requests[req].body == s.h.mail[id].stored
  {
    if id in s.rows && s.rows[id].status == Delivered {
      DeliveredRowIsDelivered(w, s, id);
    }
    DeliveredIsAnswered(w, s, id);
    var req, st :| Grants(s, id, req, st);
    assert RequestTrue(s, s.requests[req]);
  }

  /** What Odoo posts is a message some sender's mail was stored as, and each Message-Id only once. */
  lemma PostedOnceAndOnlyFromQueue(w: World, s: State, i: nat, j: nat)
    requires ValidConfig(w.config) && Reachable(w, s)
    requires i < |s.odoo.log| && j < |s.odoo.log|
    ensures exists id :: id in s.h.mail && Admissible(s.h.mail[id]) && s.odoo.log[i] == s.h.mail[id].stored
    ensures i != j && w.mid(s.odoo.log[i]).Some? ==> w.mid(s.odoo.log[i]) != w.mid(s.odoo.log[j])
  {
    ReachableInv(w, s);
    assert FromQueue(s, s.odoo.log[i]);
    var id :| id in s.h.queued && id in s.h.mail && s.odoo.log[i] == s.h.mail[id].stored;
    assert Admissible(s.h.mail[id]);
  }

  /** Serving a request without a delivery answer leaves Odoo as it was. */
  lemma OtherAnswersLeaveNoEffect(w: World, s: State, step: Step)
    requires ValidConfig(w.config) && Enabled(w, s, step) && step.OdooHandles?
    requires !OdooController.Delivery(Service(w, s, step))
    ensures Next(w, s, step).odoo == s.odoo
  {
    var r := s.requests[step.req];
    OdooController.ContractAgrees(w.mid, s.odoo, step.known, step.signed, r.body, Some(r.envFrom), Some(r.envTo),
                                  step.core);
  }

  /**
   * Mail whose envelope holds a character outside the basic plane is never delivered, whatever the
   * network and Odoo do: no request for it can be made.
   */
  lemma AstralMailIsNeverDelivered(w: World, s: State, id: Id)
    requires ValidConfig(w.config) && Reachable(w, s)
    requires id in s.h.mail
    requires !Percent.Encodable(s.h.mail[id].from) || !Percent.Encodable(s.h.mail[id].to)
    ensures id !in s.h.delivered
    ensures id in s.rows ==> s.rows[id].status != Delivered
  {
    ReachableInv(w, s);
    Percent.AsciiValueDomain(s.h.mail[id].from);
    Percent.AsciiValueDomain(s.h.mail[id].to);
    if id in s.rows {
      assert RowShape(w.config, s.rows[id], s.now);
    }
  }

  lemma AstralRowStays(w: World, s: State, step: Step, s': State, id: Id)
    requires RowMoves(w, s, step, s', id)
    requires StageTrue(w, s) && SentEncodes(s) && RemovesFiled(w, s)
    requires id in s.h.mail && id !in s.h.erased && !Encodes(s.h.mail[id])
    requires id in s.rows && s.rows[id].status == Pending && s.rows[id].purgeAt.None?
    ensures SameRow(s, s', id)
  {
  }

  lemma AstralRowNotSettled(w: World, s: State, step: Step, id: Id)
    requires ValidConfig(w.config) && Inv(w, s) && Enabled(w, s, step)
    requires id in s.h.mail && id !in s.h.erased
    requires !Percent.Encodable(s.h.mail[id].from) || !Percent.Encodable(s.h.mail[id].to)
    requires id in s.rows && s.rows[id].status == Pending
    ensures SameRow(s, Next(w, s, step), id)
  {
    Percent.AsciiValueDomain(s.h.mail[id].from);
    Percent.AsciiValueDomain(s.h.mail[id].to);
    RowChange(w, s, step, id);
    assert RowShape(w.config, s.rows[id], s.now);
    AstralRowStays(w, s, step, Next(w, s, step), id);
  }

  /**
   * Such a row, once pending, does not die either: each attempt throws before it is charged, and the
   * row keeps its place until an operator's removal erases the object.
   */
  lemma {:induction false} AstralMailStaysPending(w: World, s: State, id: Id, steps: seq<Step>)
    requires ValidConfig(w.config) && Inv(w, s)
    requires id in s.rows && s.rows[id].status == Pending && id in s.h.mail
    requires !Percent.Encodable(s.h.mail[id].from) || !Percent.Encodable(s.h.mail[id].to)
    requires Run(w, s, steps).Some?
    ensures
      var t := Run(w, s, steps).value;
      id in t.h.erased || (id in t.rows && t.rows[id] == s.rows[id])
  {
    if steps == [] {
    } else {
      var front, step := steps[..|steps| - 1], steps[|steps| - 1];
      var t := Run(w, s, front).value;
      AstralMailStaysPending(w, s, id, front);
      if id in t.h.erased {
        RemovalFootprint(w, t, step);
      } else {
        RunKeepsInv(w, s, front);
        RunKeepsPromises(w, s, front);
        AstralRowNotSettled(w, t, step, id);
      }
    }
  }
}
