/**
 * What each step of the protocol does, in the columns and numbers of the source, and when it may be taken.
 * The invariants hold of the steps as they are defined in `Protocol`; here they are said to be the right ones.
 */
module ProtocolSteps {
  import opened Wrappers
  import opened InboxColumns
  import opened InboxRows
  import opened Protocol
  import Backoff
  import OdooController
  import OdooMessage
  import Percent

  // ----- the table --------------------------------------------------------------------------

  ghost predicate RowsWritten(c: Config, s: State, step: Step, rows': Table)
    requires c.backoffSeconds != []
  {
    match step
    case EmailEnqueue(id, configOk, _) =>
      && id in s.h.mail
      && var mail := s.h.mail[id];
         Inserted(s.rows, EnqueueInput(id, Key(c.keyPrefix, id), mail.from, mail.to, mail.messageId, |mail.stored|,
                                       s.now), if configOk then Some(c) else None, s.now, rows')
    case RetryOne(id) => RequeuedWhere(s.rows, (row: Row) => row.id == id && row.status != Pending, s.now, rows')
    case RetryParked(parked) => RequeuedWhere(s.rows, (row: Row) => row.status == parked, s.now, rows')
    case RemoveRow(call) => call in s.removes && rows' == s.rows - {s.removes[call].id}
    case Settle(text, thread) =>
      && AtStage(s)
      && var row, stage := Current(s), s.pass.stage;
         SettledTable(c, s.rows, row.id, row.attempts + 1,
                      EndsWith(!stage.Missing?, if stage.Answered? then stage.status else None, text, thread),
                      s.now, rows')
    case PurgeRowsStep => s.pass.Purged? && PurgedTable(s.rows, s.pass.doomed, rows')
    case _ => rows' == s.rows
  }

  lemma EmailWrites(w: World, s: State, step: Step)
    requires ValidConfig(w.config) && Enabled(w, s, step) && step.EmailEnqueue?
    ensures RowsWritten(w.config, s, step, NextRows(w.config, s, step))
  {
    InsertColumns(s.rows, InputOf(w.config, step.id, s.h.mail[step.id], s.now),
                  if step.configOk then Some(w.config) else None, s.now);
  }

  lemma StageEndingIs(stage: Stage, text: string, thread: Option<int>)
    requires stage.Missing? || stage.Answered?
    ensures StageEnding(stage, text, thread) ==
            EndsWith(!stage.Missing?, if stage.Answered? then stage.status else None, text, thread)
  {
    EndingIs(if stage.Answered? then stage.status else None, text, thread);
  }

  lemma SettleWrites(w: World, s: State, step: Step)
    requires ValidConfig(w.config) && Enabled(w, s, step) && step.Settle?
    ensures RowsWritten(w.config, s, step, NextRows(w.config, s, step))
  {
    StageEndingIs(s.pass.stage, step.text, step.thread);
    SettleColumns(w.config, s.rows, Current(s).id, Current(s).attempts + 1,
                  StageEnding(s.pass.stage, step.text, step.thread), s.now);
  }

  lemma OperatorWrites(w: World, s: State, step: Step)
    requires ValidConfig(w.config) && Enabled(w, s, step) && Keyed(s.rows) && (step.RetryOne? || step.RetryParked?)
    ensures RowsWritten(w.config, s, step, NextRows(w.config, s, step))
  {
    if step.RetryOne? {
      RetryColumns(s.rows, step.id, s.now);
    } else {
      RetryAllColumns(s.rows, step.parked, s.now);
    }
  }

  lemma TableWrites(w: World, s: State, step: Step)
    requires ValidConfig(w.config) && Enabled(w, s, step) && Keyed(s.rows)
    ensures RowsWritten(w.config, s, step, NextRows(w.config, s, step))
  {
    if step.EmailEnqueue? {
      EmailWrites(w, s, step);
    } else if step.RetryOne? || step.RetryParked? {
      OperatorWrites(w, s, step);
    } else if step.Settle? {
      SettleWrites(w, s, step);
    } else if step.PurgeRowsStep? {
      PurgedColumns(s.rows, s.pass.doomed);
    }
  }

  // ----- the bucket, the alarm, the wire ----------------------------------------------------

  ghost predicate BucketWritten(c: Config, s: State, step: Step, bucket': map<Key, Octets>) {
    match step
    case EmailPut(id, took, _) =>
      && id in s.h.mail
      && bucket' == if took then s.bucket[Key(c.keyPrefix, id) := s.h.mail[id].stored] else s.bucket
    case RemoveErase(call, took, _) =>
      call in s.removes && bucket' == if took then s.bucket - {s.removes[call].key} else s.bucket
    case PurgeErase(gone, threw) =>
      && s.pass.Purging?
      && (forall k | k in gone :: exists i :: 0 <= i < |s.pass.doomed| && s.pass.doomed[i].key == k)
      && (!threw ==> forall i | 0 <= i < |s.pass.doomed| :: s.pass.doomed[i].key in gone)
      && bucket' == s.bucket - gone
    case _ => bucket' == s.bucket
  }

  lemma BucketWrites(w: World, s: State, step: Step)
    requires ValidConfig(w.config) && Enabled(w, s, step)
    ensures BucketWritten(w.config, s, step, NextBucket(w.config, s, step))
  {
    if step.PurgeErase? {
      assert forall i | 0 <= i < |s.pass.doomed| :: s.pass.doomed[i].key in DoomedKeys(s.pass.doomed);
    }
  }

  /** The earlier of what it was and `at`. */
  ghost predicate BroughtForward(alarm: Option<int>, at: int, alarm': Option<int>) {
    alarm' == if alarm.Some? && alarm.value <= at then alarm else Some(at)
  }

  ghost predicate AlarmSet(c: Config, s: State, step: Step, alarm': Option<int>) {
    match step
    case EmailEnqueue(id, configOk, _) =>
      if id in s.rows then alarm' == s.alarm
      else BroughtForward(s.alarm, s.now + if configOk then c.deliveryDelayMs else 0, alarm')
    case RetryOne(id) =>
      if id in s.rows && s.rows[id].status != Pending then BroughtForward(s.alarm, s.now, alarm') else alarm' == s.alarm
    case RetryParked(parked) =>
      if exists id :: id in s.rows && s.rows[id].status == parked then BroughtForward(s.alarm, s.now, alarm')
      else alarm' == s.alarm
    case AlarmFires(_, _) => s.alarm.Some? && s.alarm.value <= s.now && alarm' == None
    case Rearm(_) => if s.healthy then EarliestAsked(s.rows, alarm') else alarm' == Some(s.now + 60_000)
    case Evict(again) => alarm' == if s.pass == Idle then s.alarm else Some(again)
    case _ => alarm' == s.alarm
  }

  lemma AlarmSets(w: World, s: State, step: Step)
    requires ValidConfig(w.config) && Enabled(w, s, step)
    ensures AlarmSet(w.config, s, step, NextAlarm(w.config, s, step))
  {
    if step.Rearm? {
      EarliestIs(s.rows, step.next);
    }
  }

  /** A pass takes ten rows at most and purges a hundred; what is POSTed is the object that was read. */
  ghost predicate PassTakes(s: State, step: Step, pass': Pass) {
    match step
    case AlarmFires(due, fault) =>
      && TakesReady(s.rows, s.now, 10, due)
      && pass' == if due == [] || fault then Sweeping else Delivering(due, 0, Fetching)
    case GetObject =>
      && AtStage(s)
      && var key := Current(s).r2Key;
         pass' == Delivering(s.pass.batch, s.pass.at, if key in s.bucket then Reading(s.bucket[key]) else Missing)
    case PurgeSelect(doomed, fault) =>
      && TakesStale(s.rows, s.now, 100, doomed)
      && pass' == if doomed == [] || fault then Rearming else Purging(doomed)
    case Settle(_, _) => AtStage(s) && OnToNext(s.pass, pass')
    case DeliverThrows => AtStage(s) && OnToNext(s.pass, pass')
    case Evict(_) => pass' == Idle
    case _ => true
  }

  /** The next row of the batch, or the purge after the last one. */
  ghost predicate OnToNext(pass: Pass, pass': Pass)
    requires pass.Delivering?
  {
    if pass.at + 1 < |pass.batch| then pass' == Delivering(pass.batch, pass.at + 1, Fetching) else pass' == Sweeping
  }

  lemma PassGoesOn(w: World, s: State, step: Step)
    requires ValidConfig(w.config) && Enabled(w, s, step) && Keyed(s.rows)
    ensures PassTakes(s, step, NextPass(s, step))
  {
    if step.AlarmFires? {
      DueBatchIs(s.rows, s.now, 10, step.due);
    }
    if step.PurgeSelect? {
      DoomedBatchIs(s.rows, s.now, 100, step.doomed);
    }
  }

  /** A request carries the octets that were read and both addresses as they unquote. */
  ghost predicate Sent(s: State, step: Step, requests': map<nat, Request>) {
    if step.Post? then
      && AtStage(s) && s.pass.stage.Reading? && step.req in requests'
      && requests'.Keys == s.requests.Keys + {step.req} && (forall r | r in s.requests :: requests'[r] == s.requests[r])
      && var request := requests'[step.req];
         && request.id == Current(s).id && request.body == s.pass.stage.body
         && Percent.Unquote(request.envFrom) == Current(s).from && Percent.Unquote(request.envTo) == Current(s).to
    else requests' == s.requests
  }

  lemma Sends(w: World, s: State, step: Step)
    requires ValidConfig(w.config) && Enabled(w, s, step)
    ensures Sent(s, step, NextRequests(s, step))
  {
    if step.Post? {
      var row := Current(s);
      Percent.AsciiValueDomain(row.from);
      Percent.AsciiValueDomain(row.to);
      Percent.UnquoteInverts(row.from);
      Percent.UnquoteInverts(row.to);
    }
  }

  /** Odoo's side of a request: the answer and the database by its case, and nothing else moves either. */
  ghost predicate Handled(w: World, s: State, step: Step, answers': set<(nat, int)>, odoo': OdooController.Db) {
    match step
    case OdooHandles(req, known, signed, core) =>
      && req in s.requests
      && var r := s.requests[req];
         exists answer: Option<OdooController.Answer> ::
           && OdooController.AnswersBy(w.mid, s.odoo, known, signed,
                                       OdooMessage.Prepare(r.body, Some(r.envFrom), Some(r.envTo)), core, answer, odoo')
           && answers' == s.answers + if answer.Some? then {(req, answer.value.status)} else {}
    case _ => answers' == s.answers && odoo' == s.odoo
  }

  lemma Handles(w: World, s: State, step: Step)
    requires ValidConfig(w.config) && Enabled(w, s, step)
    ensures Handled(w, s, step, NextAnswers(w, s, step), NextOdoo(w, s, step))
  {
    if step.OdooHandles? {
      var r := s.requests[step.req];
      OdooController.ServeIs(w.mid, s.odoo, step.known, step.signed, r.body, Some(r.envFrom), Some(r.envTo), step.core);
      var answer := Service(w, s, step).answer;
      assert answer == None ==> s.answers + {} == s.answers;
      assert NextAnswers(w, s, step) == s.answers + if answer.Some? then {(step.req, answer.value.status)} else {};
    }
  }

  // ----- the history ------------------------------------------------------------------------

  /** The attempt at hand got a 2xx answer and its row is there, pending. */
  ghost predicate Succeeds(s: State, step: Step) {
    && step.Settle? && AtStage(s) && s.pass.stage.Answered? && s.pass.stage.status.Some?
    && 200 <= s.pass.stage.status.value <= 299
    && Current(s).id in s.rows && s.rows[Current(s).id].status == Pending
  }

  /** An id is recorded in the history exactly by the step that makes it true of the message. */
  ghost predicate MailRecorded(s: State, step: Step, h': History) {
    && (forall id :: id in h'.mail <==> id in s.h.mail || (step.EmailStart? && step.id == id))
    && (forall id :: id in h'.queued <==> id in s.h.queued || (step.EmailEnqueue? && step.id == id))
    && (forall id :: id in h'.accepted <==> id in s.h.accepted || exists ok :: step == EmailEnqueue(id, ok, true))
    && (forall id :: id in h'.failed <==>
          || id in s.h.failed
          || (step.EmailPut? && step.id == id && step.threw)
          || (step.EmailEnqueue? && step.id == id && !step.replied)
          || (step.EmailLost? && step.id == id))
  }

  ghost predicate EndRecorded(s: State, step: Step, h': History) {
    && (forall id :: id in h'.delivered <==> id in s.h.delivered || (Succeeds(s, step) && Current(s).id == id))
    && (forall id :: id in h'.asked <==> id in s.h.asked || exists call :: step == RemoveStart(call, id))
    && (forall id :: id in h'.erased <==>
          id in s.h.erased ||
          (step.RemoveErase? && step.took && step.call in s.removes && s.removes[step.call].id == id))
  }

  lemma MailRecords(s: State, step: Step)
    ensures MailRecorded(s, step, NextHistory(s, step))
  {
  }

  lemma EndRecords(s: State, step: Step)
    ensures EndRecorded(s, step, NextHistory(s, step))
  {
  }

  /** An ended pass whose delivery did not fail is recorded with the ids whose attempts threw in it. */
  lemma PassesRecord(s: State, step: Step)
    ensures step.Rearm? && s.thrown.Some? ==> NextHistory(s, step).passes == s.h.passes + [s.thrown.value]
    ensures !(step.Rearm? && s.thrown.Some?) ==> NextHistory(s, step).passes == s.h.passes
    ensures step.AlarmFires? && (step.due == [] || !step.fault) ==> NextThrown(s, step) == Some({})
    ensures step.AlarmFires? && step.due != [] && step.fault ==> NextThrown(s, step) == None
    ensures step.DeliverThrows? && AtStage(s) && s.thrown.Some? ==>
              NextThrown(s, step) == Some(s.thrown.value + {Current(s).id})
    ensures !step.AlarmFires? && !step.DeliverThrows? ==> NextThrown(s, step) == s.thrown
  {
  }

  // ----- all of it --------------------------------------------------------------------------

  /** What a step writes: the table, the bucket and the alarm. */
  lemma StepWrites(w: World, s: State, step: Step)
    requires ValidConfig(w.config) && Enabled(w, s, step) && Keyed(s.rows)
    ensures var t := Next(w, s, step);
            && RowsWritten(w.config, s, step, t.rows) && BucketWritten(w.config, s, step, t.bucket)
            && AlarmSet(w.config, s, step, t.alarm)
  {
    TableWrites(w, s, step);
    BucketWrites(w, s, step);
    AlarmSets(w, s, step);
  }

  /** And what goes over the wire, what Odoo makes of it, and what is recorded. */
  lemma StepSends(w: World, s: State, step: Step)
    requires ValidConfig(w.config) && Enabled(w, s, step) && Keyed(s.rows)
    ensures var t := Next(w, s, step);
            && PassTakes(s, step, t.pass) && Sent(s, step, t.requests)
            && Handled(w, s, step, t.answers, t.odoo)
            && MailRecorded(s, step, t.h) && EndRecorded(s, step, t.h)
  {
    PassGoesOn(w, s, step);
    Sends(w, s, step);
    Handles(w, s, step);
    MailRecords(s, step);
    EndRecords(s, step);
  }

  // ----- when a step may be taken -----------------------------------------------------------

  /**
   * Nothing that can happen is held back. Mail that can be stored may arrive at any time, a call in flight may
   * be lost at any time, and a bucket write may fail whether or not it took effect.
   */
  lemma AnyMailMayCome(w: World, s: State, id: Id, mail: Mail, ok: bool, replied: bool)
    requires ValidConfig(w.config)
    ensures id !in s.h.mail && Admissible(mail) ==> Enabled(w, s, EmailStart(id, mail))
    ensures id in s.emails ==> Enabled(w, s, EmailLost(id))
    ensures id in s.emails && id in s.h.mail && s.emails[id] == Storing ==>
              && Enabled(w, s, EmailPut(id, false, true))
              && (Clean(s.h.mail[id].from, 256) && Clean(s.h.mail[id].to, 256) ==>
                    Enabled(w, s, EmailPut(id, true, false)) && Enabled(w, s, EmailPut(id, true, true)))
    ensures id in s.emails && id in s.h.mail && s.emails[id] == Queueing ==>
              Enabled(w, s, EmailEnqueue(id, ok, replied))
  {
    if id in s.h.mail {
      MetadataIs(s.h.mail[id].from, s.h.mail[id].to);
    }
  }

  /**
   * Time may pass, an operator may retry and the handler may be cut off at any time; any row may be asked to
   * be removed, and the bucket's delete may fail whether or not it took effect.
   */
  lemma OperatorsMayCome(w: World, s: State, id: Id, call: nat, took: bool, at: int)
    requires ValidConfig(w.config)
    ensures at >= s.now ==> Enabled(w, s, Tick(at))
    ensures Enabled(w, s, RetryOne(id)) && Enabled(w, s, RetryParked(Dead)) && Enabled(w, s, RetryParked(Rejected))
    ensures Enabled(w, s, Evict(at))
    ensures id in s.rows && call !in s.removes ==> Enabled(w, s, RemoveStart(call, id))
    ensures call in s.removes && !s.removes[call].erased ==>
              Enabled(w, s, RemoveErase(call, true, false)) && Enabled(w, s, RemoveErase(call, took, true))
    ensures call in s.removes && s.removes[call].erased ==> Enabled(w, s, RemoveRow(call))
  {
  }

  /**
   * During a pass any attempt may throw at any point, a request may meet no answer or any other than a 2xx,
   * or a 2xx that Odoo has given it; Odoo may serve any request at any time, in every way it can end.
   */
  lemma AnyAnswerMayCome(w: World, s: State, status: Option<int>, req: nat, known: bool, signed: bool,
                         core: OdooController.Processing, text: string, thread: Option<int>)
    requires ValidConfig(w.config)
    ensures req in s.requests ==> Enabled(w, s, OdooHandles(req, known, signed, core))
    ensures AtStage(s) ==> Enabled(w, s, DeliverThrows)
    ensures AtStage(s) && s.pass.stage.Posted? &&
            (status == None || status.value < 200 || status.value > 299
             || (s.pass.stage.req, status.value) in s.answers) ==>
              Enabled(w, s, Response(status))
    ensures AtStage(s) && (s.pass.stage.Missing? || s.pass.stage.Answered?) ==> Enabled(w, s, Settle(text, thread))
    ensures AtStage(s) && s.pass.stage == Fetching ==> Enabled(w, s, GetObject)
    ensures s.pass.Purged? ==> Enabled(w, s, PurgeRowsStep)
  {
    Backoff.ClassifyIs(if status.Some? then status.value else 0);
  }
}
