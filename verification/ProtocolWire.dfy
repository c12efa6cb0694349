/** From the Worker's requests to Odoo's database and back. */
module ProtocolWire {
  import opened Wrappers
  import opened InboxRows
  import opened Protocol
  import opened ProtocolMoves
  import opened ProtocolBooks
  import opened ProtocolCustody
  import Backoff
  import Percent
  import OdooMessage
  import OdooController

  /** Odoo has posted this message, or decided to ignore it. */
  predicate Handled(s: State, id: Id) {
    id in s.h.mail && (s.h.mail[id].stored in s.odoo.log || s.h.mail[id].stored in s.odoo.ignored)
  }

  /** A request carries a queued message's octets and its envelope, encoded. */
  predicate RequestTrue(s: State, r: Request) {
    && r.id in s.h.queued && r.id in s.h.mail
    && r.body == s.h.mail[r.id].stored
    && Percent.AsciiValue(s.h.mail[r.id].from) == Some(r.envFrom)
    && Percent.AsciiValue(s.h.mail[r.id].to) == Some(r.envTo)
  }

  predicate RequestsTrue(s: State) {
    && (forall req | req in s.requests :: RequestTrue(s, s.requests[req]))
    && (AtStage(s) && s.pass.stage.Posted? ==>
          s.pass.stage.req in s.requests && s.requests[s.pass.stage.req].id == Current(s).id)
  }

  predicate IsDelivery(status: int) {
    Backoff.ClassifyStatus(status) == Backoff.Delivered
  }

  /** Odoo has answered this request of this message with a delivery status. */
  predicate Grants(s: State, id: Id, req: nat, status: int) {
    (req, status) in s.answers && IsDelivery(status) && req in s.requests && s.requests[req].id == id
  }

  ghost predicate AnsweredFor(s: State, id: Id) {
    exists req, st :: Grants(s, id, req, st)
  }

  /** A delivery status stands for a message Odoo has handled, wherever it has got to. */
  ghost predicate AnswersTrue(s: State) {
    && (forall a | a in s.answers && IsDelivery(a.1) :: a.0 in s.requests && Handled(s, s.requests[a.0].id))
    && (AtStage(s) && s.pass.stage.Answered? && s.pass.stage.status.Some? && IsDelivery(s.pass.stage.status.value) ==>
          Handled(s, Current(s).id) && AnsweredFor(s, Current(s).id))
    && (forall id | id in s.h.delivered :: Handled(s, id) && AnsweredFor(s, id))
  }

  /** `m` is a queued message, octet for octet. */
  predicate FromQueue(s: State, m: Octets) {
    exists id :: id in s.h.queued && id in s.h.mail && m == s.h.mail[id].stored
  }

  /** Odoo's database holds queued messages exactly as stored, and no Message-Id was posted twice. */
  predicate DatabaseTrue(w: World, s: State) {
    && OdooController.AtMostOnce(w.mid, s.odoo)
    && forall m | m in s.odoo.log :: FromQueue(s, m)
  }

  /** Both envelope addresses can be written as header values. */
  predicate Encodes(mail: Mail) {
    Percent.AsciiValue(mail.from).Some? && Percent.AsciiValue(mail.to).Some?
  }

  /** Only mail whose envelope can be written as header values is ever posted. */
  predicate SentEncodes(s: State) {
    && (AtStage(s) && (s.pass.stage.Posted? || s.pass.stage.Answered?) ==>
          Current(s).id in s.h.mail && Encodes(s.h.mail[Current(s).id]))
    && (forall id | id in s.h.delivered :: id in s.h.mail && Encodes(s.h.mail[id]))
  }

  /** Only mail whose object metadata could be written is ever stored, and so queued. */
  predicate StoredEncodes(s: State) {
    forall id | id in s.h.mail && (id in s.h.queued || (id in s.emails && s.emails[id] == Queueing)) ::
      MetadataEncodes(s.h.mail[id].from, s.h.mail[id].to)
  }

  ghost predicate Wire(w: World, s: State) {
    RequestsTrue(s) && AnswersTrue(s) && DatabaseTrue(w, s) && SentEncodes(s) && StoredEncodes(s)
  }

  // ----- footprints -------------------------------------------------------------------------

  predicate RequestsMove(s: State, step: Step, s': State) {
    match step
    case Post(req) =>
      && AtStage(s) && s.pass.stage.Reading? && req !in s.requests
      && Percent.AsciiValue(Current(s).from).Some? && Percent.AsciiValue(Current(s).to).Some?
      && s'.requests == s.requests[req := Request(Current(s).id, s.pass.stage.body,
           Percent.AsciiValue(Current(s).from).value, Percent.AsciiValue(Current(s).to).value)]
    case _ => s'.requests == s.requests
  }

  lemma RequestFootprint(w: World, s: State, step: Step)
    requires ValidConfig(w.config) && Enabled(w, s, step)
    ensures RequestsMove(s, step, Next(w, s, step))
  {
  }

  /** A response that counts as a delivery is one Odoo gave to the request at hand. */
  predicate ResponseHonest(s: State, step: Step) {
    step.Response? && step.status.Some? && IsDelivery(step.status.value) ==>
      AtStage(s) && s.pass.stage.Posted? && (s.pass.stage.req, step.status.value) in s.answers
  }

  lemma ResponseFootprint(w: World, s: State, step: Step)
    requires ValidConfig(w.config) && Enabled(w, s, step)
    ensures ResponseHonest(s, step)
  {
  }

  /** The put is never reached when its metadata cannot be written. */
  predicate PutHonest(s: State, step: Step) {
    step.EmailPut? && !step.threw ==>
      step.id in s.h.mail && MetadataEncodes(s.h.mail[step.id].from, s.h.mail[step.id].to)
  }

  lemma PutFootprint(w: World, s: State, step: Step)
    requires ValidConfig(w.config) && Enabled(w, s, step)
    ensures PutHonest(s, step)
  {
  }

  /** What serving request `req` for message `m` can do to the answers and the database. */
  ghost predicate Serves(w: World, s: State, s': State, req: nat, m: Octets) {
    && (s'.odoo == s.odoo
        || s'.odoo == s.odoo.(log := s.odoo.log + [m])
        || s'.odoo == s.odoo.(ignored := s.odoo.ignored + {m}))
    && (s'.answers == s.answers
        || exists st {:trigger IsDelivery(st)} ::
             s'.answers == s.answers + {(req, st)} && (IsDelivery(st) ==> m in s'.odoo.log || m in s'.odoo.ignored))
    && (OdooController.AtMostOnce(w.mid, s.odoo) ==> OdooController.AtMostOnce(w.mid, s'.odoo))
  }

  ghost predicate OdooMoves(w: World, s: State, step: Step, s': State) {
    if step.OdooHandles? then
      && step.req in s.requests && s.requests[step.req].id in s.h.mail
      && Serves(w, s, s', step.req, s.h.mail[s.requests[step.req].id].stored)
    else s'.odoo == s.odoo && s'.answers == s.answers
  }

  /** The message Odoo processes is the stored one, whatever request carries it. */
  lemma RequestArrivesIntact(s: State, r: Request)
    requires MailAdmissible(s) && RequestTrue(s, r)
    ensures OdooMessage.Prepare(r.body, Some(r.envFrom), Some(r.envTo)) == Ok(s.h.mail[r.id].stored)
  {
    var mail := s.h.mail[r.id];
    OdooMessage.EnvelopeSurvives(mail.raw, mail.from, mail.to);
  }

  lemma ServiceEffect(w: World, s: State, step: Step)
    requires step.OdooHandles? && step.req in s.requests
    requires MailAdmissible(s) && RequestTrue(s, s.requests[step.req])
    ensures
      var m := s.h.mail[s.requests[step.req].id].stored;
      var served := Service(w, s, step);
      && (served.db == s.odoo
          || served.db == s.odoo.(log := s.odoo.log + [m])
          || served.db == s.odoo.(ignored := s.odoo.ignored + {m}))
      && (served.answer.Some? && IsDelivery(served.answer.value.status) ==>
            m in served.db.log || m in served.db.ignored)
      && (OdooController.AtMostOnce(w.mid, s.odoo) ==> OdooController.AtMostOnce(w.mid, served.db))
  {
    var r := s.requests[step.req];
    RequestArrivesIntact(s, r);
    OdooController.ProcessContract(w.mid, s.odoo, Ok(s.h.mail[r.id].stored), step.core);
  }

  lemma OdooFootprint(w: World, s: State, step: Step)
    requires ValidConfig(w.config) && Enabled(w, s, step)
    requires MailAdmissible(s) && RequestsTrue(s)
    ensures OdooMoves(w, s, step, Next(w, s, step))
  {
    if step.OdooHandles? {
      ServiceEffect(w, s, step);
      var served := Service(w, s, step);
      if served.answer.Some? {
        assert IsDelivery(served.answer.value.status) || !IsDelivery(served.answer.value.status);
      }
    }
  }

  // ----- each part is kept ------------------------------------------------------------------

  lemma RequestsTrueKept(w: World, s: State, step: Step, s': State)
    requires BatchFiled(w, s) && StageTrue(w, s) && RequestsTrue(s)
    requires MailMoves(s, step, s') && QueuedMoves(s, step, s') && PassMoves(s, step, s') && RequestsMove(s, step, s')
    ensures RequestsTrue(s')
  {
    if step.Post? {
      assert Current(s) == BatchOf(s.pass)[s.pass.at];
    }
  }

  lemma HandledKept(w: World, s: State, step: Step, s': State, id: Id)
    requires MailMoves(s, step, s') && OdooMoves(w, s, step, s') && Handled(s, id)
    ensures Handled(s', id)
  {
  }

  /** Answers and requests stay on record. */
  lemma AnsweredForKept(w: World, s: State, step: Step, s': State, id: Id)
    requires RequestsMove(s, step, s') && OdooMoves(w, s, step, s') && AnsweredFor(s, id)
    ensures AnsweredFor(s', id)
  {
    var req, st :| Grants(s, id, req, st);
    assert Grants(s', id, req, st);
  }

  /** The answer at hand was given to a request of the row at hand. */
  lemma ResponseGrants(s: State, step: Step)
    requires RequestsTrue(s) && AnswersTrue(s) && ResponseHonest(s, step)
    requires step.Response? && step.status.Some? && IsDelivery(step.status.value)
    ensures Handled(s, Current(s).id) && AnsweredFor(s, Current(s).id)
  {
    assert (s.pass.stage.req, step.status.value).1 == step.status.value;
    assert Grants(s, Current(s).id, s.pass.stage.req, step.status.value);
  }

  lemma StageAnswerKept(w: World, s: State, step: Step, s': State)
    requires RequestsTrue(s) && AnswersTrue(s)
    requires MailMoves(s, step, s') && PassMoves(s, step, s') && RequestsMove(s, step, s') && OdooMoves(w, s, step, s')
    requires ResponseHonest(s, step)
    requires AtStage(s') && s'.pass.stage.Answered? && s'.pass.stage.status.Some?
    requires IsDelivery(s'.pass.stage.status.value)
    ensures Handled(s', Current(s').id) && AnsweredFor(s', Current(s').id)
  {
    if step.Response? {
      ResponseGrants(s, step);
    }
    assert Current(s') == Current(s);
    HandledKept(w, s, step, s', Current(s).id);
    AnsweredForKept(w, s, step, s', Current(s).id);
  }

  lemma AnswersHandled(w: World, s: State, step: Step, s': State)
    requires RequestsTrue(s) && AnswersTrue(s)
    requires MailMoves(s, step, s') && RequestsMove(s, step, s') && OdooMoves(w, s, step, s')
    ensures forall a | a in s'.answers && IsDelivery(a.1) :: a.0 in s'.requests && Handled(s', s'.requests[a.0].id)
  {
    forall a | a in s'.answers && IsDelivery(a.1)
      ensures a.0 in s'.requests && Handled(s', s'.requests[a.0].id)
    {
      if a in s.answers {
        HandledKept(w, s, step, s', s.requests[a.0].id);
      }
    }
  }

  lemma DeliveredAnswered(w: World, s: State, step: Step, s': State, id: Id)
    requires AnswersTrue(s) && id in s'.h.delivered
    requires MailMoves(s, step, s') && RequestsMove(s, step, s') && OdooMoves(w, s, step, s')
    requires DeliveredMoves(s, step, s')
    ensures Handled(s', id) && AnsweredFor(s', id)
  {
    HandledKept(w, s, step, s', id);
    AnsweredForKept(w, s, step, s', id);
  }

  lemma AnswersTrueKept(w: World, s: State, step: Step, s': State)
    requires RequestsTrue(s) && AnswersTrue(s)
    requires MailMoves(s, step, s') && PassMoves(s, step, s') && RequestsMove(s, step, s') && OdooMoves(w, s, step, s')
    requires DeliveredMoves(s, step, s') && ResponseHonest(s, step)
    ensures AnswersTrue(s')
  {
    AnswersHandled(w, s, step, s');
    forall id | id in s'.h.delivered
      ensures Handled(s', id) && AnsweredFor(s', id)
    {
      DeliveredAnswered(w, s, step, s', id);
    }
    if AtStage(s') && s'.pass.stage.Answered? && s'.pass.stage.status.Some? && IsDelivery(s'.pass.stage.status.value) {
      StageAnswerKept(w, s, step, s');
    }
  }

  lemma DatabaseTrueKept(w: World, s: State, step: Step, s': State)
    requires RequestsTrue(s) && DatabaseTrue(w, s)
    requires MailMoves(s, step, s') && QueuedMoves(s, step, s') && OdooMoves(w, s, step, s')
    ensures DatabaseTrue(w, s')
  {
    forall m | m in s'.odoo.log
      ensures FromQueue(s', m)
    {
      if m in s.odoo.log {
        assert FromQueue(s, m);
        var id :| id in s.h.queued && id in s.h.mail && m == s.h.mail[id].stored;
        assert s'.h.mail[id] == s.h.mail[id];
      } else {
        var id := s.requests[step.req].id;
        assert id in s'.h.queued && m == s'.h.mail[id].stored;
      }
    }
  }

  lemma SentEncodesKept(w: World, s: State, step: Step, s': State)
    requires BatchFiled(w, s) && SentEncodes(s)
    requires MailMoves(s, step, s') && PassMoves(s, step, s')
    requires RequestsMove(s, step, s') && DeliveredMoves(s, step, s')
    ensures SentEncodes(s')
  {
    if step.Post? {
      assert Current(s) == BatchOf(s.pass)[s.pass.at];
    }
  }

  lemma StoredEncodesKept(s: State, step: Step, s': State)
    requires IdsFiled(s) && StoredEncodes(s) && PutHonest(s, step)
    requires MailMoves(s, step, s') && EmailsMove(s, step, s') && QueuedMoves(s, step, s')
    ensures StoredEncodes(s')
  {
  }

  lemma WireKept(w: World, s: State, step: Step)
    requires ValidConfig(w.config) && Enabled(w, s, step) && Books(w, s) && Custody(w, s) && Wire(w, s)
    ensures Wire(w, Next(w, s, step))
  {
    var s' := Next(w, s, step);
    EmailFootprint(w, s, step);
    PassFootprint(w, s, step);
    EndsFootprint(w, s, step);
    SettleFootprint(w, s, step);
    RequestFootprint(w, s, step);
    ResponseFootprint(w, s, step);
    OdooFootprint(w, s, step);
    RequestsTrueKept(w, s, step, s');
    AnswersTrueKept(w, s, step, s');
    DatabaseTrueKept(w, s, step, s');
    SentEncodesKept(w, s, step, s');
    PutFootprint(w, s, step);
    StoredEncodesKept(s, step, s');
  }
}
