/** The inbound webhook and its status-code contract (mail_cloudflare/controllers/main.py). */
module OdooController {
  import opened Wrappers
  import opened OdooMessage
  import Backoff

  /** What Odoo has committed: messages routed to a record, in order, and messages deliberately ignored. */
  datatype Db = Db(log: seq<Octets>, ignored: set<Octets>)

  /** How core's routing of one message can end; a repeated Message-Id is decided by `Duplicate`. */
  datatype Processing = Routed(thread: int) | DroppedByCore | Unroutable | Crashed | Conflict

  datatype Answer = Answer(status: int, thread: Option<int>)

  /** One run of the handler: its answer (None when the conflict is left to the framework), and the database. */
  datatype Served = Served(answer: Option<Answer>, db: Db)

  /** How Odoo reads a Message-Id out of a message. */
  type MessageIdOf = Octets -> Option<string>

  predicate Duplicate(mid: MessageIdOf, db: Db, message: Octets) {
    mid(message).Some? && exists i :: 0 <= i < |db.log| && mid(db.log[i]) == mid(message)
  }

  /** What processing comes to once the message has been prepared, or refused. */
  function Process(mid: MessageIdOf, db: Db, prepared: Result<Octets, Refusal>, core: Processing): Served {
    match prepared
    case Err(_) => Served(Some(Answer(422, None)), db)
    case Ok(message) =>
      match core
      case Unroutable => Served(Some(Answer(422, None)), db)
      case Crashed => Served(Some(Answer(500, None)), db)
      case Conflict => Served(None, db)
      case DroppedByCore => Served(Some(Answer(200, None)), db.(ignored := db.ignored + {message}))
      case Routed(t) =>
        if Duplicate(mid, db, message) then
          Served(Some(Answer(200, None)), db.(ignored := db.ignored + {message}))
        else Served(Some(Answer(200, Some(t))), db.(log := db.log + [message]))
  }

  /** What one request comes to. */
  function Serve(mid: MessageIdOf, db: Db, known: bool, signed: bool, body: Octets,
                 envFrom: Option<Octets>, envTo: Option<Octets>, core: Processing): Served
  {
    if !known then Served(Some(Answer(404, None)), db)
    else if !signed then Served(Some(Answer(401, None)), db)
    else Process(mid, db, Prepare(body, envFrom, envTo), core)
  }

  // ----- the contract, case by case ---------------------------------------------------------

  /** A message with this one's Message-Id has been posted. */
  ghost predicate Seen(mid: MessageIdOf, db: Db, message: Octets) {
    mid(message).Some? && exists posted :: posted in db.log && mid(posted) == mid(message)
  }

  /**
   * The answer and the database by what was wrong with the request: 404 for a key no server has, 401 for
   * a signature that does not verify, 422 for an envelope that is refused or a message that cannot be
   * routed, 500 for a crash, and no answer for a conflict, all of them without effect. Otherwise 200, with
   * the message posted and its thread named, or with the message ignored: core dropped it, or its
   * Message-Id was posted before.
   */
  ghost predicate AnswersBy(mid: MessageIdOf, db: Db, known: bool, signed: bool, prepared: Result<Octets, Refusal>,
                            core: Processing, answer: Option<Answer>, db': Db)
  {
    if !known then answer == Some(Answer(404, None)) && db' == db
    else if !signed then answer == Some(Answer(401, None)) && db' == db
    else if prepared.Err? || core.Unroutable? then answer == Some(Answer(422, None)) && db' == db
    else if core.Crashed? then answer == Some(Answer(500, None)) && db' == db
    else if core.Conflict? then answer == None && db' == db
    else if core.DroppedByCore? || Seen(mid, db, prepared.value) then
      answer == Some(Answer(200, None)) && db' == Db(db.log, db.ignored + {prepared.value})
    else answer == Some(Answer(200, Some(core.thread))) && db' == Db(db.log + [prepared.value], db.ignored)
  }

  lemma SeenIs(mid: MessageIdOf, db: Db, message: Octets)
    ensures Duplicate(mid, db, message) <==> Seen(mid, db, message)
  {
    if Duplicate(mid, db, message) {
      var i :| 0 <= i < |db.log| && mid(db.log[i]) == mid(message);
      assert db.log[i] in db.log;
    }
  }

  lemma ServeIs(mid: MessageIdOf, db: Db, known: bool, signed: bool, body: Octets,
                envFrom: Option<Octets>, envTo: Option<Octets>, core: Processing)
    ensures var r := Serve(mid, db, known, signed, body, envFrom, envTo, core);
            AnswersBy(mid, db, known, signed, Prepare(body, envFrom, envTo), core, r.answer, r.db)
  {
    var prepared := Prepare(body, envFrom, envTo);
    if prepared.Ok? {
      SeenIs(mid, db, prepared.value);
    }
  }

  /**
   * The two sides agree on what is final. The Worker tries again exactly after a crash; it parks the
   * message as refused exactly where no server has the key, the signature fails, the envelope is refused or
   * the message cannot be routed; it counts a delivery exactly where Odoo posted or ignored the message.
   */
  lemma WorkerReads(mid: MessageIdOf, db: Db, known: bool, signed: bool, body: Octets,
                    envFrom: Option<Octets>, envTo: Option<Octets>, core: Processing)
    requires Serve(mid, db, known, signed, body, envFrom, envTo, core).answer.Some?
    ensures
      var answer := Serve(mid, db, known, signed, body, envFrom, envTo, core).answer.value;
      var verdict := Backoff.ClassifyStatus(answer.status);
      var refused := BadValue(envFrom) || BadValue(envTo);
      && (verdict == Backoff.Retry <==> known && signed && !refused && core == Crashed)
      && (verdict == Backoff.Rejected <==> !known || !signed || refused || core == Unroutable)
      && (verdict == Backoff.Delivered <==> known && signed && !refused && (core.Routed? || core.DroppedByCore?))
  {
    RefusedIff(body, envFrom, envTo);
    Backoff.ClassifyIs(Serve(mid, db, known, signed, body, envFrom, envTo, core).answer.value.status);
    ServeIs(mid, db, known, signed, body, envFrom, envTo, core);
  }

  /** A database cursor: what is committed, and what the running transaction sees. */
  class Cursor {
    var committed: Db
    var working: Db

    constructor (db: Db)
      ensures committed == db && working == db
    {
      committed, working := db, db;
    }

    method Rollback()
      modifies this
      ensures working == committed == old(committed)
    {
      working := committed;
    }

    method Commit()
      modifies this
      ensures committed == working == old(working)
    {
      committed := working;
    }
  }

  /** The handler's own exceptions. */
  datatype Failure = ValueError | OtherError | ConcurrencyError

  /**
   * `_cloudflare_process_inbound`: core may have written anything (`scratch`) by the time it fails,
   * so only the failure itself is promised.
   */
  method ProcessInbound(cr: Cursor, mid: MessageIdOf, body: Octets, envFrom: Option<Octets>,
                        envTo: Option<Octets>, core: Processing, scratch: Db)
      returns (r: Result<Option<int>, Failure>)
    modifies cr
    ensures cr.committed == old(cr.committed)
    ensures r.Err? <==> Prepare(body, envFrom, envTo).Err? || core in {Unroutable, Crashed, Conflict}
    ensures r.Err? ==>
              r.error == (if Prepare(body, envFrom, envTo).Err? || core == Unroutable then ValueError
                          else if core == Crashed then OtherError else ConcurrencyError)
    ensures r.Ok? ==> core.Routed? || core.DroppedByCore?
    ensures r.Ok? && (core.DroppedByCore? || Duplicate(mid, old(cr.working), Prepare(body, envFrom, envTo).value)) ==>
              r.value == None &&
              cr.working == old(cr.working).(ignored := old(cr.working).ignored + {Prepare(body, envFrom, envTo).value})
    ensures r.Ok? && core.Routed? && !Duplicate(mid, old(cr.working), Prepare(body, envFrom, envTo).value) ==>
              r.value == Some(core.thread) &&
              cr.working == old(cr.working).(log := old(cr.working).log + [Prepare(body, envFrom, envTo).value])
  {
    var prepared := PrepareMessage(body, envFrom, envTo);
    if prepared.Err? {
      return Err(ValueError);
    }
    match core {
      case Unroutable =>
        cr.working := scratch;
        return Err(ValueError);
      case Crashed =>
        cr.working := scratch;
        return Err(OtherError);
      case Conflict =>
        cr.working := scratch;
        return Err(ConcurrencyError);
      case DroppedByCore =>
        cr.working := cr.working.(ignored := cr.working.ignored + {prepared.value});
        return Ok(None);
      case Routed(t) =>
        if Duplicate(mid, cr.working, prepared.value) {
          cr.working := cr.working.(ignored := cr.working.ignored + {prepared.value});
          return Ok(None);
        }
        cr.working := cr.working.(log := cr.working.log + [prepared.value]);
        return Ok(Some(t));
    }
  }

  /**
   * `inbound`, and the framework around it: the transaction commits once the handler has answered,
   * and a concurrency error is left to the framework, which aborts the transaction and reruns.
   */
  method Inbound(cr: Cursor, mid: MessageIdOf, known: bool, signed: bool, body: Octets,
                 envFrom: Option<Octets>, envTo: Option<Octets>, core: Processing, scratch: Db)
      returns (answer: Option<Answer>)
    requires cr.working == cr.committed
    modifies cr
    ensures cr.working == cr.committed
    ensures Served(answer, cr.committed) ==
            Serve(mid, old(cr.committed), known, signed, body, envFrom, envTo, core)
    ensures AnswersBy(mid, old(cr.committed), known, signed, Prepare(body, envFrom, envTo), core, answer, cr.committed)
  {
    ServeIs(mid, cr.committed, known, signed, body, envFrom, envTo, core);
    if !known {
      return Some(Answer(404, None));
    }
    if !signed {
      return Some(Answer(401, None));
    }
    var thread := ProcessInbound(cr, mid, body, envFrom, envTo, core, scratch);
    if thread.Err? {
      cr.Rollback();
      match thread.error {
        case ValueError => return Some(Answer(422, None));
        case ConcurrencyError => return None;
        case OtherError => return Some(Answer(500, None));
      }
    }
    cr.Commit();
    answer := Some(Answer(200, thread.value));
  }

  /** Odoo has posted the message or decided to ignore it. */
  predicate Taken(db: Db, message: Octets) {
    message in db.log || message in db.ignored
  }

  /** An answer the Worker counts as a delivery. */
  predicate Delivery(r: Served) {
    r.answer.Some? && Backoff.ClassifyStatus(r.answer.value.status) == Backoff.Delivered
  }

  /**
   * The contract between the two sides. An answer the Worker does not count as a delivery, or none at
   * all, leaves the database as it was; one it does means the message was posted or deliberately
   * ignored. Of the others only a 500 is tried again.
   */
  lemma ContractAgrees(mid: MessageIdOf, db: Db, known: bool, signed: bool, body: Octets,
                       envFrom: Option<Octets>, envTo: Option<Octets>, core: Processing)
    ensures
      var r := Serve(mid, db, known, signed, body, envFrom, envTo, core);
      var prepared := Prepare(body, envFrom, envTo);
      && (!Delivery(r) ==> r.db == db)
      && (Delivery(r) ==> prepared.Ok? && Taken(r.db, prepared.value))
      && (r.answer.Some? ==>
            && (Backoff.ClassifyStatus(r.answer.value.status) == Backoff.Retry <==> r.answer.value.status == 500)
            && (Delivery(r) <==> r.answer.value.status == 200))
  {
    ProcessContract(mid, db, Prepare(body, envFrom, envTo), core);
  }

  lemma ProcessContract(mid: MessageIdOf, db: Db, prepared: Result<Octets, Refusal>, core: Processing)
    ensures
      var r := Process(mid, db, prepared, core);
      && (!Delivery(r) ==> r.db == db)
      && (Delivery(r) ==>
            && prepared.Ok? && Taken(r.db, prepared.value)
            && (r.db == db.(log := db.log + [prepared.value])
                || r.db == db.(ignored := db.ignored + {prepared.value})))
      && (AtMostOnce(mid, db) ==> AtMostOnce(mid, r.db))
      && (r.answer.Some? ==> r.answer.value.status in {200, 422, 500})
  {
  }

  /** No Message-Id has been posted twice. */
  predicate AtMostOnce(mid: MessageIdOf, db: Db) {
    forall i, j | 0 <= i < j < |db.log| :: mid(db.log[i]).Some? ==> mid(db.log[i]) != mid(db.log[j])
  }
}
