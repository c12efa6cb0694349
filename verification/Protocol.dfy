/**
 * The inbound protocol as steps over one shared state: `handleEmail` calls, operator calls, the alarm
 * pass, R2, the network and Odoo, interleaved at every place the source awaits.
 *
 * A synchronous stretch of code is one step, and so is each R2 call, request and response. Storage
 * calls of the Durable Object hold its input gate, so `armNoLaterThan` and `rearm` are part of the
 * stretch they follow. One alarm handler runs at a time, firing it clears the alarm, and a handler cut
 * off by an eviction is run again by the runtime.
 */
module Protocol {
  import opened Wrappers
  import opened InboxRows
  import Backoff
  import Percent
  import Rfc822
  import OdooController

  /** What does not change over a run. */
  datatype World = World(config: Config, mid: OdooController.MessageIdOf)

  // ----- the state --------------------------------------------------------------------------

  /** A message as `handleEmail` sees it, with the octets it stores. */
  datatype Mail = Mail(from: Units, to: Units, messageId: Option<string>, raw: Octets, stored: Octets)

  /** `handleEmail` got past its own check and the prepend. */
  predicate Admissible(mail: Mail) {
    && Rfc822.HeaderSafe(Rfc822.DELIVERED_TO, mail.to)
    && Rfc822.HeaderSafe(Rfc822.RETURN_PATH, mail.from)
    && Rfc822.Prepend(mail.raw, Rfc822.EnvelopeHeaders(mail.from, mail.to)) == Some(mail.stored)
  }

  /** A `handleEmail` call waiting for R2, or for the queue. */
  datatype Ingest = Storing | Queueing

  /** A `remove` call past its SELECT; `erased` once the R2 delete has taken effect. */
  datatype Removal = Removal(id: Id, key: Key, erased: bool)

  /** Where `deliver` is with the row at hand. */
  datatype Stage =
    | Fetching                          // about to read the object
    | Missing                           // the object was not there
    | Reading(body: Octets)             // object at hand; body and signature being made
    | Posted(req: nat)                  // waiting for a response
    | Answered(status: Option<int>)     // response (or none) at hand; its text being read

  datatype Pass =
    | Idle
    | Delivering(batch: seq<Row>, at: nat, stage: Stage)
    | Sweeping
    | Purging(doomed: seq<Doomed>)
    | Purged(doomed: seq<Doomed>)
    | Rearming

  datatype Request = Request(id: Id, body: Octets, envFrom: Octets, envTo: Octets)

  /** What has happened so far; nothing in the protocol reads it. */
  datatype History = History(
    mail: map<Id, Mail>,        // every message given an id
    queued: set<Id>,            // ids a row was inserted for
    accepted: set<Id>,          // handleEmail returned without rejecting
    failed: set<Id>,            // handleEmail threw
    delivered: set<Id>,         // a settle marked the row delivered
    asked: set<Id>,             // an operator's remove found the row
    erased: set<Id>,            // such a remove has deleted the object
    first: map<Id, int>,        // when attempt 1 after the last (re)queue was settled
    grace: int,                 // when the last failed or cut-off pass was to run again
    passes: seq<set<Id>>)       // for each pass that ended with no delivery fault, the ids whose attempt threw

  datatype State = State(
    now: int,
    rows: Table,
    bucket: map<Key, Octets>,
    alarm: Option<int>,
    pass: Pass,
    healthy: bool,              // no phase of the running pass has failed
    thrown: Option<set<Id>>,    // ids whose attempt the running pass saw throw; None after a delivery fault
    emails: map<Id, Ingest>,
    removes: map<nat, Removal>,
    requests: map<nat, Request>,
    answers: set<(nat, int)>,   // statuses Odoo has answered a request with
    odoo: OdooController.Db,
    h: History)

  predicate Initial(s: State) {
    && s.rows == map[] && s.bucket == map[] && s.alarm == None && s.pass == Idle
    && s.emails == map[] && s.removes == map[] && s.requests == map[] && s.answers == {}
    && s.odoo == OdooController.Db([], {})
    && s.h == History(map[], {}, {}, {}, {}, {}, {}, map[], s.now, [])
  }

  // ----- the steps --------------------------------------------------------------------------

  datatype Step =
    | Tick(t: int)
    | EmailStart(id: Id, mail: Mail)
    | EmailPut(id: Id, took: bool, threw: bool)
    | EmailEnqueue(id: Id, configOk: bool, replied: bool)
    | EmailLost(id: Id)
    | RetryOne(id: Id)
    | RetryParked(parked: Status)
    | RemoveStart(call: nat, id: Id)
    | RemoveErase(call: nat, took: bool, threw: bool)
    | RemoveRow(call: nat)
    | AlarmFires(due: seq<Row>, fault: bool)
    | GetObject
    | Post(req: nat)
    | Response(status: Option<int>)
    | Settle(text: string, thread: Option<int>)
    | DeliverThrows
    | PurgeSelect(doomed: seq<Doomed>, fault: bool)
    | PurgeErase(gone: set<Key>, threw: bool)
    | PurgeRowsStep
    | Rearm(next: Option<int>)
    | Evict(again: int)
    | OdooHandles(req: nat, known: bool, signed: bool, core: OdooController.Processing)

  function KeyOf(c: Config, id: Id): Key {
    Key(c.keyPrefix, id)
  }

  function InputOf(c: Config, id: Id, mail: Mail, now: int): EnqueueInput {
    EnqueueInput(id, KeyOf(c, id), mail.from, mail.to, mail.messageId, |mail.stored|, now)
  }

  /** The row `deliver` is working on. */
  function Current(s: State): Row
    requires s.pass.Delivering? && s.pass.at < |s.pass.batch|
  {
    s.pass.batch[s.pass.at]
  }

  predicate AtStage(s: State) {
    s.pass.Delivering? && s.pass.at < |s.pass.batch|
  }

  /** On to the next row of the batch, or to the purge. */
  function Advance(pass: Pass): Pass
    requires pass.Delivering?
  {
    if pass.at + 1 < |pass.batch| then Delivering(pass.batch, pass.at + 1, Fetching) else Sweeping
  }

  /** What the attempt at hand is settled with. */
  function StageEnding(stage: Stage, text: string, thread: Option<int>): Ending {
    if stage.Answered? then EndingOf(stage.status, text, thread) else MISSING_ENDING
  }

  ghost predicate Enabled(w: World, s: State, step: Step) {
    var c := w.config;
    match step
    case Tick(t) => s.now <= t
    case EmailStart(id, mail) => id !in s.h.mail && Admissible(mail)
    case EmailPut(id, took, threw) =>
      && id in s.emails && s.emails[id] == Storing && id in s.h.mail && (threw || took)
      && (!MetadataEncodes(s.h.mail[id].from, s.h.mail[id].to) ==> threw && !took)
    case EmailEnqueue(id, _, _) => id in s.emails && s.emails[id] == Queueing && id in s.h.mail
    case EmailLost(id) => id in s.emails
    case RetryOne(id) => true
    case RetryParked(parked) => parked == Dead || parked == Rejected
    case RemoveStart(call, id) => id in s.rows && call !in s.removes
    case RemoveErase(call, took, threw) => call in s.removes && !s.removes[call].erased && (threw || took)
    case RemoveRow(call) => call in s.removes && s.removes[call].erased
    case AlarmFires(due, fault) =>
      && s.pass == Idle && s.alarm.Some? && s.alarm.value <= s.now
      && IsDueBatch(s.rows, s.now, ALARM_BATCH, due)
    case GetObject => AtStage(s) && s.pass.stage == Fetching
    case Post(req) =>
      && AtStage(s) && s.pass.stage.Reading? && req !in s.requests
      && Percent.AsciiValue(Current(s).from).Some? && Percent.AsciiValue(Current(s).to).Some?
    case Response(status) =>
      && AtStage(s) && s.pass.stage.Posted?
      && (status.Some? && Backoff.ClassifyStatus(status.value) == Backoff.Delivered ==>
            (s.pass.stage.req, status.value) in s.answers)
    case Settle(_, _) => AtStage(s) && (s.pass.stage.Missing? || s.pass.stage.Answered?)
    case DeliverThrows => AtStage(s)
    case PurgeSelect(doomed, _) => s.pass == Sweeping && IsDoomedBatch(s.rows, s.now, PURGE_BATCH, doomed)
    case PurgeErase(gone, threw) =>
      s.pass.Purging? && gone <= DoomedKeys(s.pass.doomed) && (threw || gone == DoomedKeys(s.pass.doomed))
    case PurgeRowsStep => s.pass.Purged?
    case Rearm(next) => s.pass == Rearming && IsEarliest(s.rows, next)
    case Evict(_) => true
    case OdooHandles(req, _, _, _) => req in s.requests
  }

  // What a step makes of each part of the state. A part no case names is left as it is.

  predicate AnyIn(rows: Table, status: Status) {
    exists id :: id in rows && rows[id].status == status
  }

  predicate Parked(rows: Table, id: Id) {
    id in rows && rows[id].status != Pending
  }

  /** The row a settle writes to: the one at hand, if it is still there and still pending. */
  predicate Applies(s: State) {
    AtStage(s) && Current(s).id in s.rows && s.rows[Current(s).id].status == Pending
  }

  function FirstAttemptAt(s: State, id: Id, configOk: bool, c: Config): int {
    s.now + Delay(if configOk then Some(c) else None)
  }

  function NextRows(c: Config, s: State, step: Step): Table
    requires c.backoffSeconds != []
  {
    match step
    case EmailEnqueue(id, configOk, _) =>
      if id in s.h.mail then
        InsertOrIgnore(s.rows, InputOf(c, id, s.h.mail[id], s.now), FirstAttemptAt(s, id, configOk, c))
      else s.rows
    case RetryOne(id) => RetryRow(s.rows, id, s.now)
    case RetryParked(parked) => RetryRows(s.rows, parked, s.now)
    case RemoveRow(call) => if call in s.removes then Without(s.rows, s.removes[call].id) else s.rows
    case Settle(text, thread) =>
      if Settling(s) then
        SettleRow(c, s.rows, Current(s).id, Current(s).attempts + 1, StageEnding(s.pass.stage, text, thread), s.now)
      else s.rows
    case PurgeRowsStep => PurgeRows(s.rows, DoomedOf(s.pass))
    case _ => s.rows
  }

  predicate Settling(s: State) {
    AtStage(s) && (s.pass.stage.Missing? || s.pass.stage.Answered?)
  }

  function BatchOf(pass: Pass): seq<Row> {
    if pass.Delivering? then pass.batch else []
  }

  function DoomedOf(pass: Pass): seq<Doomed> {
    match pass
    case Purging(doomed) => doomed
    case Purged(doomed) => doomed
    case _ => []
  }

  function NextBucket(c: Config, s: State, step: Step): map<Key, Octets> {
    match step
    case EmailPut(id, took, _) =>
      if took && id in s.h.mail then s.bucket[KeyOf(c, id) := s.h.mail[id].stored] else s.bucket
    case RemoveErase(call, took, _) =>
      if took && call in s.removes then s.bucket - {s.removes[call].key} else s.bucket
    case PurgeErase(gone, _) => s.bucket - gone
    case _ => s.bucket
  }

  function NextAlarm(c: Config, s: State, step: Step): Option<int> {
    match step
    case EmailEnqueue(id, configOk, _) =>
      if id in s.rows then s.alarm else NoLater(s.alarm, FirstAttemptAt(s, id, configOk, c))
    case RetryOne(id) => if Parked(s.rows, id) then NoLater(s.alarm, s.now) else s.alarm
    case RetryParked(parked) => if AnyIn(s.rows, parked) then NoLater(s.alarm, s.now) else s.alarm
    case AlarmFires(_, _) => None
    case Rearm(next) => if s.healthy then next else Some(s.now + ALARM_RETRY_MS)
    case Evict(again) => if s.pass == Idle then s.alarm else Some(again)
    case _ => s.alarm
  }

  function NextPass(s: State, step: Step): Pass {
    match step
    case AlarmFires(due, fault) => if due != [] && !fault then Delivering(due, 0, Fetching) else Sweeping
    case GetObject =>
      if AtStage(s) then
        var key := Current(s).r2Key;
        s.pass.(stage := if key in s.bucket then Reading(s.bucket[key]) else Missing)
      else s.pass
    case Post(req) => if s.pass.Delivering? then s.pass.(stage := Posted(req)) else s.pass
    case Response(status) => if s.pass.Delivering? then s.pass.(stage := Answered(status)) else s.pass
    case Settle(_, _) => if s.pass.Delivering? then Advance(s.pass) else s.pass
    case DeliverThrows => if s.pass.Delivering? then Advance(s.pass) else s.pass
    case PurgeSelect(doomed, fault) => if fault || doomed == [] then Rearming else Purging(doomed)
    case PurgeErase(_, threw) => if threw then Rearming else Purged(DoomedOf(s.pass))
    case PurgeRowsStep => Rearming
    case Rearm(_) => Idle
    case Evict(_) => Idle
    case _ => s.pass
  }

  function NextHealthy(s: State, step: Step): bool {
    match step
    case AlarmFires(due, fault) => due == [] || !fault
    case PurgeSelect(_, fault) => s.healthy && !fault
    case PurgeErase(_, threw) => s.healthy && !threw
    case _ => s.healthy
  }

  function NextThrown(s: State, step: Step): Option<set<Id>> {
    match step
    case AlarmFires(due, fault) => if due == [] || !fault then Some({}) else None
    case DeliverThrows =>
      if AtStage(s) && s.thrown.Some? then Some(s.thrown.value + {Current(s).id}) else s.thrown
    case _ => s.thrown
  }

  function NextPasses(s: State, step: Step): seq<set<Id>> {
    if step.Rearm? && s.thrown.Some? then s.h.passes + [s.thrown.value] else s.h.passes
  }

  function NextEmails(s: State, step: Step): map<Id, Ingest> {
    match step
    case EmailStart(id, _) => s.emails[id := Storing]
    case EmailPut(id, _, threw) => if threw then s.emails - {id} else s.emails[id := Queueing]
    case EmailEnqueue(id, _, _) => s.emails - {id}
    case EmailLost(id) => s.emails - {id}
    case _ => s.emails
  }

  function NextRemoves(s: State, step: Step): map<nat, Removal> {
    match step
    case RemoveStart(call, id) =>
      if id in s.rows then s.removes[call := Removal(id, s.rows[id].r2Key, false)] else s.removes
    case RemoveErase(call, _, threw) =>
      if threw then s.removes - {call}
      else if call in s.removes then s.removes[call := s.removes[call].(erased := true)]
      else s.removes
    case RemoveRow(call) => s.removes - {call}
    case Evict(_) => map[]
    case _ => s.removes
  }

  function NextRequests(s: State, step: Step): map<nat, Request> {
    match step
    case Post(req) =>
      if AtStage(s) && s.pass.stage.Reading? then
        match (Percent.AsciiValue(Current(s).from), Percent.AsciiValue(Current(s).to))
        case (Some(from), Some(to)) => s.requests[req := Request(Current(s).id, s.pass.stage.body, from, to)]
        case _ => s.requests
      else s.requests
    case _ => s.requests
  }

  /** One request served: Odoo's answer to it and the database it leaves. */
  function Service(w: World, s: State, step: Step): OdooController.Served
    requires step.OdooHandles? && step.req in s.requests
  {
    var r := s.requests[step.req];
    OdooController.Serve(w.mid, s.odoo, step.known, step.signed, r.body, Some(r.envFrom), Some(r.envTo), step.core)
  }

  function NextAnswers(w: World, s: State, step: Step): set<(nat, int)> {
    if step.OdooHandles? && step.req in s.requests && Service(w, s, step).answer.Some? then
      s.answers + {(step.req, Service(w, s, step).answer.value.status)}
    else s.answers
  }

  function NextOdoo(w: World, s: State, step: Step): OdooController.Db {
    if step.OdooHandles? && step.req in s.requests then Service(w, s, step).db else s.odoo
  }

  function NextAccepted(s: State, step: Step): set<Id> {
    if step.EmailEnqueue? && step.replied then s.h.accepted + {step.id} else s.h.accepted
  }

  function NextFailed(s: State, step: Step): set<Id> {
    match step
    case EmailPut(id, _, threw) => if threw then s.h.failed + {id} else s.h.failed
    case EmailEnqueue(id, _, replied) => if replied then s.h.failed else s.h.failed + {id}
    case EmailLost(id) => s.h.failed + {id}
    case _ => s.h.failed
  }

  /** The settle at hand marks its row delivered. */
  predicate DeliversCurrent(s: State, step: Step) {
    && step.Settle? && Settling(s) && Applies(s) && s.pass.stage.Answered? && s.pass.stage.status.Some?
    && Backoff.ClassifyStatus(s.pass.stage.status.value) == Backoff.Delivered
  }

  function NextDelivered(s: State, step: Step): set<Id> {
    if DeliversCurrent(s, step) then s.h.delivered + {Current(s).id} else s.h.delivered
  }

  function NextErased(s: State, step: Step): set<Id> {
    if step.RemoveErase? && step.took && step.call in s.removes then s.h.erased + {s.removes[step.call].id}
    else s.h.erased
  }

  /** The settle at hand is its row's first since it was (re)queued. */
  predicate SettlesFirst(s: State, step: Step) {
    step.Settle? && Settling(s) && Applies(s) && Current(s).attempts == 0
  }

  function NextFirst(s: State, step: Step): map<Id, int> {
    if SettlesFirst(s, step) then s.h.first[Current(s).id := s.now] else s.h.first
  }

  function NextGrace(s: State, step: Step): int {
    match step
    case Rearm(_) => if s.healthy then s.h.grace else s.now + ALARM_RETRY_MS
    case Evict(again) => if s.pass == Idle then s.h.grace else again
    case _ => s.h.grace
  }

  function NextHistory(s: State, step: Step): History {
    History(
      if step.EmailStart? then s.h.mail[step.id := step.mail] else s.h.mail,
      if step.EmailEnqueue? then s.h.queued + {step.id} else s.h.queued,
      NextAccepted(s, step),
      NextFailed(s, step),
      NextDelivered(s, step),
      if step.RemoveStart? then s.h.asked + {step.id} else s.h.asked,
      NextErased(s, step),
      NextFirst(s, step),
      NextGrace(s, step),
      NextPasses(s, step))
  }

  function Next(w: World, s: State, step: Step): State
    requires ValidConfig(w.config)
  {
    State(
      if step.Tick? then step.t else s.now,
      NextRows(w.config, s, step),
      NextBucket(w.config, s, step),
      NextAlarm(w.config, s, step),
      NextPass(s, step),
      NextHealthy(s, step),
      NextThrown(s, step),
      NextEmails(s, step),
      NextRemoves(s, step),
      NextRequests(s, step),
      NextAnswers(w, s, step),
      NextOdoo(w, s, step),
      NextHistory(s, step))
  }

  // ----- runs -------------------------------------------------------------------------------

  /** The state after a list of steps; None when one of them could not be taken. */
  ghost function Run(w: World, s: State, steps: seq<Step>): Option<State>
    requires ValidConfig(w.config)
  {
    if steps == [] then Some(s)
    else
      match Run(w, s, steps[..|steps| - 1])
      case None => None
      case Some(t) =>
        var step := steps[|steps| - 1];
        if Enabled(w, t, step) then Some(Next(w, t, step)) else None
  }

  /** Some run from `s` comes to `t`. */
  ghost predicate Leads(w: World, s: State, t: State)
    requires ValidConfig(w.config)
  {
    exists steps :: Run(w, s, steps) == Some(t)
  }

  /** `s` is reached from an empty queue. */
  ghost predicate Reachable(w: World, s: State)
    requires ValidConfig(w.config)
  {
    exists s0, steps :: Initial(s0) && Run(w, s0, steps) == Some(s)
  }
}
