/**
 * The queue's table as a value: what each SQL statement of worker/src/inbox-do.ts does to it. The
 * class `InboxQueue` carries these out and the protocol in `Protocol` steps with them.
 */
module InboxRows {
  import opened Text
  import opened Wrappers
  import Backoff
  import Percent

  /** A ULID as the number it stands for; `Ulid.IdOrder` shows that ids sort as these numbers do. */
  type Id = nat

  /** `<prefix><ulid>.eml`. */
  datatype Key = Key(prefix: string, ulid: Id)

  type Octets = seq<byte>
  type Units = seq<CodeUnit>

  const ALARM_BATCH := 10
  const PURGE_BATCH := 100
  const ALARM_RETRY_MS := 60_000
  const MAX_ERROR_CHARS := 200
  const MAX_LIST := 1000
  const MAX_METADATA_ADDRESS := 256
  const MISSING := "stored message missing from R2"

  datatype Config = Config(
    keyPrefix: string,
    maxAttempts: nat,
    backoffSeconds: seq<nat>,
    retentionMs: nat,
    deliveryDelayMs: nat)

  predicate ValidConfig(c: Config) {
    && c.maxAttempts >= 1
    && c.backoffSeconds != []
    && forall i | 0 <= i < |c.backoffSeconds| :: c.backoffSeconds[i] >= 1
  }

  datatype Status = Pending | Delivered | Rejected | Dead

  datatype Row = Row(
    id: Id,
    r2Key: Key,
    from: Units,
    to: Units,
    messageId: Option<string>,
    size: nat,
    receivedAt: int,
    status: Status,
    attempts: nat,
    nextAttemptAt: Option<int>,
    lastAttemptAt: Option<int>,
    lastStatus: Option<int>,
    lastError: Option<string>,
    threadId: Option<int>,
    deliveredAt: Option<int>,
    purgeAt: Option<int>)

  type Table = map<Id, Row>

  // ----- INSERT -----------------------------------------------------------------------------

  datatype EnqueueInput = EnqueueInput(
    id: Id, r2Key: Key, from: Units, to: Units, messageId: Option<string>, size: nat, receivedAt: int)

  function NewRow(input: EnqueueInput, nextAttemptAt: int): Row {
    Row(input.id, input.r2Key, input.from, input.to, input.messageId, input.size, input.receivedAt,
        Pending, 0, Some(nextAttemptAt), None, None, None, None, None, None)
  }

  function InsertOrIgnore(rows: Table, input: EnqueueInput, nextAttemptAt: int): Table {
    if input.id in rows then rows else rows[input.id := NewRow(input, nextAttemptAt)]
  }

  /** The part of an address kept as object metadata. */
  function MetadataPart(address: Units): Units {
    if |address| <= MAX_METADATA_ADDRESS then address else address[..MAX_METADATA_ADDRESS]
  }

  /** Both addresses can be written as object metadata; `asciiValue` throws where they cannot. */
  predicate MetadataEncodes(from: Units, to: Units) {
    Percent.AsciiValue(MetadataPart(from)).Some? && Percent.AsciiValue(MetadataPart(to)).Some?
  }

  /** `deliveryDelayMs`: a broken configuration counts as no delay. */
  function Delay(config: Option<Config>): nat {
    if config.Some? then config.value.deliveryDelayMs else 0
  }

  // ----- the alarm --------------------------------------------------------------------------

  /** `armNoLaterThan`. */
  function NoLater(alarm: Option<int>, at: int): (r: Option<int>)
    ensures r.Some? && r.value <= at
    ensures alarm.Some? ==> r.value <= alarm.value
    ensures r == Some(at) || r == alarm
  {
    if alarm.None? || at < alarm.value then Some(at) else alarm
  }

  /** The next thing a row has to do: its attempt while pending, its purge once one is set. */
  function Wake(row: Row): Option<int> {
    if row.status == Pending && row.nextAttemptAt.Some? then
      if row.purgeAt.Some? && row.purgeAt.value < row.nextAttemptAt.value then row.purgeAt else row.nextAttemptAt
    else row.purgeAt
  }

  /** What the MIN query of `rearm` returns. */
  ghost predicate IsEarliest(rows: Table, m: Option<int>) {
    && (m.None? ==> forall id | id in rows :: Wake(rows[id]).None?)
    && (m.Some? ==>
          && (exists id :: id in rows && Wake(rows[id]) == m)
          && forall id | id in rows && Wake(rows[id]).Some? :: m.value <= Wake(rows[id]).value)
  }

  // ----- operator UPDATEs -------------------------------------------------------------------

  function Requeued(row: Row, now: int): Row {
    row.(status := Pending, attempts := 0, nextAttemptAt := Some(now), purgeAt := None)
  }

  function RetryRow(rows: Table, id: Id, now: int): Table {
    if id in rows && rows[id].status != Pending then rows[id := Requeued(rows[id], now)] else rows
  }

  function RetryRows(rows: Table, status: Status, now: int): Table {
    map id | id in rows :: if rows[id].status == status then Requeued(rows[id], now) else rows[id]
  }

  // ----- settling an attempt ----------------------------------------------------------------

  /** `error.slice(0, MAX_ERROR_CHARS)`. */
  function Cut(error: Option<string>): (r: Option<string>)
    ensures r.Some? ==> |r.value| <= MAX_ERROR_CHARS
  {
    if error.Some? && |error.value| > MAX_ERROR_CHARS then Some(error.value[..MAX_ERROR_CHARS]) else error
  }

  /** The verdict once the attempt budget is applied. */
  function Outcome(c: Config, attempt: nat, verdict: Backoff.Verdict): Backoff.Verdict {
    if verdict == Backoff.Retry && attempt >= c.maxAttempts then Backoff.Dead else verdict
  }

  function StatusOf(outcome: Backoff.Verdict): Status {
    match outcome
    case Delivered => Delivered
    case Retry => Pending
    case Rejected => Rejected
    case Dead => Dead
  }

  /** The verdict, status, error and thread id an attempt is settled with. */
  datatype Ending = Ending(verdict: Backoff.Verdict, status: Option<int>, error: Option<string>, thread: Option<int>)

  /** The object was not in the bucket. */
  const MISSING_ENDING := Ending(Backoff.Dead, None, Some(MISSING), None)

  /** A response, or none; `text` is what `errorMessage` or `errorOf` made of it, `thread` what `threadIdOf` did. */
  function EndingOf(status: Option<int>, text: string, thread: Option<int>): Ending {
    match status
    case None => Ending(Backoff.Retry, None, Some(text), None)
    case Some(st) =>
      var v := Backoff.ClassifyStatus(st);
      if v == Backoff.Delivered then Ending(v, status, None, thread) else Ending(v, status, Some(text), None)
  }

  /** `attempt`, counted from the row as the batch read it. */
  function Settled(c: Config, row: Row, attempt: nat, e: Ending, now: int): Row
    requires c.backoffSeconds != []
  {
    var outcome := Outcome(c, attempt, e.verdict);
    row.(status := StatusOf(outcome),
         attempts := attempt,
         nextAttemptAt :=
           if outcome == Backoff.Retry then Some(now + Backoff.DelayMs(c.backoffSeconds, attempt)) else None,
         lastAttemptAt := Some(now),
         lastStatus := e.status,
         lastError := Cut(e.error),
         threadId := e.thread,
         deliveredAt := if outcome == Backoff.Delivered then Some(now) else None,
         purgeAt := if outcome == Backoff.Delivered then Some(now + c.retentionMs) else None)
  }

  /** The guarded UPDATE of `settle`: only a row still pending is touched. */
  function SettleRow(c: Config, rows: Table, id: Id, attempt: nat, e: Ending, now: int): Table
    requires c.backoffSeconds != []
  {
    if id in rows && rows[id].status == Pending then rows[id := Settled(c, rows[id], attempt, e, now)] else rows
  }

  // ----- SELECTs ----------------------------------------------------------------------------

  predicate Due(row: Row, now: int) {
    row.status == Pending && row.nextAttemptAt.Some? && row.nextAttemptAt.value <= now
  }

  /** `ORDER BY next_attempt_at, id`. */
  predicate Ahead(a: Row, b: Row) {
    a.nextAttemptAt.Some? && b.nextAttemptAt.Some? &&
    (a.nextAttemptAt.value < b.nextAttemptAt.value ||
     (a.nextAttemptAt.value == b.nextAttemptAt.value && a.id < b.id))
  }

  /** The rows are filed under their ids. */
  predicate Keyed(rows: Table) {
    forall id | id in rows :: rows[id].id == id
  }

  /** What the SELECT of `processDue` returns: the first `limit` due rows in order. */
  ghost predicate IsDueBatch(rows: Table, now: int, limit: nat, due: seq<Row>) {
    && |due| <= limit
    && (forall i | 0 <= i < |due| :: due[i].id in rows && rows[due[i].id] == due[i] && Due(due[i], now))
    && (forall i, j | 0 <= i < j < |due| :: Ahead(due[i], due[j]))
    && (forall id | id in rows && Due(rows[id], now) && rows[id] !in due ::
          |due| == limit && forall i | 0 <= i < |due| :: Ahead(due[i], rows[id]))
  }

  /** A row picked for purging, with the mark it was picked for. */
  datatype Doomed = Doomed(id: Id, key: Key, purgeAt: int)

  predicate Expired(row: Row, now: int) {
    row.purgeAt.Some? && row.purgeAt.value <= now
  }

  /** What the SELECT of `purgeExpired` returns: up to `limit` expired rows, earliest mark first. */
  ghost predicate IsDoomedBatch(rows: Table, now: int, limit: nat, doomed: seq<Doomed>) {
    && |doomed| <= limit
    && (forall i | 0 <= i < |doomed| ::
          && doomed[i].id in rows
          && Expired(rows[doomed[i].id], now)
          && doomed[i] == Doomed(doomed[i].id, rows[doomed[i].id].r2Key, rows[doomed[i].id].purgeAt.value))
    && (forall i, j | 0 <= i < j < |doomed| ::
          doomed[i].id != doomed[j].id && doomed[i].purgeAt <= doomed[j].purgeAt)
    && (forall id | id in rows && Expired(rows[id], now) && (forall i | 0 <= i < |doomed| :: doomed[i].id != id) ::
          |doomed| == limit && forall i | 0 <= i < |doomed| :: doomed[i].purgeAt <= rows[id].purgeAt.value)
  }

  predicate Named(doomed: seq<Doomed>, id: Id) {
    exists i :: 0 <= i < |doomed| && doomed[i].id == id
  }

  function DoomedKeys(doomed: seq<Doomed>): set<Key> {
    set i | 0 <= i < |doomed| :: doomed[i].key
  }

  /** The guarded DELETEs of `purgeExpired`: a row whose mark was cleared survives. */
  function PurgeRows(rows: Table, doomed: seq<Doomed>): Table {
    map id | id in rows && !(Named(doomed, id) && rows[id].purgeAt.Some?) :: rows[id]
  }

  function Without(rows: Table, id: Id): Table {
    rows - {id}
  }
}
