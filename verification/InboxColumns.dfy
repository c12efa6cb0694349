/**
 * What the statements on the queue's table write, column by column and in numbers. Nothing here is
 * stated through the functions of `InboxRows` or `Backoff`; they are what is being described.
 */
module InboxColumns {
  import opened Wrappers
  import opened InboxRows
  import Backoff
  import Percent

  // ----- INSERT and the operators' UPDATEs --------------------------------------------------

  /** A row as the email handler queues it. */
  ghost predicate IsNew(row: Row, input: EnqueueInput, config: Option<Config>, now: int) {
    && row.id == input.id && row.r2Key == input.r2Key && row.from == input.from && row.to == input.to
    && row.messageId == input.messageId && row.size == input.size && row.receivedAt == input.receivedAt
    && row.status == Pending && row.attempts == 0
    && row.nextAttemptAt == Some(now + if config.Some? then config.value.deliveryDelayMs else 0)
    && row.lastAttemptAt == None && row.lastStatus == None && row.lastError == None
    && row.threadId == None && row.deliveredAt == None && row.purgeAt == None
  }

  /** The table with a new row for the input, or as it was if it has one of that id. */
  ghost predicate Inserted(rows: Table, input: EnqueueInput, config: Option<Config>, now: int, rows': Table) {
    if input.id in rows then rows' == rows
    else
      && rows'.Keys == rows.Keys + {input.id} && IsNew(rows'[input.id], input, config, now)
      && forall id | id in rows :: rows'[id] == rows[id]
  }

  lemma InsertColumns(rows: Table, input: EnqueueInput, config: Option<Config>, now: int)
    ensures Inserted(rows, input, config, now, InsertOrIgnore(rows, input, now + Delay(config)))
  {
  }

  /** No surrogate among the first `n` code units of an address. */
  ghost predicate Clean(address: Units, n: nat) {
    forall i | 0 <= i < |address| && i < n :: address[i] < 0xD800 || address[i] > 0xDFFF
  }

  lemma PartIsClean(address: Units)
    ensures Percent.AsciiValue(MetadataPart(address)).Some? <==> Clean(address, 256)
  {
    var part := MetadataPart(address);
    Percent.AsciiValueDomain(part);
    assert |part| == if |address| < 256 then |address| else 256;
    assert forall i | 0 <= i < |part| :: part[i] == address[i] && part[i] in part;
  }

  /** Metadata can be written exactly when neither address has a surrogate in its first 256 code units. */
  lemma MetadataIs(from: Units, to: Units)
    ensures MetadataEncodes(from, to) <==> Clean(from, 256) && Clean(to, 256)
  {
    PartIsClean(from);
    PartIsClean(to);
  }

  /**
   * Back on the queue for an attempt at once with a fresh budget and no purge; what the last attempt left
   * behind stays.
   */
  ghost predicate BackOnQueue(row: Row, now: int, row': Row) {
    && row'.status == Pending && row'.attempts == 0 && row'.nextAttemptAt == Some(now) && row'.purgeAt == None
    && row' == row.(status := row'.status, attempts := row'.attempts, nextAttemptAt := row'.nextAttemptAt,
                    purgeAt := row'.purgeAt)
  }

  /** Every row that was chosen is back on the queue; the table keeps its other rows and all its keys. */
  ghost predicate RequeuedWhere(rows: Table, chosen: Row -> bool, now: int, rows': Table) {
    && rows'.Keys == rows.Keys
    && forall id | id in rows ::
         if chosen(rows[id]) then BackOnQueue(rows[id], now, rows'[id]) else rows'[id] == rows[id]
  }

  lemma RetryColumns(rows: Table, id: Id, now: int)
    requires Keyed(rows)
    ensures RequeuedWhere(rows, (row: Row) => row.id == id && row.status != Pending, now, RetryRow(rows, id, now))
  {
  }

  lemma RetryAllColumns(rows: Table, status: Status, now: int)
    ensures RequeuedWhere(rows, (row: Row) => row.status == status, now, RetryRows(rows, status, now))
  {
  }

  // ----- an attempt and its settle ----------------------------------------------------------

  /** At most 200 characters of an error are kept, the first ones. */
  ghost predicate Kept(error: Option<string>, kept: Option<string>) {
    && (error.None? ==> kept.None?)
    && (error.Some? ==>
          && kept.Some? && kept.value <= error.value
          && |kept.value| == if |error.value| > 200 then 200 else |error.value|)
  }

  /** The columns a settle leaves by its verdict. */
  ghost predicate ByVerdict(c: Config, row: Row, verdict: Backoff.Verdict, now: int)
    requires c.backoffSeconds != []
  {
    match verdict
    case Delivered =>
      && row.status == Delivered && row.nextAttemptAt == None
      && row.deliveredAt == Some(now) && row.purgeAt == Some(now + c.retentionMs)
    case Rejected =>
      row.status == Rejected && row.nextAttemptAt == None && row.deliveredAt == None && row.purgeAt == None
    case Dead =>
      row.status == Dead && row.nextAttemptAt == None && row.deliveredAt == None && row.purgeAt == None
    case Retry =>
      && row.deliveredAt == None && row.purgeAt == None && row.attempts >= 1
      && if row.attempts >= c.maxAttempts then row.status == Dead && row.nextAttemptAt == None
         else row.status == Pending && row.nextAttemptAt == Some(now + Backoff.WaitMs(c.backoffSeconds, row.attempts))
  }

  /** `row'` is `row` with the attempt recorded: its number, moment, answer, error and thread. */
  ghost predicate Recorded(row: Row, attempt: nat, e: Ending, now: int, row': Row) {
    && row'.attempts == attempt && row'.lastAttemptAt == Some(now)
    && row'.lastStatus == e.status && Kept(e.error, row'.lastError) && row'.threadId == e.thread
    && row'.id == row.id && row'.r2Key == row.r2Key && row'.from == row.from && row'.to == row.to
    && row'.messageId == row.messageId && row'.size == row.size && row'.receivedAt == row.receivedAt
  }

  lemma SettledColumns(c: Config, row: Row, attempt: nat, e: Ending, now: int)
    requires c.backoffSeconds != [] && attempt >= 1
    ensures Recorded(row, attempt, e, now, Settled(c, row, attempt, e, now))
    ensures ByVerdict(c, Settled(c, row, attempt, e, now), e.verdict, now)
  {
    Backoff.DelayIs(c.backoffSeconds, attempt);
  }

  /** What an attempt that was not cut off makes of its row: only a row still pending is written. */
  ghost predicate Attempted(c: Config, row: Row, attempt: nat, e: Ending, now: int, row': Row)
    requires c.backoffSeconds != []
  {
    if row.status == Pending then Recorded(row, attempt, e, now, row') && ByVerdict(c, row', e.verdict, now)
    else row' == row
  }

  /** What the UPDATE of a settle leaves: a row still pending is written, and no other. */
  ghost predicate SettledTable(c: Config, rows: Table, id: Id, attempt: nat, e: Ending, now: int, rows': Table)
    requires c.backoffSeconds != []
  {
    && rows'.Keys == rows.Keys
    && forall k | k in rows ::
         if k == id then Attempted(c, rows[k], attempt, e, now, rows'[k]) else rows'[k] == rows[k]
  }

  lemma SettleColumns(c: Config, rows: Table, id: Id, attempt: nat, e: Ending, now: int)
    requires c.backoffSeconds != [] && attempt >= 1
    ensures SettledTable(c, rows, id, attempt, e, now, SettleRow(c, rows, id, attempt, e, now))
  {
    if id in rows {
      SettledColumns(c, rows[id], attempt, e, now);
    }
  }

  /**
   * What one attempt is settled with: death for an object that is not there, another attempt where no
   * answer came or a transient one, and otherwise what the answer says. Only a delivery records the thread
   * and only the others an error.
   */
  ghost function EndsWith(there: bool, status: Option<int>, text: string, thread: Option<int>): Ending {
    if !there then Ending(Backoff.Dead, None, Some("stored message missing from R2"), None)
    else if status.None? then Ending(Backoff.Retry, None, Some(text), None)
    else if 200 <= status.value <= 299 then Ending(Backoff.Delivered, status, None, thread)
    else if status.value == 408 || status.value == 429 || 500 <= status.value <= 599 then
      Ending(Backoff.Retry, status, Some(text), None)
    else Ending(Backoff.Rejected, status, Some(text), None)
  }

  lemma EndingIs(status: Option<int>, text: string, thread: Option<int>)
    ensures EndingOf(status, text, thread) == EndsWith(true, status, text, thread)
    ensures MISSING_ENDING == EndsWith(false, status, text, thread)
  {
    Backoff.ClassifyIs(if status.Some? then status.value else 0);
  }

  // ----- what the SELECTs pick --------------------------------------------------------------

  /** The row is waiting for an attempt whose time has come. */
  ghost predicate Ready(row: Row, now: int) {
    && row.status == Pending && row.nextAttemptAt.Some? && row.nextAttemptAt.value <= now
  }

  /** Its retention has run out. */
  ghost predicate Stale(row: Row, now: int) {
    row.purgeAt.Some? && row.purgeAt.value <= now
  }

  /** Sooner, or at the same time and of the lower id. */
  ghost predicate Sooner(a: (int, Id), b: (int, Id)) {
    a.0 < b.0 || (a.0 == b.0 && a.1 < b.1)
  }

  /** A row waiting for its attempt, by the time and id it is served by. */
  ghost function Turn(row: Row): (int, Id)
    requires row.nextAttemptAt.Some?
  {
    (row.nextAttemptAt.value, row.id)
  }

  /** The pass takes ready rows only, as many as it may, in the order of their times and ids. */
  ghost predicate TakesReady(rows: Table, now: int, limit: nat, due: seq<Row>) {
    && |due| <= limit
    && (forall i | 0 <= i < |due| :: due[i] in rows.Values && Ready(due[i], now))
    && (forall i, j | 0 <= i < j < |due| ::
          && due[i].nextAttemptAt.Some? && due[j].nextAttemptAt.Some? && Sooner(Turn(due[i]), Turn(due[j])))
    && forall id | id in rows && Ready(rows[id], now) && rows[id] !in due ::
         && |due| == limit
         && forall i | 0 <= i < |due| :: due[i].nextAttemptAt.Some? && Sooner(Turn(due[i]), Turn(rows[id]))
  }

  lemma DueBatchIs(rows: Table, now: int, limit: nat, due: seq<Row>)
    requires Keyed(rows)
    ensures IsDueBatch(rows, now, limit, due) <==> TakesReady(rows, now, limit, due)
  {
  }

  /** The purge takes stale rows only, as many as it may, the longest overdue first, each with its key and mark. */
  ghost predicate TakesStale(rows: Table, now: int, limit: nat, doomed: seq<Doomed>) {
    && |doomed| <= limit
    && (forall i | 0 <= i < |doomed| ::
          && doomed[i].id in rows && Stale(rows[doomed[i].id], now)
          && doomed[i].key == rows[doomed[i].id].r2Key && Some(doomed[i].purgeAt) == rows[doomed[i].id].purgeAt)
    && (forall i, j | 0 <= i < j < |doomed| ::
          doomed[i].id != doomed[j].id && doomed[i].purgeAt <= doomed[j].purgeAt)
    && forall id | id in rows && Stale(rows[id], now) && (forall i | 0 <= i < |doomed| :: doomed[i].id != id) ::
         |doomed| == limit && forall i | 0 <= i < |doomed| :: doomed[i].purgeAt <= rows[id].purgeAt.value
  }

  lemma DoomedBatchIs(rows: Table, now: int, limit: nat, doomed: seq<Doomed>)
    ensures IsDoomedBatch(rows, now, limit, doomed) <==> TakesStale(rows, now, limit, doomed)
  {
  }

  /** What a purge deletes: exactly the rows picked that still carry a mark. */
  ghost predicate PurgedTable(rows: Table, doomed: seq<Doomed>, rows': Table) {
    && (forall id :: id in rows' <==>
          id in rows && (rows[id].purgeAt == None || forall i | 0 <= i < |doomed| :: doomed[i].id != id))
    && forall id | id in rows' :: rows'[id] == rows[id]
  }

  lemma PurgedColumns(rows: Table, doomed: seq<Doomed>)
    ensures PurgedTable(rows, doomed, PurgeRows(rows, doomed))
  {
  }

  // ----- the alarm --------------------------------------------------------------------------

  /** A row asks for the alarm at `at`: its attempt while it is pending, or its purge. */
  ghost predicate AsksFor(row: Row, at: int) {
    || (row.status == Pending && row.nextAttemptAt == Some(at))
    || row.purgeAt == Some(at)
  }

  /** The earliest time any row asks for, or none. */
  ghost predicate EarliestAsked(rows: Table, m: Option<int>) {
    && (m.Some? ==> exists id :: id in rows && AsksFor(rows[id], m.value))
    && forall id, at: int | id in rows && AsksFor(rows[id], at) :: m.Some? && m.value <= at
  }

  lemma EarliestIs(rows: Table, m: Option<int>)
    ensures IsEarliest(rows, m) <==> EarliestAsked(rows, m)
  {
    if IsEarliest(rows, m) && m.Some? {
      var id :| id in rows && Wake(rows[id]) == m;
      assert AsksFor(rows[id], m.value);
    }
    if EarliestAsked(rows, m) {
      forall id | id in rows && Wake(rows[id]).Some?
        ensures m.Some? && m.value <= Wake(rows[id]).value
      {
        assert AsksFor(rows[id], Wake(rows[id]).value);
      }
      if m.Some? {
        var id :| id in rows && AsksFor(rows[id], m.value);
        assert Wake(rows[id]).Some? && AsksFor(rows[id], Wake(rows[id]).value);
        assert Wake(rows[id]) == m;
      }
    }
  }
}
