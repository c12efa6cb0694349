# Cloudflare mail for Odoo, modelled and proved in Dafny

The repository has two halves. A Cloudflare Worker takes mail in, stores it in a bucket first, queues a
row in a Durable Object, and pushes the message to Odoo until Odoo takes it. An Odoo module receives
those pushes, and on the way out turns messages into requests to Cloudflare's sending API. This project
models both and proves what they promise. `dafny verify dfyconfig.toml` checks it.

## What is modelled

**The inbound queue.** `InboxRows` gives every SQL statement of the Durable Object as a function on a
table, and `InboxColumns` says in columns and numbers what they come to; `InboxQueue` is the object
itself, a class whose methods change the table, the alarm and the bucket, each proved against both.
`Protocol` puts the same functions to work as a state machine in which `handleEmail` calls, operator
calls, the alarm pass, R2, the network and Odoo interleave at every place the source awaits;
`ProtocolSteps` says what each step does in terms of the source, and that nothing which can happen is held
back. The modules `ProtocolMoves` (what each step may change), `ProtocolBooks`, `ProtocolCustody`,
`ProtocolShape`, `ProtocolAlarm` and `ProtocolWire` each keep one part of an inductive invariant.
`ProtocolTheorems`, `ProtocolFairness` and `ProtocolStarvation` state what follows for every run,
`ProtocolRequeue` what an operator's retry comes to. `ProtocolRefinement` shows that a pass and a removal
of the class are runs of the state machine, and `ProtocolReach` which mail is queued, delivered or posted
twice in some run, and that the states the other theorems speak of come about.

**The wire between the Worker and Odoo.** `Percent`, `Rfc822`, `OdooMessage`, `Signature` and
`OdooController` are byte-level models of both sides of one request, with the theorems that the two
sides undo or agree with each other. `Backoff` has the retry schedule and the reading of status codes;
`Ulid` the ids the queue sorts by.

**The outbound mapping and session.** `MessageIds`, `OutboundHeaders`, `OutboundRecipients` and
`SendingSession` model the header and recipient mapping and the POST loop; `OutboundHeaderTheorems` and
`SendingTheorems` prove what they promise.

## What is assumed

- A synchronous stretch of Worker code runs without interruption. Storage calls of the Durable Object hold
  its input gate, so arming the alarm belongs to the stretch it follows. One alarm handler runs at a time;
  firing the alarm clears it; a handler that is cut off is run again by the runtime, at a time the model
  leaves open. Storage reads and writes of the Durable Object succeed, except that a phase of the pass may
  fail (a `fault`), as it does on a broken configuration.
- A bucket call may fail with or without having taken effect, but one that has failed does not take effect
  later. Only the Worker deletes from the bucket.
- Every request whose signature Odoo accepts is one of this Worker's: nobody else has the secret.
- Ids made for new mail are fresh. The configuration does not change over a run, though reading it may fail
  at times. The schedule has at least one entry and every entry is at least one second.
- A 2xx answer comes from Odoo and from nobody in between. Any other answer, or none, may come at any time,
  also to a request that Odoo did or will still serve; one request may be served several times.
- Odoo posts no Message-Id it has posted before, and decides that atomically (mail_cloudflare/README.md,
  lines 32-34). A transaction is committed after the handler's 200 answer or not at all.
- The Worker's clock never goes backwards. Fairness, the time budget and the exactness of purges rest on
  this, and `Date.now()` does not promise it.
- HMAC-SHA256 gives 32 octets. Nothing is assumed about collisions; where one would matter the theorem says
  so.

## Where the code and its documentation differ

The model follows the code in each of these.

- `asciiValue` (worker/src/inbox-do.ts:176-187) is documented as covering any address. It hands single
  UTF-16 code units to `encodeURIComponent`, so a character outside the basic plane makes it throw;
  `Percent.AsciiValueDomain` gives the exact domain. Among the first 256 code units of an address that makes
  `handleEmail` itself throw, and no row is ever made; further on, the row is made and every attempt on it
  throws (`ProtocolReach.QueuedIff`, with `StuckRowExists` for a run that comes to it). Such a row is neither
  delivered nor dead (`ProtocolTheorems.AstralMailIsNeverDelivered`, `AstralMailStaysPending`).
- The pass delivers the due rows "oldest first" (worker/src/inbox-do.ts:448-452), ten at a time. An attempt
  that throws is not charged and its row keeps its place, so ten rows of the kind above fill every batch and
  nothing behind them is attempted again: `ProtocolStarvation.StarvedByTen`, and
  `ProtocolReach.TenCanBeInFront` for a run that comes to it. With fewer than ten in front every other row
  gets its turn, and how soon: `ProtocolStarvation.NoStarvation`.
- The schedule refuses a delay of zero because the alarm would then be set for "now" and spin
  (worker/src/lib/backoff.ts:29-31). One stuck row makes it spin all the same: `ProtocolStarvation.StuckRowSpins`.
  When the alarm does lie in the future is `ProtocolAlarm.ComesStraightBackIff`.
- "A retried push is harmless" (mail_cloudflare/README.md:33-34) holds of messages in which Odoo reads a
  Message-Id, and of no others: `ProtocolReach.PostedTwiceIff`.
- `handleEmail` checks the bare sender (worker/src/handlers/email.ts:44), the stored line holds it in
  brackets (worker/src/lib/rfc822.ts:58). `Rfc822.PrecheckGap`: a sender of 984 or 985 octets passes the
  check and then throws; `LongSenderThrows` is one.
- `_cloudflare_prepare_message` is not idempotent on every body. `OdooMessage.PrepareIdempotent` has the
  exact condition, `UnstableBodyExists` an instance.
- "Never the own id" (mail_cloudflare/cloudflare_api.py:295-298): an own id that is present but not last can
  be trimmed. `OutboundHeaderTheorems.OwnIdTravelsIff` says exactly when it survives, `OwnIdCanBeLost`
  gives a message that loses it.
- `to` is called mandatory (mail_cloudflare/cloudflare_api.py:187), yet a request can have none.
  `OutboundRecipients.NoToIff` says exactly when, `TwoHiddenHaveNoTo` gives a case.
- `_post` documents one kind of error (mail_cloudflare/cloudflare_api.py:562-570); a negative Retry-After
  makes the sleep itself raise. `SendingTheorems.SleepFailsIff` says exactly when, `SleepCanFail` that it can.

## Model

| member | source | states |
|---|---|---|
| `ProtocolTheorems.NoMessageLost` | worker/src/handlers/email.ts:54-94 | over every interleaving, an accepted message has its row and its stored octets, or was delivered, or a removal an operator asked for has erased its object |
| `ProtocolTheorems.AcceptedForGood` | worker/src/inbox-do.ts:453-619 | the same in every later state of every run, with the same octets |
| `ProtocolTheorems.InvKept` | worker/src/inbox-do.ts:244-622 | every step of the protocol keeps the whole invariant |
| `ProtocolTheorems.NoOrphan` | worker/src/inbox-do.ts:360-373 | an object without a row belongs to mail no row was ever inserted for, which is still being taken in or was thrown back |
| `ProtocolTheorems.PurgeIsExact` | worker/src/inbox-do.ts:601-621 | a purged row was delivered, carried the very mark it was picked for, expired, and its object is gone; a row requeued meanwhile stays as it is |
| `ProtocolTheorems.RemovalIsComplete` | worker/src/inbox-do.ts:360-373 | after a finished removal neither row nor object is there, then or in any later state |
| `ProtocolTheorems.MissingIsExplained` | worker/src/inbox-do.ts:484-489 | a death for a missing object happens only to a message delivered before or being removed |
| `ProtocolTheorems.DeadMeansSpentOrLetGo` | worker/src/inbox-do.ts:553-582 | a dead row spent its whole budget or is one of those |
| `ProtocolTheorems.SettleIsTrueIncrement` | worker/src/inbox-do.ts:563-582 | no lost update: when an attempt is settled its row is gone or exactly as the SELECT read it, attempts go up by one, and no other row changes |
| `ProtocolTheorems.RowsHaveShape` | worker/src/inbox-do.ts:544-598 | every row of every reachable state has the columns its status calls for (`ProtocolShape.RowShape`) |
| `ProtocolTheorems.ExhaustionTakesTheWholeSchedule` | worker/src/inbox-do.ts:553-557 | a row out of attempts was tried over at least the whole schedule since its last (re)queue |
| `ProtocolTheorems.DefaultExhaustion` | worker/src/lib/backoff.ts:13-13 | with the defaults that is 588 060 seconds |
| `ProtocolTheorems.WorkIsCovered` | worker/src/inbox-do.ts:380-446 | between passes every pending or purgeable row has an alarm no later than its time or the rerun of the last failed pass |
| `ProtocolRequeue.RetriedIsReady` | worker/src/inbox-do.ts:315-357 | after either retry, each row it is for is pending with a fresh budget, its turn has come and the alarm is due; the other rows are as they were |
| `ProtocolRequeue.RetriedWaits` | worker/src/inbox-do.ts:315-357 | over every run that follows, the row stays so, ready and covered by an alarm, until an attempt on it is settled or an operator removes it |
| `ProtocolTheorems.DeliveredMeansHandled` | worker/src/inbox-do.ts:509-535 | for each delivered row Odoo gave a request of that row a 2xx answer, and posted its octets or deliberately ignored them, with lost responses and repeated requests |
| `ProtocolTheorems.PostedOnceAndOnlyFromQueue` | mail_cloudflare/controllers/main.py:82-110 | what Odoo posts is a stored message octet for octet, and no Message-Id twice, given that Odoo checks for it |
| `ProtocolReach.PostedTwiceIff` | mail_cloudflare/README.md:33-34 | a deliverable message is posted twice in some run, by a retried push, exactly when Odoo reads no Message-Id in it |
| `ProtocolReach.DeliveredIff` | worker/src/inbox-do.ts:482-535 | a storable message is delivered in some run exactly when neither address has a surrogate in it |
| `ProtocolTheorems.OtherAnswersLeaveNoEffect` | mail_cloudflare/controllers/main.py:86-110 | serving a request without a delivery answer leaves Odoo as it was |
| `ProtocolTheorems.AstralMailIsNeverDelivered` | worker/src/inbox-do.ts:176-187 | mail whose envelope `asciiValue` cannot write is never delivered |
| `ProtocolTheorems.AstralMailStaysPending` | worker/src/inbox-do.ts:466-474 | nor does it die: the row stays as it is until a removal erases the object |
| `ProtocolFairness.EveryPassTakesItsShare` | worker/src/inbox-do.ts:453-475 | the rows before an overdue row only get fewer; every pass that leaves it waiting takes ten of them, less those whose attempt threw, and no others can have thrown |
| `ProtocolStarvation.NoStarvation` | worker/src/inbox-do.ts:453-475 | over any run, with k rows before it, fewer than ten of them (m) unwritable, a writable overdue row is attempted or removed by the time k/(10 - m) + 1 of the passes have been ones in which the attempts on writable rows ran to their end |
| `ProtocolStarvation.StarvedByTen` | worker/src/inbox-do.ts:466-474 | with ten or more unwritable rows before it, a pending row is in no batch, unchanged and undelivered, until removals leave fewer than ten |
| `ProtocolStarvation.StuckRowSpins` | worker/src/inbox-do.ts:435-446 | once an unwritable row is due, every pass that does not fail ends with the alarm set for a moment already past, until a removal erases the row's object |
| `ProtocolAlarm.ComesStraightBackIff` | worker/src/inbox-do.ts:430-446 | after a pass that did not fail the alarm lies in the past exactly when a row is left that is due or expired |
| `ProtocolStarvation.CleanPassesTakeTen` | worker/src/inbox-do.ts:453-475 | whatever is before it, it is attempted or removed within k/10 + 1 passes in which no attempt throws |
| `ProtocolReach.QueuedIff` | worker/src/handlers/email.ts:61-94 | storable mail gets a row in some run exactly when neither address has a surrogate among its first 256 code units |
| `ProtocolReach.StuckRowExists` | worker/src/inbox-do.ts:491-502 | a pending row that can never be delivered does come about |
| `ProtocolReach.TenCanBeInFront` | worker/src/inbox-do.ts:453-475 | so does an ordinary row with ten of those before it |
| `ProtocolFairness.AheadShrinks` | worker/src/inbox-do.ts:262-286 | no step puts a row before an overdue one |
| `ProtocolFairness.WaitingKept` | worker/src/inbox-do.ts:466-474 | the measure behind it: every step keeps what the running pass has earned |
| `ProtocolAlarm.AlarmCoversKept` | worker/src/inbox-do.ts:423-446 | every step keeps every row covered by the alarm |
| `ProtocolCustody.CustodyKept` | worker/src/inbox-do.ts:360-373 | every step keeps rows and objects together |
| `ProtocolShape.RowsTrueKept` | worker/src/inbox-do.ts:544-598 | every step keeps row shapes, the batch's agreement with the table, and the time budget |
| `ProtocolWire.WireKept` | worker/src/inbox-do.ts:491-535 | every step keeps requests, answers and Odoo's database true to the queue |
| `ProtocolWire.RequestArrivesIntact` | mail_cloudflare/models/fetchmail_server.py:360-384 | the body Odoo processes for a request is the stored message, unchanged |
| `ProtocolSteps.StepWrites` | worker/src/inbox-do.ts:261-621 | what each step writes to table, bucket and alarm, in columns and numbers of the source |
| `ProtocolSteps.StepSends` | worker/src/inbox-do.ts:453-535 | what each step of a pass takes and POSTs, what Odoo answers by case, and that the history records exactly what happened |
| `ProtocolSteps.OperatorsMayCome` | worker/src/inbox-do.ts:315-373 | retries, removals, cut-offs and failing deletes are possible steps at any time |
| `ProtocolSteps.AnyAnswerMayCome` | worker/src/inbox-do.ts:466-535 | so are throws, lost responses, any answer but a 2xx Odoo has not given, and any way a request can end in Odoo |
| `InboxColumns.SettleColumns` | worker/src/inbox-do.ts:544-598 | what the guarded UPDATE leaves in every row, column by column and by verdict |
| `InboxColumns.EarliestIs` | worker/src/inbox-do.ts:435-443 | the MIN query is the earliest time any row asks for |
| `InboxQueue.Queue.Enqueue` | worker/src/inbox-do.ts:261-289 | inserts once, every column named, due after the delivery delay, and arms the alarm for it |
| `InboxQueue.Queue.List` | worker/src/inbox-do.ts:297-308 | exactly the newest rows of the status, newest first, up to the capped limit |
| `InboxQueue.Queue.Retry` | worker/src/inbox-do.ts:315-334 | a row that is not pending becomes pending with no attempt charged, due now, without a purge mark, its other columns kept, and every other row stays; the other two cases are reported |
| `InboxQueue.Queue.RetryAll` | worker/src/inbox-do.ts:337-357 | so with every row of that status and no other, counted, under the same keys; a status other than dead or rejected is refused |
| `InboxQueue.Queue.Remove` | worker/src/inbox-do.ts:360-373 | object first, then row; a bucket failure leaves the row |
| `InboxQueue.Queue.SelectDue` | worker/src/inbox-do.ts:453-460 | pending rows whose time has come, as many as there may be, in the order of time and id |
| `InboxQueue.Queue.ProcessDue` | worker/src/inbox-do.ts:453-475 | each row of the batch goes through its own exchange; a broken configuration charges nothing |
| `InboxQueue.Queue.Deliver` | worker/src/inbox-do.ts:482-536 | a missing object, no answer, each range of statuses and a throw each settle the row as the source says, or charge nothing |
| `InboxQueue.Queue.Settle` | worker/src/inbox-do.ts:544-598 | every column a verdict leaves in a row still pending, the budget, the wait and the cut to 200 included, no other row, and whether it applied |
| `InboxQueue.AllExchangedAt` | worker/src/inbox-do.ts:466-474 | after the batch every row is settled by its own exchange and no other, and the rest stands |
| `InboxQueue.PassIs` | worker/src/inbox-do.ts:380-403 | so the batch row by row through the purge, by answer and in columns |
| `InboxQueue.AcceptableIff` | worker/src/handlers/email.ts:36-52 | refused for good exactly for a control character, a recipient over 984 octets or a sender over 985 |
| `InboxQueue.Queue.PurgeExpired` | worker/src/inbox-do.ts:601-621 | the earliest expired rows go, objects first; a bucket failure leaves every row |
| `InboxQueue.Queue.Rearm` | worker/src/inbox-do.ts:435-446 | the alarm is the earliest time a pending attempt or a purge asks for, or none |
| `InboxQueue.Queue.ArmNoLaterThan` | worker/src/inbox-do.ts:423-428 | an armed alarm is only ever moved earlier, never later |
| `InboxQueue.Queue.Alarm` | worker/src/inbox-do.ts:380-403 | the pass end to end: each row of the batch has had its own attempt, no other row has changed, what is gone was picked by the purge, and the alarm is exact or a minute out |
| `ProtocolRefinement.AlarmRuns` | worker/src/inbox-do.ts:380-403 | whatever a pass of the class leaves in table, bucket and alarm, for exchanges the network and Odoo can come to, some run of the state machine leaves too |
| `ProtocolRefinement.ExchangeRuns` | worker/src/inbox-do.ts:482-536 | so with one exchange of `deliver`, from its read to its settle |
| `ProtocolRefinement.RemoveRuns` | worker/src/inbox-do.ts:360-373 | so with a removal, failing or not |
| `InboxQueue.HandleEmail` | worker/src/handlers/email.ts:36-97 | returns only with the mail refused and nothing written, or stored, queued with every column named, and armed for; no row without its object |
| `InboxQueue.TakeFirst` | worker/src/inbox-do.ts:297-308 | ORDER BY with LIMIT: the first so many under a total order |
| `Backoff.ParseSchedule` | worker/src/lib/backoff.ts:20-35 | the entries between commas, or the first entry's error |
| `Backoff.EntriesAre` | worker/src/lib/backoff.ts:20-35 | a schedule is accepted exactly when every entry is, and holds their values in order |
| `Backoff.EntryIff` | worker/src/lib/backoff.ts:22-32 | an entry is accepted exactly when between blanks it is decimal digits reading as 1 to 2^53 - 1, and which error otherwise |
| `Backoff.ScheduleRoundTrip` | worker/src/lib/backoff.ts:20-35 | every usable schedule written with commas is read back |
| `Backoff.TotalDelayClosed` | worker/src/lib/backoff.ts:42-49 | closed form of the waits after attempts 1 to n |
| `Backoff.DefaultBudget` | worker/src/lib/backoff.ts:13-13 | the default waits come to 588 060 seconds |
| `Backoff.ClassifyIs` | worker/src/lib/backoff.ts:67-75 | 2xx is a delivery, 408, 429 and 5xx are tried again, every other status is a refusal |
| `Percent.AsciiValueDomain` | worker/src/inbox-do.ts:184-187 | `asciiValue` succeeds exactly on strings without surrogate code units |
| `Percent.AsciiValueBytes` | worker/src/inbox-do.ts:184-187 | its result is printable ASCII, escapes exactly the UTF-8 octets (section 2.1 of RFC 3986), and is the string itself exactly for printable ASCII without a percent sign |
| `Percent.AsciiValueOfUnit` | worker/src/inbox-do.ts:184-187 | each character by itself: kept from 0x20 to 0x7E but for the percent sign, refused for a surrogate, else a percent sign and two upper-case hexadecimal digits for each UTF-8 octet |
| `Percent.AsciiValueSplits` | worker/src/inbox-do.ts:184-187 | a string is written character by character, and refused where a part of it is |
| `Percent.AddressStaysIff` | worker/src/inbox-do.ts:176-187 | an address passes through byte for byte exactly when it is printable ASCII without a percent sign |
| `Percent.UnquoteInverts` | mail_cloudflare/models/fetchmail_server.py:399-402 | Python's `unquote` gives the original back |
| `Percent.AsciiValueInjective` | worker/src/inbox-do.ts:184-187 | two addresses never share a header value |
| `Percent.AstralAddressThrows` | worker/src/inbox-do.ts:176-187 | a concrete address it refuses |
| `Percent.DecodeUtf8` | mail_cloudflare/models/fetchmail_server.py:399-402 | UTF-8 decoding undoes encoding for every scalar value (section 3 of RFC 3629) |
| `Percent.DecodesIff` | mail_cloudflare/models/fetchmail_server.py:399-402 | decoding takes a character off the front exactly where its encoding stands there |
| `Text.Utf8Is` | worker/src/inbox-do.ts:184-187 | the octets of each range of characters (section 3 of RFC 3629) |
| `Text.EncodersAgree` | mail_cloudflare/models/fetchmail_server.py:371-384 | JavaScript and Python write the same octets for the same text |
| `Rfc822.AssertHeaderSafe` | worker/src/lib/rfc822.ts:38-48 | refuses exactly control characters and lines over 998 octets |
| `Rfc822.PrependHeaders` | worker/src/lib/rfc822.ts:68-78 | the loop computes `Prepend`, failing where a header is unsafe |
| `Rfc822.PrependedOctets` | worker/src/lib/rfc822.ts:55-78 | a successful prepend is the two lines and then the message octet for octet |
| `Rfc822.StoredIff` | worker/src/lib/rfc822.ts:55-78 | a message is stored exactly without control characters, with at most 984 octets of recipient and 983 of sender, and then as the two header lines, letter for letter, and the message |
| `Rfc822.PrecheckGap` | worker/src/handlers/email.ts:44-60 | after the handler's own check the prepend fails exactly for senders of 984 or 985 octets |
| `Rfc822.LongSenderThrows` | worker/src/handlers/email.ts:44-60 | a concrete sender that passes the check and makes the prepend throw |
| `OdooMessage.PrepareMessage` | mail_cloudflare/models/fetchmail_server.py:360-384 | the list of lines, joined, comes to `Prepare` |
| `OdooMessage.PreparedText` | mail_cloudflare/models/fetchmail_server.py:371-384 | the octets of a prepared message: which of the two lines go in front, in which order and with which value |
| `OdooMessage.RefusedIff` | mail_cloudflare/models/fetchmail_server.py:387-402 | refused exactly for a control character in an envelope value once unquoted |
| `OdooMessage.NamesFoundIff` | mail_cloudflare/models/fetchmail_server.py:47-56 | the names found are exactly those of fields at the start of a line before the first empty line |
| `OdooMessage.StripIs` | mail_cloudflare/models/fetchmail_server.py:399-402 | stripping takes the blanks off both ends and nothing else |
| `OdooMessage.NamesOfAdded` | mail_cloudflare/models/fetchmail_server.py:47-56 | header names after a line is added in front: its own, and the old ones unless the body began with a break |
| `OdooMessage.NamesAfter` | mail_cloudflare/models/fetchmail_server.py:371-384 | exactly which header names a prepared message has |
| `OdooMessage.StoredNamesBoth` | worker/src/lib/rfc822.ts:55-78 | every message the Worker stores names both envelope headers in Odoo's eyes |
| `OdooMessage.EnvelopeSurvives` | mail_cloudflare/models/fetchmail_server.py:360-402 | Odoo's preparation returns the Worker's stored octets unchanged |
| `OdooMessage.PrepareIdempotent` | mail_cloudflare/models/fetchmail_server.py:371-384 | preparing twice is preparing once exactly when the body is not `Unstable` |
| `OdooMessage.UnstableBodyExists` | mail_cloudflare/models/fetchmail_server.py:371-384 | a concrete body on which it is not |
| `Signature.SignedVerifies` | mail_cloudflare/models/fetchmail_server.py:325-357 | what the Worker signs verifies with the same secret exactly within 300 seconds |
| `Signature.SignatureIs` | worker/src/lib/sign.ts:28-51 | a signature is `v1=` and the hexadecimal digits of the HMAC of timestamp, dot and body, read by an independent reader |
| `Signature.VerifiesIff` | mail_cloudflare/models/fetchmail_server.py:325-357 | exactly what Odoo accepts, in numbers and octets |
| `Signature.ParsesIff` | mail_cloudflare/models/fetchmail_server.py:336-340 | `int` takes a signed numeral with leading zeros and single underscores and nothing else, and its value |
| `Signature.PayloadInjective` | worker/src/lib/sign.ts:28-30 | the signed octets determine timestamp text and body, over all timestamps without a dot |
| `Signature.ParsedHasNoDot` | mail_cloudflare/models/fetchmail_server.py:336-340 | a text `int` accepts has no dot |
| `Signature.FreshSignatureVerifies` | worker/src/lib/sign.ts:23-51 | with both clocks read in whole seconds, a lag of up to 300 s either way verifies and one of 301 s does not |
| `Signature.OnlyTheSignedRequest` | mail_cloudflare/models/fetchmail_server.py:325-357 | a request accepted with a signature of the Worker's carries its timestamp and body in time, or the two payloads are a collision of the HMAC |
| `Signature.WrittenIsRead` | worker/src/lib/sign.ts:23-51 | Odoo reads back the number the Worker wrote |
| `OdooController.ProcessInbound` | mail_cloudflare/models/fetchmail_server.py:404-431 | which failure or result processing ends in, and what it has written |
| `OdooController.Inbound` | mail_cloudflare/controllers/main.py:53-110 | answer and committed database by case: 404 unknown key, 401 bad signature, 422 refused envelope or no route, 500 crash, none for a conflict, all rolled back; else 200 with the message posted or ignored |
| `OdooController.ServeIs` | mail_cloudflare/controllers/main.py:53-110 | the same of the function the state machine steps with |
| `OdooController.WorkerReads` | worker/src/lib/backoff.ts:67-75 | the Worker tries again exactly after a crash, gives up exactly on the other refusals, and counts a delivery exactly where Odoo took the message |
| `OdooController.ContractAgrees` | worker/src/lib/backoff.ts:67-75 | the two sides' reading of every status agrees: a delivery means posted or ignored, anything else no effect, only 500 is retried |
| `OdooController.ProcessContract` | mail_cloudflare/controllers/main.py:82-110 | the same for prepared messages, and Message-Ids stay unique |
| `Ulid.ConcatBytes` | worker/src/lib/util.ts:37-50 | the array holds the parts one after another |
| `Ulid.ToHex` | worker/src/lib/util.ts:6-12 | characters 2i and 2i + 1 are lower-case hexadecimal digits whose values make up octet i, the high one first |
| `Ulid.HexDenotes` | worker/src/lib/util.ts:6-12 | the same of the function the signature is made with |
| `Ulid.DenotesOne` | mail_cloudflare/models/fetchmail_server.py:350-353 | one text denotes the octets, so comparing with it is comparing with `hexdigest()` |
| `Ulid.HexInjective` | worker/src/lib/util.ts:6-12 | two digests never share a text |
| `Ulid.EncodeTime` | worker/src/lib/util.ts:81-89 | ten base-32 digits, most significant first |
| `Ulid.Base32Digit` | worker/src/lib/util.ts:65-107 | each character is its place's base-32 digit in Crockford's alphabet |
| `Ulid.TimeLead` | worker/src/lib/util.ts:81-89 | a timestamp fits in 48 bits exactly when its text leads with 0 to 7 |
| `Ulid.EncodeRandom` | worker/src/lib/util.ts:92-107 | the bit accumulator writes the sixteen base-32 digits of the big-endian number |
| `Ulid.PackingOperators` | worker/src/lib/util.ts:96-104 | JavaScript's shifts and masks are the arithmetic the packer is written with, bit by bit, on words of the size that occurs |
| `Ulid.NewId` | worker/src/lib/util.ts:110-116 | an id is the text of one number, for timestamps of 0 to 2^48 - 1 only |
| `Ulid.Base32Order` | worker/src/inbox-do.ts:297-308 | text order is number order, and one number has one text |
| `Ulid.LaterSortsLater` | worker/src/lib/util.ts:110-116 | a later millisecond sorts later whatever the random parts |
| `MessageIds.FoundIff` | mail_cloudflare/cloudflare_api.py:109-111 | the expression finds exactly the identifiers that occur |
| `MessageIds.FindJoined` | mail_cloudflare/cloudflare_api.py:316-321 | identifiers joined by blanks are found again, in order |
| `OutboundHeaders.HeaderSize` | mail_cloudflare/cloudflare_api.py:277-281 | the sum the loop computes |
| `OutboundHeaders.OctetsAreEncoded` | mail_cloudflare/cloudflare_api.py:277-281 | the size counted is the length of the UTF-8 encoding |
| `OutboundHeaderTheorems.SizeOnTheWire` | mail_cloudflare/cloudflare_api.py:277-281 | the size is that of the lines `name: value` with their breaks |
| `OutboundHeaders.PassthroughHeaders` | mail_cloudflare/cloudflare_api.py:284-347 | the loops and exits compute `Passthrough` |
| `OutboundHeaders.TrimReferences` | mail_cloudflare/cloudflare_api.py:328-330 | the trimming loop leaves `Trimmed` |
| `OutboundHeaderTheorems.GatherIsKeyed` | mail_cloudflare/cloudflare_api.py:300-314 | names are allow-listed, spelled as documented, distinct ignoring case |
| `OutboundHeaderTheorems.GatherHolds` | mail_cloudflare/cloudflare_api.py:300-314 | every allowed name travels once with all its values in order, and no other does |
| `OutboundHeaderTheorems.AllowedIff` | mail_cloudflare/cloudflare_api.py:67-107 | exactly the 25 documented names, ignoring case, and those beginning `x-` are let through |
| `OutboundHeaderTheorems.LongestThatFits` | mail_cloudflare/cloudflare_api.py:323-330 | the references kept are the longest non-empty suffix meeting both limits: a suffix fits exactly when it is no longer |
| `OutboundHeaderTheorems.PassesIff` | mail_cloudflare/cloudflare_api.py:331-346 | a message passes exactly when no other value is over 2048 octets, there are at most 20 headers, and the youngest identifier alone fits in 2048 and all in 16 384 |
| `OutboundHeaderTheorems.RefusedAs` | mail_cloudflare/cloudflare_api.py:331-346 | which error otherwise: sizes first, naming exactly the values too long, then the count |
| `OutboundHeaderTheorems.LimitsHold` | mail_cloudflare/cloudflare_api.py:48-52 | every limit holds of every request not refused, the values' in octets of UTF-8 |
| `OutboundHeaderTheorems.OwnIdTravelsIff` | mail_cloudflare/cloudflare_api.py:295-321 | the own id travels exactly when the identifiers from one of its places on fit, and always when last |
| `OutboundHeaderTheorems.OwnIsConsidered` | mail_cloudflare/cloudflare_api.py:316-319 | considered are all identifiers of References in order, and the own one appended exactly when it is not among them |
| `OutboundHeaderTheorems.OwnIdIs` | mail_cloudflare/cloudflare_api.py:317-317 | the own identifier is the first Message-Id of the message, in whatever case, stripped |
| `OutboundHeaderTheorems.OwnIdCanBeLost` | mail_cloudflare/cloudflare_api.py:295-298 | a concrete message that loses its own id |
| `OutboundHeaderTheorems.SentIdsAreFound` | mail_cloudflare/cloudflare_api.py:284-293 | the identifiers sent are read back from the header by the same expression |
| `OutboundRecipients.SplitRecipients` | mail_cloudflare/cloudflare_api.py:150-200 | the loops over envelope and headers compute `SplitOf` |
| `OutboundRecipients.TakeFrom` | mail_cloudflare/cloudflare_api.py:170-177 | `take` returns the unseen of the envelope and adds them to `seen` |
| `OutboundRecipients.EnvelopeOf` | mail_cloudflare/cloudflare_api.py:163-167 | the dict keeps the first spelling of each address |
| `OutboundRecipients.EveryoneOnce` | mail_cloudflare/cloudflare_api.py:179-191 | To, Cc and Bcc are disjoint ignoring case and together exactly the envelope |
| `OutboundRecipients.NobodyTwice` | mail_cloudflare/cloudflare_api.py:170-185 | no list names a person twice |
| `OutboundRecipients.WhoGoesWhere` | mail_cloudflare/cloudflare_api.py:179-191 | To wins over Cc; someone no header names is visible only when no To is left and they are the only hidden one |
| `OutboundRecipients.AcceptedIff` | mail_cloudflare/cloudflare_api.py:192-199 | accepted exactly with 1 to 50 people, and which error otherwise |
| `OutboundRecipients.FirstSpelling` | mail_cloudflare/cloudflare_api.py:163-185 | each recipient is written as header or envelope first wrote it |
| `OutboundRecipients.ToInOrder` | mail_cloudflare/cloudflare_api.py:170-179 | To keeps the order of its header |
| `OutboundRecipients.CcInOrder` | mail_cloudflare/cloudflare_api.py:170-180 | so does Cc among those To does not name |
| `OutboundRecipients.BccInOrder` | mail_cloudflare/cloudflare_api.py:183-185 | the hidden ones keep the order of the envelope |
| `OutboundRecipients.NoToIff` | mail_cloudflare/cloudflare_api.py:186-191 | exactly when a request has no `to` at all |
| `OutboundRecipients.TwoHiddenHaveNoTo` | mail_cloudflare/cloudflare_api.py:186-191 | a concrete such request |
| `OutboundRecipients.SplitCounts` | mail_cloudflare/cloudflare_api.py:192-192 | the lists together are as long as the envelope has people |
| `SendingSession.CloudflareSendingSession.SendMessage` | mail_cloudflare/cloudflare_api.py:517-548 | result and new session state of a send, as `Outcome` and `After` |
| `SendingSession.CloudflareSendingSession.PostBody` | mail_cloudflare/cloudflare_api.py:562-624 | the retry loop in numbers: when it POSTs again, how long it sleeps, what its last answer makes it end with, and the refusal it remembers |
| `SendingSession.CloudflareSendingSession.CheckRecipients` | mail_cloudflare/cloudflare_api.py:626-657 | success exactly when nobody is listed as failed, or somebody is not and the receipt lists somebody it was taken for |
| `SendingSession.PostShape` | mail_cloudflare/cloudflare_api.py:571-624 | from any attempt on: every answer but the last has the request sent again after its pause, and the last decides |
| `SendingSession.PostsAgainIff` | mail_cloudflare/cloudflare_api.py:571-624 | POSTed again exactly after no answer, a status of 500 or more, or a 429 without a negative Retry-After; pauses of 1 and 2 seconds, or Retry-After up to 10, else 2 and 4 |
| `SendingTheorems.PostBudget` | mail_cloudflare/cloudflare_api.py:571-619 | at most three POSTs and twenty seconds of sleep |
| `SendingTheorems.AcceptedIff` | mail_cloudflare/cloudflare_api.py:583-609 | accepted exactly when one of the first three answers is a 200 with a true `success` and each before it has the request sent again; nothing is POSTed after it |
| `SendingTheorems.SleepFailsIff` | mail_cloudflare/cloudflare_api.py:604-619 | exactly when a negative Retry-After escapes as another exception |
| `SendingTheorems.SleepCanFail` | mail_cloudflare/cloudflare_api.py:424-429 | an answer that makes it happen |
| `SendingTheorems.FirstRefusalIsLast` | mail_cloudflare/cloudflare_api.py:526-533 | once a POST meets 401 or 403 no later message of the session is POSTed and each fails with that status |
| `SendingTheorems.RunBudget` | mail_cloudflare/cloudflare_api.py:476-487 | three POSTs and twenty seconds a message over any session |
| `SendingTheorems.StoppedIff` | mail_cloudflare/cloudflare_api.py:526-547 | a message is POSTed exactly when nothing is in the way; otherwise it fails with the first thing that is, in the order of the source |
| `SendingTheorems.PostedEndsBy` | mail_cloudflare/cloudflare_api.py:526-548 | a POSTed message ends as its last answer and receipt say, and the session remembers a 401 or 403 and nothing else |
| `SendingTheorems.SucceedsIff` | mail_cloudflare/cloudflare_api.py:526-548 | exactly when a send succeeds, down to the answers and the people reached |
| `SendingTheorems.PostedIsWithinLimits` | mail_cloudflare/cloudflare_api.py:350-391 | what is POSTed meets every limit, each header value's included, and names each of the envelope's people once and nobody else |

## Left out

- The SQL engine, R2, the Durable Object runtime and `fetch`: tables are maps, a bucket is a map, and answers are parameters or free choices of a step.
- The operator routes, bearer tokens and configuration parsing (worker/src/handlers/ops.ts, worker/src/lib/http.ts, worker/src/config.ts): operator calls are calls of the queue's methods, the configuration a record.
- The text work of `errorOf`, `threadIdOf` and `errorMessage`: an arbitrary text and an optional number; the cut to 200 is kept, on characters standing for code units.
- `messageIdOf` in the Worker and core's reading of a Message-Id: an optional string, and a parameter.
- A failing final `setAlarm` or `deleteAlarm` of the alarm handler: storage writes succeed.
- HMAC-SHA256 itself, and the timing of comparisons: the digest is a function parameter.
- Odoo core beyond the status contract (`message_process`, `message_parse`, `build_email`, `get_body`, `email_split_tuples`): what a header's parse gives is an input.
- Concurrent transactions in Odoo: the duplicate check is taken as atomic, so requests are served one at a time.
- Forms, onchanges, cron toggling, credentials, `ir_mail_server.py`, `verify_token`, views and packaging: plumbing with no property of its own.
- Attachments, body parts, base64 and JSON encoding of a send request: only whether there is a sender and a body, and the encoded size, enter.
- Error texts and Cloudflare's error codes: failures carry their kind, status and `fatal` mark.
- Bodies as text and encodings of header values that hold lone surrogates: such a character weighs three octets in `Octets`, where Python would raise.
- Lower-casing outside ASCII: header names lower-case their ASCII letters; for recipients lower-casing is a parameter.
- Python's limit of 4300 digits in `int`: longer numerals are accepted by `ParseInt`.
- InboxQueue.Queue.Alarm: runs the pass with nothing in between; `ProtocolRefinement.AlarmRuns` makes it a run of `Protocol`, whose steps interleave.
- InboxQueue.Queue.ProcessDue: likewise runs its exchanges with no operator call in between.
- InboxQueue.Queue.PurgeExpired: likewise lets nothing happen during the bucket delete; `ProtocolTheorems.PurgeIsExact` does.
- InboxQueue.Queue.Remove: likewise lets nothing happen between object and row; `ProtocolTheorems.RemovalIsComplete` does.
- InboxQueue.Queue.Deliver: takes the response as a parameter and does not build the request; `Protocol` and `Signature` do.
- ProtocolTheorems.WorkIsCovered: after a pass was cut off, the time of its rerun is the runtime's, so the bound then is that time.
- InboxQueue.Queue.Rearm: the MIN query of the source is written as a loop over the rows.
- ProtocolStarvation.NoStarvation: counts the passes that reach their end; how soon the runtime fires an armed alarm is not modelled.
