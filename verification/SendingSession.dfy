/**
 * The sending session of cloudflare_api.py: one POST loop with its retry matrix, credentials remembered
 * as refused, and the reading of per-recipient failures. `reply(n)` is what the n-th POST of the
 * session's life meets.
 */
module SendingSession {
  import opened Wrappers
  import opened MessageIds
  import H = OutboundHeaders
  import R = OutboundRecipients

  const MAX_ATTEMPTS := 3
  const MAX_RETRY_AFTER := 10
  const MAX_BODY_BYTES := 5 * 1024 * 1024

  /** Cloudflare's `result` object. */
  datatype Receipt = Receipt(messageId: Str, delivered: seq<Str>, queued: seq<Str>,
                             bounced: seq<Str>, suppressed: seq<Str>)

  /** `accepted` is the result of a JSON object with a true `success`; `retryAfter` is None unless numeric. */
  datatype Answer = Unreachable | Answered(status: int, accepted: Option<Receipt>, retryAfter: Option<int>)

  type Replies = nat -> Answer

  datatype Reason =
    | NoSender | NoBody | BadRecipients(r: R.Refusal) | BadHeaders(h: H.Refusal) | TooBig
    | FailedFast | NoSuccess | Refused | GaveUp | BadSleep | NobodyReached

  datatype Failure = Failure(reason: Reason, status: Option<int>, fatal: bool)

  /** A prepared message; `size` is the length of its encoded request. */
  datatype Message = Message(hasSender: bool, hasBody: bool, mail: R.Mail, items: seq<H.Field>, size: nat)

  datatype Payload = Payload(people: R.Split, headers: H.Headers)

  // ----- the request ------------------------------------------------------------------------

  /** `build_payload`, as far as it can fail. */
  function BuildPayload(lower: R.Lowering, m: Message): Result<Payload, Failure> {
    if !m.hasSender then Err(Failure(NoSender, None, false))
    else
      match R.SplitOf(lower, m.mail)
      case Err(r) => Err(Failure(BadRecipients(r), None, false))
      case Ok(people) =>
        if !m.hasBody then Err(Failure(NoBody, None, false))
        else
          match H.Passthrough(m.items)
          case Err(h) => Err(Failure(BadHeaders(h), None, false))
          case Ok(headers) => Ok(Payload(people, headers))
  }

  // ----- one call ---------------------------------------------------------------------------

  /** 401 and 403. */
  predicate Barred(a: Answer) {
    a.Answered? && (a.status == 401 || a.status == 403)
  }

  predicate Accepted(a: Answer) {
    a.Answered? && a.status == 200 && a.accepted.Some?
  }

  /** Answers after which the same request is sent again. */
  predicate Passing(a: Answer) {
    a.Unreachable? || a.status == 429 || a.status >= 500
  }

  function Power(n: nat): nat {
    if n == 0 then 1 else 2 * Power(n - 1)
  }

  /** How long to wait after a passing answer, before the cap. */
  function Delay(a: Answer, attempt: nat): int
    requires attempt >= 1
  {
    if a.Answered? && a.status == 429 then
      if a.retryAfter.Some? && a.retryAfter.value != 0 then a.retryAfter.value else Power(attempt)
    else Power(attempt - 1)
  }

  function Capped(delay: int): int {
    if delay > MAX_RETRY_AFTER then MAX_RETRY_AFTER else delay
  }

  function StatusOf(a: Answer): Option<int> {
    if a.Answered? then Some(a.status) else None
  }

  /** What a POST ends with when its answer is not passing. */
  function Verdict(a: Answer): Result<Receipt, Failure>
    requires !Passing(a)
  {
    if Accepted(a) then Ok(a.accepted.value)
    else Err(Failure(if a.status == 200 then NoSuccess else Refused, Some(a.status), Barred(a)))
  }

  /** What one `_post` did: how it ended, how many POSTs it made, and its sleeps in seconds. */
  datatype Trace = Trace(outcome: Result<Receipt, Failure>, posts: nat, sleeps: seq<nat>)

  /** `_post` from its given attempt on, the next POST being the session's n-th. */
  function PostFrom(reply: Replies, n: nat, attempt: nat): Trace
    requires 1 <= attempt <= MAX_ATTEMPTS
    decreases MAX_ATTEMPTS - attempt
  {
    var a := reply(n);
    if !Passing(a) then Trace(Verdict(a), 1, [])
    else if attempt == MAX_ATTEMPTS then Trace(Err(Failure(GaveUp, StatusOf(a), false)), 1, [])
    else
      var pause := Capped(Delay(a, attempt));
      if pause < 0 then Trace(Err(Failure(BadSleep, None, false)), 1, [])
      else
        var rest := PostFrom(reply, n + 1, attempt + 1);
        Trace(rest.outcome, 1 + rest.posts, [pause] + rest.sleeps)
  }

  /** `all` is so many POSTs and seconds followed by `rest`. */
  ghost predicate Continues(all: Trace, posts: int, slept: int, rest: Trace) {
    all.outcome == rest.outcome && all.posts == posts + rest.posts && Total(all.sleeps) == slept + Total(rest.sleeps)
  }

  function Post(reply: Replies, n: nat): Trace {
    PostFrom(reply, n, 1)
  }

  /** The addresses a receipt lists as failed, ignoring case. */
  function Failed(lower: R.Lowering, r: Receipt): set<Str> {
    set a | a in r.bounced + r.suppressed :: lower(a)
  }

  function PeopleOf(lower: R.Lowering, s: R.Split): set<Str> {
    R.Keys(lower, s.to) + R.Keys(lower, s.cc) + R.Keys(lower, s.bcc)
  }

  /** `_check_recipients`: whether the receipt counts as a success. */
  predicate Reached(lower: R.Lowering, r: Receipt, people: set<Str>) {
    || Failed(lower, r) == {}
    || (!(people <= Failed(lower, r)) && r.delivered + r.queued != [])
  }

  /** Nobody is listed as failed, or somebody is not and the receipt lists somebody it was taken for. */
  ghost predicate Reaches(lower: R.Lowering, r: Receipt, people: set<Str>) {
    || (r.bounced == [] && r.suppressed == [])
    || (&& (r.delivered != [] || r.queued != [])
        && exists p :: p in people && forall a | a in r.bounced + r.suppressed :: lower(a) != p)
  }

  lemma ReachedIs(lower: R.Lowering, r: Receipt, people: set<Str>)
    ensures Reached(lower, r, people) <==> Reaches(lower, r, people)
  {
    var failed := Failed(lower, r);
    assert r.bounced != [] ==> lower(r.bounced[0]) in failed;
    assert r.suppressed != [] ==> lower(r.suppressed[0]) in failed;
    assert forall p :: p in failed <==> exists a :: a in r.bounced + r.suppressed && lower(a) == p;
  }

  // ----- a whole session --------------------------------------------------------------------

  /** `fatal` is the remembered refusal; `posts` counts the POSTs and `slept` the seconds so far. */
  datatype Session = Session(fatal: Option<Failure>, posts: nat, slept: nat)

  const FRESH := Session(None, 0, 0)

  function Total(sleeps: seq<nat>): nat {
    if sleeps == [] then 0 else sleeps[0] + Total(sleeps[1..])
  }

  /** How a `send_message` ends. */
  function Outcome(reply: Replies, lower: R.Lowering, s: Session, m: Message): Result<Str, Failure> {
    if s.fatal.Some? then Err(Failure(FailedFast, s.fatal.value.status, true))
    else
      match BuildPayload(lower, m)
      case Err(f) => Err(f)
      case Ok(payload) =>
        if m.size > MAX_BODY_BYTES then Err(Failure(TooBig, None, false))
        else
          match Post(reply, s.posts).outcome
          case Err(f) => Err(f)
          case Ok(receipt) =>
            if Reached(lower, receipt, PeopleOf(lower, payload.people)) then Ok(receipt.messageId)
            else Err(Failure(NobodyReached, None, false))
  }

  /** Whether a `send_message` gets as far as POSTing. */
  predicate Posts(lower: R.Lowering, s: Session, m: Message) {
    s.fatal.None? && BuildPayload(lower, m).Ok? && m.size <= MAX_BODY_BYTES
  }

  /** The session after a `send_message`. */
  function After(reply: Replies, lower: R.Lowering, s: Session, m: Message): Session {
    if !Posts(lower, s, m) then s
    else
      var t := Post(reply, s.posts);
      var fatal := if t.outcome.Err? && t.outcome.error.fatal then Some(t.outcome.error) else None;
      Session(fatal, s.posts + t.posts, s.slept + Total(t.sleeps))
  }

  function Run(reply: Replies, lower: R.Lowering, messages: seq<Message>): Session {
    if messages == [] then FRESH
    else After(reply, lower, Run(reply, lower, messages[..|messages| - 1]), messages[|messages| - 1])
  }

  // ----- the loop in numbers ----------------------------------------------------------------

  /** A 429 whose Retry-After lies in the past. */
  ghost predicate Backwards(a: Answer) {
    a.Answered? && a.status == 429 && a.retryAfter.Some? && a.retryAfter.value < 0
  }

  /** No answer, a 5xx (or beyond), or a 429 that does not ask to come back in the past. */
  ghost predicate Resent(a: Answer) {
    || a.Unreachable?
    || a.status >= 500
    || (a.status == 429 && (a.retryAfter.None? || a.retryAfter.value >= 0))
  }

  /** The pause, in seconds, after the call's answer number `k` from 0: the first or the second. */
  ghost function Pause(a: Answer, k: nat): int {
    if a.Unreachable? || a.status != 429 then (if k == 0 then 1 else 2)
    else if a.retryAfter.None? || a.retryAfter.value == 0 then (if k == 0 then 2 else 4)
    else if a.retryAfter.value > 10 then 10
    else a.retryAfter.value
  }

  ghost predicate Accepts(a: Answer) {
    a.Answered? && a.status == 200 && a.accepted.Some?
  }

  ghost predicate Bars(a: Answer) {
    a.Answered? && (a.status == 401 || a.status == 403)
  }

  /** How a call ends by its last answer, which is the third one or not. */
  ghost predicate EndsBy(outcome: Result<Receipt, Failure>, last: Answer, third: bool) {
    if last.Unreachable? then third && outcome == Err(Failure(GaveUp, None, false))
    else if last.status == 200 then
      outcome == if last.accepted.Some? then Ok(last.accepted.value) else Err(Failure(NoSuccess, Some(200), false))
    else if last.status == 401 || last.status == 403 then outcome == Err(Failure(Refused, Some(last.status), true))
    else if last.status >= 500 || (last.status == 429 && third) then
      third && outcome == Err(Failure(GaveUp, Some(last.status), false))
    else if last.status == 429 then Backwards(last) && outcome == Err(Failure(BadSleep, None, false))
    else outcome == Err(Failure(Refused, Some(last.status), false))
  }

  /** The k-th answer from the n-th on is reached: each of those before it has the request sent again. */
  ghost predicate Comes(reply: Replies, n: nat, k: nat) {
    forall i: nat | n <= i < n + k :: Resent(reply(i))
  }

  lemma PassingIs(a: Answer)
    ensures Passing(a) <==> Resent(a) || Backwards(a)
    ensures !Passing(a) ==> EndsBy(Verdict(a), a, false) && EndsBy(Verdict(a), a, true)
    ensures Accepted(a) <==> Accepts(a)
    ensures Barred(a) <==> Bars(a)
  {
  }

  lemma PauseIs(a: Answer, attempt: nat)
    requires 1 <= attempt <= 2 && Passing(a)
    ensures Capped(Delay(a, attempt)) == Pause(a, attempt - 1)
    ensures Pause(a, attempt - 1) < 0 <==> Backwards(a)
  {
    assert Power(0) == 1 && Power(1) == 2 && Power(2) == 4;
  }

  lemma {:induction false} PostShape(reply: Replies, n: nat, attempt: nat)
    requires 1 <= attempt <= MAX_ATTEMPTS
    ensures var t := PostFrom(reply, n, attempt);
            && 1 <= t.posts <= 4 - attempt && |t.sleeps| == t.posts - 1
            && Comes(reply, n, t.posts - 1)
            && (forall i | 0 <= i < |t.sleeps| :: t.sleeps[i] == Pause(reply(n + i), attempt + i - 1))
            && EndsBy(t.outcome, reply(n + t.posts - 1), attempt + t.posts == 4)
    decreases MAX_ATTEMPTS - attempt
  {
    var a, t := reply(n), PostFrom(reply, n, attempt);
    PassingIs(a);
    if Passing(a) && attempt < 3 {
      PauseIs(a, attempt);
    }
    if Resent(a) && attempt < 3 {
      PostShape(reply, n + 1, attempt + 1);
      var rest := PostFrom(reply, n + 1, attempt + 1);
      forall i | 0 <= i < |t.sleeps|
        ensures t.sleeps[i] == Pause(reply(n + i), attempt + i - 1)
      {
        if i > 0 {
          assert t.sleeps[i] == rest.sleeps[i - 1];
          assert n + 1 + (i - 1) == n + i && attempt + 1 + (i - 1) - 1 == attempt + i - 1;
        }
      }
    }
  }

  /**
   * The whole loop in numbers, from the session's n-th answer on. The request is POSTed again after each of
   * the first two answers exactly when every answer so far was none, a status of 500 or more, or a 429 without a
   * negative Retry-After. In between it sleeps 1 and then 2 seconds; after a 429 as long as Retry-After asks and
   * at most 10, or without one 2 and then 4. What it ends with is decided by its last answer alone.
   */
  ghost predicate ByMatrix(reply: Replies, n: nat, posts: int, slept: int, outcome: Result<Receipt, Failure>) {
    && 1 <= posts <= 3
    && (posts > 1 <==> Resent(reply(n)))
    && (posts > 2 <==> Resent(reply(n)) && Resent(reply(n + 1)))
    && slept == (if posts > 1 then Pause(reply(n), 0) else 0) + (if posts > 2 then Pause(reply(n + 1), 1) else 0)
    && EndsBy(outcome, reply(n + posts - 1), posts == 3)
  }

  lemma PostsAgainIff(reply: Replies, n: nat)
    ensures var t := Post(reply, n);
            && ByMatrix(reply, n, t.posts, Total(t.sleeps), t.outcome)
            && |t.sleeps| == t.posts - 1
            && forall k | 0 <= k < |t.sleeps| :: t.sleeps[k] == Pause(reply(n + k), k)
  {
    PostShape(reply, n, 1);
    var sleeps := Post(reply, n).sleeps;
    if |sleeps| == 2 {
      assert Total(sleeps[1..]) == sleeps[1] + Total(sleeps[1..][1..]);
    }
  }

  // ----- the object -------------------------------------------------------------------------

  class CloudflareSendingSession {
    const reply: Replies
    const lower: R.Lowering
    var fatalError: Option<Failure>
    var posts: nat
    var slept: nat

    constructor (reply: Replies, lower: R.Lowering)
      ensures this.reply == reply && this.lower == lower && State() == FRESH
    {
      this.reply, this.lower := reply, lower;
      fatalError, posts, slept := None, 0, 0;
    }

    function State(): Session
      reads this
    {
      Session(fatalError, posts, slept)
    }

    /** The loop of `_post`, which runs over the attempts. */
    method PostLoop() returns (outcome: Result<Receipt, Failure>)
      requires fatalError.None?
      modifies this
      ensures outcome == Post(reply, old(posts)).outcome
      ensures posts == old(posts) + Post(reply, old(posts)).posts
      ensures slept == old(slept) + Total(Post(reply, old(posts)).sleeps)
      ensures fatalError == if outcome.Err? && outcome.error.fatal then Some(outcome.error) else None
    {
      ghost var all := Post(reply, posts);
      var last: Option<int> := None;
      for attempt := 1 to MAX_ATTEMPTS + 1
        invariant fatalError.None?
        invariant attempt <= MAX_ATTEMPTS ==>
          Continues(all, posts - old(posts), slept - old(slept), PostFrom(reply, posts, attempt))
        invariant attempt == MAX_ATTEMPTS + 1 ==>
          Continues(all, posts - old(posts), slept - old(slept), Trace(Err(Failure(GaveUp, last, false)), 0, []))
      {
        var a := reply(posts);
        posts := posts + 1;
        var delay := 0;
        if a.Unreachable? {
          last := None;
          delay := Power(attempt - 1);
        } else if a.status == 200 {
          if a.accepted.Some? {
            return Ok(a.accepted.value);
          }
          return Err(Failure(NoSuccess, Some(200), false));
        } else {
          last := Some(a.status);
          if a.status == 401 || a.status == 403 {
            fatalError := Some(Failure(Refused, last, true));
            return Err(Failure(Refused, last, true));
          }
          if a.status == 429 {
            delay := if a.retryAfter.Some? && a.retryAfter.value != 0 then a.retryAfter.value else Power(attempt);
          } else if a.status >= 500 {
            delay := Power(attempt - 1);
          } else {
            return Err(Failure(Refused, last, false));
          }
        }
        if attempt < MAX_ATTEMPTS {
          delay := Capped(delay);
          if delay < 0 {
            return Err(Failure(BadSleep, None, false));
          }
          slept := slept + delay;
        }
      }
      outcome := Err(Failure(GaveUp, last, false));
    }

    /** `_post`, and what it comes to in numbers. */
    method PostBody() returns (outcome: Result<Receipt, Failure>)
      requires fatalError.None?
      modifies this
      ensures outcome == Post(reply, old(posts)).outcome
      ensures posts == old(posts) + Post(reply, old(posts)).posts
      ensures slept == old(slept) + Total(Post(reply, old(posts)).sleeps)
      ensures fatalError == if outcome.Err? && outcome.error.fatal then Some(outcome.error) else None
      ensures ByMatrix(reply, old(posts), posts - old(posts), slept - old(slept), outcome)
    {
      outcome := PostLoop();
      PostsAgainIff(reply, old(posts));
    }

    method CheckRecipients(receipt: Receipt, people: set<Str>) returns (ok: bool)
      ensures ok <==> Reached(lower, receipt, people)
      ensures ok <==> Reaches(lower, receipt, people)
    {
      ReachedIs(lower, receipt, people);
      var failed := (set a | a in receipt.bounced :: lower(a)) + (set a | a in receipt.suppressed :: lower(a));
      assert failed == Failed(lower, receipt);
      if failed == {} {
        return true;
      }
      ok := !(failed >= people || receipt.delivered + receipt.queued == []);
    }

    method SendMessage(m: Message) returns (r: Result<Str, Failure>)
      modifies this
      ensures r == Outcome(reply, lower, old(State()), m)
      ensures State() == After(reply, lower, old(State()), m)
    {
      if fatalError.Some? {
        return Err(Failure(FailedFast, fatalError.value.status, true));
      }
      var payload := BuildPayload(lower, m);
      if payload.Err? {
        return Err(payload.error);
      }
      if m.size > MAX_BODY_BYTES {
        return Err(Failure(TooBig, None, false));
      }
      var outcome := PostBody();
      if outcome.Err? {
        return Err(outcome.error);
      }
      var ok := CheckRecipients(outcome.value, PeopleOf(lower, payload.value.people));
      r := if ok then Ok(outcome.value.messageId) else Err(Failure(NobodyReached, None, false));
    }
  }
}
