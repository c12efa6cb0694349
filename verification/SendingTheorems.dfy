/** What a sending session promises, for every sequence of messages and of answers. */
module SendingTheorems {
  import opened Wrappers
  import opened SendingSession
  import H = OutboundHeaders
  import R = OutboundRecipients
  import OutboundHeaderTheorems

  // ----- one POST loop ----------------------------------------------------------------------

  lemma {:induction false} TotalCapped(sleeps: seq<nat>)
    requires forall i | 0 <= i < |sleeps| :: sleeps[i] <= MAX_RETRY_AFTER
    ensures Total(sleeps) <= MAX_RETRY_AFTER * |sleeps|
  {
    if sleeps == [] {
    } else {
      TotalCapped(sleeps[1..]);
    }
  }

  /** One call makes at most three POSTs and sleeps at most twenty seconds. */
  lemma PostBudget(reply: Replies, n: nat)
    ensures 1 <= Post(reply, n).posts <= 3 && Total(Post(reply, n).sleeps) <= 20
  {
    PostShape(reply, n, 1);
    TotalCapped(Post(reply, n).sleeps);
  }

  /** Which of the three answers a call ends at. */
  lemma EndsAt(reply: Replies, n: nat, k: nat)
    requires k < 3 && Comes(reply, n, k)
    requires !Resent(reply(n + k)) || k == 2
    ensures Post(reply, n).posts == k + 1 && EndsBy(Post(reply, n).outcome, reply(n + k), k == 2)
  {
    PostShape(reply, n, 1);
  }

  /** One of the first three answers accepts, and each before it has the request sent again. */
  ghost predicate AcceptsAt(reply: Replies, n: nat, k: nat) {
    k < 3 && Comes(reply, n, k) && Accepts(reply(n + k))
  }

  /** One of the first two answers points backwards, and each before it has the request sent again. */
  ghost predicate BackwardsAt(reply: Replies, n: nat, k: nat) {
    k < 2 && Comes(reply, n, k) && Backwards(reply(n + k))
  }

  /**
   * A request is accepted exactly when one of the first three answers is a 200 with a true `success` and
   * each before it has the request sent again; it is the last answer, so nothing is POSTed after it.
   */
  lemma AcceptedIff(reply: Replies, n: nat)
    ensures var t := Post(reply, n);
            && (t.outcome.Ok? <==> exists k: nat :: AcceptsAt(reply, n, k))
            && (forall k: nat | AcceptsAt(reply, n, k) ::
                  t.posts == k + 1 && t.outcome == Ok(reply(n + k).accepted.value))
            && (forall i: nat | n <= i < n + t.posts - 1 :: !Accepts(reply(i)))
  {
    PostShape(reply, n, 1);
    var t := Post(reply, n);
    if t.outcome.Ok? {
      assert AcceptsAt(reply, n, t.posts - 1);
    }
    forall k: nat | AcceptsAt(reply, n, k)
      ensures t.posts == k + 1 && t.outcome == Ok(reply(n + k).accepted.value)
    {
      EndsAt(reply, n, k);
    }
  }

  /**
   * Not every failure is the documented error: a Retry-After in the past makes the sleep itself
   * fail, exactly when the first or second answer carries one and is reached.
   */
  lemma SleepFailsIff(reply: Replies, n: nat)
    ensures Post(reply, n).outcome == Err(Failure(BadSleep, None, false)) <==>
            exists k: nat :: BackwardsAt(reply, n, k)
  {
    PostShape(reply, n, 1);
    var t := Post(reply, n);
    if t.outcome == Err(Failure(BadSleep, None, false)) {
      assert BackwardsAt(reply, n, t.posts - 1);
    }
    if k: nat :| BackwardsAt(reply, n, k) {
      EndsAt(reply, n, k);
    }
  }

  /** A first answer that asks to come back a second ago makes the sleep fail after one POST. */
  lemma SleepFailsOnce(reply: Replies, n: nat)
    requires reply(n) == Answered(429, None, Some(-1))
    ensures Post(reply, n) == Trace(Err(Failure(BadSleep, None, false)), 1, [])
  {
  }

  lemma SleepCanFail()
    ensures exists reply: Replies :: Post(reply, 0).outcome == Err(Failure(BadSleep, None, false))
  {
    var reply: Replies := (n: nat) => Answered(429, None, Some(-1));
    SleepFailsOnce(reply, 0);
  }

  // ----- whole sessions ---------------------------------------------------------------------

  /** The remembered refusal is the last answer, and no earlier answer was one. */
  ghost predicate Remembers(reply: Replies, s: Session) {
    && (forall i: nat | i < s.posts :: Bars(reply(i)) ==> i == s.posts - 1 && s.fatal.Some?)
    && (s.fatal.Some? ==> s.posts > 0 && Bars(reply(s.posts - 1))
                          && s.fatal.value == Failure(Refused, Some(reply(s.posts - 1).status), true))
  }

  /** A POST loop fails fatally exactly when its last answer bars; an earlier one never does. */
  lemma PostBars(reply: Replies, n: nat)
    ensures var t := Post(reply, n);
            var last := reply(n + t.posts - 1);
            && t.posts >= 1
            && (forall i: nat | n <= i < n + t.posts - 1 :: !Bars(reply(i)))
            && (if Bars(last) then t.outcome == Err(Failure(Refused, Some(last.status), true))
                else t.outcome.Err? ==> !t.outcome.error.fatal)
  {
    PostShape(reply, n, 1);
  }

  lemma AfterRemembers(reply: Replies, lower: R.Lowering, s: Session, m: Message)
    requires Remembers(reply, s)
    ensures Remembers(reply, After(reply, lower, s, m))
  {
    if Posts(lower, s, m) {
      PostBars(reply, s.posts);
    }
  }

  lemma {:induction false} RunRemembers(reply: Replies, lower: R.Lowering, messages: seq<Message>)
    ensures Remembers(reply, Run(reply, lower, messages))
  {
    if messages == [] {
    } else {
      RunRemembers(reply, lower, messages[..|messages| - 1]);
      AfterRemembers(reply, lower, Run(reply, lower, messages[..|messages| - 1]), messages[|messages| - 1]);
    }
  }

  lemma {:induction false} StaysBarred(reply: Replies, lower: R.Lowering, messages: seq<Message>, more: seq<Message>)
    requires Run(reply, lower, messages).fatal.Some?
    ensures Run(reply, lower, messages + more) == Run(reply, lower, messages)
  {
    if more == [] {
      assert messages + more == messages;
    } else {
      StaysBarred(reply, lower, messages, more[..|more| - 1]);
      var all := messages + more;
      assert all[..|all| - 1] == messages + more[..|more| - 1];
    }
  }

  /** Once a POST meets 401 or 403 no later message is POSTed, and each fails with that status. */
  lemma FirstRefusalIsLast(reply: Replies, lower: R.Lowering, messages: seq<Message>, more: seq<Message>,
                           next: Message, i: nat)
    requires i < Run(reply, lower, messages).posts && Bars(reply(i))
    ensures var s := Run(reply, lower, messages + more);
            && s == Run(reply, lower, messages) && s.posts == i + 1
            && Outcome(reply, lower, s, next) == Err(Failure(FailedFast, Some(reply(i).status), true))
            && After(reply, lower, s, next) == s
  {
    RunRemembers(reply, lower, messages);
    StaysBarred(reply, lower, messages, more);
  }

  /** Over a whole session: three POSTs and twenty seconds a message. */
  lemma {:induction false} RunBudget(reply: Replies, lower: R.Lowering, messages: seq<Message>)
    ensures var s := Run(reply, lower, messages);
            s.posts <= 3 * |messages| && s.slept <= 20 * |messages|
  {
    if messages == [] {
    } else {
      var s := Run(reply, lower, messages[..|messages| - 1]);
      RunBudget(reply, lower, messages[..|messages| - 1]);
      PostBudget(reply, s.posts);
    }
  }

  // ----- what a success means ---------------------------------------------------------------

  /** The people of the request are the people of the envelope. */
  lemma PeopleAreEveryone(lower: R.Lowering, mail: R.Mail)
    requires R.SplitOf(lower, mail).Ok?
    ensures PeopleOf(lower, R.SplitOf(lower, mail).value) == R.Everyone(lower, mail)
  {
    R.EveryoneOnce(lower, mail);
  }

  /** Somebody the message is for is not listed as failed, and the receipt lists somebody it was taken for. */
  ghost predicate SomebodyReached(lower: R.Lowering, r: Receipt, mail: R.Mail) {
    && (r.delivered != [] || r.queued != [])
    && exists to :: to in mail.smtpTo && forall a | a in r.bounced + r.suppressed :: lower(a) != lower(to)
  }

  /** The receipt lists no failure, or somebody was reached all the same. */
  ghost predicate GoodFor(lower: R.Lowering, r: Receipt, mail: R.Mail) {
    (r.bounced == [] && r.suppressed == []) || SomebodyReached(lower, r, mail)
  }

  /** The k-th answer accepts, is reached, and its receipt is good for the message. */
  ghost predicate DeliversAt(reply: Replies, lower: R.Lowering, n: nat, k: nat, mail: R.Mail) {
    AcceptsAt(reply, n, k) && GoodFor(lower, reply(n + k).accepted.value, mail)
  }

  lemma ReachedIff(lower: R.Lowering, r: Receipt, mail: R.Mail)
    requires R.SplitOf(lower, mail).Ok?
    ensures Reached(lower, r, PeopleOf(lower, R.SplitOf(lower, mail).value)) <==> GoodFor(lower, r, mail)
  {
    var people := PeopleOf(lower, R.SplitOf(lower, mail).value);
    PeopleAreEveryone(lower, mail);
    R.EveryoneIs(lower, mail);
    ReachedIs(lower, r, people);
    assert forall to | to in mail.smtpTo :: lower(to) in people;
  }

  /** Nothing is in the way of POSTing the message: 5 MiB is the most a request may have. */
  ghost predicate MayPost(lower: R.Lowering, s: Session, m: Message) {
    && s.fatal.None? && m.hasSender && R.SplitOf(lower, m.mail).Ok? && m.hasBody && H.Passthrough(m.items).Ok?
    && m.size <= 5_242_880
  }

  /** The first thing in the way is what the message fails with. */
  ghost predicate FailsWith(lower: R.Lowering, s: Session, m: Message, f: Failure) {
    if s.fatal.Some? then f == Failure(FailedFast, s.fatal.value.status, true)
    else
      && !f.fatal && f.status == None
      && f.reason == if !m.hasSender then NoSender
                     else if R.SplitOf(lower, m.mail).Err? then BadRecipients(R.SplitOf(lower, m.mail).error)
                     else if !m.hasBody then NoBody
                     else if H.Passthrough(m.items).Err? then BadHeaders(H.Passthrough(m.items).error)
                     else TooBig
  }

  lemma MayPostIs(lower: R.Lowering, s: Session, m: Message)
    ensures Posts(lower, s, m) <==> MayPost(lower, s, m)
    ensures MayPost(lower, s, m) ==> BuildPayload(lower, m).value.people == R.SplitOf(lower, m.mail).value
  {
  }

  /**
   * A message is POSTed exactly when nothing is in the way; otherwise it fails with the first thing that is
   * and the session stays as it was.
   */
  lemma StoppedIff(reply: Replies, lower: R.Lowering, s: Session, m: Message)
    ensures var r, t := Outcome(reply, lower, s, m), After(reply, lower, s, m);
            && (t.posts > s.posts <==> MayPost(lower, s, m))
            && (!MayPost(lower, s, m) ==> t == s && r.Err? && FailsWith(lower, s, m, r.error))
  {
    MayPostIs(lower, s, m);
    if MayPost(lower, s, m) {
      PostShape(reply, s.posts, 1);
    }
  }

  lemma PostedOutcome(reply: Replies, lower: R.Lowering, s: Session, m: Message)
    requires MayPost(lower, s, m)
    ensures var t := Post(reply, s.posts);
            Outcome(reply, lower, s, m) ==
            if t.outcome.Err? then Err(t.outcome.error)
            else if GoodFor(lower, t.outcome.value, m.mail) then Ok(t.outcome.value.messageId)
            else Err(Failure(NobodyReached, None, false))
  {
    MayPostIs(lower, s, m);
    if Post(reply, s.posts).outcome.Ok? {
      ReachedIff(lower, Post(reply, s.posts).outcome.value, m.mail);
    }
  }

  /** A session remembers a refusal, and counts what it did. */
  lemma PostedSession(reply: Replies, lower: R.Lowering, s: Session, m: Message, last: Answer)
    requires MayPost(lower, s, m) && last == reply(s.posts + Post(reply, s.posts).posts - 1)
    ensures var t := Post(reply, s.posts);
            After(reply, lower, s, m) ==
            Session(if Bars(last) then Some(Failure(Refused, Some(last.status), true)) else None,
                    s.posts + t.posts, s.slept + Total(t.sleeps))
  {
    MayPostIs(lower, s, m);
    PostBars(reply, s.posts);
  }

  /**
   * A message that is POSTed ends as its last answer says, unless the receipt is good for nobody; a
   * success is Cloudflare's id for it. The session remembers a 401 or 403 and nothing else, and counts the
   * POSTs and the seconds slept.
   */
  lemma PostedEndsBy(reply: Replies, lower: R.Lowering, s: Session, m: Message)
    requires MayPost(lower, s, m)
    ensures var t := Post(reply, s.posts);
            var last := reply(s.posts + t.posts - 1);
            && 1 <= t.posts <= 3 && EndsBy(t.outcome, last, t.posts == 3)
            && Outcome(reply, lower, s, m) ==
                 (if t.outcome.Err? then Err(t.outcome.error)
                  else if GoodFor(lower, last.accepted.value, m.mail) then Ok(last.accepted.value.messageId)
                  else Err(Failure(NobodyReached, None, false)))
            && After(reply, lower, s, m) ==
                 Session(if Bars(last) then Some(Failure(Refused, Some(last.status), true)) else None,
                         s.posts + t.posts, s.slept + Total(t.sleeps))
  {
    PostsAgainIff(reply, s.posts);
    PostedOutcome(reply, lower, s, m);
    PostedSession(reply, lower, s, m, reply(s.posts + Post(reply, s.posts).posts - 1));
  }

  lemma SucceedsAt(reply: Replies, lower: R.Lowering, s: Session, m: Message, k: nat)
    requires MayPost(lower, s, m) && AcceptsAt(reply, s.posts, k)
    ensures Outcome(reply, lower, s, m).Ok? <==> DeliversAt(reply, lower, s.posts, k, m.mail)
  {
    EndsAt(reply, s.posts, k);
    PostedOutcome(reply, lower, s, m);
  }

  /**
   * A message succeeds exactly when nothing is in the way of POSTing it, one of the first three answers is
   * an acceptance, each before it has the request sent again, and the receipt lists no failure or somebody
   * who was reached.
   */
  lemma SucceedsIff(reply: Replies, lower: R.Lowering, s: Session, m: Message)
    ensures Outcome(reply, lower, s, m).Ok? <==>
            MayPost(lower, s, m) && exists k: nat :: DeliversAt(reply, lower, s.posts, k, m.mail)
  {
    StoppedIff(reply, lower, s, m);
    if MayPost(lower, s, m) {
      PostedOutcome(reply, lower, s, m);
      if Outcome(reply, lower, s, m).Ok? {
        AcceptedIff(reply, s.posts);
        var k: nat :| AcceptsAt(reply, s.posts, k);
        SucceedsAt(reply, lower, s, m, k);
      }
      if k: nat :| DeliversAt(reply, lower, s.posts, k, m.mail) {
        SucceedsAt(reply, lower, s, m, k);
      }
    }
  }

  /**
   * What is POSTed is within every limit, each header value's included, and names everyone of the
   * envelope once and nobody else.
   */
  lemma PostedIsWithinLimits(lower: R.Lowering, s: Session, m: Message)
    requires MayPost(lower, s, m)
    ensures var p := BuildPayload(lower, m).value;
            && m.size <= 5 * 1024 * 1024
            && 1 <= |p.people.to| + |p.people.cc| + |p.people.bcc| <= 50
            && PeopleOf(lower, p.people) == (set a | a in m.mail.smtpTo :: lower(a))
            && |p.people.to| + |p.people.cc| + |p.people.bcc| == |PeopleOf(lower, p.people)|
            && |p.headers| <= 20 && H.Size(p.headers) <= 16 * 1024 && H.Keyed(p.headers)
            && forall i | 0 <= i < |p.headers| :: H.Octets(p.headers[i].value) <= 2048
  {
    MayPostIs(lower, s, m);
    OutboundHeaderTheorems.LimitsHold(m.items);
    R.SplitCounts(lower, m.mail);
    R.AcceptedIff(lower, m.mail);
    PeopleAreEveryone(lower, m.mail);
    R.EveryoneIs(lower, m.mail);
  }
}
