/** Retry policy for the push to Odoo (worker/src/lib/backoff.ts). */
module Backoff {
  import opened Text
  import opened Wrappers
  import opened Decimal

  const DEFAULT_BACKOFF_SECONDS: seq<nat> := [60, 300, 900, 3600, 21_600]

  /** Number.MAX_SAFE_INTEGER. */
  const MAX_SAFE := 9_007_199_254_740_991

  type Raw = seq<CodeUnit>

  /** The TypeError and RangeErrors of the source. */
  datatype ScheduleError = NotAnInteger | OutOfRange | EmptySchedule

  // ----- parsing BACKOFF_SECONDS -------------------------------------------------------------

  const COMMA: CodeUnit := 0x2C

  /** `String.prototype.trim` white space and line terminators. */
  predicate Blank(c: int) {
    || 0x09 <= c <= 0x0D || c == 0x20 || c == 0xA0 || c == 0x1680 || 0x2000 <= c <= 0x200A
    || c == 0x2028 || c == 0x2029 || c == 0x202F || c == 0x205F || c == 0x3000 || c == 0xFEFF
  }

  function TrimStart(s: Raw): Raw {
    if s != [] && Blank(s[0]) then TrimStart(s[1..]) else s
  }

  function TrimEnd(s: Raw): Raw {
    if s != [] && Blank(s[|s| - 1]) then TrimEnd(s[..|s| - 1]) else s
  }

  function Trim(s: Raw): Raw {
    TrimEnd(TrimStart(s))
  }

  /** `raw.split(",")`: never empty. */
  function Split(s: Raw): (r: seq<Raw>)
    ensures r != []
  {
    if s == [] then [[]]
    else if s[0] == COMMA then [[]] + Split(s[1..])
    else
      var rest := Split(s[1..]);
      [[s[0]] + rest[0]] + rest[1..]
  }

  /** One entry: only digits once trimmed, and at least one second. */
  function Entry(item: Raw): Result<nat, ScheduleError> {
    var t := Trim(item);
    if t == [] || !AllDigits(t) then Err(NotAnInteger)
    else if Value(t) > MAX_SAFE || Value(t) < 1 then Err(OutOfRange)
    else Ok(Value(t))
  }

  lemma {:induction false} TrimStartIs(s: Raw) returns (a: Raw)
    ensures s == a + TrimStart(s) && forall c | c in a :: Blank(c)
    ensures TrimStart(s) != [] ==> !Blank(TrimStart(s)[0])
  {
    if s != [] && Blank(s[0]) {
      var rest := TrimStartIs(s[1..]);
      a := [s[0]] + rest;
    } else {
      a := [];
    }
  }

  lemma {:induction false} TrimEndIs(s: Raw) returns (b: Raw)
    ensures s == TrimEnd(s) + b && forall c | c in b :: Blank(c)
    ensures TrimEnd(s) != [] ==> !Blank(TrimEnd(s)[|TrimEnd(s)| - 1])
  {
    var n := |s| - 1;
    if s != [] && Blank(s[n]) {
      var rest := TrimEndIs(s[..n]);
      b := rest + [s[n]];
    } else {
      b := [];
    }
  }

  /** `s` is `t` between blanks, and `t` neither begins nor ends with one. */
  ghost predicate Trimmed(s: Raw, t: Raw) {
    && (t != [] ==> !Blank(t[0]) && !Blank(t[|t| - 1]))
    && exists a, b :: s == a + t + b && forall c | c in a + b :: Blank(c)
  }

  lemma TrimIs(s: Raw)
    ensures Trimmed(s, Trim(s))
  {
    var left := TrimStart(s);
    var a := TrimStartIs(s);
    var b := TrimEndIs(left);
    assert s == a + Trim(s) + b;
    assert Trim(s) != [] ==> Trim(s)[0] == left[0];
  }

  /** JavaScript's white space and line terminators (ECMA-262, sections 12.2 and 12.3). */
  lemma BlankIs(c: int)
    ensures Blank(c) <==>
            c in {0x20, 0x09, 0x0A, 0x0B, 0x0C, 0x0D, 0xA0, 0x1680,
                  0x2000, 0x2001, 0x2002, 0x2003, 0x2004, 0x2005, 0x2006, 0x2007, 0x2008, 0x2009, 0x200A,
                  0x2028, 0x2029, 0x202F, 0x205F, 0x3000, 0xFEFF}
  {
  }

  /**
   * An entry is accepted exactly when, once trimmed, it is decimal digits that read as a number from 1 up to
   * the largest safe integer, and then it is that number. No entry is 0, whatever its zeros.
   */
  lemma EntryIff(item: Raw)
    ensures var t, r := Trim(item), Entry(item);
            var digits := t != [] && forall i | 0 <= i < |t| :: '0' as int <= t[i] <= '9' as int;
            && Trimmed(item, t)
            && (r == Err(NotAnInteger) <==> !digits)
            && (r.Ok? <==> digits && 1 <= ReadOn(0, t) <= 9_007_199_254_740_991)
            && (r.Ok? ==> r.value == ReadOn(0, t))
            && (digits && !r.Ok? ==> r == Err(OutOfRange))
  {
    var t := Trim(item);
    TrimIs(item);
    if forall i | 0 <= i < |t| :: '0' as int <= t[i] <= '9' as int {
      ValueIsRead(t);
    }
  }

  /** All the entries, or the first one's error. */
  function Entries(items: seq<Raw>): Result<seq<nat>, ScheduleError> {
    if items == [] then Ok([])
    else
      match Entries(items[..|items| - 1])
      case Err(e) => Err(e)
      case Ok(done) =>
        match Entry(items[|items| - 1])
        case Err(e) => Err(e)
        case Ok(n) => Ok(done + [n])
  }

  lemma {:induction false} EntriesPrefix(items: seq<Raw>, i: nat)
    requires i <= |items| && Entries(items[..i]).Err?
    ensures Entries(items) == Entries(items[..i])
  {
    if i < |items| {
      var front := items[..|items| - 1];
      assert front[..i] == items[..i];
      EntriesPrefix(front, i);
    } else {
      assert items[..i] == items;
    }
  }

  /** `parseSchedule`. */
  method ParseSchedule(raw: Raw) returns (r: Result<seq<nat>, ScheduleError>)
    ensures r == Entries(Split(raw))
  {
    var items := Split(raw);
    var schedule: seq<nat> := [];
    for i := 0 to |items|
      invariant Entries(items[..i]) == Ok(schedule)
    {
      assert items[..i + 1][..i] == items[..i];
      var entry := Entry(items[i]);
      if entry.Err? {
        EntriesPrefix(items, i + 1);
        return Err(entry.error);
      }
      schedule := schedule + [entry.value];
    }
    assert items[..|items|] == items;
    r := Ok(schedule);
  }

  /** A schedule is accepted exactly when every entry is, and then holds their values in order. */
  lemma {:induction false} EntriesAre(items: seq<Raw>)
    ensures Entries(items).Ok? <==> forall i | 0 <= i < |items| :: Entry(items[i]).Ok?
    ensures Entries(items).Ok? ==>
              && |Entries(items).value| == |items|
              && forall i | 0 <= i < |items| :: Entry(items[i]) == Ok(Entries(items).value[i])
  {
    if items == [] {
    } else {
      var n := |items| - 1;
      EntriesAre(items[..n]);
      assert forall i | 0 <= i < n :: items[..n][i] == items[i];
    }
  }

  /** How an operator writes a schedule down. */
  function Render(schedule: seq<nat>): Raw
    requires schedule != []
  {
    if |schedule| == 1 then Digits(schedule[0]) else Digits(schedule[0]) + [COMMA] + Render(schedule[1..])
  }

  /** A schedule is split at each comma. */
  lemma {:induction false} SplitRun(run: Raw, rest: Raw)
    requires ',' as int !in run
    ensures Split(run) == [run]
    ensures Split(run + [',' as int] + rest) == [run] + Split(rest)
  {
    if run == [] {
      assert run + [COMMA] + rest == [COMMA] + rest;
    } else {
      SplitRun(run[1..], rest);
      assert (run + [COMMA] + rest)[1..] == run[1..] + [COMMA] + rest;
      assert run == [run[0]] + run[1..];
    }
  }

  lemma EntryOfDigits(n: nat)
    requires 1 <= n <= MAX_SAFE
    ensures Entry(Digits(n)) == Ok(n)
    ensures COMMA !in Digits(n)
  {
    ValueOfDigits(n);
    var d := Digits(n);
    assert Digit(d[0]) && Digit(d[|d| - 1]);
  }

  lemma {:induction false} SplitRender(schedule: seq<nat>)
    requires schedule != [] && forall i | 0 <= i < |schedule| :: 1 <= schedule[i] <= MAX_SAFE
    ensures |Split(Render(schedule))| == |schedule|
    ensures forall i | 0 <= i < |schedule| :: Split(Render(schedule))[i] == Digits(schedule[i])
  {
    EntryOfDigits(schedule[0]);
    if |schedule| == 1 {
      SplitRun(Digits(schedule[0]), []);
    } else {
      SplitRun(Digits(schedule[0]), Render(schedule[1..]));
      SplitRender(schedule[1..]);
    }
  }

  lemma EntriesInOrder(items: seq<Raw>, schedule: seq<nat>)
    requires |items| == |schedule| && forall i | 0 <= i < |items| :: Entry(items[i]) == Ok(schedule[i])
    ensures Entries(items) == Ok(schedule)
  {
    EntriesAre(items);
    assert Entries(items).value == schedule;
  }

  /** Every schedule the queue can use is read back as it was written. */
  lemma ScheduleRoundTrip(schedule: seq<nat>)
    requires schedule != [] && forall i | 0 <= i < |schedule| :: 1 <= schedule[i] <= MAX_SAFE
    ensures Entries(Split(Render(schedule))) == Ok(schedule)
  {
    var items := Split(Render(schedule));
    SplitRender(schedule);
    forall i | 0 <= i < |schedule|
      ensures Entry(items[i]) == Ok(schedule[i])
    {
      EntryOfDigits(schedule[i]);
    }
    EntriesInOrder(items, schedule);
  }

  // ----- the delays ---------------------------------------------------------------------------

  function Min(a: int, b: int): int { if a < b then a else b }

  function Max(a: int, b: int): int { if a < b then b else a }

  /** The wait after attempt number `attempt`, for a non-empty schedule. */
  function DelayMs(schedule: seq<nat>, attempt: int): nat
    requires schedule != []
  {
    schedule[Min(Max(attempt, 1), |schedule|) - 1] * 1000
  }

  /** `backoffMs`, the RangeError included. */
  function BackoffMs(schedule: seq<nat>, attempt: int): Result<nat, ScheduleError> {
    if schedule == [] then Err(EmptySchedule) else Ok(DelayMs(schedule, attempt))
  }

  /** The wait after attempt number `attempt`: its entry of the schedule, the last one once they run out. */
  ghost function WaitMs(schedule: seq<nat>, attempt: nat): nat
    requires schedule != [] && attempt >= 1
  {
    1000 * if attempt <= |schedule| then schedule[attempt - 1] else schedule[|schedule| - 1]
  }

  lemma DelayIs(schedule: seq<nat>, attempt: int)
    requires schedule != []
    ensures attempt >= 1 ==> DelayMs(schedule, attempt) == WaitMs(schedule, attempt)
    ensures attempt < 1 ==> DelayMs(schedule, attempt) == 1000 * schedule[0]
  {
  }

  /** The waits after attempts 1 to n, together. */
  function TotalDelay(schedule: seq<nat>, n: nat): nat
    requires schedule != []
  {
    if n == 0 then 0 else TotalDelay(schedule, n - 1) + DelayMs(schedule, n)
  }

  function Sum(s: seq<nat>): nat {
    if s == [] then 0 else Sum(s[..|s| - 1]) + s[|s| - 1]
  }

  /** The waits once the schedule has run out, in closed form. */
  function Overrun(schedule: seq<nat>, n: nat): int
    requires schedule != []
  {
    1000 * (Sum(schedule) + (n - |schedule|) * schedule[|schedule| - 1])
  }

  lemma OverrunStep(schedule: seq<nat>, n: nat)
    requires schedule != [] && n > |schedule|
    ensures Overrun(schedule, n) == Overrun(schedule, n - 1) + DelayMs(schedule, n)
  {
    var last, over := schedule[|schedule| - 1], n - |schedule|;
    assert over * last == (over - 1) * last + last;
  }

  /** While the schedule lasts, the waits are its own entries. */
  lemma {:induction false} TotalDelayWithin(schedule: seq<nat>, n: nat)
    requires 0 < |schedule| && n <= |schedule|
    ensures TotalDelay(schedule, n) == 1000 * Sum(schedule[..n])
  {
    if n == 0 {
    } else {
      TotalDelayWithin(schedule, n - 1);
      assert schedule[..n][..n - 1] == schedule[..n - 1];
    }
  }

  /** The total in closed form: the schedule's own entries, then its last one repeated. */
  lemma {:induction false} TotalDelayClosed(schedule: seq<nat>, n: nat)
    requires schedule != []
    ensures n <= |schedule| ==> TotalDelay(schedule, n) == 1000 * Sum(schedule[..n])
    ensures n > |schedule| ==>
              TotalDelay(schedule, n) == 1000 * (Sum(schedule) + (n - |schedule|) * schedule[|schedule| - 1])
  {
    if n <= |schedule| {
      TotalDelayWithin(schedule, n);
    } else {
      TotalDelayClosed(schedule, n - 1);
      OverrunStep(schedule, n);
      if n - 1 == |schedule| {
        assert schedule[..|schedule|] == schedule;
      }
    }
  }

  lemma SumAppend(s: seq<nat>, x: nat)
    ensures Sum(s + [x]) == Sum(s) + x
  {
    assert (s + [x])[..|s|] == s;
  }

  lemma SumFour(a: nat, b: nat, c: nat, d: nat)
    ensures Sum([a, b, c, d]) == a + b + c + d
  {
    assert Sum([]) == 0;
    SumAppend([], a);
    SumAppend([a], b);
    SumAppend([a, b], c);
    SumAppend([a, b, c], d);
    assert [] + [a] == [a] && [a] + [b] == [a, b];
    assert [a, b] + [c] == [a, b, c] && [a, b, c] + [d] == [a, b, c, d];
  }

  lemma DefaultSum()
    ensures Sum(DEFAULT_BACKOFF_SECONDS) == 26_460
  {
    SumFour(60, 300, 900, 3600);
    SumAppend([60, 300, 900, 3600], 21_600);
    assert [60, 300, 900, 3600] + [21_600] == DEFAULT_BACKOFF_SECONDS;
  }

  /** With the defaults a message is retried for 588 060 seconds, a little under a week. */
  lemma DefaultBudget()
    ensures TotalDelay(DEFAULT_BACKOFF_SECONDS, 31) == 588_060_000
  {
    DefaultSum();
    TotalDelayClosed(DEFAULT_BACKOFF_SECONDS, 31);
  }

  // ----- what a response means ----------------------------------------------------------------

  datatype Verdict = Delivered | Retry | Rejected | Dead

  /** `classifyStatus`. */
  function ClassifyStatus(status: int): (v: Verdict)
    ensures v != Dead
  {
    if 200 <= status < 300 then Delivered
    else if status == 408 || status == 429 || 500 <= status < 600 then Retry
    else Rejected
  }

  /** 2xx is a delivery; 408, 429 and 5xx are tried again; any other answer is a refusal. */
  lemma ClassifyIs(status: int)
    ensures ClassifyStatus(status) == Delivered <==> 200 <= status <= 299
    ensures ClassifyStatus(status) == Retry <==> status == 408 || status == 429 || 500 <= status <= 599
    ensures ClassifyStatus(status) == Rejected <==>
              status < 200 || (300 <= status <= 407) || (409 <= status <= 428) ||
              (430 <= status <= 499) || status >= 600
  {
  }
}
