/** Decimal numerals: what `String(n)` writes and `Number(s)` / `int(s)` read. */
module Decimal {
  import opened Text

  predicate Digit(c: int) {
    0x30 <= c <= 0x39
  }

  predicate AllDigits(s: seq<int>) {
    forall i | 0 <= i < |s| :: Digit(s[i])
  }

  function Digits(n: nat): (r: seq<byte>)
    ensures r != [] && AllDigits(r)
  {
    if n < 10 then [0x30 + n] else Digits(n / 10) + [0x30 + n % 10]
  }

  function Value(s: seq<int>): nat
    requires AllDigits(s)
  {
    if s == [] then 0 else Value(s[..|s| - 1]) * 10 + (s[|s| - 1] - 0x30)
  }

  /** Read from the left, as one does by eye, after `acc`. */
  ghost function ReadOn(acc: nat, s: seq<int>): nat
    requires forall i | 0 <= i < |s| :: '0' as int <= s[i] <= '9' as int
    decreases |s|
  {
    if s == [] then acc else ReadOn(10 * acc + (s[0] - '0' as int), s[1..])
  }

  lemma {:induction false} ReadOnLast(acc: nat, s: seq<int>)
    requires s != [] && forall i | 0 <= i < |s| :: '0' as int <= s[i] <= '9' as int
    ensures ReadOn(acc, s) == 10 * ReadOn(acc, s[..|s| - 1]) + (s[|s| - 1] - '0' as int)
    decreases |s|
  {
    if |s| > 1 {
      assert s[1..][..|s| - 2] == s[..|s| - 1][1..];
      ReadOnLast(10 * acc + (s[0] - '0' as int), s[1..]);
    }
  }

  /** A numeral stands for the decimal number it reads as. */
  lemma {:induction false} ValueIsRead(s: seq<int>)
    requires forall i | 0 <= i < |s| :: '0' as int <= s[i] <= '9' as int
    ensures AllDigits(s) && Value(s) == ReadOn(0, s)
  {
    if s == [] {
    } else {
      ReadOnLast(0, s);
      ValueIsRead(s[..|s| - 1]);
    }
  }

  /** A number is written without leading zeros. */
  lemma {:induction false} NoLeadingZero(n: nat)
    ensures n > 0 ==> Digits(n)[0] != '0' as int
    ensures n == 0 ==> Digits(n) == ['0' as int]
  {
    if n >= 10 {
      NoLeadingZero(n / 10);
    }
  }

  lemma {:induction false} ValueOfDigits(n: nat)
    ensures Value(Digits(n)) == n
  {
    var d := Digits(n);
    if n < 10 {
      assert d[..0] == [];
      assert Value(d[..0]) == 0;
    } else {
      ValueOfDigits(n / 10);
      assert d[..|d| - 1] == Digits(n / 10);
    }
  }
}
