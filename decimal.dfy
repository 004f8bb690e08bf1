/**
 * Decimal text of integers as JavaScript produces and reads it:
 * `n.toString()`, `parseInt(s, 10)`, `padStart(2, '0')` and `slice(-2)`.
 */
module Decimal {

  predicate IsDigit(c: char) {
    '0' <= c <= '9'
  }

  predicate AllDigits(s: string) {
    forall i :: 0 <= i < |s| ==> IsDigit(s[i])
  }

  function DigitChar(d: nat): (c: char)
    requires d < 10
    ensures IsDigit(c)
  {
    (d + '0' as int) as char
  }

  function DigitValue(c: char): (d: nat)
    requires IsDigit(c)
    ensures d < 10
  {
    c as int - '0' as int
  }

  /** `n.toString()` for a non-negative integer: the shortest decimal text, no leading zero. */
  function NatToString(n: nat): (s: string)
    ensures |s| >= 1 && AllDigits(s)
    ensures s[0] == '0' ==> n == 0
    decreases n
  {
    if n < 10 then [DigitChar(n)] else NatToString(n / 10) + [DigitChar(n % 10)]
  }

  /** A template literal `${i}` of an integer. */
  function IntToString(i: int): string {
    if i < 0 then "-" + NatToString(-i) else NatToString(i)
  }

  /** `parseInt(s, 10)` on a string made only of decimal digits. */
  function ParseDecimal(s: string): nat
    requires AllDigits(s)
  {
    if s == [] then 0 else ParseDecimal(s[..|s| - 1]) * 10 + DigitValue(s[|s| - 1])
  }

  /** Reading back what `toString` wrote gives the number again. */
  lemma {:induction false} ParseNatToString(n: nat)
    ensures ParseDecimal(NatToString(n)) == n
    decreases n
  {
    if n >= 10 {
      var s := NatToString(n);
      assert s[..|s| - 1] == NatToString(n / 10);
      ParseNatToString(n / 10);
    }
  }

  lemma NatToStringInjective(m: nat, n: nat)
    requires NatToString(m) == NatToString(n)
    ensures m == n
  {
    ParseNatToString(m);
    ParseNatToString(n);
  }

  /** Leading zeros do not change the value read by `parseInt(s, 10)`. */
  lemma {:induction false} ParseIgnoresLeadingZero(s: string)
    requires AllDigits(s)
    ensures AllDigits("0" + s) && ParseDecimal("0" + s) == ParseDecimal(s)
    decreases |s|
  {
    if s != [] {
      var t := "0" + s;
      assert t[..|t| - 1] == "0" + s[..|s| - 1];
      ParseIgnoresLeadingZero(s[..|s| - 1]);
    }
  }

  /** `s.padStart(2, '0')`. */
  function PadStart2(s: string): (r: string)
    ensures |r| == if |s| < 2 then 2 else |s|
    ensures |s| < 2 ==> r[2 - |s|..] == s && forall i :: 0 <= i < 2 - |s| ==> r[i] == '0'
    ensures |s| >= 2 ==> r == s
  {
    if |s| >= 2 then s else if |s| == 1 then "0" + s else "00"
  }

  /** `s.slice(-2)`: the last two characters, or all of a shorter string. */
  function SliceLast2(s: string): (r: string)
    ensures |r| == if |s| < 2 then |s| else 2
    ensures s == s[..|s| - |r|] + r
  {
    if |s| <= 2 then s else s[|s| - 2..]
  }

  /** The two-digit month text `MM` of a 1-based month. */
  function MonthText(month: nat): string {
    PadStart2(NatToString(month))
  }

  /** The year text `YY`: the last two characters of the year's decimal text. */
  function ShortYearText(year: nat): string {
    SliceLast2(NatToString(year))
  }

  /** `MMYY`: the month text followed by the year text. */
  function PeriodSuffix(month: nat, year: nat): string {
    MonthText(month) + ShortYearText(year)
  }

  lemma {:induction false} MonthTextDigits(month: nat)
    requires 1 <= month <= 12
    ensures |MonthText(month)| == 2 && AllDigits(MonthText(month))
    ensures ParseDecimal(MonthText(month)) == month
  {
    var s := NatToString(month);
    var t := MonthText(month);
    if month < 10 {
      assert s == [DigitChar(month)];
      assert t == "0" + s;
      ParseNatToString(month);
      ParseIgnoresLeadingZero(s);
    } else {
      assert t == s;
      assert NatToString(month / 10) == [DigitChar(1)];
      ParseNatToString(month);
    }
  }

  /** The last two characters of a number of at least two digits are its tens and units digits. */
  lemma LastTwoDigits(n: nat)
    requires n >= 10
    ensures ShortYearText(n) == [DigitChar((n / 10) % 10), DigitChar(n % 10)]
  {
    var s := NatToString(n);
    var hi := NatToString(n / 10);
    assert s == hi + [DigitChar(n % 10)];
    var lastOfHi := DigitChar((n / 10) % 10);
    assert hi[|hi| - 1] == lastOfHi by {
      if n / 10 >= 10 {
        assert hi == NatToString(n / 10 / 10) + [lastOfHi];
      }
    }
    assert s[|s| - 2..] == [lastOfHi, DigitChar(n % 10)];
  }

  /** Two digit characters read as tens and units. */
  lemma ParseTwoDigits(a: nat, b: nat)
    requires a < 10 && b < 10
    ensures AllDigits([DigitChar(a), DigitChar(b)])
    ensures ParseDecimal([DigitChar(a), DigitChar(b)]) == a * 10 + b
  {
    var t := [DigitChar(a), DigitChar(b)];
    assert DigitValue(DigitChar(a)) == a && DigitValue(DigitChar(b)) == b;
    assert t[..1] == [DigitChar(a)];
    assert t[..1][..0] == [];
    assert ParseDecimal(t[..1]) == a;
  }

  /** The tens and units digits of `n` make up `n % 100`. */
  lemma TensAndUnits(n: nat)
    ensures ((n / 10) % 10) * 10 + n % 10 == n % 100
  {
    var q, r := n / 10, n % 10;
    var h, t := q / 10, q % 10;
    assert n == 10 * q + r;
    assert q == 10 * h + t;
    assert n == 100 * h + (10 * t + r);
    ModOfSplit(n, h, 10 * t + r);
  }

  /** `n % 100` is the remainder of any split of `n` into whole hundreds and less than a hundred. */
  lemma ModOfSplit(n: nat, h: nat, m: nat)
    requires n == 100 * h + m && m < 100
    ensures n % 100 == m
  {
    assert n == 100 * (n / 100) + n % 100;
  }

  /** For a year of at least two digits, `YY` is two digits worth `year % 100`. */
  lemma {:induction false} ShortYearTextDigits(year: nat)
    requires year >= 10
    ensures |ShortYearText(year)| == 2 && AllDigits(ShortYearText(year))
    ensures ParseDecimal(ShortYearText(year)) == year % 100
  {
    LastTwoDigits(year);
    ParseTwoDigits((year / 10) % 10, year % 10);
    TensAndUnits(year);
  }
}
