/** Dates as the scheduler sees them: `YYYY-MM-DD` strings, the month key
    `YYYY-MM` cut from their first seven characters, and the weekend rule,
    read in UTC on the proleptic Gregorian calendar. */
module Calendar {
  import opened Schema

  predicate IsDigit(c: char) {
    '0' <= c <= '9'
  }

  function DigitValue(c: char): (v: int)
    requires IsDigit(c)
    ensures 0 <= v <= 9
  {
    c as int - '0' as int
  }

  /** The shape `^\d{4}-\d{2}-\d{2}$` (ASCII digits, no trailing text). */
  predicate IsDateShape(s: string) {
    && |s| == 10
    && s[4] == '-' && s[7] == '-'
    && forall i :: 0 <= i < 10 && i != 4 && i != 7 ==> IsDigit(s[i])
  }

  /** `date.substring(0, 7)`: the first seven characters, or all of a shorter string. */
  function MonthOf(date: string): (m: string)
    ensures |m| == if |date| < 7 then |date| else 7
    ensures m <= date
  {
    if |date| < 7 then date else date[..7]
  }

  predicate IsLeapYear(y: int) {
    y % 4 == 0 && (y % 100 != 0 || y % 400 == 0)
  }

  function DaysInMonth(y: int, m: int): (n: int)
    requires 1 <= m <= 12
    ensures 28 <= n <= 31
  {
    if m == 2 then (if IsLeapYear(y) then 29 else 28)
    else if m == 4 || m == 6 || m == 9 || m == 11 then 30
    else 31
  }

  predicate ValidDate(y: int, m: int, d: int) {
    1 <= m <= 12 && 1 <= d <= DaysInMonth(y, m)
  }

  function Number(s: string, lo: nat, hi: nat): (v: nat)
    requires lo <= hi <= |s|
    requires forall i :: lo <= i < hi ==> IsDigit(s[i])
    decreases hi - lo
  {
    if lo == hi then 0 else Number(s, lo, hi - 1) * 10 + DigitValue(s[hi - 1])
  }

  /** Reads year, month and day from a `YYYY-MM-DD` string that names a real
      calendar day; anything else is not a date. */
  function ParseDate(s: string): (r: Option<(int, int, int)>)
    ensures r.Some? ==> IsDateShape(s) && ValidDate(r.value.0, r.value.1, r.value.2)
    ensures r.Some? ==> 0 <= r.value.0 <= 9999
    ensures r.Some? ==> r.value == (Number(s, 0, 4), Number(s, 5, 7), Number(s, 8, 10))
    ensures IsDateShape(s) && ValidDate(Number(s, 0, 4), Number(s, 5, 7), Number(s, 8, 10)) ==> r.Some?
  {
    if !IsDateShape(s) then None
    else
      var y, m, d := Number(s, 0, 4), Number(s, 5, 7), Number(s, 8, 10);
      NumberBound(s, 0, 4);
      if ValidDate(y, m, d) then Some((y, m, d)) else None
  }

  lemma {:induction false} NumberBound(s: string, lo: nat, hi: nat)
    requires lo <= hi <= |s|
    requires forall i :: lo <= i < hi ==> IsDigit(s[i])
    ensures Number(s, lo, hi) < Pow10(hi - lo)
    decreases hi - lo
  {
    if lo < hi {
      NumberBound(s, lo, hi - 1);
    }
  }

  function Pow10(n: nat): nat {
    if n == 0 then 1 else 10 * Pow10(n - 1)
  }

  /** `y` plus the number of leap years among years 1..y (365 is 1 modulo 7). */
  function YearTerm(y: int): int {
    y + y / 4 - y / 100 + y / 400
  }

  function MonthOffset(m: int): int
    requires 1 <= m <= 12
  {
    [0, 3, 2, 5, 0, 3, 5, 1, 4, 6, 2, 4][m - 1]
  }

  /** Sakamoto's method: 0 is Sunday, 6 is Saturday. Dafny's `/` is floor
      division for a positive divisor, so the formula also covers year 0. */
  function DayOfWeek(y: int, m: int, d: int): (w: int)
    requires 1 <= m <= 12
    ensures 0 <= w < 7
  {
    var yy := if m < 3 then y - 1 else y;
    (YearTerm(yy) + MonthOffset(m) + d) % 7
  }

  /** The calendar day after a valid day. */
  function NextDay(y: int, m: int, d: int): (r: (int, int, int))
    requires ValidDate(y, m, d)
    ensures ValidDate(r.0, r.1, r.2)
  {
    if d < DaysInMonth(y, m) then (y, m, d + 1)
    else if m < 12 then (y, m + 1, 1)
    else (y + 1, 1, 1)
  }

  lemma YearTermStep(y: int)
    ensures YearTerm(y) - YearTerm(y - 1) == if IsLeapYear(y) then 2 else 1
  {
    DivStep(y, 4);
    DivStep(y, 100);
    DivStep(y, 400);
    MultipleChain(y);
  }

  /** A multiple of 400 is a multiple of 100, which is a multiple of 4. */
  lemma MultipleChain(y: int)
    ensures y % 400 == 0 ==> y % 100 == 0
    ensures y % 100 == 0 ==> y % 4 == 0
  {
  }

  /** Going back one year lowers the count of multiples of `k` by one exactly at a multiple. */
  lemma DivStep(y: int, k: int)
    requires k == 4 || k == 100 || k == 400
    ensures y / k - (y - 1) / k == (if y % k == 0 then 1 else 0)
  {
    if k == 4 {
      assert y / 4 - (y - 1) / 4 == (if y % 4 == 0 then 1 else 0);
    } else if k == 100 {
      assert y / 100 - (y - 1) / 100 == (if y % 100 == 0 then 1 else 0);
    } else {
      assert y / 400 - (y - 1) / 400 == (if y % 400 == 0 then 1 else 0);
    }
  }

  lemma ModStep(a: int, b: int, k: int)
    requires b == a + 1 + 7 * k
    ensures b % 7 == (a % 7 + 1) % 7
  {
  }

  /** Sakamoto's formula advances by exactly one weekday from each calendar
      day to the next, across month, February and year boundaries. */
  lemma {:induction false} DayOfWeekAdvances(y: int, m: int, d: int)
    requires ValidDate(y, m, d)
    ensures var n := NextDay(y, m, d); DayOfWeek(n.0, n.1, n.2) == (DayOfWeek(y, m, d) + 1) % 7
  {
    var yy := if m < 3 then y - 1 else y;
    var before := YearTerm(yy) + MonthOffset(m) + d;
    if d < DaysInMonth(y, m) {
      ModStep(before, before + 1, 0);
    } else if m == 1 {
      ModStep(before, YearTerm(y - 1) + MonthOffset(2) + 1, -4);
    } else if m == 2 {
      YearTermStep(y);
      ModStep(before, YearTerm(y) + MonthOffset(3) + 1, -4);
    } else if m < 12 {
      var k := (MonthOffset(m + 1) - MonthOffset(m) - DaysInMonth(y, m)) / 7;
      assert MonthOffset(m + 1) - MonthOffset(m) - DaysInMonth(y, m) == 7 * k;
      ModStep(before, YearTerm(y) + MonthOffset(m + 1) + 1, k);
    } else {
      ModStep(before, YearTerm(y) + MonthOffset(1) + 1, -5);
    }
  }

  /** The weekend rule: the string names a calendar Saturday or Sunday. */
  predicate IsWeekend(date: string): (r: bool)
    ensures r ==> IsDateShape(date) && ValidDate(Number(date, 0, 4), Number(date, 5, 7), Number(date, 8, 10))
    ensures r ==> var w := DayOfWeek(Number(date, 0, 4), Number(date, 5, 7), Number(date, 8, 10)); w == 0 || w == 6
    ensures IsDateShape(date) && ValidDate(Number(date, 0, 4), Number(date, 5, 7), Number(date, 8, 10)) ==>
              var w := DayOfWeek(Number(date, 0, 4), Number(date, 5, 7), Number(date, 8, 10));
              (r <==> w == 0 || w == 6)
  {
    match ParseDate(date)
    case None => false
    case Some((y, m, d)) =>
      var w := DayOfWeek(y, m, d);
      w == 0 || w == 6
  }

  /** A bookable date has the `YYYY-MM-DD` shape, so its month key is its first seven characters. */
  lemma WeekendHasMonthKey(date: string)
    requires IsWeekend(date)
    ensures IsDateShape(date) && MonthOf(date) == date[..7]
  {
  }

  /** Fixed points for the formula: 2025-06-07 was a Saturday, 2025-06-08 a
      Sunday and 2025-06-04 a Wednesday. */
  lemma KnownDays()
    ensures DayOfWeek(2025, 6, 7) == 6 && DayOfWeek(2025, 6, 8) == 0
    ensures DayOfWeek(2025, 6, 4) == 3
    ensures DayOfWeek(2000, 1, 1) == 6
  {
  }

  /** The weekend rule on those strings: a Saturday and a Sunday are bookable. */
  lemma KnownWeekends()
    ensures IsWeekend("2025-06-07") && IsWeekend("2025-06-08")
  {
    KnownDays();
    ReadsAs("2025-06-07", 2025, 6, 7);
    ReadsAs("2025-06-08", 2025, 6, 8);
  }

  /** A Wednesday and a day that does not exist are not bookable. */
  lemma KnownWeekdays()
    ensures !IsWeekend("2025-06-04") && !IsWeekend("2025-02-30")
  {
    KnownDays();
    ReadsAs("2025-06-04", 2025, 6, 4);
    ReadsAs("2025-02-30", 2025, 2, 30);
  }

  /** A `YYYY-MM-DD` string reads as its three numbers. */
  lemma ReadsAs(s: string, y: int, m: int, d: int)
    requires IsDateShape(s)
    requires y == Number(s, 0, 4) && m == Number(s, 5, 7) && d == Number(s, 8, 10)
    ensures ValidDate(y, m, d) ==> ParseDate(s) == Some((y, m, d))
    ensures !ValidDate(y, m, d) ==> ParseDate(s).None?
  {
  }
}
