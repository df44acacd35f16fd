/** Proleptic Gregorian calendar dates, the arithmetic that `pd.DateOffset(months=k)`
    performs on them, and the month-end dates that `pd.date_range(freq='M')` walks. */
module Calendar {

  datatype Date = Date(year: int, month: int, day: int)

  predicate IsLeapYear(y: int) {
    y % 4 == 0 && (y % 100 != 0 || y % 400 == 0)
  }

  function DaysInMonth(y: int, m: int): (n: int)
    requires 1 <= m <= 12
    ensures 28 <= n <= 31
    ensures m == 2 ==> (n == 29 <==> IsLeapYear(y))
  {
    if m == 2 then (if IsLeapYear(y) then 29 else 28)
    else if m == 4 || m == 6 || m == 9 || m == 11 then 30
    else 31
  }

  predicate ValidDate(d: Date) {
    1 <= d.month <= 12 && 1 <= d.day <= DaysInMonth(d.year, d.month)
  }

  /** Months are numbered consecutively: January of year 0 is month 0. */
  function MonthIndex(y: int, m: int): int {
    12 * y + (m - 1)
  }

  function MonthOfDate(d: Date): int {
    MonthIndex(d.year, d.month)
  }

  function YearOf(k: int): int {
    k / 12
  }

  function MonthOf(k: int): (m: int)
    ensures 1 <= m <= 12
  {
    k % 12 + 1
  }

  lemma MonthIndexRoundTrip(k: int)
    ensures MonthIndex(YearOf(k), MonthOf(k)) == k
  {
  }

  lemma {:induction false} MonthIndexInjective(y: int, m: int)
    requires 1 <= m <= 12
    ensures YearOf(MonthIndex(y, m)) == y && MonthOf(MonthIndex(y, m)) == m
  {
    var k := MonthIndex(y, m);
    assert k == 12 * y + (m - 1);
    assert 0 <= m - 1 < 12;
  }

  function FirstDay(k: int): (d: Date)
    ensures ValidDate(d) && d.day == 1
  {
    Date(YearOf(k), MonthOf(k), 1)
  }

  /** The last calendar day of month `k`, the date `pd.date_range(freq='M')` yields for it. */
  function LastDay(k: int): (d: Date)
    ensures ValidDate(d) && d.day == DaysInMonth(d.year, d.month)
  {
    Date(YearOf(k), MonthOf(k), DaysInMonth(YearOf(k), MonthOf(k)))
  }

  /** The first and the last day of month `k` lie in month `k`. */
  lemma MonthBounds(k: int)
    ensures MonthOfDate(FirstDay(k)) == k && MonthOfDate(LastDay(k)) == k
  {
    MonthIndexRoundTrip(k);
  }

  /** Chronological order on dates (all times are midnight). */
  predicate DateLe(a: Date, b: Date) {
    MonthOfDate(a) < MonthOfDate(b) || (MonthOfDate(a) == MonthOfDate(b) && a.day <= b.day)
  }

  function Min(a: int, b: int): int {
    if a <= b then a else b
  }

  /** `date + pd.DateOffset(months=n)`: move by `n` calendar months, keeping the day
      of month unless the target month is shorter, in which case it is its last day. */
  function AddMonths(d: Date, n: int): (r: Date)
    requires ValidDate(d)
    ensures ValidDate(r)
    ensures r.day <= d.day
    ensures r.day == d.day || r.day == DaysInMonth(r.year, r.month)
  {
    var k := MonthOfDate(d) + n;
    Date(YearOf(k), MonthOf(k), Min(d.day, DaysInMonth(YearOf(k), MonthOf(k))))
  }

  /** Moving by `n` months lands in the month `n` after the start month. */
  lemma AddMonthsMonth(d: Date, n: int)
    requires ValidDate(d)
    ensures MonthOfDate(AddMonths(d, n)) == MonthOfDate(d) + n
  {
    MonthIndexRoundTrip(MonthOfDate(d) + n);
  }

  /** A date that fits in every month is restored by moving back. */
  lemma {:induction false} AddMonthsInverse(d: Date, n: int)
    requires ValidDate(d) && d.day <= 28
    ensures AddMonths(AddMonths(d, n), -n) == d
  {
    var e := AddMonths(d, n);
    var b := AddMonths(e, -n);
    AddMonthsMonth(d, n);
    AddMonthsMonth(e, -n);
    assert e.day == d.day;
    assert b.day == d.day;
    MonthIndexInjective(d.year, d.month);
    MonthIndexInjective(b.year, b.month);
  }

  /** A day of month `k` is on or before the last day of month `j` exactly when `k <= j`. */
  lemma {:induction false} BeforeLastDay(d: Date, j: int)
    requires ValidDate(d)
    ensures DateLe(d, LastDay(j)) <==> MonthOfDate(d) <= j
  {
    MonthBounds(j);
    if MonthOfDate(d) == j {
      var l := LastDay(j);
      MonthIndexInjective(d.year, d.month);
      MonthIndexInjective(l.year, l.month);
      assert l.year == d.year && l.month == d.month;
    }
  }
}
