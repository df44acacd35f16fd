/** The month window of `transform` (transform_script.py, lines 30-36): the month-ends
    that `pd.date_range(start, end, freq='M')` generates between `date - 2 months` and
    `date + 1 month`, written out as `'%Y-%m-01'` strings. */
module MonthWindow {
  import opened Wrappers
  import opened Calendar
  import opened IsoDate

  /** The months from `k` on whose last day is on or before `end`, in order. */
  function MonthEndsFrom(k: int, end: Date): (ks: seq<int>)
    decreases MonthOfDate(end) + 1 - k
    ensures forall i :: 0 <= i < |ks| ==> ks[i] == k + i
    ensures ks == [] || k + |ks| <= MonthOfDate(end) + 1
  {
    MonthBounds(k);
    if DateLe(LastDay(k), end) then
      assert k <= MonthOfDate(end);
      var rest := MonthEndsFrom(k + 1, end);
      var ks := [k] + rest;
      assert forall i :: 0 < i < |ks| ==> ks[i] == rest[i - 1];
      ks
    else
      []
  }

  /** `pd.date_range(start, end, freq='M')`, as month indices: the first month-end on or
      after `start` is the end of `start`'s own month. */
  function MonthEndRange(start: Date, end: Date): (ks: seq<int>)
    ensures forall i :: 0 <= i < |ks| ==> ks[i] == MonthOfDate(start) + i
  {
    MonthEndsFrom(MonthOfDate(start), end)
  }

  lemma {:induction false} MonthEndsFromMembers(k: int, end: Date)
    ensures forall j :: j in MonthEndsFrom(k, end) <==> k <= j && DateLe(LastDay(j), end)
    decreases MonthOfDate(end) + 1 - k
  {
    if DateLe(LastDay(k), end) {
      MonthEndsFromMembers(k + 1, end);
    } else {
      MonthBounds(k);
      forall j | k <= j ensures !DateLe(LastDay(j), end) {
        MonthBounds(j);
      }
    }
  }

  /** A month is generated exactly when its last day lies in `[start, end]`. */
  lemma MonthEndRangeMembers(start: Date, end: Date)
    requires ValidDate(start)
    ensures forall j :: j in MonthEndRange(start, end) <==>
                        DateLe(start, LastDay(j)) && DateLe(LastDay(j), end)
  {
    MonthEndsFromMembers(MonthOfDate(start), end);
    forall j ensures DateLe(start, LastDay(j)) <==> MonthOfDate(start) <= j {
      BeforeLastDay(start, j);
    }
  }

  /** `pd.to_datetime(date) - pd.DateOffset(months=2)` (line 30). */
  function WindowStart(d: Date): (s: Date)
    requires ValidDate(d)
    ensures ValidDate(s) && s.day <= d.day
  {
    AddMonths(d, -2)
  }

  /** `pd.to_datetime(date) + pd.DateOffset(months=1)` (line 31). */
  function WindowEnd(d: Date): (e: Date)
    requires ValidDate(d)
    ensures ValidDate(e) && e.day <= d.day
  {
    AddMonths(d, 1)
  }

  /** The months of the window, as month indices: consecutive from the month of the
      shifted start. */
  function WindowMonths(d: Date): (ks: seq<int>)
    requires ValidDate(d)
    ensures forall i :: 0 <= i < |ks| ==> ks[i] == MonthOfDate(WindowStart(d)) + i
  {
    MonthEndRange(WindowStart(d), WindowEnd(d))
  }

  /** Target dates whose window months all have four-digit years. */
  predicate WindowFormattable(d: Date) {
    ValidDate(d) && 1 <= d.year <= 9998
  }

  /** The window as the strings the `date` column is compared with (line 36). */
  function WindowDates(d: Date): (ws: seq<string>)
    requires WindowFormattable(d)
    ensures |ws| == |WindowMonths(d)|
    ensures forall i :: 0 <= i < |ws| ==> ws[i] == FormatMonthStart(WindowMonths(d)[i])
  {
    var ks := WindowMonths(d);
    seq(|ks|, i requires 0 <= i < |ks| => FormatMonthStart(ks[i]))
  }

  /** The window is the month of `date - 2 months`, the next two months, and the month of
      `date + 1 month` only when that shifted date falls on its month's last day. */
  lemma {:induction false} WindowShape(d: Date)
    requires ValidDate(d)
    ensures var k := MonthOfDate(d);
            WindowMonths(d) == [k - 2, k - 1, k]
              + (if d.day >= DaysInMonth(YearOf(k + 1), MonthOf(k + 1)) then [k + 1] else [])
  {
    var k := MonthOfDate(d);
    var end := WindowEnd(d);
    assert end.year == YearOf(k + 1) && end.month == MonthOf(k + 1);
    MonthBounds(k - 2);
    MonthBounds(k - 1);
    MonthBounds(k);
    MonthBounds(k + 1);
    MonthBounds(k + 2);
    var l := LastDay(k + 1);
    MonthIndexInjective(end.year, end.month);
    assert l.day == DaysInMonth(end.year, end.month);
    assert DateLe(l, end) <==> d.day >= l.day;
    assert MonthEndsFrom(k + 2, end) == [];
    var tail := MonthEndsFrom(k + 1, end);
    assert tail == if d.day >= l.day then [k + 1] else [];
    assert MonthEndsFrom(k, end) == [k] + tail;
    assert MonthEndsFrom(k - 1, end) == [k - 1] + MonthEndsFrom(k, end);
    assert MonthEndsFrom(k - 2, end) == [k - 2] + MonthEndsFrom(k - 1, end);
    assert MonthOfDate(WindowStart(d)) == k - 2;
  }

  /** A month is in the window exactly when its last day lies in
      `[date - 2 months, date + 1 month]`. */
  lemma WindowMembers(d: Date)
    requires ValidDate(d)
    ensures forall j :: j in WindowMonths(d) <==>
                        DateLe(WindowStart(d), LastDay(j)) && DateLe(LastDay(j), WindowEnd(d))
  {
    MonthEndRangeMembers(WindowStart(d), WindowEnd(d));
  }

  /** The window has three or four months, the first being the month of `date - 2 months`,
      each the month after the one before. */
  lemma WindowContiguous(d: Date)
    requires ValidDate(d)
    ensures 3 <= |WindowMonths(d)| <= 4
    ensures WindowMonths(d)[0] == MonthOfDate(WindowStart(d))
    ensures forall i :: 0 < i < |WindowMonths(d)| ==> WindowMonths(d)[i] == WindowMonths(d)[i - 1] + 1
  {
    WindowShape(d);
  }

  /** Each window string is a first-of-month date `'YYYY-MM-01'`. */
  lemma {:induction false} WindowDatesAreMonthStarts(d: Date)
    requires WindowFormattable(d)
    ensures forall s :: s in WindowDates(d) ==>
              |s| == 10 && s[7..] == "-01" && ParseIsoDate(s).Some? && ParseIsoDate(s).value.day == 1
  {
    forall s | s in WindowDates(d)
      ensures |s| == 10 && s[7..] == "-01" && ParseIsoDate(s).Some? && ParseIsoDate(s).value.day == 1
    {
      var i :| 0 <= i < |WindowDates(d)| && WindowDates(d)[i] == s;
      MonthStartShape(WindowMonths(d)[i]);
      MonthStartParses(WindowMonths(d)[i]);
    }
  }

  lemma {:induction false} MonthStartShape(k: int)
    requires 0 <= YearOf(k) <= 9999
    ensures |FormatMonthStart(k)| == 10 && FormatMonthStart(k)[7..] == "-01"
  {
    var p := FirstDay(k);
    assert FormatMonthStart(k) == Pad4(p.year) + "-" + Pad2(p.month) + "-" + Pad2(1);
    assert Pad2(1) == "01";
  }

  /** The `'%Y-%m-01'` text of a month parses back to the first day of that month. */
  lemma {:induction false} MonthStartParses(k: int)
    requires 0 <= YearOf(k) <= 9999
    ensures ParseIsoDate(FormatMonthStart(k)) == Some(FirstDay(k))
  {
    ParseFormat(FirstDay(k));
  }

  /** A first-of-month date is the first day of its own month. */
  lemma {:induction false} FirstOfMonth(p: Date)
    requires ValidDate(p) && p.day == 1
    ensures FirstDay(MonthOfDate(p)) == p
  {
    MonthIndexInjective(p.year, p.month);
  }

  /** A string is a window string exactly when it is the canonical `'YYYY-MM-01'` text of a
      window month: no other spelling of a date in the window is accepted. */
  lemma {:induction false} WindowDatesMembers(d: Date, s: string)
    requires WindowFormattable(d)
    ensures s in WindowDates(d) <==>
              ParseIsoDate(s).Some? && ParseIsoDate(s).value.day == 1
              && MonthOfDate(ParseIsoDate(s).value) in WindowMonths(d)
  {
    var ws, ks := WindowDates(d), WindowMonths(d);
    if s in ws {
      var i :| 0 <= i < |ws| && ws[i] == s;
      MonthStartParses(ks[i]);
      MonthBounds(ks[i]);
    }
    if ParseIsoDate(s).Some? && ParseIsoDate(s).value.day == 1 && MonthOfDate(ParseIsoDate(s).value) in ks {
      var p := ParseIsoDate(s).value;
      FormatParse(s);
      var i :| 0 <= i < |ks| && ks[i] == MonthOfDate(p);
      FirstOfMonth(p);
      assert ws[i] == FormatDate(p);
    }
  }

  /** The `date` strings the window of 2024-03-01 matches. */
  const FirstQuarter2024Dates: seq<string> := ["2024-01-01", "2024-02-01", "2024-03-01"]

  lemma {:induction false} TargetWindowMonths(d: Date)
    requires ValidDate(d) && d.year == 2024 && d.month == 3 && d.day == 1
    ensures WindowMonths(d) == [MonthIndex(2024, 1), MonthIndex(2024, 2), MonthIndex(2024, 3)]
  {
    WindowShape(d);
    MonthIndexInjective(2024, 4);
  }

  lemma {:induction false} FormatMonthStart2024(m: int)
    requires 1 <= m <= 9
    ensures FormatMonthStart(MonthIndex(2024, m)) == "2024-0" + [DigitChar(m)] + "-01"
  {
    MonthIndexInjective(2024, m);
    assert FirstDay(MonthIndex(2024, m)) == Date(2024, m, 1);
    assert Pad4(2024) == "2024";
    assert Pad2(m) == ['0', DigitChar(m)];
    assert Pad2(1) == "01";
  }

  lemma {:induction false} FirstQuarter2024(m: int)
    requires 1 <= m <= 3
    ensures FormatMonthStart(MonthIndex(2024, m)) == FirstQuarter2024Dates[m - 1]
  {
    FormatMonthStart2024(m);
  }

  lemma SameThree(a: seq<string>, b: seq<string>)
    requires |a| == 3 && |b| == 3 && a[0] == b[0] && a[1] == b[1] && a[2] == b[2]
    ensures a == b
  {
  }

  /** A three-month window is written as the three months' strings in order. */
  lemma {:induction false} ThreeMonthWindowDates(d: Date)
    requires WindowFormattable(d) && |WindowMonths(d)| == 3
    ensures var ks := WindowMonths(d);
            0 <= YearOf(ks[0]) <= 9999 && 0 <= YearOf(ks[1]) <= 9999 && 0 <= YearOf(ks[2]) <= 9999
            && WindowDates(d) == [FormatMonthStart(ks[0]), FormatMonthStart(ks[1]), FormatMonthStart(ks[2])]
  {
    var ws, ks := WindowDates(d), WindowMonths(d);
    WindowYears(d);
    SameThree(ws, [FormatMonthStart(ks[0]), FormatMonthStart(ks[1]), FormatMonthStart(ks[2])]);
  }

  /** Every window month of a formattable date has a four-digit year. */
  lemma {:induction false} WindowYears(d: Date)
    requires WindowFormattable(d)
    ensures forall i :: 0 <= i < |WindowMonths(d)| ==> 0 <= YearOf(WindowMonths(d)[i]) <= 9999
  {
    WindowShape(d);
    var k := MonthOfDate(d);
    assert 12 <= k < 12 * 9999;
    forall i | 0 <= i < |WindowMonths(d)| ensures 0 <= YearOf(WindowMonths(d)[i]) <= 9999 {
      var j := WindowMonths(d)[i];
      assert k - 2 <= j <= k + 1;
    }
  }

  /** January to March 2024 are written `2024-01-01`, `2024-02-01` and `2024-03-01`. */
  lemma {:induction false} FirstQuarter2024Text()
    ensures [FormatMonthStart(MonthIndex(2024, 1)), FormatMonthStart(MonthIndex(2024, 2)),
             FormatMonthStart(MonthIndex(2024, 3))] == FirstQuarter2024Dates
  {
    FirstQuarter2024(1);
    FirstQuarter2024(2);
    FirstQuarter2024(3);
  }

  /** A window of January to March 2024 is written as those three first days. */
  lemma {:induction false} FirstQuarterWindowDates(d: Date)
    requires WindowFormattable(d) && WindowMonths(d) == [MonthIndex(2024, 1), MonthIndex(2024, 2), MonthIndex(2024, 3)]
    ensures WindowDates(d) == FirstQuarter2024Dates
  {
    ThreeMonthWindowDates(d);
    FirstQuarter2024Text();
  }
}
