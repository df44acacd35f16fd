/** `transform` (transform_script.py, lines 14-63): the activity flag of one product for
    every customer id, from the rows of a profit table that fall in the month window. */
module FlagTransform {
  import opened Wrappers
  import opened Calendar
  import opened IsoDate
  import opened MonthWindow

  /** One row of a profit table: `id`, the `date` text and the numeric cells by column
      name. A cell missing from `cells` is empty (NaN). */
  datatype Row = Row(id: int, date: string, cells: map<string, int>)

  /** A profit table: the names of its value columns (all but `id` and `date`) and its rows. */
  datatype Table = Table(columns: set<string>, rows: seq<Row>)

  /** The per-id totals of the grouped frame (`groupby('id').sum()`). */
  datatype Group = Group(id: int, sum: int, count: int)

  datatype FlagRow = FlagRow(id: int, flag: int)

  /** A returned data frame: its column names in order and its rows. */
  datatype Frame = Frame(columns: seq<string>, rows: seq<FlagRow>)

  datatype TransformError = UnparsableDate | DateOutOfBounds

  function SumColumn(p: string): string {
    "sum_" + p
  }

  function CountColumn(p: string): string {
    "count_" + p
  }

  function FlagColumn(p: string): string {
    "flag_" + p
  }

  /** The value a cell adds to a pandas sum: empty cells are skipped. */
  function CellValue(r: Row, col: string): int {
    if col in r.cells then r.cells[col] else 0
  }

  /** The calendar days whose midnight fits a nanosecond pandas Timestamp. */
  const FirstTimestampDay := Date(1677, 9, 22)
  const LastTimestampDay := Date(2262, 4, 11)

  predicate InTimestampRange(d: Date) {
    DateLe(FirstTimestampDay, d) && DateLe(d, LastTimestampDay)
  }

  /** `pd.to_datetime(date)` succeeds, and so do the two `DateOffset` shifts (lines 30-31). */
  predicate AcceptedDate(date: string)
    ensures AcceptedDate(date) ==> ParseIsoDate(date).Some? && WindowFormattable(ParseIsoDate(date).value)
  {
    && ParseIsoDate(date).Some?
    && var d := ParseIsoDate(date).value;
       InTimestampRange(d) && InTimestampRange(WindowStart(d)) && InTimestampRange(WindowEnd(d))
  }

  lemma {:induction false} StartBound(d: Date)
    requires ValidDate(d)
    ensures DateLe(FirstTimestampDay, WindowStart(d)) <==> DateLe(Date(1677, 11, 22), d)
  {
    AddMonthsMonth(d, -2);
    if MonthOfDate(d) == MonthIndex(1677, 11) {
      MonthIndexInjective(1677, 11);
      MonthIndexInjective(d.year, d.month);
      MonthIndexInjective(1677, 9);
      var s := WindowStart(d);
      assert s.year == 1677 && s.month == 9;
      assert s.day == d.day;
    }
  }

  lemma {:induction false} EndBound(d: Date)
    requires ValidDate(d)
    ensures DateLe(WindowEnd(d), LastTimestampDay) <==> DateLe(d, Date(2262, 3, 11))
  {
    AddMonthsMonth(d, 1);
    if MonthOfDate(d) == MonthIndex(2262, 3) {
      MonthIndexInjective(2262, 3);
      MonthIndexInjective(d.year, d.month);
      MonthIndexInjective(2262, 4);
      var e := WindowEnd(d);
      assert e.year == 2262 && e.month == 4;
      assert e.day == Min(d.day, 30);
    }
  }

  /** The target dates `transform` accepts are the ISO dates from 1677-11-22 to 2262-03-11:
      two months earlier and one month later must still be Timestamps. */
  lemma {:induction false} AcceptedDateRange(date: string)
    ensures AcceptedDate(date) <==>
              ParseIsoDate(date).Some?
              && DateLe(Date(1677, 11, 22), ParseIsoDate(date).value)
              && DateLe(ParseIsoDate(date).value, Date(2262, 3, 11))
  {
    if ParseIsoDate(date).Some? {
      var d := ParseIsoDate(date).value;
      AddMonthsMonth(d, -2);
      AddMonthsMonth(d, 1);
      StartBound(d);
      EndBound(d);
    }
  }

  /** The window strings for an accepted target date. */
  function WindowFor(date: string): seq<string>
    requires AcceptedDate(date)
  {
    WindowDates(ParseIsoDate(date).value)
  }

  /** `profit_table[profit_table['date'].isin(date_list)]` (line 40). */
  function SelectWindow(rows: seq<Row>, window: seq<string>): (kept: seq<Row>)
    ensures |kept| <= |rows|
    ensures forall r :: r in kept <==> r in rows && r.date in window
  {
    if rows == [] then []
    else (if rows[0].date in window then [rows[0]] else []) + SelectWindow(rows[1..], window)
  }

  /** The total of column `col` over the rows with id `x`. */
  function Total(rows: seq<Row>, x: int, col: string): int {
    if rows == [] then 0
    else (if rows[0].id == x then CellValue(rows[0], col) else 0) + Total(rows[1..], x, col)
  }

  /** The total of column `col` over the rows with id `x` whose date text is a window string. */
  function WindowTotal(rows: seq<Row>, window: seq<string>, x: int, col: string): int {
    if rows == [] then 0
    else (if rows[0].id == x && rows[0].date in window then CellValue(rows[0], col) else 0)
         + WindowTotal(rows[1..], window, x, col)
  }

  /** Summing over the selected rows is summing over the in-window rows of the table. */
  lemma {:induction false} SelectWindowTotal(rows: seq<Row>, window: seq<string>, x: int, col: string)
    ensures Total(SelectWindow(rows, window), x, col) == WindowTotal(rows, window, x, col)
  {
    if rows != [] {
      SelectWindowTotal(rows[1..], window, x, col);
      var head := if rows[0].date in window then [rows[0]] else [];
      TotalAppend(head, SelectWindow(rows[1..], window), x, col);
    }
  }

  lemma {:induction false} TotalAppend(a: seq<Row>, b: seq<Row>, x: int, col: string)
    ensures Total(a + b, x, col) == Total(a, x, col) + Total(b, x, col)
  {
    if a == [] {
      assert a + b == b;
    } else {
      assert (a + b)[1..] == a[1..] + b;
      TotalAppend(a[1..], b, x, col);
    }
  }

  predicate Ascending(gs: seq<Group>) {
    forall i, j :: 0 <= i < j < |gs| ==> gs[i].id < gs[j].id
  }

  function GroupIds(gs: seq<Group>): set<int> {
    if gs == [] then {} else {gs[0].id} + GroupIds(gs[1..])
  }

  lemma {:induction false} GroupIdsMembers(gs: seq<Group>, x: int)
    ensures x in GroupIds(gs) <==> exists i :: 0 <= i < |gs| && gs[i].id == x
  {
    if gs != [] {
      GroupIdsMembers(gs[1..], x);
      if exists i :: 0 <= i < |gs[1..]| && gs[1..][i].id == x {
        var i :| 0 <= i < |gs[1..]| && gs[1..][i].id == x;
        assert gs[i + 1].id == x;
      }
      if exists i :: 0 <= i < |gs| && gs[i].id == x {
        var i :| 0 <= i < |gs| && gs[i].id == x;
        if i > 0 {
          assert gs[1..][i - 1].id == x;
        }
      }
    }
  }

  function RowIds(rows: seq<Row>): set<int> {
    set r | r in rows :: r.id
  }

  /** The group of id `x`, or an all-zero group when there is none. */
  function Find(gs: seq<Group>, x: int): (g: Group)
    ensures g.id == x
    ensures x in GroupIds(gs) ==> g in gs
    ensures x !in GroupIds(gs) ==> g == Group(x, 0, 0)
  {
    if gs == [] then Group(x, 0, 0)
    else if gs[0].id == x then gs[0]
    else
      assert GroupIds(gs) == {gs[0].id} + GroupIds(gs[1..]);
      Find(gs[1..], x)
  }

  /** In an ascending list each group is the one found for its id. */
  lemma {:induction false} FindInAscending(gs: seq<Group>, i: int)
    requires Ascending(gs) && 0 <= i < |gs|
    ensures Find(gs, gs[i].id) == gs[i]
  {
    if i > 0 {
      FindInAscending(gs[1..], i - 1);
    }
  }

  lemma AscendingCons(g: Group, gs: seq<Group>)
    requires Ascending(gs) && forall y :: y in GroupIds(gs) ==> g.id < y
    ensures Ascending([g] + gs)
  {
    forall j | 0 <= j < |gs| ensures g.id < gs[j].id {
      GroupIdsMembers(gs, gs[j].id);
    }
  }

  /** In an ascending list every later id is larger than the first. */
  lemma AscendingTail(gs: seq<Group>)
    requires gs != [] && Ascending(gs)
    ensures Ascending(gs[1..]) && forall y :: y in GroupIds(gs[1..]) ==> gs[0].id < y
  {
    forall y | y in GroupIds(gs[1..]) ensures gs[0].id < y {
      GroupIdsMembers(gs[1..], y);
    }
  }

  /** Adds one row's cells to the group of its id, creating the group in id order. */
  function Insert(gs: seq<Group>, x: int, s: int, c: int): (r: seq<Group>)
    requires Ascending(gs)
    ensures Ascending(r)
    ensures GroupIds(r) == GroupIds(gs) + {x}
  {
    if gs == [] then [Group(x, s, c)]
    else
      AscendingTail(gs);
      if x < gs[0].id then
        AscendingCons(Group(x, s, c), gs);
        assert ([Group(x, s, c)] + gs)[1..] == gs;
        [Group(x, s, c)] + gs
      else if x == gs[0].id then
        var r := [Group(x, gs[0].sum + s, gs[0].count + c)] + gs[1..];
        AscendingCons(r[0], gs[1..]);
        assert r[1..] == gs[1..];
        r
      else
        var rest := Insert(gs[1..], x, s, c);
        AscendingCons(gs[0], rest);
        assert ([gs[0]] + rest)[1..] == rest;
        [gs[0]] + rest
  }

  /** Inserting adds the row's cells to the totals of its id and to no other id. */
  lemma {:induction false} InsertFind(gs: seq<Group>, x: int, s: int, c: int, y: int)
    requires Ascending(gs)
    ensures Find(Insert(gs, x, s, c), y) ==
              if y == x then Group(x, Find(gs, x).sum + s, Find(gs, x).count + c) else Find(gs, y)
    decreases |gs|, 1
  {
    if gs == [] {
      assert Insert(gs, x, s, c) == [Group(x, s, c)];
    } else if x < gs[0].id {
      InsertFindFirst(gs, x, s, c, y);
    } else if x == gs[0].id {
      InsertFindSame(gs, x, s, c, y);
    } else {
      InsertFindLater(gs, x, s, c, y);
    }
  }

  lemma InsertAfterFirst(gs: seq<Group>, x: int, s: int, c: int)
    requires Ascending(gs) && gs != [] && x > gs[0].id
    ensures Ascending(gs[1..])
    ensures gs == [gs[0]] + gs[1..]
    ensures Insert(gs, x, s, c) == [gs[0]] + Insert(gs[1..], x, s, c)
  {
    AscendingTail(gs);
  }

  lemma {:induction false} InsertFindLater(gs: seq<Group>, x: int, s: int, c: int, y: int)
    requires Ascending(gs) && gs != [] && x > gs[0].id
    ensures Find(Insert(gs, x, s, c), y) ==
              if y == x then Group(x, Find(gs, x).sum + s, Find(gs, x).count + c) else Find(gs, y)
    decreases |gs|, 0
  {
    InsertAfterFirst(gs, x, s, c);
    FindCons(gs[0], Insert(gs[1..], x, s, c), y);
    FindCons(gs[0], gs[1..], y);
    FindCons(gs[0], gs[1..], x);
    InsertFind(gs[1..], x, s, c, y);
  }

  /** Looking up an id in a list with a new first group. */
  lemma FindCons(g: Group, gs: seq<Group>, y: int)
    ensures Find([g] + gs, y) == if g.id == y then g else Find(gs, y)
  {
    assert ([g] + gs)[1..] == gs;
  }

  lemma InsertFindFirst(gs: seq<Group>, x: int, s: int, c: int, y: int)
    requires Ascending(gs) && gs != [] && x < gs[0].id
    ensures Find(Insert(gs, x, s, c), y) ==
              if y == x then Group(x, Find(gs, x).sum + s, Find(gs, x).count + c) else Find(gs, y)
  {
    AscendingTail(gs);
    var r := Insert(gs, x, s, c);
    assert x !in GroupIds(gs);
    assert r == [Group(x, s, c)] + gs;
    assert r[1..] == gs;
  }

  lemma InsertFindSame(gs: seq<Group>, x: int, s: int, c: int, y: int)
    requires Ascending(gs) && gs != [] && x == gs[0].id
    ensures Find(Insert(gs, x, s, c), y) ==
              if y == x then Group(x, Find(gs, x).sum + s, Find(gs, x).count + c) else Find(gs, y)
  {
    var r := Insert(gs, x, s, c);
    assert r == [Group(x, gs[0].sum + s, gs[0].count + c)] + gs[1..];
    assert r[1..] == gs[1..];
  }

  /** `.groupby('id').sum()` on the two product columns (lines 41-44): one group per id,
      in ascending id order, each holding that id's totals. */
  function GroupSum(rows: seq<Row>, sumCol: string, countCol: string): (gs: seq<Group>)
    ensures Ascending(gs)
    ensures GroupIds(gs) == RowIds(rows)
    ensures forall x :: Find(gs, x) == Group(x, Total(rows, x, sumCol), Total(rows, x, countCol))
  {
    if rows == [] then []
    else
      var rest := GroupSum(rows[1..], sumCol, countCol);
      assert RowIds(rows) == {rows[0].id} + RowIds(rows[1..]);
      InsertTotals(rows, rest, sumCol, countCol);
      Insert(rest, rows[0].id, CellValue(rows[0], sumCol), CellValue(rows[0], countCol))
  }

  /** Adding the first row to the groups of the other rows gives the groups of all rows. */
  lemma InsertTotals(rows: seq<Row>, rest: seq<Group>, sumCol: string, countCol: string)
    requires rows != [] && Ascending(rest)
    requires forall x :: Find(rest, x) == Group(x, Total(rows[1..], x, sumCol), Total(rows[1..], x, countCol))
    ensures var r := Insert(rest, rows[0].id, CellValue(rows[0], sumCol), CellValue(rows[0], countCol));
            forall x :: Find(r, x) == Group(x, Total(rows, x, sumCol), Total(rows, x, countCol))
  {
    forall x ensures Find(Insert(rest, rows[0].id, CellValue(rows[0], sumCol), CellValue(rows[0], countCol)), x)
                     == Group(x, Total(rows, x, sumCol), Total(rows, x, countCol)) {
      InsertFind(rest, rows[0].id, CellValue(rows[0], sumCol), CellValue(rows[0], countCol), x);
    }
  }

  /** The activity rule of lines 51-56, as `astype(int)` gives it. */
  function Flag(sum: int, count: int): (f: int)
    ensures f == 0 || f == 1
    ensures f == 1 <==> sum != 0 && count != 0
  {
    if sum != 0 && count != 0 then 1 else 0
  }

  /** `df_tmp[['flag_<p>']].reset_index()` (line 59): the id and the flag of every group. */
  function FlagRows(gs: seq<Group>): (rows: seq<FlagRow>)
    ensures |rows| == |gs|
    ensures forall i :: 0 <= i < |rows| ==> rows[i].id == gs[i].id && (rows[i].flag == 0 || rows[i].flag == 1)
  {
    seq(|gs|, i requires 0 <= i < |gs| => FlagRow(gs[i].id, Flag(gs[i].sum, gs[i].count)))
  }

  /** `transform(profit_table, date, product)`. An unparsable or out-of-range date raises in
      pandas; a table lacking either product column gives the column-less empty frame. */
  function Transform(t: Table, date: string, p: string): (r: Result<Frame, TransformError>)
    ensures r.Err? <==> !AcceptedDate(date)
    ensures r == Err(UnparsableDate) <==> ParseIsoDate(date).None?
    ensures r.Ok? && (SumColumn(p) !in t.columns || CountColumn(p) !in t.columns) ==> r.value == Frame([], [])
    ensures r.Ok? && SumColumn(p) in t.columns && CountColumn(p) in t.columns ==>
              r.value.columns == ["id", FlagColumn(p)]
  {
    match ParseIsoDate(date)
    case None => Err(UnparsableDate)
    case Some(d) =>
      if !InTimestampRange(d) || !InTimestampRange(WindowStart(d)) || !InTimestampRange(WindowEnd(d)) then
        Err(DateOutOfBounds)
      else
        var kept := SelectWindow(t.rows, WindowDates(d));
        if SumColumn(p) !in t.columns || CountColumn(p) !in t.columns then
          Ok(Frame([], []))
        else
          Ok(Frame(["id", FlagColumn(p)], FlagRows(GroupSum(kept, SumColumn(p), CountColumn(p)))))
  }

  function FrameIds(rows: seq<FlagRow>): set<int> {
    set r | r in rows :: r.id
  }

  /** The ids of the rows whose date text is a window string. */
  function WindowIds(rows: seq<Row>, window: seq<string>): set<int> {
    set r | r in rows && r.date in window :: r.id
  }

  /** On an accepted date with both product columns, `transform` returns the flags of the
      groups of the in-window rows. */
  lemma TransformOk(t: Table, date: string, p: string)
    requires AcceptedDate(date) && SumColumn(p) in t.columns && CountColumn(p) in t.columns
    ensures Transform(t, date, p) ==
              Ok(Frame(["id", FlagColumn(p)],
                       FlagRows(GroupSum(SelectWindow(t.rows, WindowFor(date)), SumColumn(p), CountColumn(p)))))
  {
  }

  /** The flag rows carry the groups' ids, in the same order. */
  lemma {:induction false} FlagRowsIds(gs: seq<Group>)
    requires Ascending(gs)
    ensures var rows := FlagRows(gs);
            && (forall i, j :: 0 <= i < j < |rows| ==> rows[i].id < rows[j].id)
            && FrameIds(rows) == GroupIds(gs)
  {
    var rows := FlagRows(gs);
    forall x | x in GroupIds(gs) ensures x in FrameIds(rows) {
      GroupIdsMembers(gs, x);
      var i :| 0 <= i < |gs| && gs[i].id == x;
      assert rows[i] in rows;
    }
    forall x | x in FrameIds(rows) ensures x in GroupIds(gs) {
      var fr :| fr in rows && fr.id == x;
      var i :| 0 <= i < |rows| && rows[i] == fr;
      GroupIdsMembers(gs, x);
    }
  }

  /** The selected rows have exactly the ids of the in-window rows. */
  lemma SelectWindowIds(rows: seq<Row>, window: seq<string>)
    ensures RowIds(SelectWindow(rows, window)) == WindowIds(rows, window)
  {
  }

  /** The rows of `transform`'s result: ids ascending, and exactly the ids that have a row
      in the window. */
  lemma {:induction false} TransformIds(t: Table, date: string, p: string)
    requires AcceptedDate(date) && SumColumn(p) in t.columns && CountColumn(p) in t.columns
    ensures Transform(t, date, p).Ok?
    ensures var rows := Transform(t, date, p).value.rows;
            && (forall i, j :: 0 <= i < j < |rows| ==> rows[i].id < rows[j].id)
            && FrameIds(rows) == WindowIds(t.rows, WindowFor(date))
  {
    TransformOk(t, date, p);
    var kept := SelectWindow(t.rows, WindowFor(date));
    FlagRowsIds(GroupSum(kept, SumColumn(p), CountColumn(p)));
    SelectWindowIds(t.rows, WindowFor(date));
  }

  /** The flags of `transform`'s result: 0 or 1, and 1 exactly when both windowed totals of
      the id are non-zero. */
  lemma {:induction false} TransformFlags(t: Table, date: string, p: string)
    requires AcceptedDate(date) && SumColumn(p) in t.columns && CountColumn(p) in t.columns
    ensures Transform(t, date, p).Ok?
    ensures var rows := Transform(t, date, p).value.rows;
            var w := WindowFor(date);
            forall i :: 0 <= i < |rows| ==>
              && (rows[i].flag == 0 || rows[i].flag == 1)
              && (rows[i].flag == 1 <==>
                    WindowTotal(t.rows, w, rows[i].id, SumColumn(p)) != 0
                    && WindowTotal(t.rows, w, rows[i].id, CountColumn(p)) != 0)
  {
    TransformOk(t, date, p);
    var w := WindowFor(date);
    var kept := SelectWindow(t.rows, w);
    var gs := GroupSum(kept, SumColumn(p), CountColumn(p));
    var rows := Transform(t, date, p).value.rows;
    forall i | 0 <= i < |rows|
      ensures rows[i].flag == 1 <==>
                WindowTotal(t.rows, w, rows[i].id, SumColumn(p)) != 0
                && WindowTotal(t.rows, w, rows[i].id, CountColumn(p)) != 0
    {
      FindInAscending(gs, i);
      SelectWindowTotal(t.rows, w, gs[i].id, SumColumn(p));
      SelectWindowTotal(t.rows, w, gs[i].id, CountColumn(p));
    }
  }

  /** Selecting from two blocks of rows selects from each in turn. */
  lemma {:induction false} SelectWindowAppend(a: seq<Row>, b: seq<Row>, window: seq<string>)
    ensures SelectWindow(a + b, window) == SelectWindow(a, window) + SelectWindow(b, window)
  {
    if a == [] {
      assert a + b == b;
    } else {
      assert (a + b)[1..] == a[1..] + b;
      SelectWindowAppend(a[1..], b, window);
    }
  }

  /** A row whose date text is not exactly a window string changes nothing in the result,
      whatever its cells: there is no normalisation of dates. */
  lemma {:induction false} OutOfWindowRowIgnored(t: Table, r: Row, date: string, p: string)
    requires AcceptedDate(date) && r.date !in WindowFor(date)
    ensures Transform(Table(t.columns, t.rows + [r]), date, p) == Transform(t, date, p)
  {
    var w := WindowFor(date);
    SelectWindowAppend(t.rows, [r], w);
    assert SelectWindow([r], w) == [];
    assert SelectWindow(t.rows + [r], w) == SelectWindow(t.rows, w);
  }
}
