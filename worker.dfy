/** What `main` (transform_script.py, lines 100-143) decides once the CSV text is parsed:
    reject a table without the product's columns, slice it to the product, run `transform`
    for the fixed target date, and write the result only when it has rows. */
module ProductWorker {
  import opened Wrappers
  import opened Calendar
  import opened IsoDate
  import opened MonthWindow
  import opened FlagTransform

  /** The target date `main` passes to `transform` (line 129). */
  const TargetDate: string := "2024-03-01"

  /** `sys.exit(1)` (or an uncaught exception), an empty result with nothing written, or the
      frame written to stdout. */
  datatype WorkerOutcome = ExitFailure | NoOutput | Output(frame: Frame)

  predicate IsProductCell(c: string, p: string) {
    c == SumColumn(p) || c == CountColumn(p)
  }

  function SliceRow(r: Row, p: string): Row {
    Row(r.id, r.date, map c | c in r.cells && IsProductCell(c, p) :: r.cells[c])
  }

  /** `df[['id', 'date', f'sum_{p}', f'count_{p}']]` (line 126). */
  function ProductSlice(t: Table, p: string): (s: Table)
    ensures |s.rows| == |t.rows|
    ensures forall i :: 0 <= i < |s.rows| ==> s.rows[i].id == t.rows[i].id && s.rows[i].date == t.rows[i].date
  {
    Table({SumColumn(p), CountColumn(p)}, seq(|t.rows|, i requires 0 <= i < |t.rows| => SliceRow(t.rows[i], p)))
  }

  /** `main` from the parsed table on (lines 120-143). */
  function RunWorker(t: Table, p: string): (o: WorkerOutcome)
    ensures SumColumn(p) !in t.columns || CountColumn(p) !in t.columns ==> o == ExitFailure
    ensures o.Output? ==> o.frame.rows != [] && o.frame.columns == ["id", FlagColumn(p)]
  {
    if SumColumn(p) !in t.columns || CountColumn(p) !in t.columns then ExitFailure
    else
      match Transform(ProductSlice(t, p), TargetDate, p)
      case Err(_) => ExitFailure
      case Ok(f) => if f.rows == [] then NoOutput else Output(f)
  }

  lemma {:induction false} TargetDateText(d: Date)
    requires d == Date(2024, 3, 1)
    ensures FormatDate(d) == TargetDate
  {
    assert Pad4(d.year) == "2024";
    assert Pad2(d.month) == "03";
    assert Pad2(d.day) == "01";
  }

  lemma {:induction false} TargetDateParses()
    ensures ParseIsoDate(TargetDate) == Some(Date(2024, 3, 1))
  {
    var d := Date(2024, 3, 1);
    TargetDateText(d);
    ParseFormat(d);
  }

  /** A text that parses as 1 March 2024 is accepted. */
  lemma {:induction false} MarchFirstAccepted(s: string)
    requires ParseIsoDate(s) == Some(Date(2024, 3, 1))
    ensures AcceptedDate(s)
  {
    AcceptedDateRange(s);
    var d := ParseIsoDate(s).value;
    assert DateLe(Date(1677, 11, 22), d) && DateLe(d, Date(2262, 3, 11));
  }

  /** The window of a text that parses as 1 March 2024 is January to March 2024. */
  lemma {:induction false} MarchFirstWindow(s: string)
    requires AcceptedDate(s)
    requires ParseIsoDate(s).value.year == 2024 && ParseIsoDate(s).value.month == 3 && ParseIsoDate(s).value.day == 1
    ensures WindowFor(s) == FirstQuarter2024Dates
  {
    var d := ParseIsoDate(s).value;
    assert WindowFor(s) == WindowDates(d);
    TargetWindowMonths(d);
    FirstQuarterWindowDates(d);
  }

  /** The fixed target date parses, stays inside the Timestamp range, and its window is
      January to March 2024. */
  lemma {:induction false} TargetDateAccepted()
    ensures AcceptedDate(TargetDate)
    ensures WindowFor(TargetDate) == FirstQuarter2024Dates
  {
    TargetDateParses();
    MarchFirstAccepted(TargetDate);
    MarchFirstWindow(TargetDate);
  }

  /** Slicing keeps every id, date and product cell, so the windowed totals are the
      original table's. */
  lemma {:induction false} SliceTotals(rows: seq<Row>, p: string, w: seq<string>, x: int, col: string)
    requires IsProductCell(col, p)
    ensures WindowTotal(ProductSlice(Table({}, rows), p).rows, w, x, col) == WindowTotal(rows, w, x, col)
  {
    var sliced := ProductSlice(Table({}, rows), p).rows;
    if rows != [] {
      assert sliced[1..] == ProductSlice(Table({}, rows[1..]), p).rows;
      SliceTotals(rows[1..], p, w, x, col);
      assert CellValue(sliced[0], col) == CellValue(rows[0], col);
    }
  }

  /** Every id's windowed product totals are the same in the slice and in the table. */
  lemma {:induction false} SliceWindowTotals(t: Table, p: string, w: seq<string>)
    ensures forall x :: WindowTotal(ProductSlice(t, p).rows, w, x, SumColumn(p)) == WindowTotal(t.rows, w, x, SumColumn(p))
    ensures forall x :: WindowTotal(ProductSlice(t, p).rows, w, x, CountColumn(p)) == WindowTotal(t.rows, w, x, CountColumn(p))
  {
    assert ProductSlice(t, p).rows == ProductSlice(Table({}, t.rows), p).rows;
    forall x
      ensures WindowTotal(ProductSlice(t, p).rows, w, x, SumColumn(p)) == WindowTotal(t.rows, w, x, SumColumn(p))
      ensures WindowTotal(ProductSlice(t, p).rows, w, x, CountColumn(p)) == WindowTotal(t.rows, w, x, CountColumn(p))
    {
      SliceTotals(t.rows, p, w, x, SumColumn(p));
      SliceTotals(t.rows, p, w, x, CountColumn(p));
    }
  }

  lemma SliceIds(t: Table, p: string, w: seq<string>)
    ensures WindowIds(ProductSlice(t, p).rows, w) == WindowIds(t.rows, w)
  {
    var sliced := ProductSlice(t, p).rows;
    forall x | x in WindowIds(t.rows, w) ensures x in WindowIds(sliced, w) {
      var r :| r in t.rows && r.date in w && r.id == x;
      var i :| 0 <= i < |t.rows| && t.rows[i] == r;
      assert sliced[i] in sliced;
    }
  }

  /** With both columns present the worker runs `transform` on the product slice, which
      succeeds, and writes its result unless it has no rows. */
  lemma {:induction false} WorkerTransform(t: Table, p: string)
    requires SumColumn(p) in t.columns && CountColumn(p) in t.columns
    ensures Transform(ProductSlice(t, p), TargetDate, p).Ok?
    ensures var f := Transform(ProductSlice(t, p), TargetDate, p).value;
            RunWorker(t, p) == if f.rows == [] then NoOutput else Output(f)
  {
    TargetDateAccepted();
  }

  /** The worker fails exactly when the table lacks the product's sum or count column:
      `transform` never raises on the fixed date, and its own missing-column branch is
      never reached from here. */
  lemma {:induction false} WorkerFailure(t: Table, p: string)
    ensures RunWorker(t, p) == ExitFailure <==> SumColumn(p) !in t.columns || CountColumn(p) !in t.columns
  {
    if SumColumn(p) in t.columns && CountColumn(p) in t.columns {
      WorkerTransform(t, p);
    }
  }

  /** When both columns are present, the worker writes nothing exactly when no row of the
      table is dated `'2024-01-01'`, `'2024-02-01'` or `'2024-03-01'`. */
  lemma {:induction false} WorkerNoOutput(t: Table, p: string)
    requires SumColumn(p) in t.columns && CountColumn(p) in t.columns
    ensures RunWorker(t, p) == NoOutput <==>
              WindowIds(t.rows, FirstQuarter2024Dates) == {}
  {
    var s := ProductSlice(t, p);
    WorkerTransform(t, p);
    TargetDateAccepted();
    TransformIds(s, TargetDate, p);
    SliceIds(t, p, FirstQuarter2024Dates);
    var f := Transform(s, TargetDate, p).value;
    assert f.rows == [] <==> FrameIds(f.rows) == {} by {
      if f.rows != [] {
        assert f.rows[0].id in FrameIds(f.rows);
      }
    }
  }

  /** The written frame's ids: those dated in the window, ascending. */
  lemma {:induction false} WorkerFrameIds(t: Table, p: string)
    requires RunWorker(t, p).Output?
    ensures var f := RunWorker(t, p).frame;
            && f.columns == ["id", FlagColumn(p)]
            && FrameIds(f.rows) == WindowIds(t.rows, FirstQuarter2024Dates)
            && (forall i, j :: 0 <= i < j < |f.rows| ==> f.rows[i].id < f.rows[j].id)
  {
    var s := ProductSlice(t, p);
    WorkerTransform(t, p);
    TargetDateAccepted();
    TransformIds(s, TargetDate, p);
    SliceIds(t, p, FirstQuarter2024Dates);
  }

  /** The written frame's flags, in terms of the original table's windowed totals. */
  lemma {:induction false} WorkerFrameFlags(t: Table, p: string)
    requires RunWorker(t, p).Output?
    ensures var w := FirstQuarter2024Dates;
            var f := RunWorker(t, p).frame;
            forall i :: 0 <= i < |f.rows| ==>
              && (f.rows[i].flag == 0 || f.rows[i].flag == 1)
              && (f.rows[i].flag == 1 <==>
                    WindowTotal(t.rows, w, f.rows[i].id, SumColumn(p)) != 0
                    && WindowTotal(t.rows, w, f.rows[i].id, CountColumn(p)) != 0)
  {
    var s := ProductSlice(t, p);
    WorkerTransform(t, p);
    TargetDateAccepted();
    TransformFlags(s, TargetDate, p);
    SliceWindowTotals(t, p, FirstQuarter2024Dates);
  }

  /** What the worker writes: the id and flag columns, one row per id dated in the window,
      in ascending order, flagged 1 exactly when both of that id's windowed totals in the
      original table are non-zero. */
  lemma {:induction false} WorkerFrame(t: Table, p: string)
    requires RunWorker(t, p).Output?
    ensures var w := FirstQuarter2024Dates;
            var f := RunWorker(t, p).frame;
            && f.columns == ["id", FlagColumn(p)]
            && FrameIds(f.rows) == WindowIds(t.rows, w)
            && (forall i, j :: 0 <= i < j < |f.rows| ==> f.rows[i].id < f.rows[j].id)
            && (forall i :: 0 <= i < |f.rows| ==>
                  && (f.rows[i].flag == 0 || f.rows[i].flag == 1)
                  && (f.rows[i].flag == 1 <==>
                        WindowTotal(t.rows, w, f.rows[i].id, SumColumn(p)) != 0
                        && WindowTotal(t.rows, w, f.rows[i].id, CountColumn(p)) != 0))
  {
    WorkerFrameIds(t, p);
    WorkerFrameFlags(t, p);
  }
}
