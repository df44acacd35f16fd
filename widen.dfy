/** The in-memory step of `write_to_file_with_lock` (transform_script.py, lines 81-87):
    when the stored table has no `flag_<p>` column yet, left-join the batch's flag column
    onto it by `id`; otherwise leave it as it is. */
module StoreWiden {
  import opened Wrappers
  import opened FlagTransform

  /** A stored cell: a number, or empty (NaN). */
  datatype Cell = Empty | Value(v: int)

  /** A stored row: its `id` and its other cells by column name. */
  datatype StoreRow = StoreRow(id: int, cells: map<string, Cell>)

  /** The table read back from the flag file: column names in order, and rows. */
  datatype Store = Store(columns: seq<string>, rows: seq<StoreRow>)

  /** `data[['id', f'flag_{p}']]` raises when the batch lacks either column. */
  datatype WidenError = BatchColumnMissing

  /** The batch rows with id `x`, in batch order. */
  function Matches(batch: seq<FlagRow>, x: int): (ms: seq<FlagRow>)
    ensures |ms| <= |batch|
  {
    if batch == [] then []
    else (if batch[0].id == x then [batch[0]] else []) + Matches(batch[1..], x)
  }

  lemma {:induction false} MatchesMembers(batch: seq<FlagRow>, x: int)
    ensures forall m :: m in Matches(batch, x) <==> m in batch && m.id == x
  {
    if batch != [] {
      MatchesMembers(batch[1..], x);
      assert batch == [batch[0]] + batch[1..];
    }
  }

  /** The rows a left merge makes of one stored row: one per matching batch row, or the row
      with an empty flag when nothing matches. */
  function JoinRow(row: StoreRow, batch: seq<FlagRow>, col: string): (out: seq<StoreRow>)
    ensures |out| >= 1
  {
    var ms := Matches(batch, row.id);
    if ms == [] then [StoreRow(row.id, row.cells[col := Empty])] else WithFlags(row, ms, col)
  }

  /** The stored row once per matching batch row, carrying that row's flag. */
  function WithFlags(row: StoreRow, ms: seq<FlagRow>, col: string): (out: seq<StoreRow>)
    ensures |out| == |ms|
    ensures forall i :: 0 <= i < |out| ==>
              out[i].id == row.id && col in out[i].cells && out[i].cells[col] == Value(ms[i].flag)
  {
    if ms == [] then [] else [StoreRow(row.id, row.cells[col := Value(ms[0].flag)])] + WithFlags(row, ms[1..], col)
  }

  /** `existing_data.merge(data[['id', col]], on='id', how='left')`: stored rows in order. */
  function LeftJoin(rows: seq<StoreRow>, batch: seq<FlagRow>, col: string): (out: seq<StoreRow>)
    ensures |out| >= |rows|
  {
    if rows == [] then [] else JoinRow(rows[0], batch, col) + LeftJoin(rows[1..], batch, col)
  }

  /** Widen the stored table with the batch's flag column unless it already has one. */
  function WidenIfAbsent(store: Store, batch: Frame, p: string): (r: Result<Store, WidenError>)
    ensures FlagColumn(p) in store.columns ==> r == Ok(store)
    ensures r.Err? <==> FlagColumn(p) !in store.columns
                        && ("id" !in batch.columns || FlagColumn(p) !in batch.columns)
    ensures r.Ok? && FlagColumn(p) !in store.columns ==>
              r.value.columns == store.columns + [FlagColumn(p)] && |r.value.rows| >= |store.rows|
  {
    if FlagColumn(p) in store.columns then Ok(store)
    else if "id" !in batch.columns || FlagColumn(p) !in batch.columns then Err(BatchColumnMissing)
    else Ok(Store(store.columns + [FlagColumn(p)], LeftJoin(store.rows, batch.rows, FlagColumn(p))))
  }

  /** The flag the batch holds for id `x`, or empty when it has none. */
  function BatchFlag(batch: seq<FlagRow>, x: int): Cell {
    if batch == [] then Empty
    else if batch[0].id == x then Value(batch[0].flag)
    else BatchFlag(batch[1..], x)
  }

  predicate DistinctIds(batch: seq<FlagRow>) {
    forall i, j :: 0 <= i < j < |batch| ==> batch[i].id != batch[j].id
  }

  /** With distinct batch ids an id matches at most one batch row: its flag. */
  lemma {:induction false} MatchesDistinct(batch: seq<FlagRow>, x: int)
    requires DistinctIds(batch)
    ensures BatchFlag(batch, x) == Empty ==> Matches(batch, x) == []
    ensures BatchFlag(batch, x).Value? ==> Matches(batch, x) == [FlagRow(x, BatchFlag(batch, x).v)]
  {
    if batch != [] {
      MatchesDistinct(batch[1..], x);
      if batch[0].id == x {
        assert forall m :: m in batch[1..] ==> m.id != x by {
          forall j | 1 <= j < |batch| ensures batch[j].id != x {
          }
        }
        MatchesMembers(batch[1..], x);
        assert forall m :: m !in Matches(batch[1..], x);
        assert Matches(batch[1..], x) == [];
      }
    }
  }

  /** With distinct batch ids (as every `transform` result has), the left merge keeps each
      stored row in place and adds only the batch flag of its id, or an empty cell. */
  lemma {:induction false} LeftJoinDistinct(rows: seq<StoreRow>, batch: seq<FlagRow>, col: string)
    requires DistinctIds(batch)
    ensures |LeftJoin(rows, batch, col)| == |rows|
    ensures forall i :: 0 <= i < |rows| ==>
              LeftJoin(rows, batch, col)[i] == StoreRow(rows[i].id, rows[i].cells[col := BatchFlag(batch, rows[i].id)])
  {
    if rows != [] {
      MatchesDistinct(batch, rows[0].id);
      LeftJoinDistinct(rows[1..], batch, col);
      var head := JoinRow(rows[0], batch, col);
      assert head == [StoreRow(rows[0].id, rows[0].cells[col := BatchFlag(batch, rows[0].id)])];
    }
  }

  /** Where the first output row of stored row `i` lands in the merge. */
  function FirstOutput(rows: seq<StoreRow>, batch: seq<FlagRow>, col: string, i: int): (j: int)
    requires 0 <= i < |rows|
    ensures 0 <= j < |LeftJoin(rows, batch, col)|
  {
    if i == 0 then 0 else |JoinRow(rows[0], batch, col)| + FirstOutput(rows[1..], batch, col, i - 1)
  }

  /** The first row a stored row makes keeps its id and every other cell. */
  lemma JoinRowHead(row: StoreRow, batch: seq<FlagRow>, col: string)
    ensures JoinRow(row, batch, col)[0].id == row.id
    ensures JoinRow(row, batch, col)[0].cells - {col} == row.cells - {col}
  {
    var h := JoinRow(row, batch, col)[0];
    assert h.cells.Keys == row.cells.Keys + {col};
  }

  /** Every stored row survives the merge with its id and all its other cells. */
  lemma {:induction false} LeftJoinKeepsRows(rows: seq<StoreRow>, batch: seq<FlagRow>, col: string, i: int)
    requires 0 <= i < |rows|
    ensures var j := FirstOutput(rows, batch, col, i);
            && LeftJoin(rows, batch, col)[j].id == rows[i].id
            && LeftJoin(rows, batch, col)[j].cells - {col} == rows[i].cells - {col}
  {
    var head := JoinRow(rows[0], batch, col);
    var tail := LeftJoin(rows[1..], batch, col);
    assert LeftJoin(rows, batch, col) == head + tail;
    if i == 0 {
      JoinRowHead(rows[0], batch, col);
      assert FirstOutput(rows, batch, col, i) == 0;
      assert (head + tail)[0] == head[0];
    } else {
      LeftJoinKeepsRows(rows[1..], batch, col, i - 1);
      var j := FirstOutput(rows[1..], batch, col, i - 1);
      assert FirstOutput(rows, batch, col, i) == |head| + j;
      assert rows[1..][i - 1] == rows[i];
      assert (head + tail)[|head| + j] == tail[j];
    }
  }

  /** Widening a second time with the same product changes nothing. */
  lemma WidenIdempotent(store: Store, batch: Frame, other: Frame, p: string)
    requires WidenIfAbsent(store, batch, p).Ok?
    ensures WidenIfAbsent(WidenIfAbsent(store, batch, p).value, other, p) == WidenIfAbsent(store, batch, p)
  {
  }

  /** Widening with a result of `transform` adds the one flag column and keeps the stored
      rows one for one: each gains the batch flag of its id, or an empty cell. */
  lemma {:induction false} WidenWithTransformResult(store: Store, t: Table, date: string, p: string)
    requires AcceptedDate(date) && SumColumn(p) in t.columns && CountColumn(p) in t.columns
    requires FlagColumn(p) !in store.columns
    ensures var batch := Transform(t, date, p).value;
            var r := WidenIfAbsent(store, batch, p);
            && r.Ok?
            && r.value.columns == store.columns + [FlagColumn(p)]
            && |r.value.rows| == |store.rows|
            && forall i :: 0 <= i < |store.rows| ==>
                 r.value.rows[i] == StoreRow(store.rows[i].id,
                                             store.rows[i].cells[FlagColumn(p) := BatchFlag(batch.rows, store.rows[i].id)])
  {
    TransformIds(t, date, p);
    var batch := Transform(t, date, p).value;
    assert DistinctIds(batch.rows);
    LeftJoinDistinct(store.rows, batch.rows, FlagColumn(p));
  }
}
