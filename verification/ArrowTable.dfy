/** Record batches to a query result (crates/ox-api/src/arrow_conversion.rs). */
module ArrowTable {
  import opened Prelude
  import opened ArrowTime
  import opened ArrowLayout
  import opened ArrowDecode
  import opened ArrowEncode

  datatype Batch = Batch(names: seq<string>, columns: seq<Array>, rows: nat)

  ghost predicate ValidBatch(b: Batch) {
    |b.names| == |b.columns| && forall k :: 0 <= k < |b.columns| ==>
      WellFormed(b.columns[k]) && Len(b.columns[k]) == b.rows
  }

  ghost predicate ValidBatches(batches: seq<Batch>) {
    forall i :: 0 <= i < |batches| ==> ValidBatch(batches[i])
  }

  datatype QueryResult = QueryResult(columns: seq<string>, rows: seq<seq<Value>>, rowsReturned: nat)

  type Table = Result<seq<seq<Value>>, Error>

  function Join(a: Table, b: Table): Table {
    if a.Err? then a else if b.Err? then b else Ok(a.value + b.value)
  }

  function RowCells(env: Platform, b: Batch, row: nat, k: nat): Result<seq<Value>, Error>
    requires ValidBatch(b) && row < b.rows && k <= |b.columns|
  {
    if k == 0 then Ok([]) else AddItem(RowCells(env, b, row, k - 1), Cell(env, b.columns[k - 1], row))
  }

  function BatchRows(env: Platform, b: Batch, n: nat): Table
    requires ValidBatch(b) && n <= b.rows
  {
    if n == 0 then Ok([]) else AddItem(BatchRows(env, b, n - 1), RowCells(env, b, n - 1, |b.columns|))
  }

  function AllRows(env: Platform, batches: seq<Batch>): Table
    requires ValidBatches(batches)
  {
    if batches == [] then Ok([])
    else
      var last := batches[|batches| - 1];
      Join(AllRows(env, batches[..|batches| - 1]), BatchRows(env, last, last.rows))
  }

  // ------------------------------------------------------------------
  // The conversion
  // ------------------------------------------------------------------

  method RecordBatchesToQueryResult(env: Platform, batches: seq<Batch>) returns (r: Result<QueryResult, Error>)
    requires ValidBatches(batches)
    ensures r.Err? <==> AllRows(env, batches).Err?
    ensures r.Err? ==> r.error == AllRows(env, batches).error
    ensures r.Ok? ==> r.value.rows == AllRows(env, batches).value && r.value.rowsReturned == |r.value.rows|
    ensures r.Ok? ==> r.value.columns == if batches == [] then [] else batches[0].names
  {
    var columns: seq<string> := [];
    var rows: seq<seq<Value>> := [];
    if batches != [] {
      columns := batches[0].names;
      var i := 0;
      while i < |batches|
        invariant 0 <= i <= |batches|
        invariant AllRows(env, batches[..i]) == Ok(rows)
      {
        assert batches[..i + 1][..i] == batches[..i];
        var appended := AppendBatchRows(env, batches[i], rows);
        if appended.Err? {
          AllRowsStop(env, batches, i + 1);
          return Err(appended.error);
        }
        rows := appended.value;
        i := i + 1;
      }
      assert batches[..|batches|] == batches;
    }
    return Ok(QueryResult(columns, rows, |rows|));
  }

  method AppendBatchRows(env: Platform, b: Batch, out: seq<seq<Value>>) returns (r: Table)
    requires ValidBatch(b)
    ensures r == Join(Ok(out), BatchRows(env, b, b.rows))
  {
    var rows := out;
    var row := 0;
    assert out + [] == out;
    while row < b.rows
      invariant 0 <= row <= b.rows
      invariant Ok(rows) == Join(Ok(out), BatchRows(env, b, row))
    {
      var cells := RowToProperties(env, b, row);
      if cells.Err? {
        BatchStop(env, b, row + 1, b.rows);
        return Err(cells.error);
      }
      JoinAdd(Ok(out), BatchRows(env, b, row), cells);
      rows := rows + [cells.value];
      row := row + 1;
    }
    return Ok(rows);
  }

  method RowToProperties(env: Platform, b: Batch, row: nat) returns (r: Result<seq<Value>, Error>)
    requires ValidBatch(b) && row < b.rows
    ensures r == RowCells(env, b, row, |b.columns|)
  {
    var cells: seq<Value> := [];
    var col := 0;
    while col < |b.columns|
      invariant 0 <= col <= |b.columns|
      invariant RowCells(env, b, row, col) == Ok(cells)
    {
      var v := CellToProperty(env, b.columns[col], row);
      assert RowCells(env, b, row, col + 1) == AddItem(Ok(cells), v);
      if v.Err? {
        RowStop(env, b, row, col + 1, |b.columns|);
        return Err(v.error);
      }
      cells := cells + [v.value];
      col := col + 1;
    }
    return Ok(cells);
  }

  lemma {:induction false} RowStop(env: Platform, b: Batch, row: nat, mid: nat, k: nat)
    requires ValidBatch(b) && row < b.rows && mid <= k <= |b.columns| && RowCells(env, b, row, mid).Err?
    ensures RowCells(env, b, row, k) == RowCells(env, b, row, mid)
    decreases k
  {
    if mid < k {
      RowStop(env, b, row, mid, k - 1);
    }
  }

  lemma {:induction false} BatchStop(env: Platform, b: Batch, mid: nat, n: nat)
    requires ValidBatch(b) && mid <= n <= b.rows && BatchRows(env, b, mid).Err?
    ensures BatchRows(env, b, n) == BatchRows(env, b, mid)
    decreases n
  {
    if mid < n {
      BatchStop(env, b, mid, n - 1);
    }
  }

  lemma {:induction false} AllRowsStop(env: Platform, batches: seq<Batch>, mid: nat)
    requires ValidBatches(batches) && mid <= |batches| && AllRows(env, batches[..mid]).Err?
    ensures AllRows(env, batches) == AllRows(env, batches[..mid])
    decreases |batches|
  {
    if mid < |batches| {
      assert batches[..|batches| - 1][..mid] == batches[..mid];
      AllRowsStop(env, batches[..|batches| - 1], mid);
    } else {
      assert batches[..mid] == batches;
    }
  }

  // ------------------------------------------------------------------
  // Whole tables
  // ------------------------------------------------------------------

  // One cell per column type.
  ghost predicate FitsTypes(types: seq<Type>, row: seq<Row>) {
    |row| == |types| && forall k :: 0 <= k < |types| ==> Fits(types[k], row[k])
  }

  ghost predicate TableFits(types: seq<Type>, rows: seq<seq<Row>>) {
    forall i :: 0 <= i < |rows| ==> FitsTypes(types, rows[i])
  }

  function MeaningOfCells(env: Platform, types: seq<Type>, row: seq<Row>, k: nat): Result<seq<Value>, Error>
    requires FitsTypes(types, row) && k <= |types|
  {
    if k == 0 then Ok([]) else AddItem(MeaningOfCells(env, types, row, k - 1), Meaning(env, types[k - 1], row[k - 1]))
  }

  function MeaningOfRows(env: Platform, types: seq<Type>, rows: seq<seq<Row>>): Table
    requires TableFits(types, rows)
  {
    if rows == [] then Ok([])
    else AddItem(MeaningOfRows(env, types, rows[..|rows| - 1]), MeaningOfCells(env, types, rows[|rows| - 1], |types|))
  }

  function ColumnAt(types: seq<Type>, rows: seq<seq<Row>>, k: nat): (col: seq<Row>)
    requires TableFits(types, rows) && k < |types|
    ensures AllFit(types[k], col)
  {
    seq(|rows|, i requires 0 <= i < |rows| => assert FitsTypes(types, rows[i]); rows[i][k])
  }

  ghost function EncodeBatch(names: seq<string>, types: seq<Type>, rows: seq<seq<Row>>): Batch
    requires TableFits(types, rows) && |names| == |types|
  {
    Batch(names, seq(|types|, k requires 0 <= k < |types| => Encode(types[k], ColumnAt(types, rows, k))), |rows|)
  }

  lemma EncodeBatchValid(names: seq<string>, types: seq<Type>, rows: seq<seq<Row>>)
    requires TableFits(types, rows) && |names| == |types|
    ensures ValidBatch(EncodeBatch(names, types, rows))
  {
    forall k | 0 <= k < |types| ensures WellFormed(Encode(types[k], ColumnAt(types, rows, k))) {
      EncodeWellFormed(types[k], ColumnAt(types, rows, k));
    }
  }

  lemma CellRoundTrip(env: Platform, names: seq<string>, types: seq<Type>, rows: seq<seq<Row>>, row: nat, k: nat)
    requires TableFits(types, rows) && |names| == |types| && row < |rows| && k < |types|
    requires ValidBatch(EncodeBatch(names, types, rows)) && FitsTypes(types, rows[row])
    ensures Cell(env, EncodeBatch(names, types, rows).columns[k], row) == Meaning(env, types[k], rows[row][k])
  {
    RoundTrip(env, types[k], ColumnAt(types, rows, k), row);
  }

  // A row whose cells convert to what `r` stands for does so as a whole.
  lemma {:induction false} RowFromCells(env: Platform, b: Batch, row: nat, types: seq<Type>, r: seq<Row>, k: nat)
    requires ValidBatch(b) && row < b.rows && FitsTypes(types, r) && |b.columns| == |types| && k <= |types|
    requires forall c :: 0 <= c < |types| ==> Cell(env, b.columns[c], row) == Meaning(env, types[c], r[c])
    ensures RowCells(env, b, row, k) == MeaningOfCells(env, types, r, k)
  {
    if k > 0 {
      RowFromCells(env, b, row, types, r, k - 1);
    }
  }

  lemma RowRoundTrip(env: Platform, names: seq<string>, types: seq<Type>, rows: seq<seq<Row>>, row: nat)
    requires TableFits(types, rows) && |names| == |types| && row < |rows|
    requires ValidBatch(EncodeBatch(names, types, rows)) && FitsTypes(types, rows[row])
    ensures RowCells(env, EncodeBatch(names, types, rows), row, |types|) ==
      MeaningOfCells(env, types, rows[row], |types|)
  {
    var b := EncodeBatch(names, types, rows);
    forall c | 0 <= c < |types| ensures Cell(env, b.columns[c], row) == Meaning(env, types[c], rows[row][c]) {
      CellRoundTrip(env, names, types, rows, row, c);
    }
    RowFromCells(env, b, row, types, rows[row], |types|);
  }

  lemma {:induction false} BatchFromRows(env: Platform, b: Batch, types: seq<Type>, rows: seq<seq<Row>>, n: nat)
    requires ValidBatch(b) && b.rows == |rows| && |b.columns| == |types| && TableFits(types, rows) && n <= |rows|
    requires forall i :: 0 <= i < |rows| ==>
      FitsTypes(types, rows[i]) && RowCells(env, b, i, |types|) == MeaningOfCells(env, types, rows[i], |types|)
    ensures BatchRows(env, b, n) == MeaningOfRows(env, types, rows[..n])
  {
    if n > 0 {
      BatchFromRows(env, b, types, rows, n - 1);
      assert rows[..n][..n - 1] == rows[..n - 1];
    }
  }

  lemma BatchRoundTrip(env: Platform, names: seq<string>, types: seq<Type>, rows: seq<seq<Row>>, n: nat)
    requires TableFits(types, rows) && |names| == |types| && n <= |rows|
    requires ValidBatch(EncodeBatch(names, types, rows))
    ensures BatchRows(env, EncodeBatch(names, types, rows), n) == MeaningOfRows(env, types, rows[..n])
  {
    var b := EncodeBatch(names, types, rows);
    forall i | 0 <= i < |rows|
      ensures FitsTypes(types, rows[i]) && RowCells(env, b, i, |types|) == MeaningOfCells(env, types, rows[i], |types|)
    {
      RowRoundTrip(env, names, types, rows, i);
    }
    BatchFromRows(env, b, types, rows, n);
  }

  lemma {:induction false} MeaningOfJoin(env: Platform, types: seq<Type>, a: seq<seq<Row>>, b: seq<seq<Row>>)
    requires TableFits(types, a) && TableFits(types, b)
    ensures TableFits(types, a + b)
    ensures MeaningOfRows(env, types, a + b) == Join(MeaningOfRows(env, types, a), MeaningOfRows(env, types, b))
    decreases |b|
  {
    assert TableFits(types, a + b);
    if b == [] {
      assert a + b == a;
      var m := MeaningOfRows(env, types, a);
      assert m.Ok? ==> m.value + [] == m.value;
    } else {
      var init := b[..|b| - 1];
      MeaningOfJoin(env, types, a, init);
      assert (a + b)[..|a + b| - 1] == a + init;
      assert (a + b)[|a + b| - 1] == b[|b| - 1];
      JoinAdd(MeaningOfRows(env, types, a), MeaningOfRows(env, types, init),
        MeaningOfCells(env, types, b[|b| - 1], |types|));
    }
  }

  lemma JoinAdd(a: Table, b: Table, row: Result<seq<Value>, Error>)
    ensures AddItem(Join(a, b), row) == Join(a, AddItem(b, row))
  {
    if a.Ok? && b.Ok? && row.Ok? {
      assert (a.value + b.value) + [row.value] == a.value + (b.value + [row.value]);
    }
  }

  lemma {:induction false} ConcatTableFits(types: seq<Type>, tables: seq<seq<seq<Row>>>)
    requires forall i :: 0 <= i < |tables| ==> TableFits(types, tables[i])
    ensures TableFits(types, Concat(tables))
  {
    if tables != [] {
      ConcatTableFits(types, tables[..|tables| - 1]);
    }
  }

  /** However a table is cut into encoded batches, converting them gives the meaning of all its
      rows in order, or the error of its first unrepresentable cell in row order. */
  lemma {:induction false} TableRoundTrip(env: Platform, names: seq<string>, types: seq<Type>,
                                          tables: seq<seq<seq<Row>>>, batches: seq<Batch>)
    requires |names| == |types| && |batches| == |tables|
    requires forall i :: 0 <= i < |tables| ==> TableFits(types, tables[i])
    requires forall i :: 0 <= i < |tables| ==> batches[i] == EncodeBatch(names, types, tables[i])
    ensures ValidBatches(batches) && TableFits(types, Concat(tables))
    ensures AllRows(env, batches) == MeaningOfRows(env, types, Concat(tables))
    decreases |tables|
  {
    ConcatTableFits(types, tables);
    forall i | 0 <= i < |batches| ensures ValidBatch(batches[i]) {
      EncodeBatchValid(names, types, tables[i]);
    }
    if tables != [] {
      var n := |tables| - 1;
      TableRoundTrip(env, names, types, tables[..n], batches[..n]);
      BatchRoundTrip(env, names, types, tables[n], |tables[n]|);
      assert tables[n][..|tables[n]|] == tables[n];
      MeaningOfJoin(env, types, Concat(tables[..n]), tables[n]);
    }
  }

  /** When the conversion succeeds it returns as many rows as it was given, each with one value
      per column, and every cell where it belongs. */
  lemma {:induction false} NothingLost(env: Platform, types: seq<Type>, rows: seq<seq<Row>>)
    requires TableFits(types, rows) && MeaningOfRows(env, types, rows).Ok?
    ensures var out := MeaningOfRows(env, types, rows).value;
      && |out| == |rows|
      && forall i, k :: 0 <= i < |rows| && 0 <= k < |types| ==>
           FitsTypes(types, rows[i]) && |out[i]| == |types| && Ok(out[i][k]) == Meaning(env, types[k], rows[i][k])
  {
    if rows != [] {
      var n := |rows| - 1;
      NothingLost(env, types, rows[..n]);
      assert FitsTypes(types, rows[n]);
      CellsKept(env, types, rows[n], |types|);
    }
  }

  lemma {:induction false} CellsKept(env: Platform, types: seq<Type>, row: seq<Row>, k: nat)
    requires FitsTypes(types, row) && k <= |types| && MeaningOfCells(env, types, row, k).Ok?
    ensures var out := MeaningOfCells(env, types, row, k).value;
      |out| == k && forall j :: 0 <= j < k ==> Ok(out[j]) == Meaning(env, types[j], row[j])
  {
    if k > 0 {
      CellsKept(env, types, row, k - 1);
    }
  }
}
