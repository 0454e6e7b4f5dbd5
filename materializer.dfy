/** The column-to-JSON half of `rust/src/io.rs`: one typed Arrow cell becomes a
    JSON value (`convert_column_to_json`), one (batch, row) pair becomes a JSON
    object, and all batches become the row records in (batch, row) order
    (`load_parquet_as_json_parallel`, with its parallel iterator run in order). */
module ColumnMaterializer {
  import opened Wrappers

  newtype int64 = x: int | -0x8000_0000_0000_0000 <= x < 0x8000_0000_0000_0000

  datatype TimeUnit = Second | Millisecond | Microsecond | Nanosecond

  /** The Arrow data types the materializer tells apart; `Other` stands for every
      remaining Arrow type (floats, binary, structs, dictionaries, ...). */
  datatype DataType =
    | Utf8
    | Int64
    | Boolean
    | Timestamp(unit: TimeUnit, timezone: Option<string>)
    | List(element: DataType)
    | Other(name: string)

  /** A typed Arrow column: one nullable cell per row (`None` is a null cell).
      A list-of-strings column holds, per row, a nullable list of nullable strings.
      Columns of any other type keep only their type and length: the converter
      never looks at their cells. */
  datatype Column =
    | Utf8Column(strings: seq<Option<string>>)
    | Int64Column(ints: seq<Option<int64>>)
    | BooleanColumn(bools: seq<Option<bool>>)
    | TimestampColumn(unit: TimeUnit, timezone: Option<string>, stamps: seq<Option<int64>>)
    | Utf8ListColumn(lists: seq<Option<seq<Option<string>>>>)
    | UnsupportedColumn(dtype: DataType, length: nat)

  /** The JSON values serde_json builds here. An object is keyed by field name. */
  datatype Json =
    | Null
    | Bool(b: bool)
    | Number(n: int)
    | String(s: string)
    | Array(items: seq<Json>)
    | Object(fields: map<string, Json>)

  datatype ConvertError = UnsupportedType(dtype: DataType, row: nat)

  /** The types with a branch of their own in the converter. */
  predicate Supported(t: DataType)
  {
    t == Utf8 || t == Int64 || t == Boolean || t.Timestamp? || t == List(Utf8)
  }

  function TypeOf(c: Column): DataType
  {
    match c
    case Utf8Column(_) => Utf8
    case Int64Column(_) => Int64
    case BooleanColumn(_) => Boolean
    case TimestampColumn(u, tz, _) => Timestamp(u, tz)
    case Utf8ListColumn(_) => List(Utf8)
    case UnsupportedColumn(t, _) => t
  }

  function Length(c: Column): nat
  {
    match c
    case Utf8Column(xs) => |xs|
    case Int64Column(xs) => |xs|
    case BooleanColumn(xs) => |xs|
    case TimestampColumn(_, _, xs) => |xs|
    case Utf8ListColumn(xs) => |xs|
    case UnsupportedColumn(_, n) => n
  }

  /** A column as Arrow hands it over: an `UnsupportedColumn` really has a type
      without a branch, and timestamps are stored in nanoseconds (the converter
      downcasts every timestamp column to the nanosecond array). */
  predicate WellFormed(c: Column)
  {
    match c
    case UnsupportedColumn(t, _) => !Supported(t)
    case TimestampColumn(u, _, _) => u == Nanosecond
    case _ => true
  }

  /** Is the cell of `row` null? Columns of other types have no cells to look at. */
  predicate IsNullCell(c: Column, row: nat)
    requires row < Length(c)
  {
    match c
    case Utf8Column(xs) => xs[row].None?
    case Int64Column(xs) => xs[row].None?
    case BooleanColumn(xs) => xs[row].None?
    case TimestampColumn(_, _, xs) => xs[row].None?
    case Utf8ListColumn(xs) => xs[row].None?
    case UnsupportedColumn(_, _) => false
  }

  /** The non-null entries of a list of strings, in their original order. */
  function PresentStrings(xs: seq<Option<string>>): seq<string>
  {
    if xs == [] then []
    else (if xs[0].Some? then [xs[0].value] else []) + PresentStrings(xs[1..])
  }

  function NullCount(xs: seq<Option<string>>): nat
  {
    if xs == [] then 0 else (if xs[0].None? then 1 else 0) + NullCount(xs[1..])
  }

  function StringValues(ss: seq<string>): (r: seq<Json>)
    ensures |r| == |ss| && forall i :: 0 <= i < |ss| ==> r[i] == String(ss[i])
  {
    if ss == [] then [] else [String(ss[0])] + StringValues(ss[1..])
  }

  /** `convert_column_to_json`: the JSON value of one cell. Every supported type
      succeeds and keeps null as JSON null; every other type (a list whose
      element type is not Utf8 included) fails. */
  function ConvertColumnToJson(column: Column, row: nat): (r: Result<Json, ConvertError>)
    requires WellFormed(column) && row < Length(column)
    ensures r.Success? <==> Supported(TypeOf(column))
    ensures r == Success(Null) <==> Supported(TypeOf(column)) && IsNullCell(column, row)
    ensures r.Success? && !IsNullCell(column, row) ==>
      match TypeOf(column)
      case Utf8 => r.value.String?
      case Int64 => r.value.Number?
      case Timestamp(_, _) => r.value.Number?
      case Boolean => r.value.Bool?
      case _ => r.value.Array? && forall i :: 0 <= i < |r.value.items| ==> r.value.items[i].String?
  {
    match column
    case Utf8Column(xs) => Success(if xs[row].None? then Null else String(xs[row].value))
    case Int64Column(xs) => Success(if xs[row].None? then Null else Number(xs[row].value as int))
    case BooleanColumn(xs) => Success(if xs[row].None? then Null else Bool(xs[row].value))
    case Utf8ListColumn(xs) =>
      if xs[row].None? then Success(Null)
      else Success(Array(StringValues(PresentStrings(xs[row].value))))
    case TimestampColumn(_, _, xs) => Success(if xs[row].None? then Null else Number(xs[row].value as int))
    case UnsupportedColumn(t, _) => Failure(UnsupportedType(t, row))
  }

  /** A non-null scalar cell is carried over as its own string, number or bool. */
  lemma ScalarCellValue(column: Column, row: nat)
    requires WellFormed(column) && row < Length(column)
    ensures column.Utf8Column? && column.strings[row].Some? ==>
      ConvertColumnToJson(column, row) == Success(String(column.strings[row].value))
    ensures column.Int64Column? && column.ints[row].Some? ==>
      ConvertColumnToJson(column, row) == Success(Number(column.ints[row].value as int))
    ensures column.BooleanColumn? && column.bools[row].Some? ==>
      ConvertColumnToJson(column, row) == Success(Bool(column.bools[row].value))
    ensures column.TimestampColumn? && column.stamps[row].Some? ==>
      ConvertColumnToJson(column, row) == Success(Number(column.stamps[row].value as int))
  {
  }

  /** The non-null entries, no more: as many as the list has non-null entries. */
  lemma {:induction false} PresentStringsLength(xs: seq<Option<string>>)
    ensures |PresentStrings(xs)| + NullCount(xs) == |xs|
    ensures |PresentStrings(xs)| == |xs| <==> forall i :: 0 <= i < |xs| ==> xs[i].Some?
  {
    if xs != [] {
      PresentStringsLength(xs[1..]);
      if forall i :: 0 <= i < |xs[1..]| ==> xs[1..][i].Some? {
        assert forall i :: 1 <= i < |xs| ==> xs[i] == xs[1..][i - 1];
      } else {
        var i :| 0 <= i < |xs[1..]| && xs[1..][i].None?;
        assert xs[i + 1].None?;
      }
    }
  }

  /** Filtering distributes over concatenation, so the original order is kept. */
  lemma {:induction false} PresentStringsAppend(xs: seq<Option<string>>, ys: seq<Option<string>>)
    ensures PresentStrings(xs + ys) == PresentStrings(xs) + PresentStrings(ys)
  {
    if xs == [] {
      assert xs + ys == ys;
    } else {
      assert (xs + ys)[1..] == xs[1..] + ys;
      PresentStringsAppend(xs[1..], ys);
    }
  }

  /** A string is kept exactly when it is one of the list's non-null entries. */
  lemma {:induction false} PresentStringsMembers(xs: seq<Option<string>>, s: string)
    ensures s in PresentStrings(xs) <==> Some(s) in xs
  {
    if xs != [] {
      PresentStringsMembers(xs[1..], s);
      assert xs == [xs[0]] + xs[1..];
    }
  }

  /** A non-null list cell becomes the array of its non-null strings, in order. */
  lemma ListCellValue(column: Column, row: nat)
    requires WellFormed(column) && row < Length(column)
    requires column.Utf8ListColumn? && column.lists[row].Some?
    ensures var xs := column.lists[row].value;
      var r := ConvertColumnToJson(column, row);
      && r.Success? && r.value.Array?
      && r.value.items == StringValues(PresentStrings(xs))
      && |r.value.items| + NullCount(xs) == |xs|
      && forall s :: String(s) in r.value.items <==> Some(s) in xs
  {
    var xs := column.lists[row].value;
    var items := ConvertColumnToJson(column, row).value.items;
    PresentStringsLength(xs);
    forall s ensures String(s) in items <==> Some(s) in xs {
      PresentStringsMembers(xs, s);
      if String(s) in items {
        var i :| 0 <= i < |items| && items[i] == String(s);
        assert PresentStrings(xs)[i] == s;
      }
      if s in PresentStrings(xs) {
        var i :| 0 <= i < |PresentStrings(xs)| && PresentStrings(xs)[i] == s;
        assert items[i] == String(s);
      }
    }
  }

  /** A record batch: the schema's field names, one column per field, all of
      `numRows` cells. */
  datatype Batch = Batch(fieldNames: seq<string>, columns: seq<Column>, numRows: nat)

  predicate ValidBatch(b: Batch)
  {
    && |b.fieldNames| == |b.columns|
    && forall i :: 0 <= i < |b.columns| ==> WellFormed(b.columns[i]) && Length(b.columns[i]) == b.numRows
  }

  predicate Converts(column: Column)
  {
    WellFormed(column) && Supported(TypeOf(column))
  }

  /** The object built for `row` from the first `|columns|` columns: each column is
      inserted under its field name when its conversion succeeds, so a later
      column overwrites an earlier one of the same name. */
  function RowObject(names: seq<string>, columns: seq<Column>, row: nat): map<string, Json>
    requires |names| == |columns|
    requires forall i :: 0 <= i < |columns| ==> WellFormed(columns[i]) && row < Length(columns[i])
  {
    if columns == [] then map[]
    else
      var n := |columns| - 1;
      var m := RowObject(names[..n], columns[..n], row);
      match ConvertColumnToJson(columns[n], row)
      case Success(v) => m[names[n] := v]
      case Failure(_) => m
  }

  /** The object's keys are exactly the field names of columns whose conversion
      succeeds: failing columns are left out, not the whole row. */
  lemma {:induction false} RowObjectKeys(names: seq<string>, columns: seq<Column>, row: nat, k: string)
    requires |names| == |columns|
    requires forall i :: 0 <= i < |columns| ==> WellFormed(columns[i]) && row < Length(columns[i])
    ensures k in RowObject(names, columns, row) <==>
      exists i :: 0 <= i < |columns| && names[i] == k && Converts(columns[i])
  {
    if columns != [] {
      var n := |columns| - 1;
      RowObjectKeys(names[..n], columns[..n], row, k);
      if exists i :: 0 <= i < n && names[..n][i] == k && Converts(columns[..n][i]) {
        var i :| 0 <= i < n && names[..n][i] == k && Converts(columns[..n][i]);
        assert names[i] == k && Converts(columns[i]);
      }
      if exists i :: 0 <= i < |columns| && names[i] == k && Converts(columns[i]) {
        var i :| 0 <= i < |columns| && names[i] == k && Converts(columns[i]);
        if i < n {
          assert names[..n][i] == k && Converts(columns[..n][i]);
        }
      }
    }
  }

  /** A column that converts and is not followed by a converting column of the same
      name shows up under its field name with its converted value. */
  lemma {:induction false} RowObjectValue(names: seq<string>, columns: seq<Column>, row: nat, i: nat)
    requires |names| == |columns|
    requires forall j :: 0 <= j < |columns| ==> WellFormed(columns[j]) && row < Length(columns[j])
    requires i < |columns| && Converts(columns[i])
    requires forall j :: i < j < |columns| && names[j] == names[i] ==> !Converts(columns[j])
    ensures var m := RowObject(names, columns, row);
      names[i] in m && Success(m[names[i]]) == ConvertColumnToJson(columns[i], row)
  {
    var n := |columns| - 1;
    if i < n {
      RowObjectValue(names[..n], columns[..n], row, i);
    }
  }

  /** The row-assembly loop of `load_parquet_as_json_parallel`: start from an
      empty object and insert every column that converts. */
  method AssembleRow(batch: Batch, row: nat) returns (obj: map<string, Json>)
    requires ValidBatch(batch) && row < batch.numRows
    ensures obj == RowObject(batch.fieldNames, batch.columns, row)
  {
    obj := map[];
    for col := 0 to |batch.columns|
      invariant obj == RowObject(batch.fieldNames[..col], batch.columns[..col], row)
    {
      var colName := batch.fieldNames[col];
      var value := ConvertColumnToJson(batch.columns[col], row);
      if value.Success? {
        obj := obj[colName := value.value];
      }
      assert batch.fieldNames[..col + 1][..col] == batch.fieldNames[..col];
      assert batch.columns[..col + 1][..col] == batch.columns[..col];
    }
    assert batch.fieldNames[..|batch.columns|] == batch.fieldNames;
    assert batch.columns[..|batch.columns|] == batch.columns;
  }

  predicate ValidBatches(batches: seq<Batch>)
  {
    forall b :: 0 <= b < |batches| ==> ValidBatch(batches[b])
  }

  /** The records of the first `n` rows of one batch, in row order. */
  function BatchRecords(batch: Batch, n: nat): seq<Json>
    requires ValidBatch(batch) && n <= batch.numRows
  {
    if n == 0 then []
    else BatchRecords(batch, n - 1) + [Object(RowObject(batch.fieldNames, batch.columns, n - 1))]
  }

  /** All records: every row of every batch, batch after batch. */
  function Records(batches: seq<Batch>): seq<Json>
    requires ValidBatches(batches)
  {
    if batches == [] then []
    else
      var n := |batches| - 1;
      Records(batches[..n]) + BatchRecords(batches[n], batches[n].numRows)
  }

  function TotalRows(batches: seq<Batch>): nat
  {
    if batches == [] then 0 else TotalRows(batches[..|batches| - 1]) + batches[|batches| - 1].numRows
  }

  lemma {:induction false} BatchRecordsAt(batch: Batch, n: nat, r: nat)
    requires ValidBatch(batch) && n <= batch.numRows
    ensures |BatchRecords(batch, n)| == n
    ensures r < n ==> BatchRecords(batch, n)[r] == Object(RowObject(batch.fieldNames, batch.columns, r))
  {
    if n > 0 {
      BatchRecordsAt(batch, n - 1, r);
    }
  }

  /** There is exactly one record per row of every batch. */
  lemma {:induction false} RecordsLength(batches: seq<Batch>)
    requires ValidBatches(batches)
    ensures |Records(batches)| == TotalRows(batches)
  {
    if batches != [] {
      var n := |batches| - 1;
      assert ValidBatches(batches[..n]);
      RecordsLength(batches[..n]);
      BatchRecordsAt(batches[n], batches[n].numRows, 0);
    }
  }

  /** Row `r` of batch `b` sits after all rows of the batches before it, at offset `r`:
      the records come in (batch, row) order. */
  lemma {:induction false} RecordsAt(batches: seq<Batch>, b: nat, r: nat)
    requires ValidBatches(batches)
    requires b < |batches| && r < batches[b].numRows
    ensures TotalRows(batches[..b]) + r < |Records(batches)|
    ensures Records(batches)[TotalRows(batches[..b]) + r] ==
      Object(RowObject(batches[b].fieldNames, batches[b].columns, r))
  {
    var n := |batches| - 1;
    var front := batches[..n];
    assert ValidBatches(front);
    RecordsLength(front);
    BatchRecordsAt(batches[n], batches[n].numRows, r);
    if b == n {
      assert batches[..b] == front;
    } else {
      assert front[..b] == batches[..b];
      assert front[b] == batches[b];
      RecordsAt(front, b, r);
    }
  }

  /** `load_parquet_as_json_parallel` after the Parquet read: one object per
      (batch, row), batches in order and rows in order within a batch. */
  method LoadRecords(batches: seq<Batch>) returns (records: seq<Json>)
    requires ValidBatches(batches)
    ensures records == Records(batches)
    ensures |records| == TotalRows(batches)
  {
    records := [];
    for b := 0 to |batches|
      invariant ValidBatches(batches[..b])
      invariant records == Records(batches[..b])
    {
      var batch := batches[b];
      var rows: seq<Json> := [];
      for row := 0 to batch.numRows
        invariant rows == BatchRecords(batch, row)
      {
        var obj := AssembleRow(batch, row);
        rows := rows + [Object(obj)];
      }
      assert batches[..b + 1][..b] == batches[..b];
      records := records + rows;
    }
    assert batches[..|batches|] == batches;
    RecordsLength(batches);
  }
}
