/**
 * The phase-2 cutoff converter for the official spreadsheet: among the first
 * ten loaded rows it finds the header row (one with a text cell naming the
 * college code column), turns every later row that has a first cell into an
 * object keyed by the trimmed text headers, with falsy cells as `''`, and
 * keeps the objects that carry a college code.
 */
module ConvertExcel {
  import opened Options
  import opened Strings
  import opened Values
  import opened Collections

  // ---------------------------------------------------------------- header row

  /** A text cell mentioning `College_Code` or `College Code`, case-sensitively. */
  predicate IsCodeHeaderCell(v: Value) {
    v.Str? && (Contains(v.s, "College_Code") || Contains(v.s, "College Code"))
  }

  /** `row.some(...)` with the test above. */
  predicate HasCodeHeaderCell(row: Row) {
    exists j :: 0 <= j < |row| && IsCodeHeaderCell(row[j])
  }

  /** How many rows the header search looks at: `Math.min(10, jsonData.length)`. */
  function SearchLimit(sheet: seq<Row>): (n: nat)
    ensures n <= |sheet| && n <= 10
  {
    Min(10, |sheet|)
  }

  /** The index of the header row, or `None` where the search gives up. */
  function HeaderIndex(sheet: seq<Row>): (r: Option<nat>)
    ensures r.Some? ==> r.value < |sheet|
  {
    FirstIndex(sheet, 0, SearchLimit(sheet), HasCodeHeaderCell)
  }

  // ---------------------------------------------------------------- row objects

  /** `row && row.length > 0 && row[0]`: the first filter of the chain. */
  predicate IsDataRow(row: Row) {
    |row| > 0 && Truthy(row[0])
  }

  /** `header && typeof header === 'string'`: the columns that become keys. */
  predicate IsKeyHeader(h: Value) {
    h.Str? && h.s != ""
  }

  /** `row[index] || ''`. */
  function CellOrEmpty(v: Value): Value {
    if Truthy(v) then v else Str("")
  }

  /** The key and value column `j` contributes, if its header is a key. */
  function ColumnEntry(headers: Row, row: Row, j: nat): Option<(string, Value)>
    requires j < |headers|
  {
    if IsKeyHeader(headers[j]) then Some((Trim(headers[j].s), CellOrEmpty(At(row, j)))) else None
  }

  /** The object the `headers.forEach` has built after its first `n` columns. */
  function ObjectOf(headers: Row, row: Row, n: nat): Record
    requires n <= |headers|
  {
    if n == 0 then [] else PutEntry(ObjectOf(headers, row, n - 1), ColumnEntry(headers, row, n - 1))
  }

  /** The object one data row becomes. */
  function RowObject(headers: Row, row: Row): Record {
    ObjectOf(headers, row, |headers|)
  }

  /** The `map` of the chain. */
  function Objects(headers: Row, rows: seq<Row>): (objs: seq<Record>)
    ensures |objs| == |rows|
    ensures forall i :: 0 <= i < |rows| ==> objs[i] == RowObject(headers, rows[i])
  {
    seq(|rows|, i requires 0 <= i < |rows| => RowObject(headers, rows[i]))
  }

  /** `obj['College_Code'] || obj['College Code']`: the last filter of the chain. */
  predicate HasCollegeCode(obj: Record) {
    Truthy(Get(obj, "College_Code")) || Truthy(Get(obj, "College Code"))
  }

  /** The `filter`/`map`/`filter` chain over the rows after the header. */
  function ConvertedRows(headers: Row, dataRows: seq<Row>): (data: seq<Record>)
    ensures |data| <= |dataRows|
    ensures forall i :: 0 <= i < |data| ==> HasCollegeCode(data[i])
  {
    Filter(Objects(headers, Filter(dataRows, IsDataRow)), HasCollegeCode)
  }

  /** What `convertPhase2Cutoffs` returns for the loaded rows; `None` when no header row is found. */
  function Phase2Cutoffs(sheet: seq<Row>): (r: Option<seq<Record>>)
    ensures r.None? <==> forall i :: 0 <= i < SearchLimit(sheet) ==> !HasCodeHeaderCell(sheet[i])
    ensures r.Some? ==> |r.value| < |sheet|
  {
    match HeaderIndex(sheet)
    case None => None
    case Some(h) => Some(ConvertedRows(sheet[h], sheet[h + 1..]))
  }

  // ---------------------------------------------------------------- methods

  /** The header-search loop, with `-1` for "not found". */
  method FindHeaderRow(sheet: seq<Row>) returns (headerRowIndex: int)
    ensures HeaderIndex(sheet).None? ==> headerRowIndex == -1
    ensures HeaderIndex(sheet).Some? ==> headerRowIndex == HeaderIndex(sheet).value
  {
    headerRowIndex := -1;
    var limit := Min(10, |sheet|);
    var i := 0;
    while i < limit
      invariant i <= limit
      invariant FirstIndex(sheet, 0, limit, HasCodeHeaderCell) == FirstIndex(sheet, i, limit, HasCodeHeaderCell)
      invariant headerRowIndex == -1
    {
      if HasCodeHeaderCell(sheet[i]) {
        headerRowIndex := i;
        break;
      }
      i := i + 1;
    }
  }

  /** The `headers.forEach` that fills one object. */
  method FillObject(headers: Row, row: Row) returns (obj: Record)
    ensures obj == RowObject(headers, row)
  {
    obj := [];
    for index := 0 to |headers|
      invariant obj == ObjectOf(headers, row, index)
    {
      var header := headers[index];
      if header.Str? && header.s != "" {
        var cell := At(row, index);
        obj := Put(obj, Trim(header.s), if Truthy(cell) then cell else Str(""));
      }
    }
  }

  /** `convertPhase2Cutoffs` from the loaded rows on. */
  method ConvertPhase2Cutoffs(sheet: seq<Row>) returns (cleanedData: Option<seq<Record>>)
    ensures cleanedData == Phase2Cutoffs(sheet)
  {
    var headerRowIndex := FindHeaderRow(sheet);
    if headerRowIndex == -1 {
      return None;
    }
    var headers := sheet[headerRowIndex];
    var dataRows := sheet[headerRowIndex + 1..];
    var rows := Filter(dataRows, IsDataRow);
    var objects := FillObjects(headers, rows);
    return Some(Filter(objects, HasCollegeCode));
  }

  /** The `map` of the chain: one object per kept row, in order. */
  method FillObjects(headers: Row, rows: seq<Row>) returns (objects: seq<Record>)
    ensures objects == Objects(headers, rows)
  {
    objects := [];
    for i := 0 to |rows|
      invariant objects == Objects(headers, rows[..i])
    {
      var obj := FillObject(headers, rows[i]);
      objects := objects + [obj];
    }
    assert rows[..|rows|] == rows;
  }

  // ---------------------------------------------------------------- properties

  /** The header row found is the first of the first ten rows with a college-code cell. */
  lemma HeaderRowDetected(sheet: seq<Row>, i: nat)
    requires i < |sheet| && i < 10 && HasCodeHeaderCell(sheet[i])
    requires forall i' :: 0 <= i' < i ==> !HasCodeHeaderCell(sheet[i'])
    ensures HeaderIndex(sheet) == Some(i)
  {
  }

  /** A college-code header from the eleventh row on is never found. */
  lemma LateHeaderIgnored(sheet: seq<Row>)
    requires |sheet| > 10
    requires forall i :: 0 <= i < 10 ==> !HasCodeHeaderCell(sheet[i])
    ensures Phase2Cutoffs(sheet) == None
  {
  }

  /** Some column among the first `n` has a non-empty text header that trims to `k`. */
  predicate KeyColumn(headers: Row, n: nat, k: string)
    requires n <= |headers|
  {
    exists j :: 0 <= j < n && IsKeyHeader(headers[j]) && Trim(headers[j].s) == k
  }

  /** The keys of an object are exactly the trimmed non-empty text headers. */
  lemma {:induction false} ObjectHasKey(headers: Row, row: Row, n: nat, k: string)
    requires n <= |headers|
    ensures k in KeysOf(ObjectOf(headers, row, n)) <==> KeyColumn(headers, n, k)
  {
    if n > 0 {
      var obj := ObjectOf(headers, row, n - 1);
      ObjectHasKey(headers, row, n - 1, k);
      var e := ColumnEntry(headers, row, n - 1);
      var here := e.Some? && k == e.value.0;
      PutEntryHasKey(obj, e, k);
      assert k in KeysOf(ObjectOf(headers, row, n)) <==> k in KeysOf(obj) || here;
      KeyColumnSnoc(headers, n, k);
      assert KeyColumn(headers, n, k) <==> KeyColumn(headers, n - 1, k) || here;
    }
  }

  /** One more column for `KeyColumn`. */
  lemma KeyColumnSnoc(headers: Row, n: nat, k: string)
    requires 0 < n <= |headers|
    ensures KeyColumn(headers, n, k) <==>
      KeyColumn(headers, n - 1, k) || (IsKeyHeader(headers[n - 1]) && Trim(headers[n - 1].s) == k)
  {
    if KeyColumn(headers, n, k) {
      var j :| 0 <= j < n && IsKeyHeader(headers[j]) && Trim(headers[j].s) == k;
      if j < n - 1 {
        assert KeyColumn(headers, n - 1, k);
      }
    }
  }

  /** No key appears twice in an object. */
  lemma {:induction false} ObjectDistinct(headers: Row, row: Row, n: nat)
    requires n <= |headers|
    ensures DistinctKeys(ObjectOf(headers, row, n))
  {
    if n > 0 {
      ObjectDistinct(headers, row, n - 1);
      var e := ColumnEntry(headers, row, n - 1);
      if e.Some? {
        PutKeepsDistinct(ObjectOf(headers, row, n - 1), e.value.0, e.value.1);
      }
    }
  }

  /** Under a header's key sits that column's cell, or `''` when the cell is falsy, unless a later header has the same key. */
  lemma ObjectValue(headers: Row, row: Row, n: nat, j: nat)
    requires j < n <= |headers| && IsKeyHeader(headers[j])
    requires forall j' :: j < j' < n && IsKeyHeader(headers[j']) ==> Trim(headers[j'].s) != Trim(headers[j].s)
    ensures Get(ObjectOf(headers, row, n), Trim(headers[j].s)) == CellOrEmpty(At(row, j))
  {
    var entries := ColumnEntries(headers, row, n);
    ObjectStoresEntries(headers, row, n);
    forall j' | j < j' < n && entries[j'].Some? ensures entries[j'].value.0 != entries[j].value.0 {
      assert IsKeyHeader(headers[j']);
    }
    PutAllValue(entries, j);
  }

  /** The entries of the first `n` columns. */
  function ColumnEntries(headers: Row, row: Row, n: nat): (entries: seq<Option<(string, Value)>>)
    requires n <= |headers|
    ensures |entries| == n && forall j :: 0 <= j < n ==> entries[j] == ColumnEntry(headers, row, j)
  {
    seq(n, j requires 0 <= j < n => ColumnEntry(headers, row, j))
  }

  /** The `headers.forEach` stores the column entries in turn. */
  lemma {:induction false} ObjectStoresEntries(headers: Row, row: Row, n: nat)
    requires n <= |headers|
    ensures ObjectOf(headers, row, n) == PutAll(ColumnEntries(headers, row, n))
  {
    if n > 0 {
      ObjectStoresEntries(headers, row, n - 1);
      assert ColumnEntries(headers, row, n)[..n - 1] == ColumnEntries(headers, row, n - 1);
    }
  }

  /** Every value of an object is a truthy cell or `''`: no `null`, `undefined` or `0` survives. */
  lemma {:induction false} ObjectValuesFilled(headers: Row, row: Row, n: nat, k: string)
    requires n <= |headers|
    requires k in KeysOf(ObjectOf(headers, row, n))
    ensures Truthy(Get(ObjectOf(headers, row, n), k)) || Get(ObjectOf(headers, row, n), k) == Str("")
  {
    var obj := ObjectOf(headers, row, n - 1);
    var e := ColumnEntry(headers, row, n - 1);
    assert ObjectOf(headers, row, n) == PutEntry(obj, e);
    PutEntryGet(obj, e, k);
    if e.Some? && k == e.value.0 {
      assert e.value.1 == CellOrEmpty(At(row, n - 1));
    } else {
      PutEntryHasKey(obj, e, k);
      ObjectValuesFilled(headers, row, n - 1, k);
    }
  }

  /** An object is in the output exactly when some data row with a first cell becomes it and it carries a college code. */
  lemma ConvertedMembers(headers: Row, dataRows: seq<Row>, x: Record)
    ensures x in ConvertedRows(headers, dataRows) <==>
      (exists i :: 0 <= i < |dataRows| && IsDataRow(dataRows[i]) && RowObject(headers, dataRows[i]) == x) && HasCollegeCode(x)
  {
    var rows := Filter(dataRows, IsDataRow);
    FilterMembers(Objects(headers, rows), HasCollegeCode, x);
    if x in Objects(headers, rows) {
      var i :| 0 <= i < |rows| && Objects(headers, rows)[i] == x;
      FilterMembers(dataRows, IsDataRow, rows[i]);
      var i' :| 0 <= i' < |dataRows| && dataRows[i'] == rows[i];
    }
    if exists i :: 0 <= i < |dataRows| && IsDataRow(dataRows[i]) && RowObject(headers, dataRows[i]) == x {
      var i :| 0 <= i < |dataRows| && IsDataRow(dataRows[i]) && RowObject(headers, dataRows[i]) == x;
      FilterMembers(dataRows, IsDataRow, dataRows[i]);
      var i' :| 0 <= i' < |rows| && rows[i'] == dataRows[i];
      assert Objects(headers, rows)[i'] == x;
    }
  }

  /** The rows up to and including the header row never contribute an object. */
  lemma OutputFromRowsAfterHeader(sheet: seq<Row>, x: Record)
    requires HeaderIndex(sheet).Some?
    ensures x in Phase2Cutoffs(sheet).value <==>
      (exists i :: HeaderIndex(sheet).value < i < |sheet| && IsDataRow(sheet[i]) && RowObject(sheet[HeaderIndex(sheet).value], sheet[i]) == x)
      && HasCollegeCode(x)
  {
    var h := HeaderIndex(sheet).value;
    var dataRows := sheet[h + 1..];
    assert Phase2Cutoffs(sheet).value == ConvertedRows(sheet[h], dataRows);
    ConvertedMembers(sheet[h], dataRows, x);
    if exists i :: 0 <= i < |dataRows| && IsDataRow(dataRows[i]) && RowObject(sheet[h], dataRows[i]) == x {
      var i :| 0 <= i < |dataRows| && IsDataRow(dataRows[i]) && RowObject(sheet[h], dataRows[i]) == x;
      assert sheet[h + 1 + i] == dataRows[i];
    }
    if exists i :: h < i < |sheet| && IsDataRow(sheet[i]) && RowObject(sheet[h], sheet[i]) == x {
      var i :| h < i < |sheet| && IsDataRow(sheet[i]) && RowObject(sheet[h], sheet[i]) == x;
      assert dataRows[i - h - 1] == sheet[i];
    }
  }

  /** When every data row has a first cell and yields a college code, each becomes one object, in row order. */
  lemma ConvertedKeepsOrder(headers: Row, dataRows: seq<Row>)
    requires forall i :: 0 <= i < |dataRows| ==> IsDataRow(dataRows[i]) && HasCollegeCode(RowObject(headers, dataRows[i]))
    ensures ConvertedRows(headers, dataRows) == Objects(headers, dataRows)
  {
    FilterAllKept(dataRows, IsDataRow);
    FilterAllKept(Objects(headers, dataRows), HasCollegeCode);
  }
}
