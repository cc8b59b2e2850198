/**
 * The structured converter of the cutoff spreadsheets, from the loaded rows
 * on: find the header row among the first five rows (the first with a cell
 * mentioning `code`), then turn every later row that is not entirely empty
 * into an object keyed by the headers, optionally renamed through a field
 * mapping. A row is the list of its cell values, in column order.
 */
module ConvertCutoffData {
  import opened Options
  import opened Strings
  import opened Values
  import opened Collections

  /** `val && val.toString().toLowerCase().includes('code')`. */
  predicate IsCodeCell(v: Value) {
    Truthy(v) && Contains(ToLower(ToText(v)), "code")
  }

  /** `values.some(...)` with the code-cell test. */
  predicate HasCodeCell(row: Row) {
    exists j :: 0 <= j < |row| && IsCodeCell(row[j])
  }

  /** A detected header: `val ? val.toString().trim().replace(/\r\n/g, ' ') : ''`. */
  function DetectedHeader(v: Value): string {
    if Truthy(v) then ReplaceCrLf(Trim(ToText(v))) else ""
  }

  /** A fallback header: `val ? val.toString().trim() : ''`. */
  function FallbackHeader(v: Value): string {
    if Truthy(v) then Trim(ToText(v)) else ""
  }

  function DetectedHeaders(row: Row): (hs: seq<string>)
    ensures |hs| == |row| && forall j :: 0 <= j < |row| ==> hs[j] == DetectedHeader(row[j])
  {
    seq(|row|, j requires 0 <= j < |row| => DetectedHeader(row[j]))
  }

  function FallbackHeaders(row: Row): (hs: seq<string>)
    ensures |hs| == |row| && forall j :: 0 <= j < |row| ==> hs[j] == FallbackHeader(row[j])
  {
    seq(|row|, j requires 0 <= j < |row| => FallbackHeader(row[j]))
  }

  /** The result of the header search: the header row's index and the header names. */
  datatype HeaderLine = HeaderLine(index: nat, headers: seq<string>)

  /**
   * The header search. A detected row gives its index and its cleaned cells;
   * when no row is detected (or the detected row gives no headers) the
   * headers are row 0's cells, trimmed only.
   */
  function FindHeaders(rows: seq<Row>): (h: HeaderLine)
    requires |rows| > 0
    ensures h.index < |rows| && h.index < 5
  {
    var found := FirstIndex(rows, 0, Min(5, |rows|), HasCodeCell);
    var index := if found.Some? then found.value else 0;
    var detected := if found.Some? then DetectedHeaders(rows[found.value]) else [];
    if |detected| == 0 then HeaderLine(index, FallbackHeaders(rows[0])) else HeaderLine(index, detected)
  }

  /** `values.every(val => !val || val === '')`. */
  predicate AllEmpty(row: Row) {
    forall j :: 0 <= j < |row| ==> !Truthy(row[j])
  }

  /** The key and cell column `j` stores: only a non-empty header of a column the row reaches. */
  function ColumnEntry(headers: seq<string>, row: Row, j: nat): Option<(string, Value)>
    requires j < |headers|
  {
    if j < |row| && headers[j] != "" then Some((headers[j], row[j])) else None
  }

  /** The object the `j` loop has built after `n` headers. */
  function RowObject(headers: seq<string>, row: Row, n: nat): Record
    requires n <= |headers|
  {
    if n == 0 then [] else PutEntry(RowObject(headers, row, n - 1), ColumnEntry(headers, row, n - 1))
  }

  /** The object the mapping loop has built after the first `n` entries of `mapping`. */
  function MappedObject(mapping: seq<(string, string)>, record: Record, n: nat): Record
    requires n <= |mapping|
  {
    if n == 0 then [] else PutEntry(MappedObject(mapping, record, n - 1), MappingEntry(mapping, record, n - 1))
  }

  /** What mapping entry `e` stores: its target name and the source field's value, when the record has that field. */
  function MappingEntry(mapping: seq<(string, string)>, record: Record, e: nat): Option<(string, Value)>
    requires e < |mapping|
  {
    var originalField, mappedField := mapping[e].0, mapping[e].1;
    if Get(record, originalField) != Undefined then Some((mappedField, Get(record, originalField))) else None
  }

  /** What one data row contributes: nothing, or one (possibly renamed) object. */
  function RowOutput(headers: seq<string>, fieldMapping: Option<seq<(string, string)>>, row: Row): Option<Record> {
    if AllEmpty(row) then None
    else
      var record := RowObject(headers, row, |headers|);
      match fieldMapping
      case None => Some(record)
      case Some(mapping) =>
        var mapped := MappedObject(mapping, record, |mapping|);
        if |mapped| > 0 then Some(mapped) else None
  }

  function RowConverter(headers: seq<string>, fieldMapping: Option<seq<(string, string)>>): Row -> Option<Record> {
    row => RowOutput(headers, fieldMapping, row)
  }

  /** What `convertExcelToStructuredJson` returns for the loaded rows: `null` when there are none. */
  function Converted(rawData: seq<Row>, fieldMapping: Option<seq<(string, string)>>): (r: Option<seq<Record>>)
    ensures r.None? <==> rawData == []
  {
    if rawData == [] then None
    else
      var h := FindHeaders(rawData);
      Some(FilterMap(rawData[h.index + 1..], RowConverter(h.headers, fieldMapping)))
  }

  // ---------------------------------------------------------------- the loops

  /** The header-search loop, with its `break`. */
  method FindHeaderRow(rawData: seq<Row>) returns (headerRowIndex: nat, headers: seq<string>)
    requires |rawData| > 0
    ensures HeaderLine(headerRowIndex, headers) == FindHeaders(rawData)
  {
    headerRowIndex := 0;
    headers := [];
    var limit := Min(5, |rawData|);
    var i := 0;
    while i < limit
      invariant i <= limit
      invariant FirstIndex(rawData, 0, limit, HasCodeCell) == FirstIndex(rawData, i, limit, HasCodeCell)
      invariant headerRowIndex == 0 && headers == []
    {
      if HasCodeCell(rawData[i]) {
        headerRowIndex := i;
        headers := DetectedHeaders(rawData[i]);
        break;
      }
      i := i + 1;
    }
    if |headers| == 0 {
      headers := FallbackHeaders(rawData[0]);
    }
  }

  /** The `j` loop that fills one object. */
  method BuildRecord(headers: seq<string>, values: Row) returns (record: Record)
    ensures record == RowObject(headers, values, |headers|)
  {
    record := [];
    for j := 0 to |headers|
      invariant record == RowObject(headers, values, j)
    {
      if j < |values| && headers[j] != "" {
        record := Put(record, headers[j], values[j]);
      }
    }
  }

  /** The `for ... of Object.entries(fieldMapping)` loop. */
  method ApplyMapping(mapping: seq<(string, string)>, record: Record) returns (mappedRecord: Record)
    ensures mappedRecord == MappedObject(mapping, record, |mapping|)
  {
    mappedRecord := [];
    for n := 0 to |mapping|
      invariant mappedRecord == MappedObject(mapping, record, n)
    {
      var originalField, mappedField := mapping[n].0, mapping[n].1;
      if Get(record, originalField) != Undefined {
        mappedRecord := Put(mappedRecord, mappedField, Get(record, originalField));
      }
    }
  }

  /** One turn of the row loop: `continue` on an empty row, otherwise build and maybe push. */
  method ConvertRow(headers: seq<string>, fieldMapping: Option<seq<(string, string)>>, values: Row) returns (out: Option<Record>)
    ensures out == RowOutput(headers, fieldMapping, values)
  {
    var empty := true;
    for j := 0 to |values|
      invariant empty <==> forall j' :: 0 <= j' < j ==> !Truthy(values[j'])
    {
      if Truthy(values[j]) {
        empty := false;
      }
    }
    if empty {
      return None;
    }
    var record := BuildRecord(headers, values);
    if fieldMapping.Some? {
      var mappedRecord := ApplyMapping(fieldMapping.value, record);
      if |mappedRecord| > 0 {
        return Some(mappedRecord);
      }
      return None;
    }
    return Some(record);
  }

  /** The row loop, from the row after the header row to the end. */
  method ConvertRows(rawData: seq<Row>, first: nat, headers: seq<string>, fieldMapping: Option<seq<(string, string)>>)
    returns (jsonData: seq<Record>)
    requires first <= |rawData|
    ensures jsonData == FilterMap(rawData[first..], RowConverter(headers, fieldMapping))
  {
    ghost var dataRows := rawData[first..];
    ghost var f := RowConverter(headers, fieldMapping);
    jsonData := [];
    for i := first to |rawData|
      invariant jsonData == FilterMap(dataRows[..i - first], f)
    {
      assert dataRows[i - first] == rawData[i];
      var row := ConvertRow(headers, fieldMapping, rawData[i]);
      assert f(dataRows[i - first]) == row;
      FilterMapStep(dataRows, f, i - first, jsonData, row);
      if row.Some? {
        jsonData := jsonData + [row.value];
      }
    }
    assert dataRows[..|rawData| - first] == dataRows;
  }

  /** `convertExcelToStructuredJson` from the loaded rows on. */
  method ConvertExcelToStructuredJson(rawData: seq<Row>, fieldMapping: Option<seq<(string, string)>>) returns (jsonData: Option<seq<Record>>)
    ensures jsonData == Converted(rawData, fieldMapping)
  {
    if |rawData| == 0 {
      return None;
    }
    var headerRowIndex, headers := FindHeaderRow(rawData);
    assert FindHeaders(rawData).index == headerRowIndex && FindHeaders(rawData).headers == headers;
    var out := ConvertRows(rawData, headerRowIndex + 1, headers, fieldMapping);
    assert Converted(rawData, fieldMapping) == Some(FilterMap(rawData[headerRowIndex + 1..], RowConverter(headers, fieldMapping)));
    return Some(out);
  }

  // ---------------------------------------------------------------- properties

  /** The header row is the first of the first five rows with a code cell, and its cells become the headers. */
  lemma HeaderRowDetected(rows: seq<Row>, i: nat)
    requires i < Min(5, |rows|) && HasCodeCell(rows[i])
    requires forall i' :: 0 <= i' < i ==> !HasCodeCell(rows[i'])
    ensures FindHeaders(rows) == HeaderLine(i, DetectedHeaders(rows[i]))
  {
    var found := FirstIndex(rows, 0, Min(5, |rows|), HasCodeCell);
    assert found == Some(i);
  }

  /** Without a code cell in the first five rows, row 0 holds the headers, only trimmed. */
  lemma HeaderRowFallback(rows: seq<Row>)
    requires |rows| > 0
    requires forall i :: 0 <= i < Min(5, |rows|) ==> !HasCodeCell(rows[i])
    ensures FindHeaders(rows) == HeaderLine(0, FallbackHeaders(rows[0]))
  {
  }

  /** A detected header never holds a CR LF pair, so a name that does is never one of them. */
  lemma DetectedHeadersHaveNoCrLf(row: Row, key: string)
    requires Contains(key, "\r\n")
    ensures key !in DetectedHeaders(row)
  {
    forall j | 0 <= j < |row| ensures DetectedHeaders(row)[j] != key {
      if Truthy(row[j]) {
        ReplaceCrLfLeavesNone(Trim(ToText(row[j])));
      } else {
        NotContainsLonger("", "\r\n");
      }
    }
  }

  /** `k` is the non-empty header of one of the first `n` columns, and the row reaches that column. */
  predicate FilledColumn(headers: seq<string>, row: Row, n: nat, k: string)
    requires n <= |headers|
  {
    exists j :: 0 <= j < n && j < |row| && headers[j] == k && k != ""
  }

  /** The keys of a row's object are distinct. */
  lemma {:induction false} RowObjectDistinct(headers: seq<string>, row: Row, n: nat)
    requires n <= |headers|
    ensures DistinctKeys(RowObject(headers, row, n))
  {
    if n > 0 {
      RowObjectDistinct(headers, row, n - 1);
      if n - 1 < |row| && headers[n - 1] != "" {
        PutKeepsDistinct(RowObject(headers, row, n - 1), headers[n - 1], row[n - 1]);
      }
    }
  }

  /** One more column for `FilledColumn`. */
  lemma FilledColumnStep(headers: seq<string>, row: Row, n: nat, k: string)
    requires 0 < n <= |headers|
    ensures FilledColumn(headers, row, n, k) <==>
      FilledColumn(headers, row, n - 1, k) || (n - 1 < |row| && headers[n - 1] != "" && k == headers[n - 1])
  {
    if FilledColumn(headers, row, n, k) {
      var j :| 0 <= j < n && j < |row| && headers[j] == k && k != "";
      if j < n - 1 {
        assert FilledColumn(headers, row, n - 1, k);
      }
    }
    if FilledColumn(headers, row, n - 1, k) {
      var j :| 0 <= j < n - 1 && j < |row| && headers[j] == k && k != "";
      assert FilledColumn(headers, row, n, k);
    }
    if n - 1 < |row| && headers[n - 1] != "" && k == headers[n - 1] {
      assert FilledColumn(headers, row, n, k);
    }
  }

  /** `k` is a key of a row's object exactly when it is the non-empty header of a column the row reaches. */
  lemma {:induction false} RowObjectHasKey(headers: seq<string>, row: Row, n: nat, k: string)
    requires n <= |headers|
    ensures k in KeysOf(RowObject(headers, row, n)) <==> FilledColumn(headers, row, n, k)
  {
    if n > 0 {
      var record := RowObject(headers, row, n - 1);
      RowObjectHasKey(headers, row, n - 1, k);
      FilledColumnStep(headers, row, n, k);
      PutEntryHasKey(record, ColumnEntry(headers, row, n - 1), k);
    }
  }

  /** The keys of a row's object are the non-empty headers of the columns the row reaches, each once. */
  lemma RowObjectKeys(headers: seq<string>, row: Row, n: nat)
    requires n <= |headers|
    ensures DistinctKeys(RowObject(headers, row, n))
    ensures forall k :: k in KeysOf(RowObject(headers, row, n)) <==> FilledColumn(headers, row, n, k)
  {
    RowObjectDistinct(headers, row, n);
    forall k ensures k in KeysOf(RowObject(headers, row, n)) <==> FilledColumn(headers, row, n, k) {
      RowObjectHasKey(headers, row, n, k);
    }
  }

  /** A header keeps the cell of the last column the row reaches under that header. */
  lemma {:induction false} RowObjectValue(headers: seq<string>, row: Row, n: nat, j: nat)
    requires j < n <= |headers| && j < |row| && headers[j] != ""
    requires forall j' :: j < j' < n && j' < |row| ==> headers[j'] != headers[j]
    ensures Get(RowObject(headers, row, n), headers[j]) == row[j]
  {
    PutEntryGet(RowObject(headers, row, n - 1), ColumnEntry(headers, row, n - 1), headers[j]);
    if j < n - 1 {
      RowObjectValue(headers, row, n - 1, j);
    }
  }

  /** `k` is the target of one of the first `n` mapping entries whose source field is present. */
  predicate MappedName(mapping: seq<(string, string)>, record: Record, n: nat, k: string)
    requires n <= |mapping|
  {
    exists e :: 0 <= e < n && mapping[e].1 == k && Get(record, mapping[e].0) != Undefined
  }

  /** `k` is a key of a mapped object exactly when it is the target of an entry whose source field is present. */
  lemma {:induction false} MappedObjectHasKey(mapping: seq<(string, string)>, record: Record, n: nat, k: string)
    requires n <= |mapping|
    ensures k in KeysOf(MappedObject(mapping, record, n)) <==> MappedName(mapping, record, n, k)
  {
    if n > 0 {
      MappedObjectHasKey(mapping, record, n - 1, k);
      MappedNameStep(mapping, record, n, k);
      PutEntryHasKey(MappedObject(mapping, record, n - 1), MappingEntry(mapping, record, n - 1), k);
    }
  }

  /** One more mapping entry for `MappedName`. */
  lemma MappedNameStep(mapping: seq<(string, string)>, record: Record, n: nat, k: string)
    requires 0 < n <= |mapping|
    ensures MappedName(mapping, record, n, k) <==>
      MappedName(mapping, record, n - 1, k) || (Get(record, mapping[n - 1].0) != Undefined && k == mapping[n - 1].1)
  {
    if MappedName(mapping, record, n, k) {
      var e :| 0 <= e < n && mapping[e].1 == k && Get(record, mapping[e].0) != Undefined;
      if e < n - 1 {
        assert MappedName(mapping, record, n - 1, k);
      }
    }
    if MappedName(mapping, record, n - 1, k) {
      var e :| 0 <= e < n - 1 && mapping[e].1 == k && Get(record, mapping[e].0) != Undefined;
      assert MappedName(mapping, record, n, k);
    }
    if Get(record, mapping[n - 1].0) != Undefined && k == mapping[n - 1].1 {
      assert MappedName(mapping, record, n, k);
    }
  }

  /**
   * So a mapping entry whose source name holds a CR LF pair never fills its
   * target when the header row was detected: the detected headers have none.
   */
  lemma CrLfMappingNeverMatches(rows: seq<Row>, mapping: seq<(string, string)>, row: Row, e: nat)
    requires |rows| > 0 && FirstIndex(rows, 0, Min(5, |rows|), HasCodeCell).Some?
    requires e < |mapping| && Contains(mapping[e].0, "\r\n")
    ensures Get(RowObject(FindHeaders(rows).headers, row, |FindHeaders(rows).headers|), mapping[e].0) == Undefined
  {
    var i := FirstIndex(rows, 0, Min(5, |rows|), HasCodeCell).value;
    var headers := FindHeaders(rows).headers;
    assert headers == DetectedHeaders(rows[i]) by {
      HeaderRowDetected(rows, i);
    }
    DetectedHeadersHaveNoCrLf(rows[i], mapping[e].0);
    RowObjectHasKey(headers, row, |headers|, mapping[e].0);
    assert !FilledColumn(headers, row, |headers|, mapping[e].0);
    GetAbsent(RowObject(headers, row, |headers|), mapping[e].0);
  }

  /** An object is in the output exactly when a row after the header row becomes it. */
  lemma ConvertedMembers(rawData: seq<Row>, fieldMapping: Option<seq<(string, string)>>, x: Record)
    requires rawData != []
    ensures x in Converted(rawData, fieldMapping).value <==>
      exists i :: FindHeaders(rawData).index < i < |rawData| &&
        RowOutput(FindHeaders(rawData).headers, fieldMapping, rawData[i]) == Some(x)
  {
    var h := FindHeaders(rawData);
    var f := RowConverter(h.headers, fieldMapping);
    assert Converted(rawData, fieldMapping).value == FilterMap(rawData[h.index + 1..], f);
    FilterMapSuffixMembers(rawData, h.index + 1, f, x);
    if x in Converted(rawData, fieldMapping).value {
      var i :| h.index + 1 <= i < |rawData| && f(rawData[i]) == Some(x);
      assert RowOutput(h.headers, fieldMapping, rawData[i]) == Some(x);
    }
    if exists i :: h.index < i < |rawData| && RowOutput(h.headers, fieldMapping, rawData[i]) == Some(x) {
      var i :| h.index < i < |rawData| && RowOutput(h.headers, fieldMapping, rawData[i]) == Some(x);
      assert f(rawData[i]) == Some(x);
    }
  }

  /** Without a mapping, every data row with a truthy cell is emitted, as its header-keyed object. */
  lemma UnmappedRowEmitted(rawData: seq<Row>, i: nat)
    requires rawData != [] && FindHeaders(rawData).index < i < |rawData| && !AllEmpty(rawData[i])
    ensures RowObject(FindHeaders(rawData).headers, rawData[i], |FindHeaders(rawData).headers|) in Converted(rawData, None).value
  {
    var h := FindHeaders(rawData);
    ConvertedMembers(rawData, None, RowObject(h.headers, rawData[i], |h.headers|));
  }

  /** With a mapping, every emitted object is non-empty and holds only mapped names. */
  lemma MappedOutputShape(headers: seq<string>, mapping: seq<(string, string)>, row: Row)
    requires RowOutput(headers, Some(mapping), row).Some?
    ensures |RowOutput(headers, Some(mapping), row).value| > 0
    ensures forall k :: k in KeysOf(RowOutput(headers, Some(mapping), row).value) ==>
      exists e :: 0 <= e < |mapping| && mapping[e].1 == k
  {
    var record := RowObject(headers, row, |headers|);
    forall k | k in KeysOf(RowOutput(headers, Some(mapping), row).value)
      ensures exists e :: 0 <= e < |mapping| && mapping[e].1 == k
    {
      MappedObjectHasKey(mapping, record, |mapping|, k);
    }
  }

  /** A row whose cells are all falsy is never emitted. */
  lemma EmptyRowSkipped(headers: seq<string>, fieldMapping: Option<seq<(string, string)>>, row: Row)
    requires AllEmpty(row)
    ensures RowOutput(headers, fieldMapping, row) == None
  {
  }
}
