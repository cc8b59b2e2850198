/**
 * The converter of the previous years' last-rank spreadsheets, from the
 * loaded rows on. A phase sheet has its headers in row 1 and its data from
 * row 2; a header is normalised (trimmed, line breaks and whitespace runs
 * turned into `_`, lower-cased) and renamed to a standard column name when
 * the column table knows it. Every cell is cleaned (strings trimmed, `NA`,
 * `''` and `-` turned into `null`) and a row is kept when it names a
 * college. The predicted-cutoffs sheet instead searches its first five rows
 * for the header row, keeps the normalised names and tags every row with
 * its phase. The three phase results are finally gathered into one object.
 */
module ConvertPreviousYearData {
  import opened Options
  import opened Strings
  import opened Values
  import opened Collections

  // ---------------------------------------------------------------- headers and cells

  /**
   * A header as the converters normalise it: `null` for a falsy cell,
   * otherwise its text trimmed, with every line break and then every
   * whitespace run replaced, and lower-cased. The result has no whitespace
   * and no upper-case letter.
   */
  function NormalizeHeader(h: Value): (n: Value)
    ensures n == Null <==> !Truthy(h)
    ensures n != Null ==> n.Str? && NoSpace(n.s) && HasNoUpper(n.s)
  {
    if !Truthy(h) then Null
    else
      var spaced := ReplaceSpaceRuns(ReplaceNewlines(Trim(ToText(h))), "_");
      ToLowerKeepsNoSpace(spaced);
      ToLowerHasNoUpper(spaced);
      Str(ToLower(spaced))
  }

  /** `row.map(header => ...)`. */
  function NormalizeHeaders(row: Row): (hs: seq<Value>)
    ensures |hs| == |row| && forall j :: 0 <= j < |row| ==> hs[j] == NormalizeHeader(row[j])
  {
    seq(|row|, j requires 0 <= j < |row| => NormalizeHeader(row[j]))
  }

  /** A cell as the converters store it: a string is trimmed and `NA`, `''` and `-` become `null`; anything else is kept. */
  function CleanCell(v: Value): (c: Value)
    ensures !v.Str? ==> c == v
    ensures v.Str? ==> c == Null || c == Str(Trim(v.s))
    ensures c.Str? ==> c.s != "NA" && c.s != "" && c.s != "-"
  {
    if v.Str? then
      var t := Trim(v.s);
      if t == "NA" || t == "" || t == "-" then Null else Str(t)
    else v
  }

  /** The standard column names of the phase sheets, in declaration order: the institution and branch columns, */
  const InstitutionColumns: seq<(string, string)> := [
    ("inst_code", "college_code"), ("institute_name", "college_name"), ("place", "place"),
    ("dist_code", "district_code"), ("co_education", "co_education"), ("college_type", "college_type"),
    ("year_of_estab", "year_established"), ("branch_code", "branch_code"), ("branch_name", "branch_name")
  ]

  /** the caste-and-gender rank columns from OC to BC-C, */
  const OcToBcCColumns: seq<(string, string)> := [
    ("oc_boys", "oc_boys"), ("oc_girls", "oc_girls"), ("bc_a_boys", "bc_a_boys"), ("bc_a_girls", "bc_a_girls"),
    ("bc_b_boys", "bc_b_boys"), ("bc_b_girls", "bc_b_girls"), ("bc_c_boys", "bc_c_boys"), ("bc_c_girls", "bc_c_girls")
  ]

  /** those from BC-D to ST, */
  const BcDToStColumns: seq<(string, string)> := [
    ("bc_d_boys", "bc_d_boys"), ("bc_d_girls", "bc_d_girls"), ("bc_e_boys", "bc_e_boys"), ("bc_e_girls", "bc_e_girls"),
    ("sc_boys", "sc_boys"), ("sc_girls", "sc_girls"), ("st_boys", "st_boys"), ("st_girls", "st_girls")
  ]

  /** and the EWS and fee columns. */
  const FeeColumns: seq<(string, string)> := [
    ("ews_gen_ou", "ews_boys"), ("ews_girls_ou", "ews_girls"), ("tuition_fee", "tuition_fee"),
    ("affiliated_to", "affiliated_to")
  ]

  const ColumnMapping: seq<(string, string)> := InstitutionColumns + OcToBcCColumns + BcDToStColumns + FeeColumns

  /** `columnMapping[header] || header`. */
  function StandardKey(table: seq<(string, string)>, header: string): string {
    match Lookup(table, header)
    case Some(name) => if name != "" then name else header
    case None => header
  }

  /** The renaming of the phase sheets. */
  function PhaseColumnName(header: string): string {
    StandardKey(ColumnMapping, header)
  }

  /** The predicted sheet keeps the normalised header as the key. */
  function SameName(header: string): string {
    header
  }

  /** What column `j` contributes to a cleaned row: nothing without a header or a defined cell, else its standard name and cleaned cell. */
  function ColumnEntry(headers: seq<Value>, rename: string -> string, row: Row, j: nat): Option<(string, Value)>
    requires j < |headers|
  {
    if Truthy(headers[j]) && At(row, j) != Undefined
    then Some((rename(ToText(headers[j])), CleanCell(At(row, j))))
    else None
  }

  /** The object the `headers.forEach` has built after `n` headers. */
  function CleanedObject(headers: seq<Value>, rename: string -> string, row: Row, n: nat): Record
    requires n <= |headers|
  {
    if n == 0 then []
    else PutEntry(CleanedObject(headers, rename, row, n - 1), ColumnEntry(headers, rename, row, n - 1))
  }

  // ---------------------------------------------------------------- phase sheets

  /** `if (phase) cleanedRow.phase = phase`. */
  function WithPhase(record: Record, phase: Value): Record {
    if Truthy(phase) then Put(record, "phase", phase) else record
  }

  /** `cleanedRow.college_code || cleanedRow.college_name`. */
  predicate NamesCollege(record: Record) {
    Truthy(Get(record, "college_code")) || Truthy(Get(record, "college_name"))
  }

  /** What one data row of a phase sheet contributes. */
  function PhaseRow(headers: seq<Value>, rename: string -> string, phase: Value, row: Row): Option<Record> {
    var record := WithPhase(CleanedObject(headers, rename, row, |headers|), phase);
    if NamesCollege(record) then Some(record) else None
  }

  function PhaseRowConverter(headers: seq<Value>, rename: string -> string, phase: Value): Row -> Option<Record> {
    row => PhaseRow(headers, rename, phase, row)
  }

  /** What `convertExcelToJSON` returns for the loaded rows: `null` below three rows. */
  function ExcelToJson(rawData: seq<Row>, phase: Value): (r: Option<seq<Record>>)
    ensures r.None? <==> |rawData| < 3
    ensures r.Some? ==> |r.value| <= |rawData| - 2
  {
    if |rawData| < 3 then None
    else Some(FilterMap(rawData[2..], PhaseRowConverter(NormalizeHeaders(rawData[1]), PhaseColumnName, phase)))
  }

  // ---------------------------------------------------------------- predicted cutoffs

  /** `cell && cell.toString().toLowerCase().includes('college')`. */
  predicate IsCollegeCell(v: Value) {
    Truthy(v) && Contains(ToLower(ToText(v)), "college")
  }

  /** `row.some(...)` with the college-cell test. */
  predicate HasCollegeCell(row: Row) {
    exists j :: 0 <= j < |row| && IsCollegeCell(row[j])
  }

  /** The header row: the first of the first five rows with a college cell, else row 0. */
  function PredictedHeaderIndex(rawData: seq<Row>): (i: nat)
    requires |rawData| > 0
    ensures i < |rawData| && i < 5
  {
    match FirstIndex(rawData, 0, Min(5, |rawData|), HasCollegeCell)
    case Some(i) => i
    case None => 0
  }

  const PredictedPhase: string := "Predicted Phase 2"

  /** `val !== null && val !== undefined && val !== ''`. */
  predicate Meaningful(v: Value) {
    v != Null && v != Undefined && v != Str("")
  }

  /** `Object.values(cleanedRow).some(...)`. */
  predicate HasMeaningfulValue(record: Record) {
    exists i :: 0 <= i < |record| && Meaningful(record[i].1)
  }

  /** What one data row of the predicted sheet contributes: headers kept as normalised, phase set first. */
  function PredictedRow(headers: seq<Value>, row: Row): Option<Record> {
    var record := Put(CleanedObject(headers, SameName, row, |headers|), "phase", Str(PredictedPhase));
    if HasMeaningfulValue(record) then Some(record) else None
  }

  function PredictedRowConverter(headers: seq<Value>): Row -> Option<Record> {
    row => PredictedRow(headers, row)
  }

  /** What `convertPredictedCutoffs` returns for the loaded rows: `null` below two rows. */
  function PredictedCutoffs(rawData: seq<Row>): (r: Option<seq<Record>>)
    ensures r.None? <==> |rawData| < 2
  {
    if |rawData| < 2 then None
    else
      var index := PredictedHeaderIndex(rawData);
      Some(FilterMap(rawData[index + 1..], PredictedRowConverter(NormalizeHeaders(rawData[index]))))
  }

  // ---------------------------------------------------------------- consolidation

  /** One entry of the list of files to convert; the file paths are not modelled. */
  datatype FileJob = FileJob(phase: string, predicted: bool)

  const Files: seq<FileJob> := [
    FileJob("Phase 1", false), FileJob("Phase 2", false), FileJob("Phase 3", false),
    FileJob(PredictedPhase, true)
  ]

  /** The conversion a file job runs on its loaded rows. */
  function Convert(job: FileJob, rawData: seq<Row>): Option<seq<Record>> {
    if job.predicted then PredictedCutoffs(rawData) else ExcelToJson(rawData, Str(job.phase))
  }

  /** What each file job's conversion gives, in job order. */
  function ConversionResults(sheets: seq<seq<Row>>): (results: seq<Option<seq<Record>>>)
    requires |sheets| == |Files|
    ensures |results| == |Files| && forall k :: 0 <= k < |Files| ==> results[k] == Convert(Files[k], sheets[k])
  {
    seq(|Files|, k requires 0 <= k < |Files| => Convert(Files[k], sheets[k]))
  }

  /** `allData` after the first `n` jobs: each successful conversion stored under its phase. */
  function AllData(results: seq<Option<seq<Record>>>, n: nat): map<string, seq<Record>>
    requires |results| == |Files| && n <= |Files|
  {
    if n == 0 then map[]
    else
      var all := AllData(results, n - 1);
      match results[n - 1]
      case Some(data) => all[Files[n - 1].phase := data]
      case None => all
  }

  /** `allData[phase] || []`. */
  function PhaseOrEmpty(all: map<string, seq<Record>>, phase: string): seq<Record> {
    if phase in all then all[phase] else []
  }

  /** The consolidated object: its keys in order, each with its phase's records. */
  function PreviousYearData(all: map<string, seq<Record>>): seq<(string, seq<Record>)> {
    [("Phase 1", PhaseOrEmpty(all, "Phase 1")), ("Phase 2", PhaseOrEmpty(all, "Phase 2")),
     ("Phase 3", PhaseOrEmpty(all, "Phase 3"))]
  }

  // ---------------------------------------------------------------- the loops

  /** The `headers.forEach` that fills one cleaned row. */
  method CleanRow(headers: seq<Value>, rename: string -> string, row: Row) returns (cleanedRow: Record)
    ensures cleanedRow == CleanedObject(headers, rename, row, |headers|)
  {
    cleanedRow := [];
    for index := 0 to |headers|
      invariant cleanedRow == CleanedObject(headers, rename, row, index)
    {
      var header := headers[index];
      if Truthy(header) && At(row, index) != Undefined {
        var standardKey := rename(ToText(header));
        var value := At(row, index);
        if value.Str? {
          var t := Trim(value.s);
          value := if t == "NA" || t == "" || t == "-" then Null else Str(t);
        }
        cleanedRow := Put(cleanedRow, standardKey, value);
      }
    }
  }

  /** One turn of the data-row loop of `convertExcelToJSON`: clean, tag, and keep when a college is named. */
  method CleanPhaseRow(headers: seq<Value>, rename: string -> string, phase: Value, row: Row) returns (out: Option<Record>)
    ensures out == PhaseRowConverter(headers, rename, phase)(row)
  {
    var cleanedRow := CleanRow(headers, rename, row);
    if Truthy(phase) {
      cleanedRow := Put(cleanedRow, "phase", phase);
    }
    if Truthy(Get(cleanedRow, "college_code")) || Truthy(Get(cleanedRow, "college_name")) {
      return Some(cleanedRow);
    }
    return None;
  }

  /** The data-row loop of `convertExcelToJSON`, from row `first` on. */
  method CleanPhaseRows(rawData: seq<Row>, first: nat, headers: seq<Value>, rename: string -> string, phase: Value)
    returns (cleanedData: seq<Record>)
    requires first <= |rawData|
    ensures cleanedData == FilterMap(rawData[first..], PhaseRowConverter(headers, rename, phase))
  {
    ghost var dataRows := rawData[first..];
    ghost var f := PhaseRowConverter(headers, rename, phase);
    cleanedData := [];
    for i := first to |rawData|
      invariant cleanedData == FilterMap(dataRows[..i - first], f)
    {
      assert dataRows[i - first] == rawData[i];
      var cleanedRow := CleanPhaseRow(headers, rename, phase, rawData[i]);
      FilterMapStep(dataRows, f, i - first, cleanedData, cleanedRow);
      if cleanedRow.Some? {
        cleanedData := cleanedData + [cleanedRow.value];
      }
      assert cleanedData == FilterMap(dataRows[..i + 1 - first], f);
    }
    assert dataRows[..|rawData| - first] == dataRows;
  }

  /** `convertExcelToJSON` from the loaded rows on. */
  method ConvertExcelToJson(rawData: seq<Row>, phase: Value) returns (cleanedData: Option<seq<Record>>)
    ensures cleanedData == ExcelToJson(rawData, phase)
  {
    if |rawData| < 3 {
      return None;
    }
    var headers := NormalizeHeaders(rawData[1]);
    var data := CleanPhaseRows(rawData, 2, headers, PhaseColumnName, phase);
    return Some(data);
  }

  /** The header-search loop of `convertPredictedCutoffs`, with its `break`. */
  method FindPredictedHeaderRow(rawData: seq<Row>) returns (headerRowIndex: nat)
    requires |rawData| > 0
    ensures headerRowIndex == PredictedHeaderIndex(rawData)
  {
    headerRowIndex := 0;
    var limit := Min(5, |rawData|);
    var i := 0;
    while i < limit
      invariant i <= limit
      invariant FirstIndex(rawData, 0, limit, HasCollegeCell) == FirstIndex(rawData, i, limit, HasCollegeCell)
      invariant headerRowIndex == 0
    {
      if HasCollegeCell(rawData[i]) {
        headerRowIndex := i;
        break;
      }
      i := i + 1;
    }
  }

  /** One turn of the data-row loop of `convertPredictedCutoffs`: clean, tag, and keep when some value is meaningful. */
  method CleanPredictedRow(headers: seq<Value>, row: Row) returns (out: Option<Record>)
    ensures out == PredictedRowConverter(headers)(row)
  {
    var cleanedRow := CleanRow(headers, SameName, row);
    cleanedRow := Put(cleanedRow, "phase", Str(PredictedPhase));
    if HasMeaningfulValue(cleanedRow) {
      return Some(cleanedRow);
    }
    return None;
  }

  /** The data-row loop of `convertPredictedCutoffs`. */
  method CleanPredictedRows(rawData: seq<Row>, first: nat, headers: seq<Value>) returns (cleanedData: seq<Record>)
    requires first <= |rawData|
    ensures cleanedData == FilterMap(rawData[first..], PredictedRowConverter(headers))
  {
    ghost var dataRows := rawData[first..];
    ghost var f := PredictedRowConverter(headers);
    cleanedData := [];
    for i := first to |rawData|
      invariant cleanedData == FilterMap(dataRows[..i - first], f)
    {
      assert dataRows[i - first] == rawData[i];
      var cleanedRow := CleanPredictedRow(headers, rawData[i]);
      FilterMapStep(dataRows, f, i - first, cleanedData, cleanedRow);
      if cleanedRow.Some? {
        cleanedData := cleanedData + [cleanedRow.value];
      }
    }
    assert dataRows[..|rawData| - first] == dataRows;
  }

  /** `convertPredictedCutoffs` from the loaded rows on. */
  method ConvertPredictedCutoffs(rawData: seq<Row>) returns (cleanedData: Option<seq<Record>>)
    ensures cleanedData == PredictedCutoffs(rawData)
  {
    if |rawData| < 2 {
      return None;
    }
    var headerRowIndex := FindPredictedHeaderRow(rawData);
    var headers := NormalizeHeaders(rawData[headerRowIndex]);
    var data := CleanPredictedRows(rawData, headerRowIndex + 1, headers);
    return Some(data);
  }

  /** The conversion one turn of `files.forEach` runs. */
  method ConvertFile(file: FileJob, rawData: seq<Row>) returns (data: Option<seq<Record>>)
    ensures data == Convert(file, rawData)
  {
    if file.predicted {
      data := ConvertPredictedCutoffs(rawData);
    } else {
      data := ConvertExcelToJson(rawData, Str(file.phase));
    }
  }

  /** The `files.forEach` over the loaded sheets, one per file job, and the consolidated object. */
  method ConvertAll(sheets: seq<seq<Row>>) returns (previousYearData: seq<(string, seq<Record>)>)
    requires |sheets| == |Files|
    ensures previousYearData == PreviousYearData(AllData(ConversionResults(sheets), |Files|))
  {
    var allData: map<string, seq<Record>> := map[];
    for k := 0 to |Files|
      invariant allData == AllData(ConversionResults(sheets), k)
    {
      var file := Files[k];
      var data := ConvertFile(file, sheets[k]);
      if data.Some? {
        allData := allData[file.phase := data.value];
      }
    }
    previousYearData := PreviousYearData(allData);
  }

  // ---------------------------------------------------------------- properties

  /** A non-empty header without whitespace or upper-case letters normalises to itself. */
  lemma NormalizeHeaderFixed(s: string)
    requires s != "" && NoSpace(s) && HasNoUpper(s)
    ensures NormalizeHeader(Str(s)) == Str(s)
  {
    TrimOfTrimmed(s);
    ReplaceNewlinesNoSpace(s);
    ReplaceSpaceRunsNoSpace(s, "_");
    ToLowerOfLower(s);
  }

  /** Normalising a usable header again changes nothing. */
  lemma NormalizeHeaderIdempotent(h: Value)
    requires Truthy(NormalizeHeader(h))
    ensures NormalizeHeader(NormalizeHeader(h)) == NormalizeHeader(h)
  {
    NormalizeHeaderFixed(NormalizeHeader(h).s);
  }

  /** A header cell of whitespace only is truthy, yet normalises to the empty name, which the row loop skips. */
  lemma BlankHeaderSkipped(s: string)
    requires s != "" && forall i :: 0 <= i < |s| ==> IsSpace(s[i])
    ensures NormalizeHeader(Str(s)) == Str("") && !Truthy(NormalizeHeader(Str(s)))
  {
    TrimAllSpace(s);
  }

  /** Cleaning a cleaned cell changes nothing. */
  lemma CleanCellIdempotent(v: Value)
    ensures CleanCell(CleanCell(v)) == CleanCell(v)
  {
    if v.Str? {
      TrimIdempotent(v.s);
    }
  }

  /** A header the table knows is renamed to the table's first entry for it. */
  lemma StandardKeyMapped(table: seq<(string, string)>, i: nat)
    requires i < |table| && table[i].1 != ""
    requires forall j :: 0 <= j < i ==> table[j].0 != table[i].0
    ensures StandardKey(table, table[i].0) == table[i].1
  {
    LookupFirst(table, i);
  }

  /** A header the table does not know is kept as it is. */
  lemma StandardKeyUnmapped(table: seq<(string, string)>, header: string)
    requires forall j :: 0 <= j < |table| ==> table[j].0 != header
    ensures StandardKey(table, header) == header
  {
  }

  /** The institution columns' names come first, so their renamings hold in the whole table. */
  lemma {:induction false} InstitutionColumnRenamed(k: string)
    requires Lookup(InstitutionColumns, k).Some?
    ensures Lookup(ColumnMapping, k) == Lookup(InstitutionColumns, k)
  {
    LookupAppend(InstitutionColumns, OcToBcCColumns, k);
    LookupAppend(InstitutionColumns + OcToBcCColumns, BcDToStColumns, k);
    LookupAppend(InstitutionColumns + OcToBcCColumns + BcDToStColumns, FeeColumns, k);
  }

  /** A name the institution and rank columns do not have is looked up among the fee columns. */
  lemma {:induction false} FeeColumnRenamed(k: string)
    requires forall i :: 0 <= i < |InstitutionColumns| ==> InstitutionColumns[i].0 != k
    requires forall i :: 0 <= i < |OcToBcCColumns| ==> OcToBcCColumns[i].0 != k
    requires forall i :: 0 <= i < |BcDToStColumns| ==> BcDToStColumns[i].0 != k
    ensures Lookup(ColumnMapping, k) == Lookup(FeeColumns, k)
  {
    LookupMiss(InstitutionColumns, k);
    LookupMiss(OcToBcCColumns, k);
    LookupMiss(BcDToStColumns, k);
    LookupAppend(InstitutionColumns, OcToBcCColumns, k);
    LookupAppend(InstitutionColumns + OcToBcCColumns, BcDToStColumns, k);
    LookupAppend(InstitutionColumns + OcToBcCColumns + BcDToStColumns, FeeColumns, k);
  }

  /** The two columns the row filter reads are the renamed institute code and name. */
  lemma CollegeColumnsRenamed()
    ensures PhaseColumnName("inst_code") == "college_code"
    ensures PhaseColumnName("institute_name") == "college_name"
  {
    InstitutionColumnRenamed("inst_code");
    InstitutionColumnRenamed("institute_name");
  }

  /** The EWS columns are renamed to the boys/girls pattern of the other categories. */
  lemma EwsColumnsRenamed()
    ensures PhaseColumnName("ews_gen_ou") == "ews_boys"
    ensures PhaseColumnName("ews_girls_ou") == "ews_girls"
  {
    FeeColumnRenamed("ews_gen_ou");
    FeeColumnRenamed("ews_girls_ou");
  }

  /** `k` is the standard name of one of the first `n` columns that has a header and a defined cell. */
  predicate SourceColumn(headers: seq<Value>, rename: string -> string, row: Row, n: nat, k: string)
    requires n <= |headers|
  {
    exists j :: 0 <= j < n && ColumnEntry(headers, rename, row, j).Some? && ColumnEntry(headers, rename, row, j).value.0 == k
  }

  /** `k` is a key of a cleaned row exactly when some column with a header and a defined cell is named `k`. */
  lemma {:induction false} CleanedObjectHasKey(headers: seq<Value>, rename: string -> string, row: Row, n: nat, k: string)
    requires n <= |headers|
    ensures k in KeysOf(CleanedObject(headers, rename, row, n)) <==> SourceColumn(headers, rename, row, n, k)
  {
    if n > 0 {
      CleanedObjectHasKey(headers, rename, row, n - 1, k);
      PutEntryHasKey(CleanedObject(headers, rename, row, n - 1), ColumnEntry(headers, rename, row, n - 1), k);
      SourceColumnStep(headers, rename, row, n, k);
    }
  }

  /** A source column among the first `n` is one among the first `n - 1` or the last one. */
  lemma SourceColumnStep(headers: seq<Value>, rename: string -> string, row: Row, n: nat, k: string)
    requires 0 < n <= |headers|
    ensures SourceColumn(headers, rename, row, n, k) <==>
      SourceColumn(headers, rename, row, n - 1, k) || (ColumnEntry(headers, rename, row, n - 1).Some? && ColumnEntry(headers, rename, row, n - 1).value.0 == k)
  {
    if SourceColumn(headers, rename, row, n, k) {
      var j :| 0 <= j < n && ColumnEntry(headers, rename, row, j).Some? && ColumnEntry(headers, rename, row, j).value.0 == k;
      if j < n - 1 {
        assert SourceColumn(headers, rename, row, n - 1, k);
      }
    }
    if SourceColumn(headers, rename, row, n - 1, k) {
      var j :| 0 <= j < n - 1 && ColumnEntry(headers, rename, row, j).Some? && ColumnEntry(headers, rename, row, j).value.0 == k;
      assert SourceColumn(headers, rename, row, n, k);
    }
  }

  /** The entries of the first `n` columns. */
  function ColumnEntries(headers: seq<Value>, rename: string -> string, row: Row, n: nat): (entries: seq<Option<(string, Value)>>)
    requires n <= |headers|
    ensures |entries| == n && forall j :: 0 <= j < n ==> entries[j] == ColumnEntry(headers, rename, row, j)
  {
    seq(n, j requires 0 <= j < n => ColumnEntry(headers, rename, row, j))
  }

  /** The `headers.forEach` stores the column entries in turn. */
  lemma {:induction false} CleanedObjectStoresEntries(headers: seq<Value>, rename: string -> string, row: Row, n: nat)
    requires n <= |headers|
    ensures CleanedObject(headers, rename, row, n) == PutAll(ColumnEntries(headers, rename, row, n))
  {
    if n > 0 {
      CleanedObjectStoresEntries(headers, rename, row, n - 1);
      assert ColumnEntries(headers, rename, row, n)[..n - 1] == ColumnEntries(headers, rename, row, n - 1);
    }
  }

  /** Under a column's name sits that column's cell, cleaned, unless a later column has the same name. */
  lemma CleanedObjectValue(headers: seq<Value>, rename: string -> string, row: Row, n: nat, j: nat)
    requires j < n <= |headers| && ColumnEntry(headers, rename, row, j).Some?
    requires forall j' :: j < j' < n && ColumnEntry(headers, rename, row, j').Some? ==>
      ColumnEntry(headers, rename, row, j').value.0 != ColumnEntry(headers, rename, row, j).value.0
    ensures Get(CleanedObject(headers, rename, row, n), ColumnEntry(headers, rename, row, j).value.0) == ColumnEntry(headers, rename, row, j).value.1
  {
    CleanedObjectStoresEntries(headers, rename, row, n);
    PutAllValue(ColumnEntries(headers, rename, row, n), j);
  }

  /** A value cleaning leaves as it is: not a string, or a trimmed string other than `NA`, `''` and `-`. */
  predicate IsClean(v: Value) {
    v.Str? ==> v.s != "NA" && v.s != "" && v.s != "-" && Trim(v.s) == v.s
  }

  /** The clean values are exactly the ones cleaning does not change. */
  lemma CleanCellFixedPoints(v: Value)
    ensures CleanCell(v) == v <==> IsClean(v)
    ensures IsClean(CleanCell(v))
  {
    if v.Str? {
      TrimIdempotent(v.s);
    }
  }

  /** `v` is the cleaned cell of one of the first `n` columns that has a header and a defined cell. */
  predicate FromColumn(headers: seq<Value>, rename: string -> string, row: Row, n: nat, v: Value)
    requires n <= |headers|
  {
    exists j :: 0 <= j < n && ColumnEntry(headers, rename, row, j).Some? && ColumnEntry(headers, rename, row, j).value.1 == v
  }

  /** Every value of a cleaned row is the cleaned cell of some column; a missing key reads as `undefined`. */
  lemma {:induction false} CleanedObjectValueSource(headers: seq<Value>, rename: string -> string, row: Row, n: nat, k: string)
    requires n <= |headers|
    ensures Get(CleanedObject(headers, rename, row, n), k) == Undefined || FromColumn(headers, rename, row, n, Get(CleanedObject(headers, rename, row, n), k))
  {
    if n > 0 {
      var record := CleanedObject(headers, rename, row, n - 1);
      var e := ColumnEntry(headers, rename, row, n - 1);
      CleanedObjectValueSource(headers, rename, row, n - 1, k);
      PutEntryGet(record, e, k);
      FromColumnStep(headers, rename, row, n, Get(record, k));
      if e.Some? {
        FromColumnStep(headers, rename, row, n, e.value.1);
      }
    }
  }

  /** A value from one of the first `n - 1` columns, or from the last one, is from one of the first `n`. */
  lemma FromColumnStep(headers: seq<Value>, rename: string -> string, row: Row, n: nat, v: Value)
    requires 0 < n <= |headers|
    ensures FromColumn(headers, rename, row, n - 1, v) ==> FromColumn(headers, rename, row, n, v)
    ensures ColumnEntry(headers, rename, row, n - 1).Some? && ColumnEntry(headers, rename, row, n - 1).value.1 == v ==>
      FromColumn(headers, rename, row, n, v)
  {
    if FromColumn(headers, rename, row, n - 1, v) {
      var j :| 0 <= j < n - 1 && ColumnEntry(headers, rename, row, j).Some? && ColumnEntry(headers, rename, row, j).value.1 == v;
      assert FromColumn(headers, rename, row, n, v);
    }
    if ColumnEntry(headers, rename, row, n - 1).Some? && ColumnEntry(headers, rename, row, n - 1).value.1 == v {
      assert FromColumn(headers, rename, row, n, v);
    }
  }

  /** Every value of a cleaned row is already clean: cleaning it again changes nothing. */
  lemma CleanedObjectValuesClean(headers: seq<Value>, rename: string -> string, row: Row, n: nat, k: string)
    requires n <= |headers|
    ensures IsClean(Get(CleanedObject(headers, rename, row, n), k))
  {
    var v := Get(CleanedObject(headers, rename, row, n), k);
    CleanedObjectValueSource(headers, rename, row, n, k);
    if v != Undefined {
      var j :| 0 <= j < n && ColumnEntry(headers, rename, row, j).Some? && ColumnEntry(headers, rename, row, j).value.1 == v;
      CleanCellFixedPoints(At(row, j));
    }
  }

  /** The phase tag never decides whether a row is kept: only the college code and name do. */
  lemma PhaseRowKept(headers: seq<Value>, rename: string -> string, phase: Value, row: Row)
    ensures PhaseRow(headers, rename, phase, row).Some? <==> NamesCollege(CleanedObject(headers, rename, row, |headers|))
  {
    var record := CleanedObject(headers, rename, row, |headers|);
    PutGet(record, "phase", phase, "college_code");
    PutGet(record, "phase", phase, "college_name");
  }

  /** A kept row of a phase sheet carries the phase, when one is given. */
  lemma PhaseRowTagged(headers: seq<Value>, rename: string -> string, phase: Value, row: Row)
    requires Truthy(phase) && PhaseRow(headers, rename, phase, row).Some?
    ensures Get(PhaseRow(headers, rename, phase, row).value, "phase") == phase
  {
    PutGet(CleanedObject(headers, rename, row, |headers|), "phase", phase, "phase");
  }

  /** An object is in a phase sheet's output exactly when a row from row 2 on becomes it. */
  lemma ExcelToJsonMembers(rawData: seq<Row>, phase: Value, x: Record)
    requires |rawData| >= 3
    ensures x in ExcelToJson(rawData, phase).value <==>
      exists i :: 2 <= i < |rawData| && PhaseRow(NormalizeHeaders(rawData[1]), PhaseColumnName, phase, rawData[i]) == Some(x)
  {
    FilterMapSuffixMembers(rawData, 2, PhaseRowConverter(NormalizeHeaders(rawData[1]), PhaseColumnName, phase), x);
  }

  /** The predicted header row is the first of the first five rows with a college cell. */
  lemma PredictedHeaderDetected(rows: seq<Row>, i: nat)
    requires i < Min(5, |rows|) && HasCollegeCell(rows[i])
    requires forall i' :: 0 <= i' < i ==> !HasCollegeCell(rows[i'])
    ensures PredictedHeaderIndex(rows) == i
  {
    var found := FirstIndex(rows, 0, Min(5, |rows|), HasCollegeCell);
    assert found == Some(i);
  }

  /** Without a college cell in the first five rows, row 0 holds the predicted headers. */
  lemma PredictedHeaderFallback(rows: seq<Row>)
    requires |rows| > 0
    requires forall i :: 0 <= i < Min(5, |rows|) ==> !HasCollegeCell(rows[i])
    ensures PredictedHeaderIndex(rows) == 0
  {
  }

  /** The phase is set before the emptiness test, so every predicted row is kept, tagged with its phase. */
  lemma PredictedRowKept(headers: seq<Value>, row: Row)
    ensures PredictedRow(headers, row).Some?
    ensures Get(PredictedRow(headers, row).value, "phase") == Str(PredictedPhase)
  {
    var record := Put(CleanedObject(headers, SameName, row, |headers|), "phase", Str(PredictedPhase));
    PutGet(CleanedObject(headers, SameName, row, |headers|), "phase", Str(PredictedPhase), "phase");
    PutHasKey(CleanedObject(headers, SameName, row, |headers|), "phase", Str(PredictedPhase), "phase");
    var i := GetIndex(record, "phase");
    assert Meaningful(record[i].1);
  }

  /** Every row after the predicted header row becomes one object, in order. */
  lemma PredictedRowsAllKept(rawData: seq<Row>)
    requires |rawData| >= 2
    ensures |PredictedCutoffs(rawData).value| == |rawData| - PredictedHeaderIndex(rawData) - 1
  {
    var index := PredictedHeaderIndex(rawData);
    var f := PredictedRowConverter(NormalizeHeaders(rawData[index]));
    var dataRows := rawData[index + 1..];
    forall i | 0 <= i < |dataRows| ensures f(dataRows[i]).Some? {
      PredictedRowKept(NormalizeHeaders(rawData[index]), dataRows[i]);
    }
    FilterMapAllKept(dataRows, f);
  }

  /** The records a file job contributes to the consolidated object: `[]` when its conversion failed. */
  function JobRecords(sheets: seq<seq<Row>>, k: nat): seq<Record>
    requires |sheets| == |Files| && k < |Files|
  {
    match Convert(Files[k], sheets[k])
    case Some(data) => data
    case None => []
  }

  /** No two file jobs share a phase. */
  lemma FilesPhasesDistinct()
    ensures forall i, j :: 0 <= i < j < |Files| ==> Files[i].phase != Files[j].phase
  {
  }

  /** After `n` jobs, a job's phase holds its records when it ran and succeeded, and is absent otherwise. */
  lemma {:induction false} AllDataAt(results: seq<Option<seq<Record>>>, n: nat, k: nat)
    requires |results| == |Files| && n <= |Files| && k < |Files|
    ensures k < n ==> PhaseOrEmpty(AllData(results, n), Files[k].phase) == if results[k].Some? then results[k].value else []
    ensures k < n && results[k].Some? ==> Files[k].phase in AllData(results, n)
    ensures k < n && results[k].None? ==> Files[k].phase !in AllData(results, n)
    ensures k >= n ==> Files[k].phase !in AllData(results, n)
  {
    if n > 0 {
      AllDataAt(results, n - 1, k);
      FilesPhasesDistinct();
    }
  }

  /** The consolidated object has exactly the keys Phase 1, Phase 2 and Phase 3, in order, each with its phase sheet's records or `[]`. */
  lemma PreviousYearDataPhases(sheets: seq<seq<Row>>, k: nat)
    requires |sheets| == |Files| && k < 3
    ensures |PreviousYearData(AllData(ConversionResults(sheets), |Files|))| == 3
    ensures PreviousYearData(AllData(ConversionResults(sheets), |Files|))[k] == (Files[k].phase, JobRecords(sheets, k))
    ensures !Files[k].predicted
  {
    AllDataAt(ConversionResults(sheets), |Files|, k);
  }
}
