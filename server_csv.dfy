/**
 * The CSV reader of the web server: the text is trimmed and split into lines,
 * the first line into comma-separated header names, and every later line is
 * split by the quote-toggling splitter. A line whose field count differs from
 * the header count is dropped; every other line becomes one object whose
 * values, like the header names, have their `"` removed and are trimmed.
 */
module ServerCsv {
  import opened Options
  import opened Strings
  import opened Values
  import opened QuotedCsv
  import opened Collections

  /** `text.trim().split('\n')`. */
  function Lines(text: string): (lines: seq<string>)
    ensures |lines| >= 1
    ensures forall i :: 0 <= i < |lines| ==> '\n' !in lines[i]
  {
    Split(Trim(text), '\n')
  }

  /** `x.replace(/"/g, '').trim()` applied to every field. */
  function CleanFields(xs: seq<string>): (ys: seq<string>)
    ensures |ys| == |xs|
    ensures forall i :: 0 <= i < |xs| ==> ys[i] == Trim(RemoveChar(xs[i], '"'))
  {
    seq(|xs|, i requires 0 <= i < |xs| => Trim(RemoveChar(xs[i], '"')))
  }

  /** A cleaned field holds no `"` and has nothing left to trim. */
  lemma CleanFieldsClean(xs: seq<string>)
    ensures forall i :: 0 <= i < |xs| ==> '"' !in CleanFields(xs)[i] && Trim(CleanFields(xs)[i]) == CleanFields(xs)[i]
  {
    forall i | 0 <= i < |xs|
      ensures '"' !in CleanFields(xs)[i] && Trim(CleanFields(xs)[i]) == CleanFields(xs)[i]
    {
      TrimSubset(RemoveChar(xs[i], '"'));
      TrimIdempotent(RemoveChar(xs[i], '"'));
    }
  }

  /** The header names of the first line: split on every comma, then cleaned. */
  function HeaderNames(line: string): (headers: seq<string>)
    ensures |headers| == |Split(line, ',')|
  {
    CleanFields(Split(line, ','))
  }

  /** The pairs `record[header] = values[index]...` assigns, in header order. */
  function Pairs(headers: seq<string>, values: seq<string>): (ps: seq<(string, Value)>)
    requires |values| == |headers|
    ensures |ps| == |headers|
    ensures forall j :: 0 <= j < |headers| ==> ps[j] == (headers[j], Str(values[j]))
  {
    seq(|headers|, j requires 0 <= j < |headers| => (headers[j], Str(values[j])))
  }

  /** The object the `headers.forEach` builds from fields of the right count. */
  function ObjectOf(headers: seq<string>, values: seq<string>): Record
    requires |values| == |headers|
  {
    FromPairs(Pairs(headers, CleanFields(values)))
  }

  /** The object a data line becomes, or `None` when its field count is not the header count. */
  function LineRecord(headers: seq<string>, line: string): Option<Record> {
    var values := SplitQuoted(line);
    if |values| == |headers| then Some(ObjectOf(headers, values)) else None
  }

  /** `LineRecord` for a fixed header line. */
  function LineParser(headers: seq<string>): string -> Option<Record> {
    line => LineRecord(headers, line)
  }

  /** The objects of the data lines that are kept, in line order. */
  function RecordsOf(headers: seq<string>, dataLines: seq<string>): (data: seq<Record>)
    ensures |data| <= |dataLines|
  {
    FilterMap(dataLines, LineParser(headers))
  }

  /** What `parseCSV(text)` returns. */
  function ParsedCsv(text: string): (data: seq<Record>)
    ensures |Lines(text)| < 2 ==> data == []
    ensures |data| <= |Lines(text)| - 1
  {
    var lines := Lines(text);
    if |lines| < 2 then [] else RecordsOf(HeaderNames(lines[0]), lines[1..])
  }

  /** `parseCSVLine`: the loop over the characters of one line. */
  method ParseCsvLine(line: string) returns (result: seq<string>)
    ensures result == SplitQuoted(line)
  {
    result := [];
    var current := "";
    var inQuotes := false;
    for i := 0 to |line|
      invariant result == Scan(line[..i]).fields
      invariant current == Scan(line[..i]).current
      invariant inQuotes == Scan(line[..i]).inQuotes
    {
      assert line[..i + 1][..i] == line[..i];
      var ch := line[i];
      if ch == '"' {
        inQuotes := !inQuotes;
      } else if ch == ',' && !inQuotes {
        result := result + [current];
        current := "";
      } else {
        current := current + [ch];
      }
    }
    assert line[..|line|] == line;
    result := result + [current];
  }

  /** The `headers.forEach` that fills one object. */
  method FillRecord(headers: seq<string>, values: seq<string>) returns (record: Record)
    requires |values| == |headers|
    ensures record == ObjectOf(headers, values)
  {
    ghost var ps := Pairs(headers, CleanFields(values));
    record := [];
    for index := 0 to |headers|
      invariant record == FromPairs(ps[..index])
    {
      FromPairsSnoc(ps, index);
      assert ps[index] == (headers[index], Str(Trim(RemoveChar(values[index], '"'))));
      record := Put(record, headers[index], Str(Trim(RemoveChar(values[index], '"'))));
    }
    assert ps[..|headers|] == ps;
  }

  /** `parseCSV`: the line loop that pushes one object per kept line. */
  method ParseCsv(text: string) returns (data: seq<Record>)
    ensures data == ParsedCsv(text)
  {
    var lines := Lines(text);
    if |lines| < 2 {
      return [];
    }
    var headers := HeaderNames(lines[0]);
    data := [];
    ghost var dataLines := lines[1..];
    for i := 1 to |lines|
      invariant data == RecordsOf(headers, dataLines[..i - 1])
    {
      FilterMapSnoc(dataLines, LineParser(headers), i - 1);
      var values := ParseCsvLine(lines[i]);
      if |values| == |headers| {
        var record := FillRecord(headers, values);
        data := data + [record];
      }
    }
    assert dataLines[..|lines| - 1] == dataLines;
  }

  // ---------------------------------------------------------------- properties

  /** A line is kept exactly when it has one comma outside quotes fewer than there are headers. */
  lemma LineKept(headers: seq<string>, line: string)
    ensures LineRecord(headers, line).Some? <==> UnquotedCommas(line) + 1 == |headers|
  {
    SplitQuotedCount(line);
  }

  /** Every object has exactly the header names as keys, each once. */
  lemma ObjectKeys(headers: seq<string>, values: seq<string>)
    requires |values| == |headers|
    ensures DistinctKeys(ObjectOf(headers, values))
    ensures forall k :: k in KeysOf(ObjectOf(headers, values)) <==> k in headers
  {
    var ps := Pairs(headers, CleanFields(values));
    FromPairsKeys(ps);
    assert KeysOf(ps) == headers;
  }

  /** A string without `"` and with nothing left to trim. */
  predicate CleanValue(v: Value) {
    v.Str? && '"' !in v.s && Trim(v.s) == v.s
  }

  /** Every value of an object is a string without `"` and with nothing left to trim. */
  lemma ObjectValuesClean(headers: seq<string>, values: seq<string>)
    requires |values| == |headers|
    ensures forall k :: k in KeysOf(ObjectOf(headers, values)) ==> CleanValue(Get(ObjectOf(headers, values), k))
  {
    CleanFieldsClean(values);
    FromPairsValues(Pairs(headers, CleanFields(values)), CleanValue);
  }

  /** The value under a header is its field, cleaned; a repeated header keeps its last position. */
  lemma ObjectValueAt(headers: seq<string>, values: seq<string>, j: nat)
    requires |values| == |headers| && j < |headers|
    requires forall j' :: j < j' < |headers| ==> headers[j'] != headers[j]
    ensures Get(ObjectOf(headers, values), headers[j]) == Str(Trim(RemoveChar(values[j], '"')))
  {
    FromPairsLastWins(Pairs(headers, CleanFields(values)), j);
  }

  /** The splitter has already dropped every `"`, so a line's value is its field, trimmed. */
  lemma RecordValueAt(headers: seq<string>, line: string, j: nat)
    requires LineRecord(headers, line).Some? && j < |headers|
    requires forall j' :: j < j' < |headers| ==> headers[j'] != headers[j]
    ensures Get(LineRecord(headers, line).value, headers[j]) == Str(Trim(SplitQuoted(line)[j]))
  {
    var values := SplitQuoted(line);
    SplitQuotedNoQuotes(line);
    RemoveCharAbsent(values[j], '"');
    ObjectValueAt(headers, values, j);
  }

  /** An object is in the output exactly when some data line becomes it. */
  lemma RecordsOfMembers(headers: seq<string>, dataLines: seq<string>, x: Record)
    ensures x in RecordsOf(headers, dataLines) <==> exists i :: 0 <= i < |dataLines| && LineRecord(headers, dataLines[i]) == Some(x)
  {
    FilterMapMembers(dataLines, LineParser(headers), x);
  }

  /** When every data line has the header count of fields, every line is kept, in order. */
  lemma RecordsOfAllKept(headers: seq<string>, dataLines: seq<string>)
    requires forall i :: 0 <= i < |dataLines| ==> |SplitQuoted(dataLines[i])| == |headers|
    ensures |RecordsOf(headers, dataLines)| == |dataLines|
    ensures forall i :: 0 <= i < |dataLines| ==> Some(RecordsOf(headers, dataLines)[i]) == LineRecord(headers, dataLines[i])
  {
    FilterMapAllKept(dataLines, LineParser(headers));
  }

  /** A text with no line break after trimming has no data line, so nothing is parsed. */
  lemma SingleLineGivesNothing(text: string)
    requires '\n' !in Trim(text)
    ensures ParsedCsv(text) == []
  {
    SplitNoSep(Trim(text), '\n');
  }
}
