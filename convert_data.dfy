/**
 * The CSV reader of the all-data converter: blank lines are dropped, the
 * first remaining line is split on every comma into header names, and every
 * later line whose comma-split field count equals the header count becomes
 * one object. There is no quote handling: a `"` is only deleted. A header
 * becomes a key by lower-casing it and deleting its whitespace.
 */
module ConvertData {
  import opened Options
  import opened Strings
  import opened Values
  import opened Collections

  /** `line => line.trim()`: a line with something besides whitespace. */
  predicate NonBlank(line: string) {
    Trim(line) != ""
  }

  /** `csvContent.split('\n').filter(line => line.trim())`. */
  function NonBlankLines(content: string): (lines: seq<string>)
    ensures forall i :: 0 <= i < |lines| ==> NonBlank(lines[i]) && '\n' !in lines[i]
  {
    var lines := Filter(Split(content, '\n'), NonBlank);
    forall i | 0 <= i < |lines| ensures '\n' !in lines[i] {
      FilterMembers(Split(content, '\n'), NonBlank, lines[i]);
    }
    lines
  }

  /** `x.trim().replace(/"/g, '')` applied to every comma-separated cell. */
  function Cells(line: string): (cells: seq<string>)
    ensures |cells| == Count(line, ',') + 1
    ensures forall i :: 0 <= i < |cells| ==> '"' !in cells[i] && ',' !in cells[i]
  {
    var parts := Split(line, ',');
    SplitCount(line, ',');
    seq(|parts|, i requires 0 <= i < |parts| =>
      TrimSubset(parts[i]);
      RemoveChar(Trim(parts[i]), '"'))
  }

  /** `header.toLowerCase().replace(/\s+/g, '')`. */
  function KeyOf(header: string): string {
    ReplaceSpaceRuns(ToLower(header), "")
  }

  /** A key has no whitespace and no upper-case letter. */
  predicate IsKeyText(k: string) {
    NoSpace(k) && forall i :: 0 <= i < |k| ==> !('A' <= k[i] <= 'Z')
  }

  lemma KeyIsKeyText(header: string)
    ensures IsKeyText(KeyOf(header))
  {
    var k := KeyOf(header);
    ReplaceSpaceRunsSubset(ToLower(header));
    forall i | 0 <= i < |k| ensures !('A' <= k[i] <= 'Z') {
      assert k[i] in ToLower(header);
    }
  }

  /** The pairs the `headers.forEach` assigns, in header order. */
  function Pairs(headers: seq<string>, values: seq<string>): (ps: seq<(string, Value)>)
    requires |values| == |headers|
    ensures |ps| == |headers|
    ensures forall j :: 0 <= j < |headers| ==> ps[j] == (KeyOf(headers[j]), Str(values[j]))
  {
    seq(|headers|, j requires 0 <= j < |headers| => (KeyOf(headers[j]), Str(values[j])))
  }

  /** The object a data line becomes, or `None` when its cell count is not the header count. */
  function LineRecord(headers: seq<string>, line: string): Option<Record> {
    var values := Cells(line);
    if |values| == |headers| then Some(FromPairs(Pairs(headers, values))) else None
  }

  function LineParser(headers: seq<string>): string -> Option<Record> {
    line => LineRecord(headers, line)
  }

  /** What `parseCSV(csvContent)` returns. */
  function ParsedData(content: string): (records: seq<Record>)
    ensures |NonBlankLines(content)| < 2 ==> records == []
    ensures |records| <= |NonBlankLines(content)| - 1 || records == []
  {
    var lines := NonBlankLines(content);
    if |lines| < 2 then [] else FilterMap(lines[1..], LineParser(Cells(lines[0])))
  }

  /** The `headers.forEach` that fills one object. */
  method FillRecord(headers: seq<string>, values: seq<string>) returns (record: Record)
    requires |values| == |headers|
    ensures record == FromPairs(Pairs(headers, values))
  {
    ghost var ps := Pairs(headers, values);
    record := [];
    for index := 0 to |headers|
      invariant record == FromPairs(ps[..index])
    {
      assert ps[..index + 1][..index] == ps[..index];
      record := Put(record, ReplaceSpaceRuns(ToLower(headers[index]), ""), Str(values[index]));
    }
    assert ps[..|headers|] == ps;
  }

  /** The loop of `parseCSV` over the lines after the header line. */
  method ReadRecords(lines: seq<string>, headers: seq<string>) returns (records: seq<Record>)
    requires |lines| >= 1
    ensures records == FilterMap(lines[1..], LineParser(headers))
  {
    ghost var dataLines := lines[1..];
    records := [];
    for i := 1 to |lines|
      invariant records == FilterMap(dataLines[..i - 1], LineParser(headers))
    {
      FilterMapSnoc(dataLines, LineParser(headers), i - 1);
      var values := Cells(lines[i]);
      if |values| == |headers| {
        var record := FillRecord(headers, values);
        records := records + [record];
      }
    }
    assert dataLines[..|lines| - 1] == dataLines;
  }

  /** `parseCSV`. */
  method ParseCsv(content: string) returns (records: seq<Record>)
    ensures records == ParsedData(content)
  {
    var lines := NonBlankLines(content);
    if |lines| < 2 {
      return [];
    }
    records := ReadRecords(lines, Cells(lines[0]));
  }

  // ---------------------------------------------------------------- properties

  /** A line is kept exactly when it has as many commas as the header line. */
  lemma LineKept(headers: seq<string>, line: string)
    ensures LineRecord(headers, line).Some? <==> Count(line, ',') + 1 == |headers|
  {
  }

  /** The keys of an object are the headers' keys; each is free of whitespace and upper case. */
  lemma RecordKeys(headers: seq<string>, values: seq<string>)
    requires |values| == |headers|
    ensures DistinctKeys(FromPairs(Pairs(headers, values)))
    ensures forall k :: k in KeysOf(FromPairs(Pairs(headers, values))) <==>
      exists j :: 0 <= j < |headers| && k == KeyOf(headers[j])
    ensures forall k :: k in KeysOf(FromPairs(Pairs(headers, values))) ==> IsKeyText(k)
  {
    var ps := Pairs(headers, values);
    FromPairsKeys(ps);
    forall k ensures k in KeysOf(ps) <==> exists j :: 0 <= j < |headers| && k == KeyOf(headers[j]) {
      if k in KeysOf(ps) {
        var j :| 0 <= j < |ps| && KeysOf(ps)[j] == k;
        assert k == KeyOf(headers[j]);
      }
      if exists j :: 0 <= j < |headers| && k == KeyOf(headers[j]) {
        var j :| 0 <= j < |headers| && k == KeyOf(headers[j]);
        assert KeysOf(ps)[j] == k;
      }
    }
    forall j | 0 <= j < |headers| ensures IsKeyText(KeyOf(headers[j])) {
      KeyIsKeyText(headers[j]);
    }
  }

  /**
   * Headers that differ only in case or whitespace give the same key, so the
   * later column's value wins: the value under a header's key is the cell of
   * the last header with that key.
   */
  lemma RecordValueAt(headers: seq<string>, values: seq<string>, j: nat)
    requires |values| == |headers| && j < |headers|
    requires forall j' :: j < j' < |headers| ==> KeyOf(headers[j']) != KeyOf(headers[j])
    ensures Get(FromPairs(Pairs(headers, values)), KeyOf(headers[j])) == Str(values[j])
  {
    FromPairsLastWins(Pairs(headers, values), j);
  }

  /** A string value without `"`. */
  predicate QuoteFree(v: Value) {
    v.Str? && '"' !in v.s
  }

  /** No value holds a double quote. */
  lemma RecordValuesNoQuotes(headers: seq<string>, line: string)
    requires LineRecord(headers, line).Some?
    ensures forall k :: k in KeysOf(LineRecord(headers, line).value) ==> QuoteFree(Get(LineRecord(headers, line).value, k))
  {
    var values := Cells(line);
    FromPairsValues(Pairs(headers, values), QuoteFree);
  }

  /** An object is in the output exactly when some non-blank data line becomes it. */
  lemma ParsedDataMembers(content: string, x: Record)
    requires |NonBlankLines(content)| >= 2
    ensures x in ParsedData(content) <==>
      exists i :: 1 <= i < |NonBlankLines(content)| &&
        LineRecord(Cells(NonBlankLines(content)[0]), NonBlankLines(content)[i]) == Some(x)
  {
    var lines := NonBlankLines(content);
    var headers := Cells(lines[0]);
    FilterMapMembers(lines[1..], LineParser(headers), x);
    if exists i :: 0 <= i < |lines[1..]| && LineRecord(headers, lines[1..][i]) == Some(x) {
      var i :| 0 <= i < |lines[1..]| && LineRecord(headers, lines[1..][i]) == Some(x);
      assert lines[i + 1] == lines[1..][i];
    }
    if exists i :: 1 <= i < |lines| && LineRecord(headers, lines[i]) == Some(x) {
      var i :| 1 <= i < |lines| && LineRecord(headers, lines[i]) == Some(x);
      assert lines[1..][i - 1] == lines[i];
    }
  }

  /** Every line that is read is a non-blank line of the text. */
  lemma KeptLinesFromText(content: string, line: string)
    requires line in NonBlankLines(content)
    ensures NonBlank(line) && line in Split(content, '\n')
  {
    FilterMembers(Split(content, '\n'), NonBlank, line);
  }

  /** A blank line between two pieces of text is dropped with the other blank lines. */
  lemma BlankLineDropped(a: string, blank: string, b: string)
    requires '\n' !in blank && !NonBlank(blank)
    ensures NonBlankLines(a + "\n" + blank + "\n" + b) == NonBlankLines(a + "\n" + b)
  {
    var pa, pb := Split(a, '\n'), Split(b, '\n');
    var rest := blank + "\n" + b;
    Regroup(a, "\n", blank, b);
    SplitAppend(a, '\n', rest);
    SplitConcat(blank, '\n', b);
    SplitAppend(a, '\n', b);
    FilterAppend(pa, [blank] + pb, NonBlank);
    FilterAppend([blank], pb, NonBlank);
    FilterAppend(pa, pb, NonBlank);
    assert Filter([blank], NonBlank) == [] by {
      assert [blank][..0] == [];
    }
    assert Filter([blank] + pb, NonBlank) == Filter(pb, NonBlank);
  }

  /** A blank line anywhere in the text changes nothing in the records read. */
  lemma BlankLinesIgnored(a: string, blank: string, b: string)
    requires '\n' !in blank && !NonBlank(blank)
    ensures ParsedData(a + "\n" + blank + "\n" + b) == ParsedData(a + "\n" + b)
  {
    BlankLineDropped(a, blank, b);
  }
}
