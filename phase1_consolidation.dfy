/**
 * The phase-1 consolidation: a college's per-branch student CSV becomes one
 * wide row holding, for each of the 18 canonical seat columns, the closing
 * (largest) rank of the raw seat categories that map to it.
 *
 * The directory walk and the file reads are left to the caller: a branch is
 * given by its directory name, its file name and the file's text.
 */
module Phase1Consolidation {
  import opened Options
  import opened Strings
  import opened Values
  import opened QuotedCsv
  import opened SeatCategory

  // ---------------------------------------------------------------- parseCSV

  /** `content.trim().split('\n')`. */
  function CsvLines(content: string): (lines: seq<string>)
    ensures |lines| >= 1
  {
    Split(Trim(content), '\n')
  }

  /** The header line split on every comma, with `"` removed from each name. */
  function HeaderNames(line: string): (names: seq<string>)
    ensures |names| == |Split(line, ',')|
    ensures forall i :: 0 <= i < |names| ==> '"' !in names[i] && ',' !in names[i]
  {
    var parts := Split(line, ',');
    seq(|parts|, i requires 0 <= i < |parts| => RemoveChar(parts[i], '"'))
  }

  /** The quote-aware, trimmed fields of a data line. */
  function Fields(line: string): seq<string> {
    TrimAll(SplitQuoted(line))
  }

  /** The pairs `row[header] = values[index] || ''` assigns, in header order. */
  function CsvPairs(headers: seq<string>, values: seq<string>): (ps: seq<(string, Value)>)
    ensures |ps| == |headers|
    ensures forall j :: 0 <= j < |headers| ==> ps[j] == (headers[j], Str(if j < |values| then values[j] else ""))
  {
    seq(|headers|, j requires 0 <= j < |headers| => (headers[j], Str(if j < |values| then values[j] else "")))
  }

  function StudentRow(headers: seq<string>, line: string): Record {
    FromPairs(CsvPairs(headers, Fields(line)))
  }

  /** The objects of the data lines, one per line, in order. */
  function StudentRowsOf(headers: seq<string>, dataLines: seq<string>): (rows: seq<Record>)
    ensures |rows| == |dataLines|
    ensures forall i :: 0 <= i < |dataLines| ==> rows[i] == StudentRow(headers, dataLines[i])
  {
    seq(|dataLines|, i requires 0 <= i < |dataLines| => StudentRow(headers, dataLines[i]))
  }

  /** What `parseCSV` returns: one object per line after the header line. */
  function StudentRows(content: string): (rows: seq<Record>)
    ensures |rows| == |CsvLines(content)| - 1
  {
    var lines := CsvLines(content);
    StudentRowsOf(HeaderNames(lines[0]), lines[1..])
  }

  /** The `headers.forEach` that fills one row object. */
  method ZipRow(headers: seq<string>, values: seq<string>) returns (row: Record)
    ensures row == FromPairs(CsvPairs(headers, values))
  {
    ghost var ps := CsvPairs(headers, values);
    row := [];
    for j := 0 to |headers|
      invariant row == FromPairs(ps[..j])
    {
      assert ps[..j + 1][..j] == ps[..j];
      row := Put(row, headers[j], Str(if j < |values| then values[j] else ""));
    }
    assert ps[..|headers|] == ps;
  }

  /** The callback of `lines.slice(1).map`: split one line and zip it with the headers. */
  method ParseStudentLine(headers: seq<string>, line: string) returns (row: Record)
    ensures row == StudentRow(headers, line)
  {
    var values := SplitTrimmed(line);
    row := ZipRow(headers, values);
  }

  lemma StudentRowsOfSnoc(headers: seq<string>, dataLines: seq<string>, i: nat)
    requires i < |dataLines|
    ensures StudentRowsOf(headers, dataLines[..i + 1]) == StudentRowsOf(headers, dataLines[..i]) + [StudentRow(headers, dataLines[i])]
  {
  }

  /** `lines.slice(1).map(...)`. */
  method ParseDataLines(headers: seq<string>, dataLines: seq<string>) returns (students: seq<Record>)
    ensures students == StudentRowsOf(headers, dataLines)
  {
    students := [];
    for i := 0 to |dataLines|
      invariant students == StudentRowsOf(headers, dataLines[..i])
    {
      StudentRowsOfSnoc(headers, dataLines, i);
      var row := ParseStudentLine(headers, dataLines[i]);
      students := students + [row];
    }
    assert dataLines[..|dataLines|] == dataLines;
  }

  /** `parseCSV`: split the text into lines, the first line into header names, then parse the rest. */
  method ParseStudentCsv(content: string) returns (students: seq<Record>)
    ensures students == StudentRows(content)
  {
    var lines := CsvLines(content);
    var headers := HeaderNames(lines[0]);
    students := ParseDataLines(headers, lines[1..]);
  }

  /** Every parsed row has exactly the header names as keys, each once. */
  lemma StudentRowKeys(headers: seq<string>, line: string)
    ensures DistinctKeys(StudentRow(headers, line))
    ensures forall k :: k in KeysOf(StudentRow(headers, line)) <==> k in headers
  {
    var ps := CsvPairs(headers, Fields(line));
    FromPairsKeys(ps);
    assert KeysOf(ps) == headers;
  }

  /**
   * The value under a header is the field at that header's position, or
   * `''` past the last field; a repeated header keeps its last position.
   */
  lemma StudentRowValues(headers: seq<string>, line: string, j: nat)
    requires j < |headers|
    requires forall j' :: j < j' < |headers| ==> headers[j'] != headers[j]
    ensures Get(StudentRow(headers, line), headers[j]) == Str(if j < |Fields(line)| then Fields(line)[j] else "")
  {
    FromPairsLastWins(CsvPairs(headers, Fields(line)), j);
  }

  /** No value of a parsed row holds a double quote. */
  lemma StudentRowNoQuotes(headers: seq<string>, line: string)
    ensures forall k :: k in KeysOf(StudentRow(headers, line)) ==>
      Get(StudentRow(headers, line), k).Str? && '"' !in Get(StudentRow(headers, line), k).s
  {
    var fs := Fields(line);
    SplitQuotedNoQuotes(line);
    forall i | 0 <= i < |fs| ensures '"' !in fs[i] {
      TrimSubset(SplitQuoted(line)[i]);
    }
    FromPairsValues(CsvPairs(headers, fs), (v: Value) => v.Str? && '"' !in v.s);
  }

  // ---------------------------------------------------------------- extractClosingRanks

  /** `student.seatcategory`, used as an object key (so a missing one is `"undefined"`). */
  function CategoryOf(student: Record): string {
    ToText(Get(student, "seatcategory"))
  }

  /** `parseInt(student.rank)`; `None` is `NaN`. */
  function RankOf(student: Record): Option<int> {
    ParseIntValue(Get(student, "rank"))
  }

  /** What one student contributes to the dictionary: its category key and its parsed rank. */
  type Observation = (string, Option<int>)

  function Observations(students: seq<Record>): (obs: seq<Observation>)
    ensures |obs| == |students|
    ensures forall i :: 0 <= i < |students| ==> obs[i] == (CategoryOf(students[i]), RankOf(students[i]))
  {
    seq(|students|, i requires 0 <= i < |students| => (CategoryOf(students[i]), RankOf(students[i])))
  }

  /** One turn of the `forEach`: a stored 0 counts as absent, as `!closingRanks[category]` does. */
  function Absorb(ranks: map<string, int>, o: Observation): map<string, int> {
    match o.1
    case None => ranks
    case Some(r) =>
      var c := o.0;
      if c !in ranks || ranks[c] == 0 || r > ranks[c] then ranks[c := r] else ranks
  }

  /** The dictionary after the `forEach` has absorbed every observation in order. */
  function Fold(obs: seq<Observation>): map<string, int>
    decreases |obs|
  {
    if obs == [] then map[] else Absorb(Fold(obs[..|obs| - 1]), obs[|obs| - 1])
  }

  function ClosingRanksOf(students: seq<Record>): map<string, int> {
    Fold(Observations(students))
  }

  lemma FoldStep(obs: seq<Observation>, i: nat)
    requires i < |obs|
    ensures Fold(obs[..i + 1]) == Absorb(Fold(obs[..i]), obs[i])
  {
    assert obs[..i + 1][..i] == obs[..i];
  }

  method ExtractClosingRanks(students: seq<Record>) returns (ranks: map<string, int>)
    ensures ranks == ClosingRanksOf(students)
  {
    ghost var obs := Observations(students);
    ranks := map[];
    for i := 0 to |students|
      invariant ranks == Fold(obs[..i])
    {
      FoldStep(obs, i);
      ghost var before := ranks;
      var student := students[i];
      var category := CategoryOf(student);
      var rank := RankOf(student);
      if rank.Some? {
        if category !in ranks || ranks[category] == 0 || rank.value > ranks[category] {
          ranks := ranks[category := rank.value];
        }
      }
      assert ranks == Absorb(before, obs[i]);
    }
    assert obs[..|students|] == obs;
  }

  /** No observed rank is negative. */
  predicate NoNegative(obs: seq<Observation>) {
    forall o :: o in obs && o.1.Some? ==> o.1.value >= 0
  }

  /** Absorbing a non-negative observation into non-negative ranks only raises them, to at most that rank. */
  lemma AbsorbSpec(m: map<string, int>, o: Observation)
    requires forall c :: c in m ==> m[c] >= 0
    requires o.1.Some? ==> o.1.value >= 0
    ensures forall c :: c in m ==> c in Absorb(m, o) && m[c] <= Absorb(m, o)[c]
    ensures o.1.Some? ==> o.0 in Absorb(m, o) && o.1.value <= Absorb(m, o)[o.0]
    ensures forall c :: c in Absorb(m, o) ==> (c in m && Absorb(m, o)[c] == m[c]) || o == (c, Some(Absorb(m, o)[c]))
  {
  }

  /**
   * With no negative ranks, the dictionary has a key exactly for each
   * category observed with a rank, and its value is the largest such rank.
   */
  lemma {:induction false} FoldMaxima(obs: seq<Observation>)
    requires NoNegative(obs)
    ensures forall c :: c in Fold(obs) ==> (c, Some(Fold(obs)[c])) in obs
    ensures forall c, r :: (c, Some(r)) in obs ==> c in Fold(obs) && r <= Fold(obs)[c]
    decreases |obs|
  {
    if obs != [] {
      var init := obs[..|obs| - 1];
      var last := obs[|obs| - 1];
      assert forall o :: o in obs <==> o in init || o == last by {
        assert obs == init + [last];
      }
      FoldMaxima(init);
      var m := Fold(init);
      forall c | c in m ensures m[c] >= 0 {
        assert (c, Some(m[c])) in obs;
      }
      AbsorbSpec(m, last);
      forall c | c in Fold(obs) ensures (c, Some(Fold(obs)[c])) in obs {
        if c in m && Fold(obs)[c] == m[c] {
          assert (c, Some(m[c])) in init;
        }
      }
      forall c, r | (c, Some(r)) in obs ensures c in Fold(obs) && r <= Fold(obs)[c] {
        if (c, Some(r)) in init {
          assert c in m && r <= m[c];
        }
      }
    }
  }

  lemma FoldBoundAt(obs: seq<Observation>, i: nat)
    requires NoNegative(obs) && i < |obs| && obs[i].1.Some?
    ensures obs[i].0 in Fold(obs) && obs[i].1.value <= Fold(obs)[obs[i].0]
  {
    FoldMaxima(obs);
    assert (obs[i].0, Some(obs[i].1.value)) in obs;
  }

  /** Whatever the signs of the ranks, every stored value was observed for its category. */
  lemma {:induction false} FoldValuesObserved(obs: seq<Observation>)
    ensures forall c :: c in Fold(obs) ==> (c, Some(Fold(obs)[c])) in obs
    decreases |obs|
  {
    if obs != [] {
      var init := obs[..|obs| - 1];
      var last := obs[|obs| - 1];
      assert obs == init + [last];
      FoldValuesObserved(init);
      var m := Fold(init);
      forall c | c in Fold(obs) ensures (c, Some(Fold(obs)[c])) in obs {
        if c in m && Fold(obs)[c] == m[c] {
          assert (c, Some(m[c])) in init;
        }
      }
    }
  }

  lemma FoldAttainedAt(obs: seq<Observation>, c: string) returns (i: nat)
    requires c in Fold(obs)
    ensures i < |obs| && obs[i] == (c, Some(Fold(obs)[c]))
  {
    FoldValuesObserved(obs);
    i :| 0 <= i < |obs| && obs[i] == (c, Some(Fold(obs)[c]));
  }

  /** The dictionary depends only on which observations occur, not on their order or repetition. */
  lemma FoldOrderIndependent(a: seq<Observation>, b: seq<Observation>)
    requires forall o :: o in a <==> o in b
    requires NoNegative(a)
    ensures Fold(a) == Fold(b)
  {
    FoldMaxima(a);
    FoldMaxima(b);
    var ma, mb := Fold(a), Fold(b);
    forall c | c in ma ensures c in mb && ma[c] == mb[c] {
      assert (c, Some(ma[c])) in b;
    }
    forall c | c in mb ensures c in ma {
      assert (c, Some(mb[c])) in a;
    }
    assert ma.Keys == mb.Keys;
  }

  /**
   * Why the maxima need non-negative ranks: a stored `0` counts as absent, so
   * a later `-2` replaces it, while in the other order `0` replaces `-2`.
   */
  lemma NegativeAfterZero()
    ensures Fold([("OC", Some(0)), ("OC", Some(-2))]) == map["OC" := -2]
    ensures Fold([("OC", Some(-2)), ("OC", Some(0))]) == map["OC" := 0]
  {
    var a: Observation, b: Observation := ("OC", Some(0)), ("OC", Some(-2));
    var none: seq<Observation> := [];
    assert [a, b][..1] == [a] && [a][..0] == none;
    assert [b, a][..1] == [b] && [b][..0] == none;
  }

  /** No student's rank parses to a negative number. */
  predicate NoNegativeRank(students: seq<Record>) {
    forall s :: s in students && RankOf(s).Some? ==> RankOf(s).value >= 0
  }

  lemma ObservationsOf(students: seq<Record>)
    ensures forall o :: o in Observations(students) <==> exists s :: s in students && o == (CategoryOf(s), RankOf(s))
  {
    var obs := Observations(students);
    forall o | o in obs ensures exists s :: s in students && o == (CategoryOf(s), RankOf(s)) {
      var i :| 0 <= i < |obs| && obs[i] == o;
      assert students[i] in students;
    }
    forall s | s in students ensures (CategoryOf(s), RankOf(s)) in obs {
      var i :| 0 <= i < |students| && students[i] == s;
      assert obs[i] == (CategoryOf(s), RankOf(s));
    }
  }

  lemma NoNegativeObservations(students: seq<Record>)
    requires NoNegativeRank(students)
    ensures NoNegative(Observations(students))
  {
    var obs := Observations(students);
    forall o | o in obs && o.1.Some? ensures o.1.value >= 0 {
      var i :| 0 <= i < |obs| && obs[i] == o;
      assert students[i] in students;
    }
  }

  /** Every category with a parsed rank is a key holding at least that rank. */
  lemma ClosingRanksBound(students: seq<Record>)
    requires NoNegativeRank(students)
    ensures forall s :: s in students && RankOf(s).Some? ==>
      CategoryOf(s) in ClosingRanksOf(students) && RankOf(s).value <= ClosingRanksOf(students)[CategoryOf(s)]
  {
    var obs := Observations(students);
    NoNegativeObservations(students);
    forall s | s in students && RankOf(s).Some?
      ensures CategoryOf(s) in Fold(obs) && RankOf(s).value <= Fold(obs)[CategoryOf(s)]
    {
      var i :| 0 <= i < |students| && students[i] == s;
      FoldBoundAt(obs, i);
    }
  }

  /** Every key's value is the rank of some student in that category. */
  lemma ClosingRanksAttained(students: seq<Record>)
    ensures forall c :: c in ClosingRanksOf(students) ==>
      exists s :: s in students && CategoryOf(s) == c && RankOf(s) == Some(ClosingRanksOf(students)[c])
  {
    var obs := Observations(students);
    forall c | c in Fold(obs)
      ensures exists s :: s in students && CategoryOf(s) == c && RankOf(s) == Some(Fold(obs)[c])
    {
      var i := FoldAttainedAt(obs, c);
      assert students[i] in students;
    }
  }

  /**
   * With no negative ranks, every category with a parsed rank is a key
   * holding at least that rank, and every key's value is some student's rank
   * in that category: the closing (largest) rank.
   */
  lemma ClosingRanksAreMaxima(students: seq<Record>)
    requires NoNegativeRank(students)
    ensures forall s :: s in students && RankOf(s).Some? ==>
      CategoryOf(s) in ClosingRanksOf(students) && RankOf(s).value <= ClosingRanksOf(students)[CategoryOf(s)]
    ensures forall c :: c in ClosingRanksOf(students) ==>
      exists s :: s in students && CategoryOf(s) == c && RankOf(s) == Some(ClosingRanksOf(students)[c])
  {
    ClosingRanksBound(students);
    ClosingRanksAttained(students);
  }

  /** The closing ranks do not depend on the order of the students. */
  lemma ClosingRanksOrderIndependent(a: seq<Record>, b: seq<Record>)
    requires multiset(a) == multiset(b)
    requires NoNegativeRank(a)
    ensures ClosingRanksOf(a) == ClosingRanksOf(b)
  {
    ObservationsOf(a);
    ObservationsOf(b);
    forall s ensures s in a <==> s in b {
      assert s in a <==> s in multiset(a);
      assert s in b <==> s in multiset(b);
    }
    FoldOrderIndependent(Observations(a), Observations(b));
  }

  // ---------------------------------------------------------------- the row

  const IdentifyingKeys: seq<string> := ["College Code", "College Name", "Branch Name"]

  /** The 18 rank columns, in the order of the row literal. */
  const RankColumns: seq<string> := [
    "OC Boys", "OC Girls", "BC-A Boys", "BC-A Girls", "BC-B Boys", "BC-B Girls",
    "BC-C Boys", "BC-C Girls", "BC-D Boys", "BC-D Girls", "BC-E Boys", "BC-E Girls",
    "SC Boys", "SC Girls", "ST Boys", "ST Girls", "EWS GEN OU", "EWS GIRLS"
  ]

  /** Every canonical seat mapping lands on one of the rank columns. */
  lemma CanonicalIsRankColumn(c: Caste, g: Gender)
    ensures ColumnName(c, g) in RankColumns
  {
    var i := match c
      case OC => 0 case BCA => 2 case BCB => 4 case BCC => 6 case BCD => 8
      case BCE => 10 case SC => 12 case ST => 14 case EWS => 16;
    var j := if g == Boys then i else i + 1;
    assert RankColumns[j] == ColumnName(c, g);
  }

  /** The three identifying fields of the row literal. */
  function IdentifyingFields(code: string, name: string, branch: string): Record {
    [("College Code", Str(code)), ("College Name", Str(name)), ("Branch Name", Str(branch))]
  }

  /** A field holding `''` for each of `cols`, in order. */
  function EmptyColumns(cols: seq<string>): (r: Record)
    ensures |r| == |cols|
    ensures forall i :: 0 <= i < |cols| ==> r[i] == (cols[i], Str(""))
  {
    seq(|cols|, i requires 0 <= i < |cols| => (cols[i], Str("")))
  }

  /** The row before filling: the three identifying fields, then every rank column empty. */
  function InitialRow(code: string, name: string, branch: string): (row: Record)
    ensures |row| == 21
  {
    IdentifyingFields(code, name, branch) + EmptyColumns(RankColumns)
  }

  /** No identifying key is a rank column (they are longer than every rank column). */
  lemma KeyGroupsDisjoint()
    ensures forall col :: col in IdentifyingKeys ==> col !in RankColumns
  {
    assert forall col :: col in RankColumns ==> |col| <= 10;
    assert forall col :: col in IdentifyingKeys ==> |col| >= 11;
  }

  lemma InitialRowShape(code: string, name: string, branch: string)
    ensures KeysOf(InitialRow(code, name, branch)) == IdentifyingKeys + RankColumns
    ensures forall col :: col in RankColumns ==> Get(InitialRow(code, name, branch), col) == Str("")
    ensures Get(InitialRow(code, name, branch), "College Code") == Str(code)
    ensures Get(InitialRow(code, name, branch), "College Name") == Str(name)
    ensures Get(InitialRow(code, name, branch), "Branch Name") == Str(branch)
  {
    var ids := IdentifyingFields(code, name, branch);
    var empties := EmptyColumns(RankColumns);
    assert KeysOf(ids) == IdentifyingKeys;
    assert KeysOf(empties) == RankColumns;
    KeysOfAppend(ids, empties);
    KeyGroupsDisjoint();
    forall col | col in RankColumns ensures Get(ids + empties, col) == Str("") {
      GetAppend(ids, empties, col);
      GetUniform(empties, col, Str(""));
    }
    GetFront(ids, empties, "College Code");
    GetFront(ids, empties, "College Name");
    GetFront(ids, empties, "Branch Name");
    assert Get(ids, "Branch Name") == Get(ids[1..], "Branch Name") == Get(ids[1..][1..], "Branch Name");
  }

  /** The row key the fill writes the rank of raw category `k` to; `None` when it is excluded. */
  function Target(k: string): Option<string> {
    var m := MapSeatCategory(k);
    if m.Excluded? then None else Some(MappedKey(m))
  }

  /** Raw category `k` is written to row key `col` (when `col` is a key of the row). */
  predicate FeedsColumn(k: string, col: string) {
    Target(k) == Some(col)
  }

  /** `v` is `''` when no raw category feeds `col`, else the decimal text of the largest rank feeding it. */
  predicate HoldsClosingRank(ranks: map<string, int>, col: string, v: Value) {
    if forall k :: k in ranks ==> !FeedsColumn(k, col) then v == Str("")
    else exists k :: k in ranks && FeedsColumn(k, col) && v == Str(IntToString(ranks[k])) &&
           (forall k' :: k' in ranks && FeedsColumn(k', col) ==> ranks[k'] <= ranks[k])
  }

  /**
   * A consolidated row: the keys of the initial row, every rank column
   * holding its closing rank, and each identifying field as given unless a
   * raw category token is literally that field's name.
   */
  predicate IsConsolidatedRow(row: Record, code: string, name: string, branch: string, ranks: map<string, int>) {
    && KeysOf(row) == IdentifyingKeys + RankColumns
    && (forall col :: col in RankColumns ==> HoldsClosingRank(ranks, col, Get(row, col)))
    && (forall col :: col in IdentifyingKeys && (forall k :: k in ranks ==> !FeedsColumn(k, col)) ==>
          Get(row, col) == Get(InitialRow(code, name, branch), col))
  }

  // The fill is reasoned about for any `target`; `BuildRow` uses `Target`.

  /** No raw category visited so far feeds `col`. */
  ghost predicate Unfed(target: string -> Option<string>, done: set<string>, col: string) {
    forall k :: k in done ==> target(k) != Some(col)
  }

  /** `b` feeds `col` with the largest rank among the visited raw categories feeding it. */
  ghost predicate BestSoFar(target: string -> Option<string>, ranks: map<string, int>, done: set<string>, col: string, b: string) {
    && b in done && b in ranks && target(b) == Some(col)
    && forall k :: k in done && k in ranks && target(k) == Some(col) ==> ranks[k] <= ranks[b]
  }

  /**
   * What the fill loop keeps true once the raw categories in `done` have
   * been visited, for a row with keys `keys` and rank columns `cols`:
   * `best` names, for each rank column written so far, the raw category
   * whose rank it holds.
   */
  ghost predicate FillState(target: string -> Option<string>, ranks: map<string, int>, cols: seq<string>, keys: seq<string>,
                            done: set<string>, row: Record, row0: Record, best: map<string, string>) {
    && done <= ranks.Keys
    && KeysOf(row) == keys
    && WrittenColumns(target, ranks, cols, done, row, best)
    && EmptyColumnsUnfed(target, cols, done, row, best)
    && OtherKeysKept(target, cols, done, row, row0)
  }

  /** Each column named in `best` is a rank column holding the rank of its best raw category. */
  ghost predicate WrittenColumns(target: string -> Option<string>, ranks: map<string, int>, cols: seq<string>,
                                 done: set<string>, row: Record, best: map<string, string>) {
    forall col :: col in best ==>
      col in cols && BestSoFar(target, ranks, done, col, best[col]) && Get(row, col) == Str(IntToString(ranks[best[col]]))
  }

  /** Each rank column not named in `best` is still empty and fed by nothing visited. */
  ghost predicate EmptyColumnsUnfed(target: string -> Option<string>, cols: seq<string>,
                                    done: set<string>, row: Record, best: map<string, string>) {
    forall col :: col in cols && col !in best ==> Get(row, col) == Str("") && Unfed(target, done, col)
  }

  /** Every other key fed by nothing visited keeps its initial value. */
  ghost predicate OtherKeysKept(target: string -> Option<string>, cols: seq<string>, done: set<string>, row: Record, row0: Record) {
    forall col :: col !in cols && Unfed(target, done, col) ==> Get(row, col) == Get(row0, col)
  }

  /** The fill writes `rank` into the row at `target(k)`. */
  ghost predicate Overwrites(target: string -> Option<string>, row: Record, k: string, rank: int) {
    && target(k).Some?
    && target(k).value in KeysOf(row)
    && var cur := Get(row, target(k).value);
       !Truthy(cur) || (ParseIntValue(cur).Some? && rank > ParseIntValue(cur).value)
  }

  /** Visiting a raw category that does not overwrite keeps the fill state. */
  lemma FillKeep(target: string -> Option<string>, ranks: map<string, int>, cols: seq<string>, keys: seq<string>,
                 done: set<string>, row: Record, row0: Record, best: map<string, string>, k: string)
    requires forall col :: col in cols ==> col in keys
    requires FillState(target, ranks, cols, keys, done, row, row0, best)
    requires k in ranks && !Overwrites(target, row, k, ranks[k])
    ensures FillState(target, ranks, cols, keys, done + {k}, row, row0, best)
  {
    if target(k).Some? {
      var col := target(k).value;
      if col in cols {
        if col in best {
          ParseIntToString(ranks[best[col]]);
        } else {
          assert false;
        }
      }
    }
  }

  /** After a write of `k`'s rank to `col`, `k` is the best raw category visited for `col`. */
  lemma BestAfterWrite(target: string -> Option<string>, ranks: map<string, int>, cols: seq<string>, keys: seq<string>,
                       done: set<string>, row: Record, row0: Record, best: map<string, string>, k: string)
    requires FillState(target, ranks, cols, keys, done, row, row0, best)
    requires k in ranks && Overwrites(target, row, k, ranks[k])
    requires target(k).value in cols
    ensures BestSoFar(target, ranks, done + {k}, target(k).value, k)
  {
    var col := target(k).value;
    if col in best {
      ParseIntToString(ranks[best[col]]);
    }
  }

  /** After a write, every column named in the updated `best` still holds its best raw category's rank. */
  lemma WrittenAfterWrite(target: string -> Option<string>, ranks: map<string, int>, cols: seq<string>, keys: seq<string>,
                          done: set<string>, row: Record, row0: Record, best: map<string, string>, k: string)
    requires FillState(target, ranks, cols, keys, done, row, row0, best)
    requires k in ranks && Overwrites(target, row, k, ranks[k])
    ensures var col := target(k).value;
      WrittenColumns(target, ranks, cols, done + {k}, Put(row, col, Str(IntToString(ranks[k]))),
                     if col in cols then best[col := k] else best)
  {
    var col := target(k).value;
    var row' := Put(row, col, Str(IntToString(ranks[k])));
    PutSpec(row, col, Str(IntToString(ranks[k])));
    var best' := if col in cols then best[col := k] else best;
    forall c | c in best'
      ensures c in cols && BestSoFar(target, ranks, done + {k}, c, best'[c]) && Get(row', c) == Str(IntToString(ranks[best'[c]]))
    {
      if col in cols && c == col {
        BestAfterWrite(target, ranks, cols, keys, done, row, row0, best, k);
      } else {
        assert c in best && best'[c] == best[c] && c != col;
        assert BestSoFar(target, ranks, done, c, best[c]);
      }
    }
  }

  /** Visiting a raw category that overwrites its column keeps the fill state with that column's best updated. */
  lemma FillWrite(target: string -> Option<string>, ranks: map<string, int>, cols: seq<string>, keys: seq<string>,
                  done: set<string>, row: Record, row0: Record, best: map<string, string>, k: string)
    requires FillState(target, ranks, cols, keys, done, row, row0, best)
    requires k in ranks && Overwrites(target, row, k, ranks[k])
    ensures var col := target(k).value;
      FillState(target, ranks, cols, keys, done + {k}, Put(row, col, Str(IntToString(ranks[k]))), row0,
                if col in cols then best[col := k] else best)
  {
    var col := target(k).value;
    var row' := Put(row, col, Str(IntToString(ranks[k])));
    PutSpec(row, col, Str(IntToString(ranks[k])));
    var best' := if col in cols then best[col := k] else best;
    var done' := done + {k};
    WrittenAfterWrite(target, ranks, cols, keys, done, row, row0, best, k);
    assert EmptyColumnsUnfed(target, cols, done', row', best') by {
      forall c | c in cols && c !in best' ensures Get(row', c) == Str("") && Unfed(target, done', c) {
        assert Unfed(target, done, c);
      }
    }
    assert OtherKeysKept(target, cols, done', row', row0) by {
      forall c | c !in cols && Unfed(target, done', c) ensures Get(row', c) == Get(row0, c) {
        assert Unfed(target, done, c);
      }
    }
  }

  /**
   * The `Object.entries(closingRanks).forEach` that fills a row whose
   * rank columns `cols` start out empty. Entries are visited in an
   * arbitrary order; `best` names the raw category each written column holds.
   */
  method FillRanks(row0: Record, ranks: map<string, int>, ghost cols: seq<string>)
    returns (row: Record, ghost best: map<string, string>)
    requires forall col :: col in cols ==> col in KeysOf(row0) && Get(row0, col) == Str("")
    ensures FillState(Target, ranks, cols, KeysOf(row0), ranks.Keys, row, row0, best)
  {
    row := row0;
    best := map[];
    var todo := ranks.Keys;
    while todo != {}
      invariant todo <= ranks.Keys
      invariant FillState(Target, ranks, cols, KeysOf(row0), ranks.Keys - todo, row, row0, best)
      decreases |todo|
    {
      var k :| k in todo;
      ghost var done := ranks.Keys - todo;
      assert ranks.Keys - (todo - {k}) == done + {k};
      var rank := ranks[k];
      var mapped := Target(k);
      if mapped.Some? && mapped.value in KeysOf(row) {
        var cur := Get(row, mapped.value);
        var parsed := ParseIntValue(cur);
        if !Truthy(cur) || (parsed.Some? && rank > parsed.value) {
          FillWrite(Target, ranks, cols, KeysOf(row0), done, row, row0, best, k);
          row := Put(row, mapped.value, Str(IntToString(rank)));
          if mapped.value in cols {
            best := best[mapped.value := k];
          }
        } else {
          FillKeep(Target, ranks, cols, KeysOf(row0), done, row, row0, best, k);
        }
      } else {
        FillKeep(Target, ranks, cols, KeysOf(row0), done, row, row0, best, k);
      }
      todo := todo - {k};
    }
    assert ranks.Keys - todo == ranks.Keys;
  }

  /** The row literal, filled with the closing ranks. */
  method BuildRow(code: string, name: string, branch: string, ranks: map<string, int>) returns (row: Record)
    ensures IsConsolidatedRow(row, code, name, branch, ranks)
  {
    var row0 := InitialRow(code, name, branch);
    InitialRowShape(code, name, branch);
    ghost var best;
    row, best := FillRanks(row0, ranks, RankColumns);
    FillDone(ranks, row, row0, best, code, name, branch);
  }

  /** Once every raw category is visited, the fill state is a consolidated row. */
  lemma FillDone(ranks: map<string, int>, row: Record, row0: Record, best: map<string, string>,
                 code: string, name: string, branch: string)
    requires row0 == InitialRow(code, name, branch)
    requires FillState(Target, ranks, RankColumns, IdentifyingKeys + RankColumns, ranks.Keys, row, row0, best)
    ensures IsConsolidatedRow(row, code, name, branch, ranks)
  {
    forall col | col in RankColumns ensures HoldsClosingRank(ranks, col, Get(row, col)) {
      if col in best {
        assert FeedsColumn(best[col], col);
      } else {
        assert Unfed(Target, ranks.Keys, col);
      }
    }
    forall col | col in IdentifyingKeys && (forall k :: k in ranks ==> !FeedsColumn(k, col))
      ensures Get(row, col) == Get(row0, col)
    {
      KeyGroupsDisjoint();
      assert Unfed(Target, ranks.Keys, col);
    }
  }

  // ---------------------------------------------------------------- names

  /** `collegeDir.split('_')[0]`. */
  function CollegeCode(dir: string): (code: string)
    ensures '_' !in code
  {
    Split(dir, '_')[0]
  }

  /** `collegeDir.substring(code.length + 1)` with every `_` turned into a space. */
  function CollegeName(dir: string): (name: string)
    ensures '_' !in name
  {
    var start := |CollegeCode(dir)| + 1;
    ReplaceChar(if start <= |dir| then dir[start..] else "", '_', ' ')
  }

  /** `branchFile.replace('.csv', '')` with every `_` turned into a space. */
  function BranchName(file: string): (name: string)
    ensures '_' !in name
  {
    ReplaceChar(ReplaceFirst(file, ".csv", ""), '_', ' ')
  }

  /** A directory `code_rest` gives the code before the first `_` and the rest as the name. */
  lemma CollegeDirParts(code: string, rest: string)
    requires '_' !in code
    ensures CollegeCode(code + "_" + rest) == code
    ensures CollegeName(code + "_" + rest) == ReplaceChar(rest, '_', ' ')
  {
    SplitHead(code, '_', rest);
    assert (code + "_" + rest)[|code| + 1..] == rest;
  }

  /** A directory name without `_` is all code and no name. */
  lemma CollegeDirWithoutUnderscore(dir: string)
    requires '_' !in dir
    ensures CollegeCode(dir) == dir && CollegeName(dir) == ""
  {
    SplitNoSep(dir, '_');
  }

  /** A file `stem.csv` with no earlier `.csv` gives the stem, with `_` as spaces. */
  lemma BranchNameOfCsvFile(stem: string)
    requires !Contains(stem + ".cs", ".csv")
    ensures BranchName(stem + ".csv") == ReplaceChar(stem, '_', ' ')
  {
    assert ".csv"[..3] == ".cs";
    ReplaceFirstSuffix(stem, ".csv");
  }

  // ---------------------------------------------------------------- one branch file

  /** The body of the inner `for` loop: parse, take closing ranks, build the row. */
  method ConsolidateBranch(collegeDir: string, branchFile: string, content: string) returns (row: Record)
    ensures IsConsolidatedRow(row, CollegeCode(collegeDir), CollegeName(collegeDir), BranchName(branchFile),
                              ClosingRanksOf(StudentRows(content)))
  {
    var collegeCode := CollegeCode(collegeDir);
    var collegeName := CollegeName(collegeDir);
    var branchName := BranchName(branchFile);
    var students := ParseStudentCsv(content);
    var closingRanks := ExtractClosingRanks(students);
    row := BuildRow(collegeCode, collegeName, branchName, closingRanks);
  }
}
