/**
 * The two wide-to-long converters of the rank sheets. Each data row of a sheet
 * names a college and a branch and holds, for each of nine seat categories, a
 * boys' rank column followed by a girls' rank column; the converter emits one
 * long record per usable rank cell (category by category, boys before girls)
 * and finally sorts all records by rank, ascending, with the records that
 * have no rank at the end.
 *
 * The phase-1 sheet (closing ranks) has its data from row 1, the college code,
 * name and branch in columns 0-2 and the ranks from column 3. The phase-2
 * sheet (predicted cutoffs) has its header at row 3, its data from row 4, a
 * serial number in column 0, code, name and branch in columns 1-3 and the
 * ranks from column 4. The two differ in nothing else but the name of the
 * rank field (`closing_rank` or `predicted_cutoff`).
 */
module RankSheets {
  import opened Options
  import opened Strings
  import opened Values

  // ---------------------------------------------------------------- layout

  /** The nine seat categories, in column order. */
  const Categories: seq<string> := ["OC", "BC_A", "BC_B", "BC_C", "BC_D", "BC_E", "SC", "ST", "EWS"]

  /**
   * Where a sheet keeps its rows and columns, and the categories of its rank
   * column pairs. Both scripts read a rank cell with `RankOf`.
   */
  datatype Layout = Layout(firstDataRow: nat, minLength: nat, codeCol: nat, nameCol: nat, branchCol: nat, firstRankCol: nat,
                           categories: seq<string>)

  const Phase1Layout := Layout(1, 3, 0, 1, 2, 3, Categories)
  const Phase2Layout := Layout(4, 4, 1, 2, 3, 4, Categories)

  datatype Gender = Male | Female

  /** The boys' rank comes first in a category's pair of columns, the girls' second. */
  function GenderOffset(g: Gender): nat {
    if g == Male then 0 else 1
  }

  /** The column of a category's boys' (`Male`) or girls' (`Female`) rank. */
  function RankColumn(layout: Layout, k: nat, g: Gender): nat {
    layout.firstRankCol + 2 * k + GenderOffset(g)
  }

  // ---------------------------------------------------------------- records

  /** One long record; `rank` is `closing_rank` or `predicted_cutoff`, `None` for `null`. */
  datatype RankEntry = RankEntry(collegeCode: Value, collegeName: Value, branchName: Value, category: string, gender: Gender, rank: Option<int>)

  /** `rank && rank !== 'NA' && rank !== ''`: the cells that give a record. */
  predicate IsRankCell(v: Value) {
    Truthy(v) && v != Str("NA") && v != Str("")
  }

  /** `typeof rank === 'number' ? rank : parseInt(rank) || null`. */
  function RankOf(v: Value): Option<int> {
    if v.Num? then Some(v.n)
    else
      match ParseIntValue(v)
      case Some(n) => if n != 0 then Some(n) else None
      case None => None
  }

  /** `!row || row.length < minLength` fails, and code, name and branch are all truthy. */
  predicate IsDataRow(layout: Layout, row: Row) {
    |row| >= layout.minLength
    && Truthy(At(row, layout.codeCol)) && Truthy(At(row, layout.nameCol)) && Truthy(At(row, layout.branchCol))
  }

  /** The record one rank cell gives, if it is a rank cell. */
  function CellEntry(layout: Layout, row: Row, k: nat, g: Gender): Option<RankEntry>
    requires k < |layout.categories|
  {
    var cell := At(row, RankColumn(layout, k, g));
    if IsRankCell(cell)
    then Some(RankEntry(At(row, layout.codeCol), At(row, layout.nameCol), At(row, layout.branchCol), layout.categories[k], g, RankOf(cell)))
    else None
  }

  function AsSeq(o: Option<RankEntry>): (s: seq<RankEntry>)
    ensures |s| <= 1
  {
    if o.Some? then [o.value] else []
  }

  /** What one turn of `categories.forEach` pushes: the boys' record, then the girls'. */
  function CategoryEntries(layout: Layout, row: Row, k: nat): seq<RankEntry>
    requires k < |layout.categories|
  {
    AsSeq(CellEntry(layout, row, k, Male)) + AsSeq(CellEntry(layout, row, k, Female))
  }

  /** What the first `n` categories push for one data row. */
  function RowEntries(layout: Layout, row: Row, n: nat): (es: seq<RankEntry>)
    requires n <= |layout.categories|
    ensures |es| <= 2 * n
  {
    if n == 0 then [] else RowEntries(layout, row, n - 1) + CategoryEntries(layout, row, n - 1)
  }

  /** What one row contributes: nothing unless it is a data row. */
  function RowOutput(layout: Layout, row: Row): seq<RankEntry> {
    if IsDataRow(layout, row) then RowEntries(layout, row, |layout.categories|) else []
  }

  /** `convertedData` after the row loop has seen the rows before `n`. */
  function SheetEntries(layout: Layout, rawData: seq<Row>, n: nat): (es: seq<RankEntry>)
    requires n <= |rawData|
  {
    if n <= layout.firstDataRow then [] else SheetEntries(layout, rawData, n - 1) + RowOutput(layout, rawData[n - 1])
  }

  // ---------------------------------------------------------------- sort

  /** The comparator's order: ranks ascending, a missing rank after every present one. */
  predicate RankLe(a: RankEntry, b: RankEntry) {
    (a.rank.None? ==> b.rank.None?) && (a.rank.Some? && b.rank.Some? ==> a.rank.value <= b.rank.value)
  }

  predicate SortedByRank(s: seq<RankEntry>) {
    forall i, j :: 0 <= i < j < |s| ==> RankLe(s[i], s[j])
  }

  /** `x` inserted into sorted `s` behind every entry that does not come after it: before the first strictly greater entry. */
  function Insert(x: RankEntry, s: seq<RankEntry>): (r: seq<RankEntry>)
    requires SortedByRank(s)
    ensures SortedByRank(r)
    ensures multiset(r) == multiset(s) + multiset{x}
  {
    if s == [] then [x]
    else if !RankLe(s[0], x) then
      InsertFront(x, s);
      [x] + s
    else
      var rest := Insert(x, s[1..]);
      InsertBehind(x, s, rest);
      [s[0]] + rest
  }

  /** `RankLe` is a total preorder. */
  lemma RankLeTotal(a: RankEntry, b: RankEntry, c: RankEntry)
    ensures RankLe(a, b) || RankLe(b, a)
    ensures RankLe(a, b) && RankLe(b, c) ==> RankLe(a, c)
  {
  }

  lemma InsertFront(x: RankEntry, s: seq<RankEntry>)
    requires SortedByRank(s) && s != [] && !RankLe(s[0], x)
    ensures SortedByRank([x] + s)
  {
    RankLeTotal(x, s[0], s[0]);
    forall j | 0 <= j < |s| ensures RankLe(x, s[j]) {
      RankLeTotal(x, s[0], s[j]);
    }
  }

  lemma InsertBehind(x: RankEntry, s: seq<RankEntry>, rest: seq<RankEntry>)
    requires SortedByRank(s) && s != [] && RankLe(s[0], x)
    requires SortedByRank(rest) && multiset(rest) == multiset(s[1..]) + multiset{x}
    ensures SortedByRank([s[0]] + rest)
    ensures multiset([s[0]] + rest) == multiset(s) + multiset{x}
  {
    assert s == [s[0]] + s[1..];
    forall j | 0 <= j < |rest| ensures RankLe(s[0], rest[j]) {
      assert rest[j] in multiset(rest);
      if rest[j] != x {
        assert rest[j] in multiset(s[1..]);
        var i :| 0 <= i < |s[1..]| && s[1..][i] == rest[j];
        assert s[i + 1] == rest[j];
      }
    }
    var r := [s[0]] + rest;
    forall i, j | 0 <= i < j < |r| ensures RankLe(r[i], r[j]) {
      if i > 0 {
        assert r[i] == rest[i - 1] && r[j] == rest[j - 1];
      }
    }
  }

  /** The library `sort` with the comparator of the script. */
  function SortByRank(s: seq<RankEntry>): (r: seq<RankEntry>)
    ensures SortedByRank(r)
    ensures multiset(r) == multiset(s)
  {
    if s == [] then []
    else
      assert s == s[..|s| - 1] + [s[|s| - 1]];
      Insert(s[|s| - 1], SortByRank(s[..|s| - 1]))
  }

  /** The records of `s` whose rank is `r`, in their order in `s`. */
  function WithRank(s: seq<RankEntry>, r: Option<int>): (t: seq<RankEntry>)
    ensures |t| <= |s|
  {
    if s == [] then [] else (if s[0].rank == r then [s[0]] else []) + WithRank(s[1..], r)
  }

  lemma {:induction false} WithRankAppend(a: seq<RankEntry>, b: seq<RankEntry>, r: Option<int>)
    ensures WithRank(a + b, r) == WithRank(a, r) + WithRank(b, r)
  {
    if a == [] {
      assert a + b == b;
    } else {
      var head := if a[0].rank == r then [a[0]] else [];
      ConsAppend(a, b);
      WithRankCons(a[0], a[1..] + b, r);
      WithRankAppend(a[1..], b, r);
      ConsSplit(a);
      WithRankCons(a[0], a[1..], r);
      AppendAssoc(head, WithRank(a[1..], r), WithRank(b, r));
    }
  }

  lemma ConsSplit<T>(s: seq<T>)
    requires s != []
    ensures s == [s[0]] + s[1..]
  {
  }

  lemma SnocSplit<T>(s: seq<T>)
    requires s != []
    ensures s == s[..|s| - 1] + [s[|s| - 1]]
  {
  }

  lemma ConsAppend<T>(a: seq<T>, b: seq<T>)
    requires a != []
    ensures a + b == [a[0]] + (a[1..] + b)
  {
  }

  /** A sorted list whose first entry comes strictly after `x` has no entry of `x`'s rank. */
  lemma {:induction false} WithRankAbove(x: RankEntry, s: seq<RankEntry>)
    requires SortedByRank(s) && s != [] && !RankLe(s[0], x)
    ensures WithRank(s, x.rank) == []
  {
    assert s[0].rank != x.rank;
    if |s| == 1 {
      assert s[1..] == [];
    } else {
      assert SortedByRank(s[1..]) by {
        forall i, j | 0 <= i < j < |s[1..]| ensures RankLe(s[1..][i], s[1..][j]) {
          assert s[1..][i] == s[i + 1] && s[1..][j] == s[j + 1];
        }
      }
      RankLeTotal(s[0], s[1], x);
      WithRankAbove(x, s[1..]);
    }
  }

  /** The first entry of `[e] + t` is kept exactly when it has rank `r`. */
  lemma WithRankCons(e: RankEntry, t: seq<RankEntry>, r: Option<int>)
    ensures WithRank([e] + t, r) == (if e.rank == r then [e] else []) + WithRank(t, r)
  {
    assert ([e] + t)[0] == e && ([e] + t)[1..] == t;
  }

  /** Inserting `x` puts it behind every entry of its rank and leaves the other ranks' entries as they were. */
  lemma {:induction false} InsertWithRank(x: RankEntry, s: seq<RankEntry>, r: Option<int>)
    requires SortedByRank(s)
    ensures WithRank(Insert(x, s), r) == WithRank(s, r) + (if x.rank == r then [x] else [])
  {
    var mine := if x.rank == r then [x] else [];
    if s == [] {
      WithRankCons(x, [], r);
      assert [x] + [] == [x];
    } else if !RankLe(s[0], x) {
      WithRankCons(x, s, r);
      if x.rank == r {
        WithRankAbove(x, s);
      }
    } else {
      var rest := Insert(x, s[1..]);
      var head := if s[0].rank == r then [s[0]] else [];
      assert Insert(x, s) == [s[0]] + rest;
      WithRankCons(s[0], rest, r);
      InsertWithRank(x, s[1..], r);
      ConsSplit(s);
      WithRankCons(s[0], s[1..], r);
      AppendAssoc(head, WithRank(s[1..], r), mine);
    }
  }

  /**
   * The sort is stable: for every rank, the records of that rank come out in
   * the order they went in.
   */
  lemma {:induction false} SortByRankStable(s: seq<RankEntry>, r: Option<int>)
    ensures WithRank(SortByRank(s), r) == WithRank(s, r)
  {
    if s != [] {
      var init, last := s[..|s| - 1], s[|s| - 1];
      SnocSplit(s);
      assert SortByRank(s) == Insert(last, SortByRank(init));
      SortByRankStable(init, r);
      InsertWithRank(last, SortByRank(init), r);
      WithRankAppend(init, [last], r);
      WithRankCons(last, [], r);
      assert [last] + [] == [last];
    }
  }

  /** Two records of the same rank, emitted one after the other, are written in that order. */
  lemma EqualRanksKeepOrder(a: RankEntry, b: RankEntry)
    requires a.rank == b.rank
    ensures SortByRank([a, b]) == [a, b]
  {
    assert [a, b][..1] == [a];
    assert SortByRank([a]) == [a];
  }

  /** What the script writes out: the emitted records, sorted by rank. */
  function Converted(layout: Layout, rawData: seq<Row>): (out: seq<RankEntry>)
    ensures SortedByRank(out)
    ensures multiset(out) == multiset(SheetEntries(layout, rawData, |rawData|))
  {
    SortByRank(SheetEntries(layout, rawData, |rawData|))
  }

  // ---------------------------------------------------------------- methods

  /** The `categories.forEach` callback: push the boys' record, then the girls'. */
  method PushCategory(layout: Layout, row: Row, k: nat, convertedData: seq<RankEntry>) returns (out: seq<RankEntry>)
    requires k < |layout.categories|
    ensures out == convertedData + CategoryEntries(layout, row, k)
  {
    var collegeCode := At(row, layout.codeCol);
    var collegeName := At(row, layout.nameCol);
    var branchName := At(row, layout.branchCol);
    out := convertedData;
    var boyRank := At(row, RankColumn(layout, k, Male));
    if IsRankCell(boyRank) {
      out := out + [RankEntry(collegeCode, collegeName, branchName, layout.categories[k], Male, RankOf(boyRank))];
    }
    assert out == convertedData + AsSeq(CellEntry(layout, row, k, Male));
    var girlRank := At(row, RankColumn(layout, k, Female));
    if IsRankCell(girlRank) {
      out := out + [RankEntry(collegeCode, collegeName, branchName, layout.categories[k], Female, RankOf(girlRank))];
    }
  }

  /** `categories.forEach` over one data row. */
  method PushCategories(layout: Layout, row: Row, convertedData: seq<RankEntry>) returns (out: seq<RankEntry>)
    ensures out == convertedData + RowEntries(layout, row, |layout.categories|)
  {
    out := convertedData;
    for k := 0 to |layout.categories|
      invariant out == convertedData + RowEntries(layout, row, k)
    {
      out := PushCategory(layout, row, k, out);
      RowEntriesSnoc(layout, row, convertedData, k);
    }
  }

  lemma RowEntriesUnfold(layout: Layout, row: Row, n: nat)
    requires 0 < n <= |layout.categories|
    ensures RowEntries(layout, row, n) == RowEntries(layout, row, n - 1) + CategoryEntries(layout, row, n - 1)
  {
  }

  /** One more category appends its records. */
  lemma RowEntriesSnoc(layout: Layout, row: Row, convertedData: seq<RankEntry>, k: nat)
    requires k < |layout.categories|
    ensures convertedData + RowEntries(layout, row, k + 1) == convertedData + RowEntries(layout, row, k) + CategoryEntries(layout, row, k)
  {
    var front, back := RowEntries(layout, row, k), CategoryEntries(layout, row, k);
    RowEntriesUnfold(layout, row, k + 1);
    AppendAssoc(convertedData, front, back);
  }

  lemma AppendAssoc<T>(a: seq<T>, b: seq<T>, c: seq<T>)
    ensures a + (b + c) == a + b + c
  {
  }

  /** One turn of the row loop: the checks on the row, then `categories.forEach`. */
  method PushRow(layout: Layout, row: Row, convertedData: seq<RankEntry>) returns (out: seq<RankEntry>)
    ensures out == convertedData + RowOutput(layout, row)
  {
    out := convertedData;
    assert convertedData + [] == convertedData;
    if |row| < layout.minLength {
      return;
    }
    var collegeCode := At(row, layout.codeCol);
    var collegeName := At(row, layout.nameCol);
    var branchName := At(row, layout.branchCol);
    if !Truthy(collegeCode) || !Truthy(collegeName) || !Truthy(branchName) {
      return;
    }
    out := PushCategories(layout, row, convertedData);
  }

  /** One more row for `SheetEntries`. */
  lemma SheetEntriesStep(layout: Layout, rawData: seq<Row>, i: nat)
    requires layout.firstDataRow <= i < |rawData|
    ensures SheetEntries(layout, rawData, i + 1) == SheetEntries(layout, rawData, i) + RowOutput(layout, rawData[i])
  {
  }

  /** Nothing is collected before the first data row. */
  lemma SheetEntriesBefore(layout: Layout, rawData: seq<Row>, n: nat)
    requires n <= |rawData| && n <= layout.firstDataRow
    ensures SheetEntries(layout, rawData, n) == []
  {
  }

  /** The row loop from the first data row on. */
  method ConvertRows(layout: Layout, rawData: seq<Row>) returns (convertedData: seq<RankEntry>)
    ensures convertedData == SheetEntries(layout, rawData, |rawData|)
  {
    convertedData := [];
    var i := layout.firstDataRow;
    if |rawData| <= i {
      // the loop does not run: the sheet ends before its first data row
      SheetEntriesBefore(layout, rawData, |rawData|);
      return;
    }
    while i < |rawData|
      invariant layout.firstDataRow <= i <= |rawData|
      invariant convertedData == SheetEntries(layout, rawData, i)
    {
      convertedData := PushRow(layout, rawData[i], convertedData);
      SheetEntriesStep(layout, rawData, i);
      i := i + 1;
    }
  }

  /** The whole script from the loaded rows on: the row loop, then the sort. */
  method ConvertSheet(layout: Layout, rawData: seq<Row>) returns (convertedData: seq<RankEntry>)
    ensures SortedByRank(convertedData)
    ensures multiset(convertedData) == multiset(SheetEntries(layout, rawData, |rawData|))
    ensures forall r :: WithRank(convertedData, r) == WithRank(SheetEntries(layout, rawData, |rawData|), r)
    ensures convertedData == Converted(layout, rawData)
  {
    convertedData := ConvertRows(layout, rawData);
    var emitted := convertedData;
    convertedData := SortByRank(convertedData);
    forall r ensures WithRank(convertedData, r) == WithRank(emitted, r) {
      SortByRankStable(emitted, r);
    }
  }

  // ---------------------------------------------------------------- properties

  /** Some rank cell of the first `n` categories of `row` gives `e`, looked up category by category. */
  predicate CellsEmit(layout: Layout, row: Row, n: nat, e: RankEntry)
    requires n <= |layout.categories|
  {
    n > 0 && (CellsEmit(layout, row, n - 1, e) || CellEntry(layout, row, n - 1, Male) == Some(e) || CellEntry(layout, row, n - 1, Female) == Some(e))
  }

  /** A cell found by the category-by-category lookup lies in a category before `n`. */
  lemma {:induction false} CellsEmitWitness(layout: Layout, row: Row, n: nat, e: RankEntry) returns (k: nat, g: Gender)
    requires n <= |layout.categories| && CellsEmit(layout, row, n, e)
    ensures k < n && CellEntry(layout, row, k, g) == Some(e)
  {
    if CellsEmit(layout, row, n - 1, e) {
      k, g := CellsEmitWitness(layout, row, n - 1, e);
    } else if CellEntry(layout, row, n - 1, Male) == Some(e) {
      k, g := n - 1, Male;
    } else {
      k, g := n - 1, Female;
    }
  }

  /** The category-by-category lookup finds every cell before category `n` that gives `e`. */
  lemma {:induction false} WitnessCellsEmit(layout: Layout, row: Row, n: nat, e: RankEntry, k: nat, g: Gender)
    requires n <= |layout.categories| && k < n
    ensures CellEntry(layout, row, k, g) == Some(e) ==> CellsEmit(layout, row, n, e)
    decreases n
  {
    if CellEntry(layout, row, k, g) == Some(e) {
      if k < n - 1 {
        WitnessCellsEmit(layout, row, n - 1, e, k, g);
      } else {
        assert g == Male || g == Female;
      }
    }
  }

  /** `CellsEmit` holds exactly when the cell of some gender in some category before `n` gives `e`. */
  lemma CellsEmitExists(layout: Layout, row: Row, n: nat, e: RankEntry)
    requires n <= |layout.categories|
    ensures CellsEmit(layout, row, n, e) <==> exists k, g :: 0 <= k < n && CellEntry(layout, row, k, g) == Some(e)
  {
    if CellsEmit(layout, row, n, e) {
      var k, g := CellsEmitWitness(layout, row, n, e);
    }
    if exists k, g :: 0 <= k < n && CellEntry(layout, row, k, g) == Some(e) {
      var k, g :| 0 <= k < n && CellEntry(layout, row, k, g) == Some(e);
      WitnessCellsEmit(layout, row, n, e, k, g);
    }
  }

  /** A category's records are what its two rank cells give. */
  lemma CategoryEntriesMembers(layout: Layout, row: Row, k: nat, e: RankEntry)
    requires k < |layout.categories|
    ensures e in CategoryEntries(layout, row, k) <==> CellEntry(layout, row, k, Male) == Some(e) || CellEntry(layout, row, k, Female) == Some(e)
  {
  }

  /** A row's records after `n` categories are those after `n - 1` and those of category `n - 1`. */
  lemma RowEntriesIn(layout: Layout, row: Row, n: nat, e: RankEntry)
    requires 0 < n <= |layout.categories|
    ensures e in RowEntries(layout, row, n) <==> e in RowEntries(layout, row, n - 1) || e in CategoryEntries(layout, row, n - 1)
  {
    RowEntriesUnfold(layout, row, n);
  }

  /** A record of a row comes from one of its rank cells. */
  lemma {:induction false} RowEntriesFromCells(layout: Layout, row: Row, n: nat, e: RankEntry)
    requires n <= |layout.categories| && e in RowEntries(layout, row, n)
    ensures CellsEmit(layout, row, n, e)
  {
    var k := n - 1;
    RowEntriesIn(layout, row, n, e);
    if e in RowEntries(layout, row, k) {
      RowEntriesFromCells(layout, row, k, e);
    } else {
      CategoryEntriesMembers(layout, row, k, e);
    }
  }

  /** Every rank cell of a row gives one of its records. */
  lemma {:induction false} CellsInRowEntries(layout: Layout, row: Row, n: nat, e: RankEntry)
    requires n <= |layout.categories| && CellsEmit(layout, row, n, e)
    ensures e in RowEntries(layout, row, n)
  {
    var k := n - 1;
    RowEntriesIn(layout, row, n, e);
    if CellsEmit(layout, row, k, e) {
      CellsInRowEntries(layout, row, k, e);
    } else {
      CategoryEntriesMembers(layout, row, k, e);
    }
  }

  /** A row's records are exactly the records its rank cells give. */
  lemma RowEntriesMembers(layout: Layout, row: Row, n: nat, e: RankEntry)
    requires n <= |layout.categories|
    ensures e in RowEntries(layout, row, n) <==> CellsEmit(layout, row, n, e)
  {
    if e in RowEntries(layout, row, n) {
      RowEntriesFromCells(layout, row, n, e);
    }
    if CellsEmit(layout, row, n, e) {
      CellsInRowEntries(layout, row, n, e);
    }
  }

  /** Category `k`'s boys' column counts as slot `2k`, its girls' column as `2k + 1`. */
  function Slot(e: RankEntry, k: nat): nat {
    2 * k + (if e.gender == Male then 0 else 1)
  }

  /** The index of the first occurrence of `c` in `cats`, or `|cats|`. */
  function IndexIn(cats: seq<string>, c: string): (i: nat)
    ensures i <= |cats|
    ensures i < |cats| ==> cats[i] == c
  {
    if cats == [] then 0 else if cats[0] == c then 0 else 1 + IndexIn(cats[1..], c)
  }

  predicate DistinctNames(cats: seq<string>) {
    forall i, j :: 0 <= i < j < |cats| ==> cats[i] != cats[j]
  }

  /** The nine categories are distinct. */
  lemma CategoriesDistinct()
    ensures DistinctNames(Categories)
  {
  }

  /** Among distinct names, each is found back at its own index. */
  lemma {:induction false} IndexInAt(cats: seq<string>, k: nat)
    requires DistinctNames(cats) && k < |cats|
    ensures IndexIn(cats, cats[k]) == k
  {
    if k > 0 {
      assert cats[0] != cats[k];
      assert cats[1..][k - 1] == cats[k];
      IndexInAt(cats[1..], k - 1);
    }
  }

  /** The position of a record's cell among a layout's rank columns. */
  function ColumnSlot(layout: Layout, e: RankEntry): nat {
    Slot(e, IndexIn(layout.categories, e.category))
  }

  /** Every record of `es` sits in a slot from `b` up to, not including, `c`. */
  predicate SlotsWithin(layout: Layout, es: seq<RankEntry>, b: nat, c: nat) {
    forall p :: 0 <= p < |es| ==> b <= ColumnSlot(layout, es[p]) < c
  }

  /** The records of `es` sit in strictly increasing slots: column order, each cell at most once. */
  predicate InColumnOrder(layout: Layout, es: seq<RankEntry>) {
    forall p, q :: 0 <= p < q < |es| ==> ColumnSlot(layout, es[p]) < ColumnSlot(layout, es[q])
  }

  /**
   * The records of a row are in column order: category by category, boys
   * before girls, each cell at most once.
   */
  lemma {:induction false} RowEntriesInColumnOrder(layout: Layout, row: Row, n: nat)
    requires n <= |layout.categories| && DistinctNames(layout.categories)
    ensures SlotsWithin(layout, RowEntries(layout, row, n), 0, 2 * n)
    ensures InColumnOrder(layout, RowEntries(layout, row, n))
  {
    if n > 0 {
      RowEntriesInColumnOrder(layout, row, n - 1);
      IndexInAt(layout.categories, n - 1);
      RowEntriesStep(layout, row, n);
    }
  }

  /** One more category keeps a row's records in column order. */
  lemma RowEntriesStep(layout: Layout, row: Row, n: nat)
    requires 0 < n <= |layout.categories| && IndexIn(layout.categories, layout.categories[n - 1]) == n - 1
    requires SlotsWithin(layout, RowEntries(layout, row, n - 1), 0, 2 * (n - 1))
    requires InColumnOrder(layout, RowEntries(layout, row, n - 1))
    ensures SlotsWithin(layout, RowEntries(layout, row, n), 0, 2 * n)
    ensures InColumnOrder(layout, RowEntries(layout, row, n))
  {
    var front := RowEntries(layout, row, n - 1);
    var last := CategoryEntries(layout, row, n - 1);
    CategoryEntriesInColumnOrder(layout, row, n - 1, 2 * (n - 1), 2 * n);
    RowEntriesUnfold(layout, row, n);
    ConcatInColumnOrder(layout, front, last, RowEntries(layout, row, n), 2 * (n - 1), 2 * n);
  }

  /** One category's records sit in its two columns, boys before girls. */
  lemma CategoryEntriesInColumnOrder(layout: Layout, row: Row, k: nat, b: nat, c: nat)
    requires k < |layout.categories| && IndexIn(layout.categories, layout.categories[k]) == k
    requires b == 2 * k && c == 2 * k + 2
    ensures SlotsWithin(layout, CategoryEntries(layout, row, k), b, c)
    ensures InColumnOrder(layout, CategoryEntries(layout, row, k))
  {
    var last := CategoryEntries(layout, row, k);
    assert forall p :: 0 <= p < |last| ==> last[p].category == layout.categories[k];
    assert |last| == 2 ==> last[0].gender == Male && last[1].gender == Female;
  }

  /**
   * Records below slot `b` followed by records in slots `b` to `c`, each part
   * in column order, are in column order below `c` (stated as an implication
   * so that callers pass their facts as they stand).
   */
  lemma ConcatInColumnOrder(layout: Layout, front: seq<RankEntry>, last: seq<RankEntry>, es: seq<RankEntry>, b: nat, c: nat)
    ensures es == front + last && b <= c
      && SlotsWithin(layout, front, 0, b) && InColumnOrder(layout, front)
      && SlotsWithin(layout, last, b, c) && InColumnOrder(layout, last)
      ==> SlotsWithin(layout, es, 0, c) && InColumnOrder(layout, es)
  {
    if es == front + last && SlotsWithin(layout, front, 0, b) && InColumnOrder(layout, front)
       && SlotsWithin(layout, last, b, c) && InColumnOrder(layout, last) && b <= c {
      forall p | 0 <= p < |es| ensures ColumnSlot(layout, es[p]) < c {
        if p < |front| {
          assert es[p] == front[p];
        } else {
          assert es[p] == last[p - |front|];
        }
      }
      forall p, q | 0 <= p < q < |es| ensures ColumnSlot(layout, es[p]) < ColumnSlot(layout, es[q]) {
        if q < |front| {
          assert es[p] == front[p] && es[q] == front[q];
        } else if p < |front| {
          assert es[p] == front[p] && es[q] == last[q - |front|];
        } else {
          assert es[p] == last[p - |front|] && es[q] == last[q - |front|];
        }
      }
    }
  }

  /** `row` is a data row and one of its rank cells gives `e`. */
  predicate RowEmits(layout: Layout, row: Row, e: RankEntry) {
    IsDataRow(layout, row) && CellsEmit(layout, row, |layout.categories|, e)
  }

  /** Some data row before `n`, at or after the first data row, has a rank cell that gives `e`, looked up row by row. */
  predicate EmittedBefore(layout: Layout, rawData: seq<Row>, n: nat, e: RankEntry)
    requires n <= |rawData|
  {
    n > layout.firstDataRow && (EmittedBefore(layout, rawData, n - 1, e) || RowEmits(layout, rawData[n - 1], e))
  }

  /** A row found by the row-by-row lookup is a data row at or after the first data row. */
  lemma {:induction false} EmittedBeforeWitness(layout: Layout, rawData: seq<Row>, n: nat, e: RankEntry) returns (i: nat)
    requires n <= |rawData| && EmittedBefore(layout, rawData, n, e)
    ensures layout.firstDataRow <= i < n && RowEmits(layout, rawData[i], e)
  {
    if EmittedBefore(layout, rawData, n - 1, e) {
      i := EmittedBeforeWitness(layout, rawData, n - 1, e);
    } else {
      i := n - 1;
    }
  }

  /** The row-by-row lookup finds every data row at or after the first data row that emits `e`. */
  lemma {:induction false} WitnessEmittedBefore(layout: Layout, rawData: seq<Row>, n: nat, e: RankEntry, i: nat)
    requires n <= |rawData| && layout.firstDataRow <= i < n
    ensures RowEmits(layout, rawData[i], e) ==> EmittedBefore(layout, rawData, n, e)
    decreases n
  {
    if RowEmits(layout, rawData[i], e) {
      if i < n - 1 {
        WitnessEmittedBefore(layout, rawData, n - 1, e, i);
        EmittedBeforeGrows(layout, rawData, n, e);
      } else {
        EmittedByLast(layout, rawData, n, e);
      }
    }
  }

  lemma EmittedBeforeGrows(layout: Layout, rawData: seq<Row>, n: nat, e: RankEntry)
    requires 0 < n <= |rawData| && EmittedBefore(layout, rawData, n - 1, e)
    ensures EmittedBefore(layout, rawData, n, e)
  {
  }

  lemma EmittedByLast(layout: Layout, rawData: seq<Row>, n: nat, e: RankEntry)
    requires layout.firstDataRow < n <= |rawData| && RowEmits(layout, rawData[n - 1], e)
    ensures EmittedBefore(layout, rawData, n, e)
  {
  }

  /** `EmittedBefore` holds exactly when some row from the first data row up to `n` emits `e`. */
  lemma EmittedBeforeExists(layout: Layout, rawData: seq<Row>, n: nat, e: RankEntry)
    requires n <= |rawData|
    ensures EmittedBefore(layout, rawData, n, e) <==> exists i :: layout.firstDataRow <= i < n && RowEmits(layout, rawData[i], e)
  {
    if EmittedBefore(layout, rawData, n, e) {
      var i := EmittedBeforeWitness(layout, rawData, n, e);
    }
    if exists i :: layout.firstDataRow <= i < n && RowEmits(layout, rawData[i], e) {
      var i :| layout.firstDataRow <= i < n && RowEmits(layout, rawData[i], e);
      WitnessEmittedBefore(layout, rawData, n, e, i);
    }
  }

  /** A produced record comes from a data row at or after the first data row. */
  lemma {:induction false} SheetEntriesFromRows(layout: Layout, rawData: seq<Row>, n: nat, e: RankEntry)
    requires layout.firstDataRow < n <= |rawData| && e in SheetEntries(layout, rawData, n)
    ensures EmittedBefore(layout, rawData, n, e)
  {
    var row := rawData[n - 1];
    SheetEntriesStep(layout, rawData, n - 1);
    if n - 1 > layout.firstDataRow && e in SheetEntries(layout, rawData, n - 1) {
      SheetEntriesFromRows(layout, rawData, n - 1, e);
    } else {
      if n - 1 <= layout.firstDataRow {
        SheetEntriesBefore(layout, rawData, n - 1);
      }
      assert e in RowOutput(layout, row);
      RowEntriesMembers(layout, row, |layout.categories|, e);
      assert RowEmits(layout, row, e);
    }
  }

  /** A rank cell of a data row at or after the first data row gives a produced record. */
  lemma {:induction false} RowsInSheetEntries(layout: Layout, rawData: seq<Row>, n: nat, e: RankEntry)
    requires n <= |rawData| && EmittedBefore(layout, rawData, n, e)
    ensures e in SheetEntries(layout, rawData, n)
  {
    var row := rawData[n - 1];
    SheetEntriesStep(layout, rawData, n - 1);
    if EmittedBefore(layout, rawData, n - 1, e) {
      RowsInSheetEntries(layout, rawData, n - 1, e);
    } else {
      RowEntriesMembers(layout, row, |layout.categories|, e);
    }
  }

  /** A record is produced exactly when some data row at or after the first data row has a rank cell for it. */
  lemma SheetEntriesMembers(layout: Layout, rawData: seq<Row>, n: nat, e: RankEntry)
    requires n <= |rawData|
    ensures e in SheetEntries(layout, rawData, n) <==> EmittedBefore(layout, rawData, n, e)
  {
    if n <= layout.firstDataRow {
      SheetEntriesBefore(layout, rawData, n);
    } else if e in SheetEntries(layout, rawData, n) {
      SheetEntriesFromRows(layout, rawData, n, e);
    }
    if EmittedBefore(layout, rawData, n, e) {
      RowsInSheetEntries(layout, rawData, n, e);
    }
  }

  /** A row of a layout with nine categories pushes at most eighteen records. */
  lemma RowOutputBound(layout: Layout, row: Row)
    requires |layout.categories| == 9
    ensures |RowOutput(layout, row)| <= 18
  {
  }

  /** A number cell keeps its value; a text cell is read by `parseInt`, and a zero or unreadable one gives `null`. */
  lemma RankOfCell(v: Value)
    requires IsRankCell(v)
    ensures v.Num? ==> RankOf(v) == Some(v.n)
    ensures v.Str? ==> (RankOf(v).Some? <==> ParseInt(v.s).Some? && ParseInt(v.s).value != 0)
    ensures v.Str? && RankOf(v).Some? ==> RankOf(v) == ParseInt(v.s)
    ensures RankOf(v) != Some(0)
  {
  }

  /** The decimal text of a non-zero rank reads back as that rank. */
  lemma RankOfText(n: int)
    requires n != 0
    ensures RankOf(Str(IntToString(n))) == Some(n)
  {
    ParseIntNum(n);
  }

  /** The output holds exactly the emitted records, each as often as it was emitted. */
  lemma ConvertedIsPermutation(layout: Layout, rawData: seq<Row>)
    ensures multiset(Converted(layout, rawData)) == multiset(SheetEntries(layout, rawData, |rawData|))
    ensures |Converted(layout, rawData)| == |SheetEntries(layout, rawData, |rawData|)|
  {
    var s := SheetEntries(layout, rawData, |rawData|);
    assert |multiset(Converted(layout, rawData))| == |multiset(s)|;
  }

  /** In the output, the records that share a rank keep the order in which they were emitted. */
  lemma ConvertedStable(layout: Layout, rawData: seq<Row>, r: Option<int>)
    ensures WithRank(Converted(layout, rawData), r) == WithRank(SheetEntries(layout, rawData, |rawData|), r)
  {
    SortByRankStable(SheetEntries(layout, rawData, |rawData|), r);
  }

  /** In the output, present ranks ascend and every record without a rank follows every record with one. */
  lemma ConvertedNullsLast(layout: Layout, rawData: seq<Row>, i: nat, j: nat)
    requires i < j < |Converted(layout, rawData)|
    ensures Converted(layout, rawData)[i].rank.None? ==> Converted(layout, rawData)[j].rank.None?
    ensures Converted(layout, rawData)[i].rank.Some? && Converted(layout, rawData)[j].rank.Some? ==>
      Converted(layout, rawData)[i].rank.value <= Converted(layout, rawData)[j].rank.value
  {
  }

  /** Phase 1: the cell in column `3 + 2k` (boys) or `4 + 2k` (girls) is a rank cell and gives `e`, with code, name and branch from columns 0-2. */
  predicate Phase1CellGives(row: Row, k: nat, g: Gender, e: RankEntry)
    requires k < 9
  {
    var cell := At(row, 3 + 2 * k + GenderOffset(g));
    IsRankCell(cell) && e == RankEntry(At(row, 0), At(row, 1), At(row, 2), Categories[k], g, RankOf(cell))
  }

  /** Phase 1: a row of at least three cells with a truthy code, name and branch, one of whose rank cells gives `e`. */
  predicate Phase1RowGives(row: Row, e: RankEntry) {
    |row| >= 3 && Truthy(row[0]) && Truthy(row[1]) && Truthy(row[2])
    && exists k, g :: 0 <= k < 9 && Phase1CellGives(row, k, g, e)
  }

  /** Phase 2: the cell in column `4 + 2k` (boys) or `5 + 2k` (girls) is a rank cell and gives `e`, with code, name and branch from columns 1-3. */
  predicate Phase2CellGives(row: Row, k: nat, g: Gender, e: RankEntry)
    requires k < 9
  {
    var cell := At(row, 4 + 2 * k + GenderOffset(g));
    IsRankCell(cell) && e == RankEntry(At(row, 1), At(row, 2), At(row, 3), Categories[k], g, RankOf(cell))
  }

  /** Phase 2: a row of at least four cells with a truthy code, name and branch, one of whose rank cells gives `e`. */
  predicate Phase2RowGives(row: Row, e: RankEntry) {
    |row| >= 4 && Truthy(row[1]) && Truthy(row[2]) && Truthy(row[3])
    && exists k, g :: 0 <= k < 9 && Phase2CellGives(row, k, g, e)
  }

  /** `CellEntry` for a layout whose columns and categories are given. */
  lemma FixedLayoutCell(layout: Layout, first: nat, code: nat, name: nat, branch: nat, cats: seq<string>,
                        row: Row, k: nat, g: Gender, e: RankEntry)
    requires layout.firstRankCol == first && layout.codeCol == code && layout.nameCol == name && layout.branchCol == branch
    requires layout.categories == cats && k < |cats|
    ensures var cell := At(row, first + 2 * k + GenderOffset(g));
      CellEntry(layout, row, k, g) == Some(e) <==>
        IsRankCell(cell) && e == RankEntry(At(row, code), At(row, name), At(row, branch), cats[k], g, RankOf(cell))
  {
    var cell := At(row, first + 2 * k + GenderOffset(g));
    assert At(row, RankColumn(layout, k, g)) == cell;
    var entry := RankEntry(At(row, code), At(row, name), At(row, branch), cats[k], g, RankOf(cell));
    assert CellEntry(layout, row, k, g) == if IsRankCell(cell) then Some(entry) else None;
  }

  lemma Phase1Cell(row: Row, k: nat, g: Gender, e: RankEntry)
    requires k < 9
    ensures CellEntry(Phase1Layout, row, k, g) == Some(e) <==> Phase1CellGives(row, k, g, e)
  {
    FixedLayoutCell(Phase1Layout, 3, 0, 1, 2, Categories, row, k, g, e);
  }

  lemma Phase2Cell(row: Row, k: nat, g: Gender, e: RankEntry)
    requires k < 9
    ensures CellEntry(Phase2Layout, row, k, g) == Some(e) <==> Phase2CellGives(row, k, g, e)
  {
    FixedLayoutCell(Phase2Layout, 4, 1, 2, 3, Categories, row, k, g, e);
  }

  lemma Phase1Row(row: Row, e: RankEntry)
    ensures IsDataRow(Phase1Layout, row) && CellsEmit(Phase1Layout, row, 9, e) <==> Phase1RowGives(row, e)
  {
    CellsEmitExists(Phase1Layout, row, 9, e);
    forall k, g | 0 <= k < 9 {
      Phase1Cell(row, k, g, e);
    }
  }

  lemma Phase2Row(row: Row, e: RankEntry)
    ensures IsDataRow(Phase2Layout, row) && CellsEmit(Phase2Layout, row, 9, e) <==> Phase2RowGives(row, e)
  {
    CellsEmitExists(Phase2Layout, row, 9, e);
    forall k, g | 0 <= k < 9 {
      Phase2Cell(row, k, g, e);
    }
  }

  /** Phase 1: a closing-rank record is in the output exactly when some row from row 1 on gives it. */
  lemma Phase1Members(rawData: seq<Row>, e: RankEntry)
    ensures e in Converted(Phase1Layout, rawData) <==> exists i :: 1 <= i < |rawData| && Phase1RowGives(rawData[i], e)
  {
    ConvertedIsPermutation(Phase1Layout, rawData);
    assert e in Converted(Phase1Layout, rawData) <==> e in SheetEntries(Phase1Layout, rawData, |rawData|) by {
      assert e in multiset(Converted(Phase1Layout, rawData)) <==> e in multiset(SheetEntries(Phase1Layout, rawData, |rawData|));
    }
    SheetEntriesMembers(Phase1Layout, rawData, |rawData|, e);
    EmittedBeforeExists(Phase1Layout, rawData, |rawData|, e);
    forall i | 1 <= i < |rawData| {
      Phase1Row(rawData[i], e);
    }
  }

  /** Phase 2: a predicted-cutoff record is in the output exactly when some row from row 4 on gives it. */
  lemma Phase2Members(rawData: seq<Row>, e: RankEntry)
    ensures e in Converted(Phase2Layout, rawData) <==> exists i :: 4 <= i < |rawData| && Phase2RowGives(rawData[i], e)
  {
    ConvertedIsPermutation(Phase2Layout, rawData);
    assert e in Converted(Phase2Layout, rawData) <==> e in SheetEntries(Phase2Layout, rawData, |rawData|) by {
      assert e in multiset(Converted(Phase2Layout, rawData)) <==> e in multiset(SheetEntries(Phase2Layout, rawData, |rawData|));
    }
    SheetEntriesMembers(Phase2Layout, rawData, |rawData|, e);
    EmittedBeforeExists(Phase2Layout, rawData, |rawData|, e);
    forall i | 4 <= i < |rawData| {
      Phase2Row(rawData[i], e);
    }
  }
}
