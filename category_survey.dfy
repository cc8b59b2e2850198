/**
 * The seat-category survey: every CSV file of every college directory of the
 * phase-1 data is read, each data line is split by the quote-toggling
 * splitter with its fields trimmed, and the eighth field, with `"` removed,
 * is collected as a seat category unless it is empty or the header word
 * `seatcategory`. The distinct categories are listed in string order,
 * followed by those that the fixed table of mapped categories does not name.
 *
 * The directory listing and the file reads are given as values: a directory
 * holds its files as (name, text) pairs, in listing order.
 */
module CategorySurvey {
  import opened Options
  import opened Strings
  import opened QuotedCsv
  import opened Collections
  import Phase1Consolidation

  /** An entry of the data directory: a college directory with its files, or anything else. */
  datatype Entry = Directory(name: string, files: seq<(string, string)>) | Other(name: string)

  // ---------------------------------------------------------------- one line

  /** The category a data line names, if it has at least eight fields and the eighth is a category. */
  function LineCategory(line: string): Option<string> {
    var values := Phase1Consolidation.Fields(line);
    if |values| >= 8 then
      var category := RemoveChar(values[7], '"');
      if category != "" && category != "seatcategory" then Some(category) else None
    else None
  }

  /**
   * A line names a category exactly when it has at least seven commas outside
   * quotes and its eighth field, trimmed, is neither empty nor `seatcategory`;
   * the category is that trimmed field, which holds no `"` and has nothing
   * left to trim.
   */
  lemma LineCategorySpec(line: string)
    ensures |SplitQuoted(line)| >= 8 <==> UnquotedCommas(line) >= 7
    ensures LineCategory(line).Some? <==>
      |SplitQuoted(line)| >= 8 && Trim(SplitQuoted(line)[7]) != "" && Trim(SplitQuoted(line)[7]) != "seatcategory"
    ensures LineCategory(line).Some? ==>
      var c := LineCategory(line).value;
      c == Trim(SplitQuoted(line)[7]) && '"' !in c && Trim(c) == c
  {
    var fields := SplitQuoted(line);
    SplitQuotedCount(line);
    if |fields| >= 8 {
      var field := Trim(fields[7]);
      assert Phase1Consolidation.Fields(line)[7] == field;
      SplitQuotedNoQuotes(line);
      assert '"' !in fields[7];
      TrimSubset(fields[7]);
      RemoveCharAbsent(field, '"');
      TrimIdempotent(fields[7]);
    }
  }

  // ---------------------------------------------------------------- collected categories

  /** The categories of one file, in line order; line 0 is the header and is never read. */
  function FileCategories(content: string): seq<string> {
    var lines := Phase1Consolidation.CsvLines(content);
    FilterMap(lines[1..], LineCategory)
  }

  /** The categories of one file of a college directory: only `.csv` files are read. */
  function CsvFileCategories(file: (string, string)): seq<string> {
    if EndsWith(file.0, ".csv") then FileCategories(file.1) else []
  }

  /** The categories of the files of one college directory, in listing order. */
  function CollegeCategories(files: seq<(string, string)>): seq<string> {
    FlatMap(files, CsvFileCategories)
  }

  /** The categories of one entry: only directories are searched. */
  function EntryCategories(entry: Entry): seq<string> {
    if entry.Directory? then CollegeCategories(entry.files) else []
  }

  /** Every category met, with repetitions, in the order the loops meet them. */
  function FoundCategories(entries: seq<Entry>): seq<string> {
    FlatMap(entries, EntryCategories)
  }

  /** `categories.add(c)` on a `Set`, which keeps the order of first insertion. */
  function SetAdd(seen: seq<string>, c: string): seq<string> {
    if c in seen then seen else seen + [c]
  }

  /** The `Set` after adding each of `cs` in turn. */
  function SetAddAll(seen: seq<string>, cs: seq<string>): seq<string>
    decreases |cs|
  {
    if cs == [] then seen else SetAdd(SetAddAll(seen, cs[..|cs| - 1]), cs[|cs| - 1])
  }

  /** No element occurs twice. */
  predicate Distinct(xs: seq<string>) {
    forall i, j :: 0 <= i < j < |xs| ==> xs[i] != xs[j]
  }

  lemma {:induction false} SetAddAllAppend(seen: seq<string>, xs: seq<string>, ys: seq<string>)
    ensures SetAddAll(seen, xs + ys) == SetAddAll(SetAddAll(seen, xs), ys)
    decreases |ys|
  {
    if ys == [] {
      assert xs + ys == xs;
    } else {
      var init := ys[..|ys| - 1];
      SetAddAllAppend(seen, xs, init);
      assert (xs + ys)[..|xs + ys| - 1] == xs + init;
    }
  }

  /** The `Set` holds each element once, and holds exactly what it started with and what was added. */
  lemma {:induction false} SetAddAllSpec(seen: seq<string>, cs: seq<string>)
    requires Distinct(seen)
    ensures Distinct(SetAddAll(seen, cs))
    ensures forall c :: c in SetAddAll(seen, cs) <==> c in seen || c in cs
    decreases |cs|
  {
    if cs != [] {
      var init := cs[..|cs| - 1];
      SetAddAllSpec(seen, init);
      assert cs == init + [cs[|cs| - 1]];
    }
  }

  // ---------------------------------------------------------------- string order

  /** JavaScript's default string comparison: `a` does not come after `b` character by character. */
  predicate LexLe(a: string, b: string)
    decreases |a|
  {
    a == [] || (b != [] && (a[0] < b[0] || (a[0] == b[0] && LexLe(a[1..], b[1..]))))
  }

  lemma {:induction false} LexLeReflexive(a: string)
    ensures LexLe(a, a)
    decreases |a|
  {
    if a != [] {
      LexLeReflexive(a[1..]);
    }
  }

  lemma {:induction false} LexLeTotal(a: string, b: string)
    ensures LexLe(a, b) || LexLe(b, a)
    decreases |a|
  {
    if a != [] && b != [] && a[0] == b[0] {
      LexLeTotal(a[1..], b[1..]);
    }
  }

  lemma {:induction false} LexLeAntisymmetric(a: string, b: string)
    requires LexLe(a, b) && LexLe(b, a)
    ensures a == b
    decreases |a|
  {
    if a != [] {
      LexLeAntisymmetric(a[1..], b[1..]);
      assert a == [a[0]] + a[1..] && b == [b[0]] + b[1..];
    }
  }

  lemma {:induction false} LexLeTransitive(a: string, b: string, c: string)
    requires LexLe(a, b) && LexLe(b, c)
    ensures LexLe(a, c)
    decreases |a|
  {
    if a != [] && a[0] == b[0] && b[0] == c[0] {
      LexLeTransitive(a[1..], b[1..], c[1..]);
    }
  }

  predicate Sorted(xs: seq<string>) {
    forall i, j :: 0 <= i < j < |xs| ==> LexLe(xs[i], xs[j])
  }

  /** `x` inserted into sorted `xs` before the first element it does not come after. */
  function Insert(x: string, xs: seq<string>): (r: seq<string>)
    requires Sorted(xs)
    ensures Sorted(r)
    ensures multiset(r) == multiset(xs) + multiset{x}
    ensures Distinct(xs) && x !in xs ==> Distinct(r)
    decreases |xs|
  {
    if xs == [] then [x]
    else if LexLe(x, xs[0]) then
      InsertFront(x, xs);
      [x] + xs
    else
      var rest := Insert(x, xs[1..]);
      InsertBehind(x, xs, rest);
      [xs[0]] + rest
  }

  lemma InsertFront(x: string, xs: seq<string>)
    requires Sorted(xs) && xs != [] && LexLe(x, xs[0])
    ensures Sorted([x] + xs)
    ensures Distinct(xs) && x !in xs ==> Distinct([x] + xs)
  {
    forall j | 0 <= j < |xs| ensures LexLe(x, xs[j]) {
      if j > 0 {
        LexLeTransitive(x, xs[0], xs[j]);
      }
    }
  }

  lemma InsertBehind(x: string, xs: seq<string>, rest: seq<string>)
    requires Sorted(xs) && xs != [] && !LexLe(x, xs[0])
    requires Sorted(rest) && multiset(rest) == multiset(xs[1..]) + multiset{x}
    requires Distinct(xs[1..]) && x !in xs[1..] ==> Distinct(rest)
    ensures Sorted([xs[0]] + rest)
    ensures multiset([xs[0]] + rest) == multiset(xs) + multiset{x}
    ensures Distinct(xs) && x !in xs ==> Distinct([xs[0]] + rest)
  {
    assert xs == [xs[0]] + xs[1..];
    forall j | 0 <= j < |rest| ensures LexLe(xs[0], rest[j]) && (x !in xs ==> rest[j] != xs[0] || !Distinct(xs)) {
      assert rest[j] in multiset(rest);
      if rest[j] == x {
        LexLeTotal(x, xs[0]);
      } else {
        assert rest[j] in multiset(xs[1..]);
        var i :| 0 <= i < |xs[1..]| && xs[1..][i] == rest[j];
        assert xs[i + 1] == rest[j];
      }
    }
    var r := [xs[0]] + rest;
    forall i, j | 0 <= i < j < |r| ensures LexLe(r[i], r[j]) {
      if i > 0 {
        assert r[i] == rest[i - 1] && r[j] == rest[j - 1];
      }
    }
  }

  /** `sort()` with no comparator, on strings. */
  function SortStrings(xs: seq<string>): (r: seq<string>)
    ensures Sorted(r)
    ensures multiset(r) == multiset(xs)
    ensures Distinct(xs) ==> Distinct(r)
    decreases |xs|
  {
    if xs == [] then []
    else
      var sortedInit := SortStrings(xs[..|xs| - 1]);
      SortLast(xs, sortedInit);
      Insert(xs[|xs| - 1], sortedInit)
  }

  /** Inserting the last element into a sorted copy of the others gives back the elements of `xs`. */
  lemma SortLast(xs: seq<string>, sortedInit: seq<string>)
    requires xs != [] && multiset(sortedInit) == multiset(xs[..|xs| - 1])
    requires Distinct(xs[..|xs| - 1]) ==> Distinct(sortedInit)
    ensures multiset(sortedInit) + multiset{xs[|xs| - 1]} == multiset(xs)
    ensures Distinct(xs) ==> Distinct(sortedInit) && xs[|xs| - 1] !in sortedInit
  {
    var init := xs[..|xs| - 1];
    var x := xs[|xs| - 1];
    assert xs == init + [x];
    assert x in sortedInit <==> x in multiset(init);
    if Distinct(xs) {
      forall i | 0 <= i < |init| ensures init[i] != x {
        assert init[i] == xs[i];
      }
    }
  }

  // ---------------------------------------------------------------- the survey

  /** `getAllCategories()`: the distinct categories met, in string order. */
  function Survey(entries: seq<Entry>): seq<string> {
    SortStrings(SetAddAll([], FoundCategories(entries)))
  }

  /** The categories that the conversion's table maps. */
  const MappedCategories: seq<string> := [
    "OC_GEN_OU", "OC_GIRLS_OU", "OC_GEN_UR", "OC_GIRLS_UR",
    "BC_A_GEN_OU", "BC_A_GIRLS_OU", "BC_A_GEN_UR", "BC_A_GIRLS_UR",
    "BC_B_GEN_OU", "BC_B_GIRLS_OU", "BC_B_GEN_UR", "BC_B_GIRLS_UR",
    "BC_C_GEN_OU", "BC_C_GIRLS_OU", "BC_C_GEN_UR", "BC_C_GIRLS_UR",
    "BC_D_GEN_OU", "BC_D_GIRLS_OU", "BC_D_GEN_UR", "BC_D_GIRLS_UR",
    "BC_E_GEN_OU", "BC_E_GIRLS_OU", "BC_E_GEN_UR", "BC_E_GIRLS_UR",
    "SC_GEN_OU", "SC_GIRLS_OU", "SC_III_GEN_OU", "SC_III_GIRLS_OU",
    "ST_GEN_OU", "ST_GIRLS_OU",
    "EWS_GEN_OU", "EWS_GIRLS_OU", "EWS_GEN_UR", "EWS_GIRLS_UR"
  ]

  predicate IsUnmapped(c: string) {
    c !in MappedCategories
  }

  /** `categories.filter(cat => !mappedCategories.includes(cat))`. */
  function Unmapped(categories: seq<string>): seq<string> {
    Filter(categories, IsUnmapped)
  }

  // ---------------------------------------------------------------- methods

  /** The body of the line loop: split one data line and add its category, if any, to the `Set`. */
  method SurveyLine(line: string, seen: seq<string>) returns (categories: seq<string>)
    ensures categories == SetAddAll(seen, FilterMap([line], LineCategory))
  {
    assert FilterMap([line], LineCategory) == FilterMap([], LineCategory) + (match LineCategory(line) case Some(c) => [c] case None => []);
    categories := seen;
    var values := SplitTrimmed(line);
    if |values| >= 8 {
      var category := RemoveChar(values[7], '"');
      if category != "" && category != "seatcategory" {
        categories := SetAdd(categories, category);
      }
    }
  }

  /** The line loop of one file, from line 1 on. */
  method SurveyFile(content: string, seen: seq<string>) returns (categories: seq<string>)
    ensures categories == SetAddAll(seen, FileCategories(content))
  {
    var lines := Split(Trim(content), '\n');
    ghost var dataLines := lines[1..];
    categories := seen;
    for i := 1 to |lines|
      invariant categories == SetAddAll(seen, FilterMap(dataLines[..i - 1], LineCategory))
    {
      ghost var acc := FilterMap(dataLines[..i - 1], LineCategory);
      assert dataLines[i - 1] == lines[i];
      FilterMapStep(dataLines, LineCategory, i - 1, acc, LineCategory(lines[i]));
      FilterMapSingle(lines[i], LineCategory);
      assert acc + [] == acc;
      SetAddAllAppend(seen, acc, FilterMap([lines[i]], LineCategory));
      categories := SurveyLine(lines[i], categories);
    }
    assert dataLines[..|lines| - 1] == dataLines;
  }

  /** The loop over the `.csv` files of one college directory. */
  method SurveyCollege(files: seq<(string, string)>, seen: seq<string>) returns (categories: seq<string>)
    ensures categories == SetAddAll(seen, CollegeCategories(files))
  {
    categories := seen;
    for j := 0 to |files|
      invariant categories == SetAddAll(seen, CollegeCategories(files[..j]))
    {
      FlatMapSnoc(files, CsvFileCategories, j);
      var file := files[j];
      var before := CollegeCategories(files[..j]);
      if EndsWith(file.0, ".csv") {
        SetAddAllAppend(seen, before, FileCategories(file.1));
        categories := SurveyFile(file.1, categories);
      } else {
        assert before + [] == before;
      }
    }
    assert files[..|files|] == files;
  }

  /** `getAllCategories`: the loop over the entries of the data directory, then the sort. */
  method GetAllCategories(entries: seq<Entry>) returns (sorted: seq<string>)
    ensures sorted == Survey(entries)
  {
    var categories: seq<string> := [];
    for k := 0 to |entries|
      invariant categories == SetAddAll([], FoundCategories(entries[..k]))
    {
      FlatMapSnoc(entries, EntryCategories, k);
      var before := FoundCategories(entries[..k]);
      SetAddAllAppend([], before, EntryCategories(entries[k]));
      if entries[k].Directory? {
        categories := SurveyCollege(entries[k].files, categories);
      }
    }
    assert entries[..|entries|] == entries;
    sorted := SortStrings(categories);
  }

  // ---------------------------------------------------------------- properties

  /** Data line `i` (never the header line 0) of a file names category `c`. */
  predicate LineNames(content: string, i: int, c: string) {
    1 <= i < |Phase1Consolidation.CsvLines(content)| && LineCategory(Phase1Consolidation.CsvLines(content)[i]) == Some(c)
  }

  /** Some data line of the file names `c`. */
  ghost predicate FileNames(content: string, c: string) {
    exists i :: LineNames(content, i, c)
  }

  /** The file is read, and names `c`. */
  ghost predicate CsvFileNames(file: (string, string), c: string) {
    EndsWith(file.0, ".csv") && FileNames(file.1, c)
  }

  /** A `.csv` file of the college directory names `c`. */
  ghost predicate CollegeNames(files: seq<(string, string)>, c: string) {
    exists j :: 0 <= j < |files| && CsvFileNames(files[j], c)
  }

  /** A college directory among the entries names `c`. */
  ghost predicate Found(entries: seq<Entry>, c: string) {
    exists k :: 0 <= k < |entries| && EntryNames(entries[k], c)
  }

  lemma FileCategoriesMembers(content: string, c: string)
    ensures c in FileCategories(content) <==> FileNames(content, c)
  {
    var lines := Phase1Consolidation.CsvLines(content);
    FilterMapSuffixMembers(lines, 1, LineCategory, c);
    if exists i :: 1 <= i < |lines| && LineCategory(lines[i]) == Some(c) {
      var i :| 1 <= i < |lines| && LineCategory(lines[i]) == Some(c);
      assert LineNames(content, i, c);
    }
  }

  lemma CollegeCategoriesMembers(files: seq<(string, string)>, c: string)
    ensures c in CollegeCategories(files) <==> CollegeNames(files, c)
  {
    FlatMapMembers(files, CsvFileCategories, c);
    forall j | 0 <= j < |files| ensures c in CsvFileCategories(files[j]) <==> CsvFileNames(files[j], c) {
      FileCategoriesMembers(files[j].1, c);
    }
  }

  /** The entry is a college directory that names `c`. */
  ghost predicate EntryNames(entry: Entry, c: string) {
    entry.Directory? && CollegeNames(entry.files, c)
  }

  lemma FoundCategoriesMembers(entries: seq<Entry>, c: string)
    ensures c in FoundCategories(entries) <==> Found(entries, c)
  {
    FlatMapMembers(entries, EntryCategories, c);
    forall k | 0 <= k < |entries| ensures c in EntryCategories(entries[k]) <==> EntryNames(entries[k], c) {
      if entries[k].Directory? {
        CollegeCategoriesMembers(entries[k].files, c);
      }
    }
  }

  /** The survey lists exactly the categories some data line of some `.csv` file of some college directory names. */
  lemma SurveyMembers(entries: seq<Entry>, c: string)
    ensures c in Survey(entries) <==> Found(entries, c)
  {
    var seen := SetAddAll([], FoundCategories(entries));
    SetAddAllSpec([], FoundCategories(entries));
    FoundCategoriesMembers(entries, c);
    assert c in Survey(entries) <==> c in multiset(seen);
  }

  /** Strictly increasing: sorted and without repetition. */
  predicate StrictlySorted(xs: seq<string>) {
    forall i, j :: 0 <= i < j < |xs| ==> LexLe(xs[i], xs[j]) && xs[i] != xs[j]
  }

  /** The survey lists each category once, in increasing string order. */
  lemma SurveySorted(entries: seq<Entry>)
    ensures StrictlySorted(Survey(entries))
  {
    SetAddAllSpec([], FoundCategories(entries));
  }

  /** A non-empty list has an element. */
  lemma ElementOf(xs: seq<string>) returns (x: string)
    requires xs != []
    ensures x in xs
  {
    x := xs[0];
  }

  /** Two strictly increasing lists with the same elements are the same list. */
  lemma {:induction false} StrictlySortedUnique(a: seq<string>, b: seq<string>)
    requires StrictlySorted(a) && StrictlySorted(b)
    requires forall c :: c in a <==> c in b
    ensures a == b
    decreases |a|
  {
    if a != [] && b != [] {
      assert a[0] in b;
      assert b[0] in a;
      var i :| 0 <= i < |b| && b[i] == a[0];
      var j :| 0 <= j < |a| && a[j] == b[0];
      LexLeReflexive(a[0]);
      assert LexLe(b[0], b[i]);
      assert LexLe(a[0], a[j]);
      LexLeAntisymmetric(a[0], b[0]);
      forall c ensures c in a[1..] <==> c in b[1..] {
        if c in a[1..] {
          var k :| 0 <= k < |a[1..]| && a[1..][k] == c;
          assert a[k + 1] == c;
          assert c in b;
          var m :| 0 <= m < |b| && b[m] == c;
          assert m != 0;
          assert b[1..][m - 1] == c;
        }
        if c in b[1..] {
          var k :| 0 <= k < |b[1..]| && b[1..][k] == c;
          assert b[k + 1] == c;
          assert c in a;
          var m :| 0 <= m < |a| && a[m] == c;
          assert m != 0;
          assert a[1..][m - 1] == c;
        }
      }
      StrictlySortedUnique(a[1..], b[1..]);
      assert a == [a[0]] + a[1..] && b == [b[0]] + b[1..];
    } else if a != [] {
      var x := ElementOf(a);
      assert false;
    } else if b != [] {
      var x := ElementOf(b);
      assert false;
    }
  }

  /** The survey depends only on which categories are found, not on the listing order or on repetitions. */
  lemma SurveyDeterminedByFound(entries: seq<Entry>, others: seq<Entry>)
    requires forall c :: Found(entries, c) <==> Found(others, c)
    ensures Survey(entries) == Survey(others)
  {
    SurveySorted(entries);
    SurveySorted(others);
    forall c ensures c in Survey(entries) <==> c in Survey(others) {
      SurveyMembers(entries, c);
      SurveyMembers(others, c);
    }
    StrictlySortedUnique(Survey(entries), Survey(others));
  }

  /** Filtering keeps a strictly increasing list strictly increasing. */
  lemma {:induction false} FilterStrictlySorted(xs: seq<string>, p: string -> bool)
    requires StrictlySorted(xs)
    ensures StrictlySorted(Filter(xs, p))
    decreases |xs|
  {
    if xs != [] {
      var init := xs[..|xs| - 1];
      var last := xs[|xs| - 1];
      FilterStrictlySorted(init, p);
      var front := Filter(init, p);
      if p(last) {
        forall k | 0 <= k < |front| ensures LexLe(front[k], last) && front[k] != last {
          FilterMembers(init, p, front[k]);
          var m :| 0 <= m < |init| && init[m] == front[k];
          assert xs[m] == front[k];
        }
        var r := front + [last];
        assert Filter(xs, p) == r;
        forall i, j | 0 <= i < j < |r| ensures LexLe(r[i], r[j]) && r[i] != r[j] {
          if j < |front| {
            assert r[i] == front[i] && r[j] == front[j];
          }
        }
      } else {
        assert Filter(xs, p) == front;
      }
    }
  }

  /** The unmapped list holds exactly the surveyed categories that the table does not map, each once, in increasing string order. */
  lemma UnmappedSpec(entries: seq<Entry>, c: string)
    ensures c in Unmapped(Survey(entries)) <==> Found(entries, c) && c !in MappedCategories
    ensures StrictlySorted(Unmapped(Survey(entries)))
  {
    FilterMembers(Survey(entries), IsUnmapped, c);
    SurveyMembers(entries, c);
    SurveySorted(entries);
    FilterStrictlySorted(Survey(entries), IsUnmapped);
  }
}
