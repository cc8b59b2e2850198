# Admission-cutoff data munging, modelled in Dafny

The repository is a small set of Node.js scripts. They turn the engineering
admission counselling data into flat per-college, per-branch rank tables:

- CSV exports of student allotments;
- spreadsheets of last-year closing ranks;
- spreadsheets of predicted cutoffs.

This project models the data-processing core of those scripts:

- **Seat-category mapping and closing-rank consolidation.** This is
  `process-phase1-data.js`. Raw seat-category tokens such as `BC_A_GIRLS_OU`
  map to one of 18 rank columns, or are excluded (CAP and PH seats). The
  largest rank per category over a branch's students becomes its closing rank.
  Closing ranks are merged into a fixed 21-key row, where the larger rank wins.
- **The two branch-code resolvers.** These are `clean-cutoff-data.js` and
  `enhanced-branch-code-function.js`. Each uses a code table, a first-match
  keyword cascade or substring search, and an abbreviation fallback.
- **Rank cleaning and the completeness filters** of `clean-cutoff-data.js`.
- **The hand-written CSV readers:**
  - the quote-toggling splitter shared by `server.js`,
    `process-phase1-data.js` and `analyze-categories.js`;
  - the plain comma splitter of `convert-data.js`.
- **The sheet-row extractors** of `convert-cutoff-data.js`,
  `convert-previous-year-data.js` and `convert-excel.js`. These cover header
  detection, header normalisation, cell cleaning, and row emission and
  filtering. They work on sheets already loaded as rows of cells.
- **The wide-to-long converters and their nulls-last sort.** These are
  `convert-phase1-data.js` and `convert-phase2-data.js`.
- **The keyword renaming of record fields** in `convert-excel-to-json.js`.
- **The seat-category survey** of `analyze-categories.js`. It collects the
  distinct categories and lists those the consolidation does not map.

## Modules

Each script has one module. The modules under "Shared" hold what the scripts
have in common:

- **Shared:**
  - `Options` and `Strings` give ASCII case mapping, `trim`, `includes`,
    `split` and `replace`, plus `parseInt` as a decimal-prefix parse.
  - `Values` models JavaScript cells and objects. A cell is
    `Str | Num | Null | Undefined` with JavaScript truthiness. An object is an
    ordered list of key/value pairs in insertion order: assignment to an
    existing key updates it in place, and a new key is appended.
  - `Collections` gives `filter`/`map` as folds.
  - `QuotedCsv` is the quote-toggling splitter.
- **Per script:**
  - `SeatCategory` and `Phase1Consolidation`: `process-phase1-data.js`.
  - `CleanCutoffData`: `clean-cutoff-data.js`.
  - `EnhancedBranchCode`: `enhanced-branch-code-function.js`.
  - `ServerCsv`: the CSV functions of `server.js`.
  - `ConvertData`: `convert-data.js`.
  - `ConvertCutoffData`: `convert-cutoff-data.js`.
  - `ConvertPreviousYearData`: `convert-previous-year-data.js`.
  - `ConvertExcel`: `convert-excel.js`.
  - `RankSheets`: both `convert-phase1-data.js` and `convert-phase2-data.js`,
    as one converter with two column layouts.
  - `FieldNames`: `convert-excel-to-json.js`.
  - `CategorySurvey`: `analyze-categories.js`.

The scripts' loops are methods proved against specification functions. Each
such method's `ensures` equates its result with the function. The properties
the scripts promise are then lemmas about those functions.

Some behaviour of the scripts is visible in the model and stated by lemmas:

- `CleanCutoffData.EteRuleUnreachable`: in `clean-cutoff-data.js`, the `ETE`
  rule of the keyword cascade can never fire, because the `ECE` rule before it
  catches every name it would match.
- `ConvertCutoffData.CrLfMappingNeverMatches`: in `convert-cutoff-data.js`, the
  phase-3 field mapping has names with CR LF pairs. A detected header never
  holds such a pair.
- `EnhancedBranchCode.BlankNameGivesAne`: in
  `enhanced-branch-code-function.js`, a name of only spaces resolves to `ANE`,
  because every table key contains the empty string.
- `EnhancedBranchCode.MixedCaseKeyNeverExact`: the mixed-case `CSE (IoT ...)`
  key can never be an exact hit.
- `Phase1Consolidation.Absorb`: in `process-phase1-data.js`, a
  stored closing rank of `0` counts as absent.

## Model

| member | source | states |
|---|---|---|
| SeatCategory.MapSeatCategory | process-phase1-data.js:55-118 | a token is excluded exactly when it contains `_CAP_` or `_PH`; a mapped token's gender is Girls exactly when it contains `GIRLS`; an unmapped token is returned unchanged |
| SeatCategory.ExclusionHasPriority | process-phase1-data.js:57-59 | a token containing `_CAP_` or `_PH` is excluded even when it also starts with a caste prefix |
| SeatCategory.PrefixGivesCaste | process-phase1-data.js:62-114 | a non-excluded token starting with one of the prefixes maps to that prefix's caste group, with the `GIRLS` test choosing the gender |
| SeatCategory.MinorityFoldsIntoOC | process-phase1-data.js:108-114 | the minority prefixes `MUS_`, `CHR_`, `SIK_`, `JAI_`, `BUD_` and `PAR_` map to the OC columns by the same `GIRLS` test |
| SeatCategory.NoPrefixIsUnmapped | process-phase1-data.js:117 | a non-excluded token with none of the prefixes is passed through as it is |
| SeatCategory.ColumnNameInjective | process-phase1-data.js:154-171 | distinct (caste, gender) pairs name distinct row columns, including the two EWS columns with their own names |
| Phase1Consolidation.CsvLines | process-phase1-data.js:6 | the trimmed text split at line breaks has at least one line |
| Phase1Consolidation.HeaderNames | process-phase1-data.js:7 | there is one header name per comma-separated piece of the first line, and none holds `"` or `,` |
| Phase1Consolidation.ZipRow | process-phase1-data.js:27-30 | the object built for a line is the header-ordered assignment of each field, or `''` past the last field |
| Phase1Consolidation.ParseStudentLine | process-phase1-data.js:9-32 | the map callback returns the object the quote-aware split of its line gives |
| Phase1Consolidation.StudentRowsOf | process-phase1-data.js:9-32 | there is one object per data line, in line order |
| Phase1Consolidation.ParseDataLines | process-phase1-data.js:9-32 | the loop over the data lines produces one object per line, in order |
| Phase1Consolidation.StudentRows | process-phase1-data.js:5-33 | there is one object for every line after the header line |
| Phase1Consolidation.ParseStudentCsv | process-phase1-data.js:5-33 | `parseCSV` returns the object of every data line, in order |
| Phase1Consolidation.StudentRowKeys | process-phase1-data.js:27-30 | every parsed object has exactly the header names as keys, each once |
| Phase1Consolidation.StudentRowValues | process-phase1-data.js:25-30 | under a header sits the trimmed quote-aware field at its position, or `''` when the line is short; a repeated header keeps its last position |
| Phase1Consolidation.StudentRowNoQuotes | process-phase1-data.js:14-25 | no value of a parsed object holds a double quote, since commas inside quotes do not split and quotes are dropped |
| Phase1Consolidation.Observations | process-phase1-data.js:41-42 | each student contributes its `seatcategory` and the `parseInt` of its rank, in order |
| Phase1Consolidation.ExtractClosingRanks | process-phase1-data.js:36-52 | the `forEach` that fills `closingRanks` computes the fold of the students' observations |
| Phase1Consolidation.AbsorbSpec | process-phase1-data.js:44-48 | absorbing one non-negative observation only raises stored ranks, stores at least the new rank, and changes nothing else |
| Phase1Consolidation.FoldMaxima | process-phase1-data.js:40-49 | with no negative rank, a category is a key exactly when it was observed with a rank, and its value is its largest observed rank |
| Phase1Consolidation.FoldOrderIndependent | process-phase1-data.js:40-49 | with no negative parsed rank, two observation lists with the same members give the same dictionary |
| Phase1Consolidation.FoldValuesObserved | process-phase1-data.js:40-49 | whatever the signs of the ranks, every stored value was observed for its category |
| Phase1Consolidation.NegativeAfterZero | process-phase1-data.js:44-48 | a stored `0` counts as absent: ranks `0` then `-2` leave `-2`, while `-2` then `0` leave `0` |
| Phase1Consolidation.ClosingRanksBound | process-phase1-data.js:40-49 | with no negative parsed rank, every student with a parsed rank has its category as a key, holding at least that rank |
| Phase1Consolidation.ClosingRanksAttained | process-phase1-data.js:40-49 | whatever the signs of the ranks, every stored closing rank is the rank of some student in that category |
| Phase1Consolidation.ClosingRanksAreMaxima | process-phase1-data.js:40-49 | the stored value of each category is the largest parsed rank among its students; unparseable ranks contribute nothing |
| Phase1Consolidation.ClosingRanksOrderIndependent | process-phase1-data.js:40-49 | reordering the students does not change the closing ranks |
| Phase1Consolidation.CanonicalIsRankColumn | process-phase1-data.js:62-105 | every canonical mapping lands on one of the 18 rank columns of the row |
| Phase1Consolidation.EmptyColumns | process-phase1-data.js:154-171 | the rank columns start out holding `''`, in the literal's order |
| Phase1Consolidation.InitialRow | process-phase1-data.js:150-172 | the row literal has 21 entries |
| Phase1Consolidation.KeyGroupsDisjoint | process-phase1-data.js:150-172 | no identifying key of the row is a rank column |
| Phase1Consolidation.InitialRowShape | process-phase1-data.js:150-172 | the row literal has the three identifying keys then the 18 rank columns; every rank column is `''` and the identifying fields hold code, name and branch |
| Phase1Consolidation.FillKeep | process-phase1-data.js:176-188 | visiting an excluded, unmapped or smaller-ranked category keeps the fill invariant |
| Phase1Consolidation.BestAfterWrite | process-phase1-data.js:185-187 | after a write, the written category holds the largest rank among the visited categories that feed that column |
| Phase1Consolidation.FillWrite | process-phase1-data.js:185-187 | a write of a larger rank keeps the fill invariant with that column's best category updated |
| Phase1Consolidation.FillRanks | process-phase1-data.js:175-189 | after the `Object.entries(closingRanks).forEach`, every category has been visited under the fill invariant, in any visiting order |
| Phase1Consolidation.FillDone | process-phase1-data.js:175-189 | once every category is visited, each rank column is `''` or the decimal text of the largest closing rank of the categories mapping to it; the keys are those of the literal |
| Phase1Consolidation.BuildRow | process-phase1-data.js:150-189 | the filled row is a consolidated row: exactly 21 keys, max-wins rank columns, and the identifying fields as given |
| Phase1Consolidation.CollegeCode | process-phase1-data.js:133 | the college code holds no `_` |
| Phase1Consolidation.CollegeName | process-phase1-data.js:134 | the college name holds no `_` |
| Phase1Consolidation.BranchName | process-phase1-data.js:141 | the branch name holds no `_` |
| Phase1Consolidation.CollegeDirParts | process-phase1-data.js:133-134 | a directory `code_rest` gives `code` as the code and `rest` with `_` as spaces as the name |
| Phase1Consolidation.CollegeDirWithoutUnderscore | process-phase1-data.js:133-134 | a directory name without `_` is all code, and its name is empty |
| Phase1Consolidation.BranchNameOfCsvFile | process-phase1-data.js:141 | a file `stem.csv` in which `.csv` first occurs at the end gives the stem with `_` as spaces |
| Phase1Consolidation.ConsolidateBranch | process-phase1-data.js:141-191 | the row built from one branch file is the consolidated row of the closing ranks of its parsed students, with code, name and branch from the names |
| QuotedCsv.SplitQuoted | server.js:256-276 | a line splits into at least one field |
| QuotedCsv.SplitQuotedJoin | server.js:261-275 | joining the fields with `,` gives back the line with every `"` removed |
| QuotedCsv.SplitQuotedCount | server.js:264-274 | there is one more field than there are commas outside quotes |
| QuotedCsv.SplitQuotedNoQuotes | server.js:264-274 | no field holds a double quote |
| QuotedCsv.SplitTrimmed | process-phase1-data.js:10-25 | the character loop that trims each pushed field computes the trimmed quote-aware split |
| ServerCsv.Lines | server.js:235 | the trimmed text splits into at least one line, none holding a line break |
| ServerCsv.CleanFields | server.js:246 | each value is its field with `"` removed, then trimmed |
| ServerCsv.CleanFieldsClean | server.js:238 | a cleaned field holds no `"` and has nothing left to trim |
| ServerCsv.HeaderNames | server.js:238 | there is one header per comma-separated piece of the first line |
| ServerCsv.ParsedCsv | server.js:234-253 | fewer than two lines give `[]`; there are never more objects than data lines |
| ServerCsv.ParseCsvLine | server.js:256-276 | `parseCSVLine`'s loop computes the quote-aware split |
| ServerCsv.FillRecord | server.js:244-247 | the `headers.forEach` builds the object of the cleaned fields under the headers |
| ServerCsv.ParseCsv | server.js:234-253 | `parseCSV`'s loop returns the objects of the kept data lines, in line order |
| ServerCsv.LineKept | server.js:243 | a line is kept exactly when it has one fewer comma outside quotes than there are headers |
| ServerCsv.ObjectKeys | server.js:244-247 | a kept object has exactly the header names as keys, each once |
| ServerCsv.ObjectValuesClean | server.js:246 | every value is a string with no `"` and nothing left to trim |
| ServerCsv.ObjectValueAt | server.js:245-247 | under a header sits its field, cleaned; a repeated header keeps its last position |
| ServerCsv.RecordValueAt | server.js:242-247 | a kept line's value under a header is the trimmed quote-aware field |
| ServerCsv.RecordsOfMembers | server.js:241-250 | an object is in the output exactly when some data line becomes it |
| ServerCsv.RecordsOfAllKept | server.js:241-250 | when every data line has the header count of fields, each becomes one object, in line order |
| ServerCsv.SingleLineGivesNothing | server.js:235-236 | a text without a line break after trimming parses to `[]` |
| ConvertData.NonBlankLines | convert-data.js:15 | every kept line has a non-whitespace character and no line break |
| ConvertData.Cells | convert-data.js:22 | there is one cell more than the line has commas, quoted or not, and no cell holds `"` or `,` |
| ConvertData.KeyIsKeyText | convert-data.js:26 | a key has no whitespace and no upper-case letter |
| ConvertData.ParsedData | convert-data.js:14-33 | fewer than two non-blank lines give `[]`; there are never more objects than non-blank data lines |
| ConvertData.FillRecord | convert-data.js:24-27 | the `headers.forEach` builds the object of the cells under the headers' keys |
| ConvertData.ReadRecords | convert-data.js:21-30 | the loop keeps the object of each line with the header count of cells, in order |
| ConvertData.ParseCsv | convert-data.js:14-33 | `parseCSV` returns the specification's objects |
| ConvertData.LineKept | convert-data.js:23 | a line is kept exactly when it has as many commas as the header line |
| ConvertData.RecordKeys | convert-data.js:25-27 | an object's keys are exactly the headers' lower-cased, whitespace-free keys, each once |
| ConvertData.RecordValueAt | convert-data.js:25-27 | the value under a key is the cell of the last header with that key |
| ConvertData.RecordValuesNoQuotes | convert-data.js:22 | no value holds a double quote |
| ConvertData.ParsedDataMembers | convert-data.js:21-30 | an object is in the output exactly when some non-blank data line becomes it |
| ConvertData.KeptLinesFromText | convert-data.js:15 | every line read is a non-blank line of the text |
| ConvertData.BlankLineDropped | convert-data.js:15 | inserting a whitespace-only line between two lines of the text leaves the lines read unchanged |
| ConvertData.BlankLinesIgnored | convert-data.js:14-33 | inserting a whitespace-only line between two lines of the text leaves the parsed objects unchanged |
| CleanCutoffData.GetBranchCode | clean-cutoff-data.js:46-120 | a falsy name gives `''` |
| CleanCutoffData.ExactNameFirst | clean-cutoff-data.js:50-52 | a table key, matched case-sensitively, gets its table code before any rule is tried |
| CleanCutoffData.FirstMatchIs | clean-cutoff-data.js:58-112 | a rule that matches, with no earlier rule matching, is the first match |
| CleanCutoffData.FirstRuleWins | clean-cutoff-data.js:55-112 | a name outside the table takes the code of the first rule, in source order, whose keywords all occur in the upper-cased name |
| CleanCutoffData.CsmBeforeCse | clean-cutoff-data.js:58-60 | a name with the computer science, AI and ML keywords, outside the table, gets `CSM` and not `CSE` |
| CleanCutoffData.EteKeywordsGiveEce | clean-cutoff-data.js:78-83 | a name matching the `ETE` keywords also matches the `ECE` keywords |
| CleanCutoffData.EteRuleUnreachable | clean-cutoff-data.js:78-83 | the `ETE` rule is never the first match |
| CleanCutoffData.Abbreviation | clean-cutoff-data.js:115-119 | the fallback code has at most four characters and no lower-case letter |
| CleanCutoffData.NoRuleFallsBack | clean-cutoff-data.js:114-119 | a non-empty name outside the table that no rule matches gets its abbreviation |
| CleanCutoffData.AbbreviationOfWords | clean-cutoff-data.js:115-119 | for words separated by single spaces, the fallback is the upper-cased initials of the first four words |
| CleanCutoffData.CleanRankValue | clean-cutoff-data.js:123-136 | a falsy, `NA` or at-least-400000 value becomes `'-'`; every other value is returned unchanged |
| CleanCutoffData.CleanDash | clean-cutoff-data.js:124-133 | `'-'` is neither rejected nor counted as valid |
| CleanCutoffData.CleanRankIdempotent | clean-cutoff-data.js:123-136 | cleaning a cleaned value changes nothing |
| CleanCutoffData.ValidPointNotRejected | clean-cutoff-data.js:151 | a counted cell is exactly one that is not rejected and parses; cleaning keeps it, and cleaning does not change validity |
| CleanCutoffData.ValidCount | clean-cutoff-data.js:149-154 | the count is at most the number of columns |
| CleanCutoffData.ValidCountLocal | clean-cutoff-data.js:140-154 | the count depends only on the cells of the listed columns |
| CleanCutoffData.CountValidDataPoints | clean-cutoff-data.js:139-157 | the loop counts the valid cells of the 18 fixed columns, so the count is at most 18 |
| CleanCutoffData.CleanValues | clean-cutoff-data.js:172-177 | cleaning keeps the keys and their order, and cleans each value whose key is not kept |
| CleanCutoffData.CleanRecordValues | clean-cutoff-data.js:172-177 | the copy-and-clean loop computes the cleaned record |
| CleanCutoffData.GetCleanValues | clean-cutoff-data.js:173-177 | after cleaning, a kept key's value is unchanged and any other key's value is cleaned |
| CleanCutoffData.CleanValuesPut | clean-cutoff-data.js:173-180 | cleaning commutes with assigning a key outside the kept ones |
| CleanCutoffData.CleanValuesIdempotent | clean-cutoff-data.js:173-177 | cleaning twice is cleaning once |
| CleanCutoffData.CleanClosingRecord | clean-cutoff-data.js:170-183 | the map callback computes the cleaned record with its branch code |
| CleanCutoffData.ProcessClosingRanks | clean-cutoff-data.js:169-188 | the map and filter compute the closing-ranks pass |
| CleanCutoffData.ClosingRecordFields | clean-cutoff-data.js:172-180 | identifier fields are unchanged, `Branch Code` is the code of `Branch Name`, and every other field holds its cleaned value |
| CleanCutoffData.ClosingRecordIdempotent | clean-cutoff-data.js:170-183 | processing a processed record gives it back |
| CleanCutoffData.ClosingRanksPassMembers | clean-cutoff-data.js:169-188 | a record is kept exactly when it is the processed form of an input record with at least 10 valid cells |
| CleanCutoffData.ClosingRanksPassAppend | clean-cutoff-data.js:169-188 | the pass works record by record, so kept records stay in input order |
| CleanCutoffData.ClosingRanksPassIdempotent | clean-cutoff-data.js:169-188 | running the pass again on its output changes nothing |
| CleanCutoffData.CleanPhase2Record | clean-cutoff-data.js:215-236 | the phase-2 map callback computes the cleaned record with its missing codes filled |
| CleanCutoffData.RankKeys | clean-cutoff-data.js:239-241 | the rank columns are exactly the non-identifier keys of the record |
| CleanCutoffData.Phase2ValiditySame | clean-cutoff-data.js:246 | the phase-2 test's extra `'-'` check changes nothing, because `'-'` does not parse |
| CleanCutoffData.Phase2Threshold | clean-cutoff-data.js:251 | the threshold is `min(10, floor(n/2))` |
| CleanCutoffData.Phase2HasEnoughData | clean-cutoff-data.js:237-252 | the filter counts the valid rank cells and compares the count with the threshold |
| CleanCutoffData.ProcessPhase2Cutoffs | clean-cutoff-data.js:214-252 | the map and filter compute the phase-2 pass |
| CleanCutoffData.Phase2FewColumnsKept | clean-cutoff-data.js:251 | a record with fewer than two rank columns is always kept |
| CleanCutoffData.Phase2ThresholdValues | clean-cutoff-data.js:251 | from 20 rank columns on the threshold is 10; below that it is half the columns, rounded down |
| CleanCutoffData.Phase2CollegeCode | clean-cutoff-data.js:225-229 | a truthy college code is kept; a missing one becomes the abbreviation of a truthy college name |
| CleanCutoffData.Phase2BranchCode | clean-cutoff-data.js:231-233 | a truthy branch code is kept; a missing one becomes the code of a truthy branch name |
| CleanCutoffData.FillCollegeCodeSets | clean-cutoff-data.js:225-229 | the college code becomes the name's abbreviation exactly when the code is falsy and the name truthy; otherwise it is kept |
| CleanCutoffData.FillBranchCodeSets | clean-cutoff-data.js:231-233 | the branch code becomes `getBranchCode` of the name exactly when the code is falsy and the name truthy; otherwise it is kept |
| CleanCutoffData.Phase2PassMembers | clean-cutoff-data.js:214-252 | a record is kept exactly when it is the processed form of an input record that meets the threshold |
| EnhancedBranchCode.OfficialTableWellFormed | enhanced-branch-code-function.js:7-76 | every key of the code table is non-empty and every code has one to three letters |
| EnhancedBranchCode.Normalize | enhanced-branch-code-function.js:79 | the normalised name has no lower-case letter |
| EnhancedBranchCode.FirstOverlapIs | enhanced-branch-code-function.js:87-91 | an overlapping entry with no overlapping entry before it is the first overlap |
| EnhancedBranchCode.GetBranchCode | enhanced-branch-code-function.js:3-94 | a falsy name gives `''`, and no code is longer than four characters |
| EnhancedBranchCode.ExactMatchWins | enhanced-branch-code-function.js:79-84 | a name whose upper-cased, trimmed form is a key, and no earlier entry's, gets that entry's code |
| EnhancedBranchCode.OverlapWins | enhanced-branch-code-function.js:87-91 | without an exact hit, the first entry whose key contains the normalised name or is contained in it decides |
| EnhancedBranchCode.NoOverlapNoEntry | enhanced-branch-code-function.js:82-91 | a name no key overlaps is no key either |
| EnhancedBranchCode.NoOverlapFallsBack | enhanced-branch-code-function.js:94 | with no overlapping key, the code is the first four characters of the original name, upper-cased |
| EnhancedBranchCode.CaseInsensitive | enhanced-branch-code-function.js:79-94 | the code depends only on the upper-cased name |
| EnhancedBranchCode.BlankNameGivesFirstCode | enhanced-branch-code-function.js:79-91 | a whitespace-only name normalises to `''`, which every key contains, so it takes the first entry's code |
| EnhancedBranchCode.BlankNameGivesAne | enhanced-branch-code-function.js:8-91 | a non-empty name of spaces resolves to `ANE` |
| EnhancedBranchCode.MixedCaseKeyNeverExact | enhanced-branch-code-function.js:52 | the mixed-case `CSE (IoT ...)` key is never an upper-cased input, so it is never the exact hit |
| ConvertCutoffData.DetectedHeaders | convert-cutoff-data.js:46 | there is one header per cell: `''` for a falsy cell, otherwise its text trimmed with CR LF as a space |
| ConvertCutoffData.FallbackHeaders | convert-cutoff-data.js:52-54 | there is one header per cell: `''` for a falsy cell, otherwise its text trimmed |
| ConvertCutoffData.FindHeaders | convert-cutoff-data.js:35-54 | the header row index lies within the first five rows and within the sheet |
| ConvertCutoffData.Converted | convert-cutoff-data.js:29-89 | an empty sheet gives `null`; otherwise the objects of the rows after the header row |
| ConvertCutoffData.FindHeaderRow | convert-cutoff-data.js:35-54 | the search loop with its `break` finds the specification's header row and headers |
| ConvertCutoffData.BuildRecord | convert-cutoff-data.js:67-72 | the `j` loop builds the row's header-keyed object |
| ConvertCutoffData.ApplyMapping | convert-cutoff-data.js:76-81 | the mapping loop builds the renamed object |
| ConvertCutoffData.ConvertRow | convert-cutoff-data.js:61-88 | one turn of the row loop pushes exactly the row's output |
| ConvertCutoffData.ConvertRows | convert-cutoff-data.js:59-89 | the row loop produces the outputs of the rows after the header row, in order |
| ConvertCutoffData.ConvertExcelToStructuredJson | convert-cutoff-data.js:29-89 | the conversion returns the specification's result |
| ConvertCutoffData.HeaderRowDetected | convert-cutoff-data.js:39-49 | the header row is the first of the first five rows with a code cell, and its cells become the headers |
| ConvertCutoffData.HeaderRowFallback | convert-cutoff-data.js:52-54 | without a code cell in the first five rows, row 0's trimmed cells are the headers |
| ConvertCutoffData.DetectedHeadersHaveNoCrLf | convert-cutoff-data.js:46 | a detected header never holds a CR LF pair |
| ConvertCutoffData.RowObjectDistinct | convert-cutoff-data.js:67-72 | the keys of a row's object are distinct |
| ConvertCutoffData.RowObjectHasKey | convert-cutoff-data.js:68-72 | a key is present exactly when it is the non-empty header of a column the row reaches, so a short row sets only the columns it has |
| ConvertCutoffData.RowObjectKeys | convert-cutoff-data.js:68-72 | the keys are the non-empty headers of the reached columns, each once |
| ConvertCutoffData.RowObjectValue | convert-cutoff-data.js:68-72 | a header holds the cell of the last reached column under that header |
| ConvertCutoffData.MappedObjectHasKey | convert-cutoff-data.js:76-81 | a mapped object has a key exactly when it is the target of an entry whose source field is present |
| ConvertCutoffData.CrLfMappingNeverMatches | convert-cutoff-data.js:109-139 | a mapping name with a CR LF pair never finds a value when the header row was detected |
| ConvertCutoffData.ConvertedMembers | convert-cutoff-data.js:60-89 | an object is in the output exactly when a row after the header row becomes it |
| ConvertCutoffData.UnmappedRowEmitted | convert-cutoff-data.js:86-88 | without a mapping, every data row with a truthy cell is emitted |
| ConvertCutoffData.MappedOutputShape | convert-cutoff-data.js:75-85 | with a mapping, every emitted object is non-empty and holds only mapped names |
| ConvertCutoffData.EmptyRowSkipped | convert-cutoff-data.js:65 | a row whose cells are all falsy is never emitted |
| ConvertPreviousYearData.NormalizeHeader | convert-previous-year-data.js:26-29 | a falsy header gives `null`; a normalised header has no whitespace and no upper-case letter |
| ConvertPreviousYearData.NormalizeHeaders | convert-previous-year-data.js:26-29 | there is one normalised header per cell, in order |
| ConvertPreviousYearData.CleanCell | convert-previous-year-data.js:76-81 | a string is trimmed, and `NA`, `''` and `-` become `null`; any other cell is unchanged |
| ConvertPreviousYearData.ExcelToJson | convert-previous-year-data.js:20-96 | `null` exactly below three rows; otherwise at most one object per row from row 2 on |
| ConvertPreviousYearData.PredictedHeaderIndex | convert-previous-year-data.js:132-139 | the predicted header row lies within the first five rows and within the sheet |
| ConvertPreviousYearData.PredictedCutoffs | convert-previous-year-data.js:126-172 | `null` exactly below two rows |
| ConvertPreviousYearData.CleanRow | convert-previous-year-data.js:70-85 | the `headers.forEach` builds the cleaned object |
| ConvertPreviousYearData.CleanPhaseRow | convert-previous-year-data.js:67-95 | one turn of the row loop pushes exactly the row's output |
| ConvertPreviousYearData.CleanPhaseRows | convert-previous-year-data.js:66-96 | the row loop produces the outputs of the rows from row 2, in order |
| ConvertPreviousYearData.ConvertExcelToJson | convert-previous-year-data.js:20-96 | `convertExcelToJSON` returns the specification's result |
| ConvertPreviousYearData.FindPredictedHeaderRow | convert-previous-year-data.js:132-139 | the search loop finds the specification's header row |
| ConvertPreviousYearData.CleanPredictedRow | convert-previous-year-data.js:148-171 | one turn of the predicted row loop pushes exactly the row's output |
| ConvertPreviousYearData.CleanPredictedRows | convert-previous-year-data.js:147-172 | the predicted row loop produces the outputs of the rows after the header, in order |
| ConvertPreviousYearData.ConvertPredictedCutoffs | convert-previous-year-data.js:126-172 | `convertPredictedCutoffs` returns the specification's result |
| ConvertPreviousYearData.ConvertFile | convert-previous-year-data.js:226-231 | each job runs the predicted conversion or the phase conversion, by its type |
| ConvertPreviousYearData.ConvertAll | convert-previous-year-data.js:224-243 | the file loop and the consolidation compute the consolidated object |
| ConvertPreviousYearData.NormalizeHeaderFixed | convert-previous-year-data.js:28 | a non-empty header without whitespace or upper case normalises to itself |
| ConvertPreviousYearData.NormalizeHeaderIdempotent | convert-previous-year-data.js:28 | normalising a normalised header changes nothing |
| ConvertPreviousYearData.BlankHeaderSkipped | convert-previous-year-data.js:26-29 | a whitespace-only header is truthy yet normalises to the empty name |
| ConvertPreviousYearData.CleanCellIdempotent | convert-previous-year-data.js:76-81 | cleaning a cleaned cell changes nothing |
| ConvertPreviousYearData.CleanCellFixedPoints | convert-previous-year-data.js:76-81 | the values cleaning leaves unchanged are exactly non-strings and trimmed strings other than `NA`, `''` and `-` |
| ConvertPreviousYearData.StandardKeyMapped | convert-previous-year-data.js:72 | a header the mapping knows is renamed to the mapping's entry |
| ConvertPreviousYearData.StandardKeyUnmapped | convert-previous-year-data.js:72 | a header the mapping does not know is kept |
| ConvertPreviousYearData.InstitutionColumnRenamed | convert-previous-year-data.js:33-41 | a name among the institution columns is renamed as the institution part of the table says, in the whole table |
| ConvertPreviousYearData.FeeColumnRenamed | convert-previous-year-data.js:60-61 | a name outside the institution and rank columns is renamed as the fee part of the table says |
| ConvertPreviousYearData.CollegeColumnsRenamed | convert-previous-year-data.js:33-34 | `inst_code` and `institute_name` become `college_code` and `college_name` |
| ConvertPreviousYearData.EwsColumnsRenamed | convert-previous-year-data.js:58-59 | `ews_gen_ou` and `ews_girls_ou` become `ews_boys` and `ews_girls` |
| ConvertPreviousYearData.CleanedObjectHasKey | convert-previous-year-data.js:70-85 | a key is present exactly when some column with a header and a defined cell is named by it |
| ConvertPreviousYearData.CleanedObjectValue | convert-previous-year-data.js:70-85 | under a column's name sits its cleaned cell, unless a later column has the same name |
| ConvertPreviousYearData.CleanedObjectValueSource | convert-previous-year-data.js:70-85 | every value of a cleaned row is the cleaned cell of some column |
| ConvertPreviousYearData.CleanedObjectValuesClean | convert-previous-year-data.js:70-85 | every value of a cleaned row is already clean |
| ConvertPreviousYearData.PhaseRowKept | convert-previous-year-data.js:87-95 | a row is kept exactly when its `college_code` or `college_name` is truthy; the phase tag does not decide |
| ConvertPreviousYearData.PhaseRowTagged | convert-previous-year-data.js:88-90 | a kept row carries the phase when one is given |
| ConvertPreviousYearData.ExcelToJsonMembers | convert-previous-year-data.js:66-96 | an object is in a phase sheet's output exactly when a row from row 2 on becomes it |
| ConvertPreviousYearData.PredictedHeaderDetected | convert-previous-year-data.js:132-139 | the predicted header row is the first of the first five rows with a cell mentioning `college` in any case |
| ConvertPreviousYearData.PredictedHeaderFallback | convert-previous-year-data.js:132-139 | without such a cell, row 0 is the header row |
| ConvertPreviousYearData.PredictedRowKept | convert-previous-year-data.js:166-171 | the phase is set before the emptiness test, so every predicted row is kept, tagged with its phase |
| ConvertPreviousYearData.PredictedRowsAllKept | convert-previous-year-data.js:147-172 | every row after the predicted header becomes one object, in row order |
| ConvertPreviousYearData.FilesPhasesDistinct | convert-previous-year-data.js:191-216 | no two file jobs share a phase |
| ConvertPreviousYearData.AllDataAt | convert-previous-year-data.js:224-236 | after the loop, each job's phase is a key holding that job's records when its conversion succeeded, and is not a key otherwise |
| ConvertPreviousYearData.PreviousYearDataPhases | convert-previous-year-data.js:239-243 | the consolidated object has exactly the keys Phase 1, Phase 2 and Phase 3, in order, each with its sheet's records or `[]` |
| ConvertExcel.SearchLimit | convert-excel.js:75 | the search covers `min(10, n)` rows |
| ConvertExcel.HeaderIndex | convert-excel.js:74-84 | a found header row index lies within the sheet |
| ConvertExcel.Objects | convert-excel.js:97-105 | there is one object per row, in order |
| ConvertExcel.ConvertedRows | convert-excel.js:95-106 | the chain yields at most one object per row, and every object carries a college code |
| ConvertExcel.Phase2Cutoffs | convert-excel.js:74-106 | there is no output exactly when none of the first `min(10, n)` rows has a college-code cell; otherwise there are fewer objects than rows |
| ConvertExcel.FindHeaderRow | convert-excel.js:74-84 | the search loop, with `-1` for not found, computes the specification's header index |
| ConvertExcel.FillObject | convert-excel.js:98-103 | the `headers.forEach` builds the row's object |
| ConvertExcel.FillObjects | convert-excel.js:96-104 | the `map` yields exactly one object per kept row, in row order |
| ConvertExcel.ConvertPhase2Cutoffs | convert-excel.js:74-106 | the conversion returns the specification's result |
| ConvertExcel.HeaderRowDetected | convert-excel.js:75-84 | the header row is the first of the first ten rows with a text cell containing `College_Code` or `College Code`, case-sensitively |
| ConvertExcel.LateHeaderIgnored | convert-excel.js:75 | a college-code header from the eleventh row on is never found |
| ConvertExcel.ObjectHasKey | convert-excel.js:99-101 | the keys are exactly the trimmed non-empty text headers; other headers are skipped |
| ConvertExcel.ObjectDistinct | convert-excel.js:99-103 | no key appears twice in an object |
| ConvertExcel.ObjectValue | convert-excel.js:101 | under a header's key sits its cell, or `''` for a falsy cell, unless a later header has the same key |
| ConvertExcel.ObjectValuesFilled | convert-excel.js:101 | every value is a truthy cell or `''` |
| ConvertExcel.ConvertedMembers | convert-excel.js:95-106 | an object is in the output exactly when a data row with a truthy first cell becomes it and it carries a college code |
| ConvertExcel.OutputFromRowsAfterHeader | convert-excel.js:91-92 | the rows up to and including the header row contribute nothing |
| ConvertExcel.ConvertedKeepsOrder | convert-excel.js:95-106 | when every data row passes both filters, each becomes one object, in row order |
| RankSheets.RowEntries | convert-phase1-data.js:49-75 | a row yields at most two records per category |
| RankSheets.SortByRank | convert-phase1-data.js:81-85 | the sorted list is a permutation of its input with ranks ascending and missing ranks last |
| RankSheets.InsertWithRank | convert-phase1-data.js:81-85 | inserting a record puts it after every record of its own rank |
| RankSheets.SortByRankStable | convert-phase1-data.js:81-85 | the sort is stable: the records of any one rank, or with no rank, keep their relative order |
| RankSheets.EqualRanksKeepOrder | convert-phase1-data.js:81-85 | two records with the same rank stay in the order given |
| RankSheets.PushCategory | convert-phase1-data.js:49-75 | one category pushes the boys' record, then the girls', for each rank cell |
| RankSheets.PushCategories | convert-phase1-data.js:49-75 | the category loop pushes the row's records in category order |
| RankSheets.PushRow | convert-phase1-data.js:37-46 | a row that is short or lacks a truthy code, name or branch pushes nothing |
| RankSheets.ConvertRows | convert-phase1-data.js:37-76 | the row loop from the first data row collects the records of every data row, in order |
| RankSheets.ConvertSheet | convert-phase1-data.js:37-85 | the output is sorted by rank with nulls last, is a permutation of the emitted records, and keeps the emission order among records of equal rank |
| RankSheets.CellsEmitExists | convert-phase1-data.js:49-75 | looking the rank cells up category by category finds a record exactly when some category's boys' or girls' cell gives it |
| RankSheets.RowEntriesFromCells | convert-phase1-data.js:49-75 | every record a row pushes comes from one of its rank cells |
| RankSheets.CellsInRowEntries | convert-phase1-data.js:49-75 | every rank cell of a row gives a record that the row pushes |
| RankSheets.RowEntriesMembers | convert-phase1-data.js:49-76 | a row's records are exactly the records its rank cells give |
| RankSheets.CategoriesDistinct | convert-phase1-data.js:24-34 | the nine categories are distinct |
| RankSheets.RowEntriesInColumnOrder | convert-phase1-data.js:49-76 | a row's records follow column order, category by category and Male before Female, each cell at most once |
| RankSheets.EmittedBeforeExists | convert-phase1-data.js:37-46 | looking the rows up one by one finds a record exactly when some data row from the first data row on gives it |
| RankSheets.SheetEntriesFromRows | convert-phase1-data.js:37-76 | every collected record comes from a data row at or after the first data row |
| RankSheets.RowsInSheetEntries | convert-phase1-data.js:37-76 | every rank cell of a data row at or after the first data row gives a collected record |
| RankSheets.SheetEntriesMembers | convert-phase1-data.js:37-76 | a record is produced exactly when a data row at or after the first data row has a rank cell for it |
| RankSheets.RowOutputBound | convert-phase1-data.js:40-76 | a row of the nine-category layout yields at most 18 records |
| RankSheets.SheetEntriesBefore | convert-phase1-data.js:37 | the rows before the first data row yield no records |
| RankSheets.RankOfCell | convert-phase1-data.js:59 | a number cell keeps its value; a text cell is read by `parseInt`, and a zero or unreadable one gives `null` |
| RankSheets.RankOfText | convert-phase1-data.js:72 | the decimal text of a non-zero rank reads back as that rank |
| RankSheets.Converted | convert-phase1-data.js:37-85 | the written list is sorted by rank with nulls last and holds exactly the emitted records |
| RankSheets.ConvertedStable | convert-phase1-data.js:81-85 | in the written list, records of equal rank appear in the order they were emitted |
| RankSheets.ConvertedIsPermutation | convert-phase1-data.js:81-85 | the output holds exactly the emitted records, each as often as it was emitted |
| RankSheets.ConvertedNullsLast | convert-phase1-data.js:81-85 | present ranks ascend, and every record without a rank follows every record with one |
| RankSheets.Phase1Cell | convert-phase1-data.js:24-34 | category k reads its boys' rank from column 3+2k and its girls' rank from column 4+2k |
| RankSheets.Phase1Row | convert-phase1-data.js:40-46 | a phase-1 data row has at least three cells and a truthy code, name and branch in columns 0-2 |
| RankSheets.Phase1Members | convert-phase1-data.js:37-76 | a closing-rank record is output exactly when some row from row 1 on gives it |
| RankSheets.Phase2Cell | convert-phase2-data.js:24-34 | category k reads its boys' rank from column 4+2k and its girls' rank from column 5+2k |
| RankSheets.Phase2Row | convert-phase2-data.js:40-47 | a phase-2 data row has at least four cells and a truthy code, name and branch in columns 1-3 |
| RankSheets.Phase2Members | convert-phase2-data.js:37-77 | a predicted-cutoff record is output exactly when some row from row 4 on gives it |
| FieldNames.RenamedPairs | convert-excel-to-json.js:41-76 | each key, in key order, is assigned its value under its target name |
| FieldNames.NormalizeFieldNames | convert-excel-to-json.js:36-80 | there is one normalised record per input record, in order |
| FieldNames.ChooseName | convert-excel-to-json.js:42-75 | the `if`/`else if` chain stores each value under the key's target name |
| FieldNames.NormalizeRecord | convert-excel-to-json.js:38-78 | the loop over the keys builds the normalised record |
| FieldNames.CollegeCodeFirst | convert-excel-to-json.js:45-50 | a key with `college` and `code` goes to `College_Code`, even when it also has `name` |
| FieldNames.TargetKeyCases | convert-excel-to-json.js:42-75 | a key matching no rule keeps its own name; a matching key goes to a canonical name |
| FieldNames.TargetKeyIdempotent | convert-excel-to-json.js:42-75 | a target name is its own target |
| FieldNames.CanonicalFixed | convert-excel-to-json.js:45-71 | each of the seven canonical names is sent to itself by the rules |
| FieldNames.NormalizedKeys | convert-excel-to-json.js:41-76 | a normalised record's keys are distinct and are exactly the targets of the input keys |
| FieldNames.NormalizedKeyKinds | convert-excel-to-json.js:72-75 | each key of a normalised record is a canonical name or an input key that matches no rule, so a matched key appears only under its canonical name |
| FieldNames.NormalizedLastWins | convert-excel-to-json.js:41-76 | a value is copied unchanged, unless a later key goes to the same name |
| FieldNames.NormalizedFixed | convert-excel-to-json.js:41-76 | a record whose distinct keys are already their targets is left as it is |
| FieldNames.NormalizedIdempotent | convert-excel-to-json.js:37-79 | normalising a normalised record changes nothing |
| CategorySurvey.LineCategorySpec | analyze-categories.js:21-43 | a line names a category exactly when it has at least seven commas outside quotes and its eighth field, trimmed, is neither empty nor `seatcategory`; the category is that field |
| CategorySurvey.SetAddAllSpec | analyze-categories.js:5 | the `Set` holds each element once, and exactly the elements it had and the ones added |
| CategorySurvey.LexLeTotal | analyze-categories.js:51 | any two strings are comparable in the default order |
| CategorySurvey.LexLeAntisymmetric | analyze-categories.js:51 | strings ordered both ways are equal |
| CategorySurvey.LexLeTransitive | analyze-categories.js:51 | the default string order is transitive |
| CategorySurvey.SortStrings | analyze-categories.js:51 | the sorted list is a sorted permutation of the input, and a list without repeats stays without repeats |
| CategorySurvey.SurveyLine | analyze-categories.js:21-43 | one line adds its category, if it names one, to the `Set` |
| CategorySurvey.SurveyFile | analyze-categories.js:20-44 | the line loop from line 1 adds the file's categories in line order |
| CategorySurvey.SurveyCollege | analyze-categories.js:13-48 | the loop over a directory's `.csv` files adds their categories in listing order |
| CategorySurvey.GetAllCategories | analyze-categories.js:4-52 | `getAllCategories` returns the survey |
| CategorySurvey.FileCategoriesMembers | analyze-categories.js:20-44 | a category is found in a file exactly when some data line names it; the header line never counts |
| CategorySurvey.CollegeCategoriesMembers | analyze-categories.js:13-48 | a category is found in a directory exactly when one of its `.csv` files names it |
| CategorySurvey.FoundCategoriesMembers | analyze-categories.js:9-49 | a category is found exactly when some college directory names it |
| CategorySurvey.SurveyMembers | analyze-categories.js:4-52 | the survey lists exactly the categories some data line of some `.csv` file of some directory names |
| CategorySurvey.SurveySorted | analyze-categories.js:51 | the survey lists each category once, in increasing string order |
| CategorySurvey.StrictlySortedUnique | analyze-categories.js:51 | two strictly increasing lists with the same elements are equal |
| CategorySurvey.SurveyDeterminedByFound | analyze-categories.js:4-52 | the survey depends only on which categories are found, not on the listing order or repetitions |
| CategorySurvey.FilterStrictlySorted | analyze-categories.js:74 | filtering keeps a strictly increasing list strictly increasing |
| CategorySurvey.UnmappedSpec | analyze-categories.js:61-75 | the unmapped list holds exactly the found categories absent from the mapped list, each once, in increasing order |

## Left out

- File and directory I/O is not modelled: `fs.readFileSync`, `writeFileSync`,
  `existsSync`, `mkdirSync`, `readdirSync` and `statSync`. It is left out with
  the `try`/`catch` blocks around it and all console output. The model takes
  file contents, directory listings and loaded sheets as parameters. A
  directory entry is a `Directory` with its file listing, or anything else.
- The `xlsx` reads (`readFile`, `sheet_to_json`) are not modelled. Sheets are
  given as rows of cells, and a hole or an index past the end reads as
  `undefined`. Object-mode reads (`sheet_to_json` without `header: 1` in
  `convert-cutoff-data.js`) are given as the rows of their values.
- The Express routes and the web server around `server.js`'s CSV functions are
  not modelled. Nor are the other scripts of the repository (debugging dumps,
  the HTML rewriter, the navigation script).
- `processPreviousYearCutoffs` in `clean-cutoff-data.js` only logs and
  returns `[]`, so it is not modelled.
- JavaScript numbers are not modelled in full. Cells hold integers only, so
  floating-point cells and `NaN` are not represented. `parseInt` is a
  decimal-prefix parse after leading whitespace with an optional sign, and its
  hexadecimal prefix is not modelled. `toString` of a rank is its decimal
  text.
- `toUpperCase`, `toLowerCase`, `trim` and `\s` cover ASCII only. Unicode case
  mapping and Unicode whitespace are not modelled.
- The default `sort()` of `analyze-categories.js` compares UTF-16 code units,
  while the model compares Dafny characters. The two differ only on
  characters outside the Basic Multilingual Plane.
- JavaScript object key order is modelled as insertion order. Integer-like
  keys, which JavaScript lists first, and the inherited prototype keys
  (`constructor`, `toString`, ...) are not modelled. So a raw category token
  named like an `Object.prototype` member is treated as an ordinary key.
- `typeof header === 'string'` and other type tests see only the four cell
  kinds of the model (string, integer, `null`, `undefined`).
- `RankSheets.SortByRank`: the library's in-place `sort` is modelled as a
  stable insertion sort on sequences. `Array.prototype.sort` is stable
  (ECMAScript 2019 and later), so with at most one missing rank the model's
  order is the script's order. With two or more missing ranks the script's
  comparator answers `1` both ways, which is not a consistent order, and the
  language leaves the result implementation-defined. The model then keeps
  the records without a rank in emission order, after all the others.
- `Phase1Consolidation.FoldMaxima`,
  `Phase1Consolidation.FoldOrderIndependent`,
  `Phase1Consolidation.ClosingRanksBound`,
  `Phase1Consolidation.ClosingRanksAreMaxima` and
  `Phase1Consolidation.ClosingRanksOrderIndependent` assume no negative
  parsed rank, although `parseInt` accepts one. The script treats a stored `0`
  as absent, so a later negative rank replaces it. The values are then
  neither maxima nor independent of the order, as
  `Phase1Consolidation.NegativeAfterZero` shows.
- `Phase1Consolidation.BuildRow`: the identifying fields are stated as given
  unless a raw category token is literally one of their names. Such a token
  passes through `mapSeatCategory` unmapped, and `row.hasOwnProperty` then
  lets its rank overwrite that field.
- `Phase1Consolidation.FillRanks`: `Object.entries` order is not modelled. The
  loop visits the raw categories in an arbitrary order, and the contract holds
  for every order.
- `CleanCutoffData.GetBranchCode` and `EnhancedBranchCode.GetBranchCode`
  require a string or a falsy value. A truthy non-string name makes the
  scripts throw.
- `CleanCutoffData.ProcessClosingRanks`,
  `CleanCutoffData.ProcessPhase2Cutoffs` and
  `CleanCutoffData.CleanRecordValues` require records with distinct keys, as
  every parsed JSON object has. They also require that a name the pass
  reads, because its code is missing, is a string or falsy. A truthy
  non-string there makes the script throw.
- `FieldNames.NormalizedLastWins` requires an input record with distinct keys,
  as every JavaScript object has.
- `FieldNames.NormalizeFieldNames`: the unused `fileType` parameter is left
  out.
- `ConvertCutoffData.ConvertExcelToStructuredJson`: the `sheetName` option and
  the file output are left out. The field mapping is an ordered list of
  pairs.
- `ConvertPreviousYearData.ConvertAll`: the loaded sheets are given one per
  file job. A job whose workbook cannot be read is modelled by a failed
  conversion (`null`), which stores nothing for its phase.
- `CategorySurvey.CsvFileCategories`: a directory entry whose name ends in
  `.csv` is read as a file. A sub-directory with such a name, which makes
  `readFileSync` throw, is not modelled. The final `console.log` of the
  survey and of the unmapped list is left out; the lists themselves are
  modelled.
