/**
 * The cleaning script of the cutoff tables: a branch-code resolver (an exact
 * table, then an ordered cascade of keyword rules, then the initials of the
 * words), the rank-cell cleaner, the valid-cell counter, and the two passes
 * that clean every record and keep those with enough valid cells.
 *
 * The JSON files the passes read and write are left to the caller: a pass
 * takes the parsed records and returns the records it would write.
 */
module CleanCutoffData {
  import opened Options
  import opened Strings
  import opened Values

  // ---------------------------------------------------------------- getBranchCode

  /** `branchCodeMappings`, in declaration order. */
  const BranchCodeMappings: seq<(string, string)> := [
    ("COMPUTER SCIENCE AND ENGINEERING", "CSE"),
    ("COMPUTER SCIENCE AND ENGINEERING ARTIFICIAL INTELLIGENCE AND MACHINE LEARNING", "CSM"),
    ("COMPUTER SCIENCE AND ENGINEERING DATA SCIENCE", "CSD"),
    ("ARTIFICIAL INTELLIGENCE AND DATA SCIENCE", "AID"),
    ("ARTIFICIAL INTELLIGENCE AND MACHINE LEARNING", "AIM"),
    ("ARTIFICIAL INTELLIGENCE", "AI"),
    ("CSE IoT AND CYBER SECURITY INCLUDING BLOCK CHAIN TECHNOLOGY", "CSC"),
    ("COMPUTER SCIENCE AND ENGG ARTIFICIAL INTELLIGENCE", "CSM"),
    ("INFORMATION TECHNOLOGY", "IT"),
    ("ELECTRONICS AND COMMUNICATION ENGINEERING", "ECE"),
    ("ELECTRONICS AND TELECOMMUNICATION ENGG", "ETE"),
    ("ELECTRONICS AND INSTRUMENTATION ENGINEERING", "EIE"),
    ("ELECTRONICS AND ELECTRICAL ENGINEERING", "EEE"),
    ("MECHANICAL ENGINEERING", "ME"),
    ("CIVIL ENGINEERING", "CE"),
    ("ELECTRICAL AND ELECTRONICS ENGINEERING", "EEE"),
    ("CHEMICAL ENGINEERING", "CHE"),
    ("BIOTECHNOLOGY", "BT"),
    ("BIOMEDICAL ENGINEERING", "BME"),
    ("AERONAUTICAL ENGINEERING", "AE"),
    ("AUTOMOBILE ENGINEERING", "AUTO"),
    ("MINING ENGINEERING", "MIN"),
    ("METALLURGICAL ENGINEERING", "MET"),
    ("PETROLEUM ENGINEERING", "PE"),
    ("TEXTILE TECHNOLOGY", "TT"),
    ("FOOD TECHNOLOGY", "FT"),
    ("DAIRYING", "DT"),
    ("AGRICULTURAL ENGINEERING", "AGE"),
    ("FASHION TECHNOLOGY", "FT"),
    ("PRINTING TECHNOLOGY", "PT")
  ]

  /** One keyword rule of the cascade: every needle must occur in the upper-cased name. */
  datatype Rule = Rule(needles: seq<string>, code: string)

  /** The keyword rules, in the order the `if` statements test them. */
  const FuzzyRules: seq<Rule> := [
    Rule(["COMPUTER SCIENCE", "ARTIFICIAL INTELLIGENCE", "MACHINE LEARNING"], "CSM"),
    Rule(["COMPUTER SCIENCE", "DATA SCIENCE"], "CSD"),
    Rule(["ARTIFICIAL INTELLIGENCE", "DATA SCIENCE"], "AID"),
    Rule(["ARTIFICIAL INTELLIGENCE", "MACHINE LEARNING"], "AIM"),
    Rule(["COMPUTER SCIENCE"], "CSE"),
    Rule(["INFORMATION TECHNOLOGY"], "IT"),
    Rule(["ELECTRONICS", "COMMUNICATION"], "ECE"),
    Rule(["ELECTRONICS", "TELECOMMUNICATION"], "ETE"),
    Rule(["ELECTRONICS", "INSTRUMENTATION"], "EIE"),
    Rule(["ELECTRICAL", "ELECTRONICS"], "EEE"),
    Rule(["MECHANICAL"], "ME"),
    Rule(["CIVIL"], "CE"),
    Rule(["CHEMICAL"], "CHE"),
    Rule(["BIOTECHNOLOGY"], "BT"),
    Rule(["BIOMEDICAL"], "BME"),
    Rule(["AERONAUTICAL"], "AE"),
    Rule(["AUTOMOBILE"], "AUTO")
  ]

  predicate Matches(rule: Rule, s: string) {
    forall i :: 0 <= i < |rule.needles| ==> Contains(s, rule.needles[i])
  }

  /** The index of the first rule that matches `s`. */
  function FirstMatch(rules: seq<Rule>, s: string): (r: Option<nat>)
    ensures r.Some? ==> r.value < |rules| && Matches(rules[r.value], s)
    ensures r.Some? ==> forall j :: 0 <= j < r.value ==> !Matches(rules[j], s)
    ensures r.None? ==> forall j :: 0 <= j < |rules| ==> !Matches(rules[j], s)
  {
    if rules == [] then None
    else if Matches(rules[0], s) then Some(0)
    else
      match FirstMatch(rules[1..], s)
      case None => None
      case Some(i) => Some(i + 1)
  }

  /** `word.charAt(0)` of each word, concatenated. */
  function Initials(words: seq<string>): (r: string)
    ensures |r| <= |words|
  {
    if words == [] then ""
    else (if words[0] == "" then "" else [words[0][0]]) + Initials(words[1..])
  }

  /** `s.split(' ').map(w => w.charAt(0)).join('').toUpperCase().substring(0, 4)`. */
  function Abbreviation(s: string): (r: string)
    ensures |r| <= 4
    ensures HasNoLower(r)
  {
    ToUpperHasNoLower(Initials(Split(s, ' ')));
    Take(ToUpper(Initials(Split(s, ' '))), 4)
  }

  /** The first character of each of a sequence of non-empty words. */
  function FirstChars(words: seq<string>): (r: string)
    requires forall i :: 0 <= i < |words| ==> words[i] != ""
    ensures |r| == |words|
    ensures forall i :: 0 <= i < |words| ==> r[i] == words[i][0]
  {
    seq(|words|, i requires 0 <= i < |words| => words[i][0])
  }

  lemma {:induction false} InitialsOfWords(words: seq<string>)
    requires forall i :: 0 <= i < |words| ==> words[i] != ""
    ensures Initials(words) == FirstChars(words)
  {
    if words != [] {
      InitialsOfWords(words[1..]);
      assert FirstChars(words) == [words[0][0]] + FirstChars(words[1..]);
    }
  }

  /**
   * For words separated by single spaces, the abbreviation is the upper-cased
   * first letters of the first four words.
   */
  lemma AbbreviationOfWords(words: seq<string>)
    requires |words| >= 1
    requires forall i :: 0 <= i < |words| ==> words[i] != "" && ' ' !in words[i]
    ensures Abbreviation(Join(words, ' ')) == Take(ToUpper(FirstChars(words)), 4)
  {
    SplitJoin(words, ' ');
    InitialsOfWords(words);
  }

  /** What the exact table, the cascade and the fallback make of a non-empty name. */
  function ResolveName(name: string): string {
    match Lookup(BranchCodeMappings, name)
    case Some(code) => code
    case None =>
      match FirstMatch(FuzzyRules, ToUpper(name))
      case Some(i) => FuzzyRules[i].code
      case None => Abbreviation(name)
  }

  /**
   * `getBranchCode(branchName)`. A truthy name that is not a string makes the
   * source throw (`toUpperCase` is not a function), so callers pass a string
   * or a falsy value.
   */
  function GetBranchCode(branchName: Value): (code: string)
    requires branchName.Str? || !Truthy(branchName)
    ensures !Truthy(branchName) ==> code == ""
  {
    if !Truthy(branchName) then "" else ResolveName(branchName.s)
  }

  /** A name that is an entry of the table, and no earlier entry's, gets that entry's code before any rule is tried. */
  lemma ExactNameFirst(i: nat)
    requires i < |BranchCodeMappings|
    requires forall j :: 0 <= j < i ==> BranchCodeMappings[j].0 != BranchCodeMappings[i].0
    ensures GetBranchCode(Str(BranchCodeMappings[i].0)) == BranchCodeMappings[i].1
  {
    LookupFirst(BranchCodeMappings, i);
    TableKeysNonEmpty();
  }

  lemma TableKeysNonEmpty()
    ensures forall i :: 0 <= i < |BranchCodeMappings| ==> BranchCodeMappings[i].0 != ""
  {
  }

  /** A rule that matches with no earlier rule matching is the first match. */
  lemma {:induction false} FirstMatchIs(rules: seq<Rule>, s: string, i: nat)
    requires i < |rules| && Matches(rules[i], s)
    requires forall j :: 0 <= j < i ==> !Matches(rules[j], s)
    ensures FirstMatch(rules, s) == Some(i)
  {
    if i > 0 {
      FirstMatchIs(rules[1..], s, i - 1);
    }
  }

  /** A rule that cannot match without an earlier rule matching is never the first match. */
  lemma FirstMatchShadowed(rules: seq<Rule>, s: string, j: nat, i: nat)
    requires j < i < |rules|
    requires Matches(rules[i], s) ==> Matches(rules[j], s)
    ensures FirstMatch(rules, s) != Some(i)
  {
  }

  /** Every rule has a first keyword, and it is not empty. */
  lemma RulesHaveKeywords()
    ensures forall i :: 0 <= i < |FuzzyRules| ==> |FuzzyRules[i].needles| >= 1 && FuzzyRules[i].needles[0] != ""
  {
  }

  /** Only a non-empty name can match a rule. */
  lemma MatchingNameNotEmpty(name: string, i: nat)
    requires i < |FuzzyRules| && Matches(FuzzyRules[i], ToUpper(name))
    ensures name != ""
  {
    RulesHaveKeywords();
  }

  /**
   * A name outside the table takes the code of the first rule, in source
   * order, whose keywords all occur in the upper-cased name.
   */
  lemma FirstRuleWins(name: string, i: nat)
    requires Lookup(BranchCodeMappings, name).None?
    requires i < |FuzzyRules| && Matches(FuzzyRules[i], ToUpper(name))
    requires forall j :: 0 <= j < i ==> !Matches(FuzzyRules[j], ToUpper(name))
    ensures GetBranchCode(Str(name)) == FuzzyRules[i].code
  {
    FirstMatchIs(FuzzyRules, ToUpper(name), i);
    MatchingNameNotEmpty(name, i);
  }

  /** A name outside the table that no rule matches falls back to its abbreviation. */
  lemma NoRuleFallsBack(name: string)
    requires name != "" && Lookup(BranchCodeMappings, name).None?
    requires forall i :: 0 <= i < |FuzzyRules| ==> !Matches(FuzzyRules[i], ToUpper(name))
    ensures GetBranchCode(Str(name)) == Abbreviation(name)
  {
  }

  /** A name with the CSE, AI and ML keywords but outside the table is CSM, not CSE. */
  lemma CsmBeforeCse(name: string)
    requires Lookup(BranchCodeMappings, name).None?
    requires Contains(ToUpper(name), "COMPUTER SCIENCE")
    requires Contains(ToUpper(name), "ARTIFICIAL INTELLIGENCE")
    requires Contains(ToUpper(name), "MACHINE LEARNING")
    ensures GetBranchCode(Str(name)) == "CSM"
  {
    MatchesThree("COMPUTER SCIENCE", "ARTIFICIAL INTELLIGENCE", "MACHINE LEARNING", "CSM", ToUpper(name));
    FirstRuleWins(name, 0);
  }

  /** A rule of three keywords matches a name that contains all three. */
  lemma MatchesThree(a: string, b: string, c: string, code: string, s: string)
    requires Contains(s, a) && Contains(s, b) && Contains(s, c)
    ensures Matches(Rule([a, b, c], code), s)
  {
    var needles := [a, b, c];
    assert needles[0] == a && needles[1] == b && needles[2] == c;
  }

  /** A name with the `ETE` keywords has the `ECE` keywords too. */
  lemma EteKeywordsGiveEce(s: string)
    requires Matches(FuzzyRules[7], s)
    ensures Matches(FuzzyRules[6], s)
  {
    var ete, ece := FuzzyRules[7], FuzzyRules[6];
    assert ete.needles[0] == "ELECTRONICS" && ete.needles[1] == "TELECOMMUNICATION";
    assert Contains(s, ete.needles[0]) && Contains(s, ete.needles[1]);
    var t := "TELECOMMUNICATION";
    assert t[4..4 + 13] == "COMMUNICATION";
    ContainsAt(t, "COMMUNICATION", 4);
    ContainsTransitive(s, t, "COMMUNICATION");
    assert ece.needles == ["ELECTRONICS", "COMMUNICATION"];
  }

  /**
   * The `ETE` rule never fires: a name with both `ELECTRONICS` and
   * `TELECOMMUNICATION` also contains `COMMUNICATION` and is caught by the
   * `ECE` rule first.
   */
  lemma EteRuleUnreachable(s: string)
    ensures FirstMatch(FuzzyRules, s) != Some(7)
  {
    if Matches(FuzzyRules[7], s) {
      EteKeywordsGiveEce(s);
    }
    FirstMatchShadowed(FuzzyRules, s, 6, 7);
  }

  // ---------------------------------------------------------------- cleanRankValue

  /** A rank cell the cleaner replaces: falsy, `NA`, or a rank of 400000 or more. */
  predicate Rejected(v: Value) {
    !Truthy(v) || v == Str("NA") || (ParseIntValue(v).Some? && ParseIntValue(v).value >= 400000)
  }

  /** `cleanRankValue(value)`: a rejected cell becomes `'-'`, any other is returned as it is. */
  function CleanRankValue(v: Value): (r: Value)
    ensures Rejected(v) ==> r == Str("-")
    ensures !Rejected(v) ==> r == v
  {
    if !Truthy(v) || v == Str("NA") || v == Str("") then Str("-")
    else
      match ParseIntValue(v)
      case Some(n) => if n >= 400000 then Str("-") else v
      case None => v
  }

  /** `'-'` is kept as it is. */
  lemma CleanDash()
    ensures !Rejected(Str("-")) && !IsValidPoint(Str("-"))
  {
    var dash := Str("-");
    ParseIntDash();
    assert ParseIntValue(dash) == None;
    assert Truthy(dash) && dash != Str("NA") by { assert |dash.s| == 1; }
  }

  /** `'-'` is not a number, so cleaning a cleaned cell changes nothing. */
  lemma CleanRankIdempotent(v: Value)
    ensures CleanRankValue(CleanRankValue(v)) == CleanRankValue(v)
  {
    if Rejected(v) {
      CleanDash();
    }
  }

  /** A cell `countValidDataPoints` counts: truthy, not `NA`, and a rank below 400000. */
  predicate IsValidPoint(v: Value) {
    Truthy(v) && v != Str("NA") && v != Str("") && ParseIntValue(v).Some? && ParseIntValue(v).value < 400000
  }

  /** A valid cell is exactly one that is not rejected and parses; cleaning keeps it. */
  lemma ValidPointNotRejected(v: Value)
    ensures IsValidPoint(v) <==> !Rejected(v) && ParseIntValue(v).Some?
    ensures IsValidPoint(v) ==> CleanRankValue(v) == v
    ensures IsValidPoint(CleanRankValue(v)) <==> IsValidPoint(v)
  {
    if Rejected(v) {
      CleanDash();
    }
  }

  /** The 18 columns the counter looks at, in its own order. */
  const CountedColumns: seq<string> := [
    "OC Boys", "OC Girls", "EWS GEN OU", "EWS GIRLS",
    "SC Boys", "SC Girls", "ST Boys", "ST Girls",
    "BC-A Boys", "BC-A Girls", "BC-B Boys", "BC-B Girls",
    "BC-C Boys", "BC-C Girls", "BC-D Boys", "BC-D Girls",
    "BC-E Boys", "BC-E Girls"
  ]

  /** The number of `cols` whose cell in `r` is valid. */
  function ValidCount(r: Record, cols: seq<string>): (n: nat)
    ensures n <= |cols|
    decreases |cols|
  {
    if cols == [] then 0
    else ValidCount(r, cols[..|cols| - 1]) + (if IsValidPoint(Get(r, cols[|cols| - 1])) then 1 else 0)
  }

  lemma ValidCountStep(r: Record, cols: seq<string>, i: nat)
    requires i < |cols|
    ensures ValidCount(r, cols[..i + 1]) == ValidCount(r, cols[..i]) + (if IsValidPoint(Get(r, cols[i])) then 1 else 0)
  {
    assert cols[..i + 1][..i] == cols[..i];
  }

  /** The count sees only the cells of `cols`. */
  lemma {:induction false} ValidCountLocal(r1: Record, r2: Record, cols: seq<string>)
    requires forall c :: c in cols ==> IsValidPoint(Get(r1, c)) == IsValidPoint(Get(r2, c))
    ensures ValidCount(r1, cols) == ValidCount(r2, cols)
    decreases |cols|
  {
    if cols != [] {
      ValidCountLocal(r1, r2, cols[..|cols| - 1]);
    }
  }

  /** `countValidDataPoints(record)`: the `forEach` that counts the valid cells of the 18 columns. */
  method CountValidDataPoints(record: Record) returns (validCount: nat)
    ensures validCount == ValidCount(record, CountedColumns)
    ensures validCount <= 18
  {
    var rankColumns := CountedColumns;
    validCount := 0;
    for i := 0 to |rankColumns|
      invariant validCount == ValidCount(record, rankColumns[..i])
    {
      ValidCountStep(record, rankColumns, i);
      var value := Get(record, rankColumns[i]);
      var parsed := ParseIntValue(value);
      if Truthy(value) && value != Str("NA") && value != Str("") && parsed.Some? && parsed.value < 400000 {
        validCount := validCount + 1;
      }
    }
    assert rankColumns[..|rankColumns|] == rankColumns;
  }

  // ---------------------------------------------------------------- cleaning a record

  /** One entry after cleaning: its value is cleaned unless its key is in `keep`. */
  function CleanEntry(e: (string, Value), keep: seq<string>): (string, Value) {
    (e.0, if e.0 in keep then e.1 else CleanRankValue(e.1))
  }

  /** The record after every value outside `keep` is cleaned; keys and order unchanged. */
  function CleanValues(r: Record, keep: seq<string>): (c: Record)
    ensures |c| == |r|
    ensures forall i :: 0 <= i < |r| ==> c[i] == CleanEntry(r[i], keep)
  {
    seq(|r|, i requires 0 <= i < |r| => CleanEntry(r[i], keep))
  }

  /**
   * The copy `{ ...record }` and the `Object.keys(cleanedRecord).forEach`
   * that cleans, in place, every value whose key is not in `keep`.
   */
  method CleanRecordValues(record: Record, keep: seq<string>) returns (cleaned: Record)
    requires DistinctKeys(record)
    ensures cleaned == CleanValues(record, keep)
  {
    cleaned := record;
    var keys := KeysOf(cleaned);
    for i := 0 to |keys|
      invariant |cleaned| == |record|
      invariant forall j :: 0 <= j < |record| ==>
        cleaned[j] == if j < i then CleanEntry(record[j], keep) else record[j]
    {
      var key := keys[i];
      assert key == cleaned[i].0;
      if key !in keep {
        assert DistinctKeys(cleaned) by {
          forall a, b | 0 <= a < b < |cleaned| ensures cleaned[a].0 != cleaned[b].0 {
            assert cleaned[a].0 == record[a].0 && cleaned[b].0 == record[b].0;
          }
        }
        GetAt(cleaned, i);
        PutAt(cleaned, i, CleanRankValue(Get(cleaned, key)));
        cleaned := Put(cleaned, key, CleanRankValue(Get(cleaned, key)));
      }
    }
  }

  lemma CleanValuesTail(r: Record, keep: seq<string>)
    requires r != []
    ensures CleanValues(r, keep)[1..] == CleanValues(r[1..], keep)
  {
  }

  /** Cleaning keeps the keys, and a key's value is cleaned unless it is kept. */
  lemma {:induction false} GetCleanValues(r: Record, keep: seq<string>, k: string)
    ensures KeysOf(CleanValues(r, keep)) == KeysOf(r)
    ensures k in keep || k !in KeysOf(r) ==> Get(CleanValues(r, keep), k) == Get(r, k)
    ensures k !in keep && k in KeysOf(r) ==> Get(CleanValues(r, keep), k) == CleanRankValue(Get(r, k))
  {
    var c := CleanValues(r, keep);
    assert KeysOf(c) == KeysOf(r);
    if r != [] && r[0].0 != k {
      CleanValuesTail(r, keep);
      GetCleanValues(r[1..], keep, k);
      assert KeysOf(r[1..]) == KeysOf(r)[1..];
    }
  }

  /** Cleaning commutes with assigning to a key outside `keep`. */
  lemma {:induction false} CleanValuesPut(r: Record, keep: seq<string>, k: string, v: Value)
    requires k !in keep
    ensures CleanValues(Put(r, k, v), keep) == Put(CleanValues(r, keep), k, CleanRankValue(v))
  {
    var p := Put(r, k, v);
    if r != [] {
      CleanValuesTail(r, keep);
      CleanValuesTail(p, keep);
      if r[0].0 != k {
        CleanValuesPut(r[1..], keep, k, v);
        assert p[1..] == Put(r[1..], k, v);
      }
    }
  }

  /** Cleaning twice is cleaning once. */
  lemma CleanValuesIdempotent(r: Record, keep: seq<string>)
    ensures CleanValues(CleanValues(r, keep), keep) == CleanValues(r, keep)
  {
    forall i | 0 <= i < |r| ensures CleanEntry(CleanEntry(r[i], keep), keep) == CleanEntry(r[i], keep) {
      CleanRankIdempotent(r[i].1);
    }
  }

  lemma CleanValuesDistinct(r: Record, keep: seq<string>)
    requires DistinctKeys(r)
    ensures DistinctKeys(CleanValues(r, keep))
  {
  }

  // ---------------------------------------------------------------- processClosingRanks

  const ClosingIdentifiers: seq<string> := ["College Code", "College Name", "Branch Name"]

  /** `getBranchCode(record['Branch Name'])` does not throw. */
  predicate BranchNameUsable(r: Record) {
    Get(r, "Branch Name").Str? || !Truthy(Get(r, "Branch Name"))
  }

  /** The `map` callback: clean every rank value, then set `Branch Code` from `Branch Name`. */
  function ClosingRecord(r: Record): Record
    requires BranchNameUsable(r)
  {
    Put(CleanValues(r, ClosingIdentifiers), "Branch Code", Str(GetBranchCode(Get(r, "Branch Name"))))
  }

  method CleanClosingRecord(record: Record) returns (cleanedRecord: Record)
    requires DistinctKeys(record) && BranchNameUsable(record)
    ensures cleanedRecord == ClosingRecord(record)
  {
    cleanedRecord := CleanRecordValues(record, ClosingIdentifiers);
    cleanedRecord := Put(cleanedRecord, "Branch Code", Str(GetBranchCode(Get(record, "Branch Name"))));
  }

  /** The `filter` callback: at least 10 of the 18 columns hold a valid rank. */
  predicate KeepClosing(r: Record) {
    ValidCount(r, CountedColumns) >= 10
  }

  /** The records `processClosingRanks` writes back, in input order. */
  function ClosingRanksPass(data: seq<Record>): seq<Record>
    requires forall i :: 0 <= i < |data| ==> BranchNameUsable(data[i])
  {
    MapFilter(data, ClosingRecord, KeepClosing)
  }

  /** `data.map(...).filter(...)`, one record at a time. */
  method ProcessClosingRanks(data: seq<Record>) returns (cleanedData: seq<Record>)
    requires forall i :: 0 <= i < |data| ==> DistinctKeys(data[i]) && BranchNameUsable(data[i])
    ensures cleanedData == ClosingRanksPass(data)
  {
    cleanedData := [];
    for i := 0 to |data|
      invariant cleanedData == MapFilter(data[..i], ClosingRecord, KeepClosing)
    {
      MapFilterStep(data, ClosingRecord, KeepClosing, i);
      var cleanedRecord := CleanClosingRecord(data[i]);
      var validDataPoints := CountValidDataPoints(cleanedRecord);
      if validDataPoints >= 10 {
        cleanedData := cleanedData + [cleanedRecord];
      }
    }
    assert data[..|data|] == data;
  }

  /**
   * The identifying fields keep their values, `Branch Code` holds the code of
   * `Branch Name`, and every other field of the record holds its cleaned value.
   */
  lemma ClosingRecordFields(r: Record, k: string)
    requires BranchNameUsable(r)
    ensures k in ClosingIdentifiers ==> Get(ClosingRecord(r), k) == Get(r, k)
    ensures Get(ClosingRecord(r), "Branch Code") == Str(GetBranchCode(Get(r, "Branch Name")))
    ensures k !in ClosingIdentifiers && k != "Branch Code" && k in KeysOf(r) ==>
      Get(ClosingRecord(r), k) == CleanRankValue(Get(r, k))
  {
    var c := CleanValues(r, ClosingIdentifiers);
    GetCleanValues(r, ClosingIdentifiers, k);
    PutSpec(c, "Branch Code", Str(GetBranchCode(Get(r, "Branch Name"))));
    assert "Branch Code" !in ClosingIdentifiers;
  }

  /** Cleaning a cleaned record gives it back: a second run of the pass changes nothing in it. */
  lemma ClosingRecordIdempotent(r: Record)
    requires BranchNameUsable(r)
    ensures BranchNameUsable(ClosingRecord(r))
    ensures ClosingRecord(ClosingRecord(r)) == ClosingRecord(r)
  {
    var ids := ClosingIdentifiers;
    var code := Str(GetBranchCode(Get(r, "Branch Name")));
    var c := CleanValues(r, ids);
    assert "Branch Code" !in ids && "Branch Name" in ids;
    ClosingRecordFields(r, "Branch Name");
    CleanValuesPut(c, ids, "Branch Code", code);
    CleanValuesIdempotent(r, ids);
    PutPut(c, "Branch Code", CleanRankValue(code), code);
  }

  /** A record is in the output exactly when it is the cleaned form of an input record with at least 10 valid cells. */
  lemma ClosingRanksPassMembers(data: seq<Record>, x: Record)
    requires forall i :: 0 <= i < |data| ==> BranchNameUsable(data[i])
    ensures x in ClosingRanksPass(data) <==>
      exists i :: 0 <= i < |data| && x == ClosingRecord(data[i]) && KeepClosing(x)
  {
    MapFilterMembers(data, ClosingRecord, KeepClosing, x);
  }

  /** The pass works record by record: on a concatenation it is the concatenation of the outputs. */
  lemma ClosingRanksPassAppend(a: seq<Record>, b: seq<Record>)
    requires forall i :: 0 <= i < |a| ==> BranchNameUsable(a[i])
    requires forall i :: 0 <= i < |b| ==> BranchNameUsable(b[i])
    ensures forall i :: 0 <= i < |a + b| ==> BranchNameUsable((a + b)[i])
    ensures ClosingRanksPass(a + b) == ClosingRanksPass(a) + ClosingRanksPass(b)
  {
    MapFilterAppend(a, b, ClosingRecord, KeepClosing);
  }

  /** Re-running the closing-ranks pass on its own output changes nothing. */
  lemma ClosingRanksPassIdempotent(data: seq<Record>)
    requires forall i :: 0 <= i < |data| ==> BranchNameUsable(data[i])
    ensures forall i :: 0 <= i < |ClosingRanksPass(data)| ==> BranchNameUsable(ClosingRanksPass(data)[i])
    ensures ClosingRanksPass(ClosingRanksPass(data)) == ClosingRanksPass(data)
  {
    forall i | 0 <= i < |data| ensures BranchNameUsable(ClosingRecord(data[i])) && ClosingRecord(ClosingRecord(data[i])) == ClosingRecord(data[i]) {
      ClosingRecordIdempotent(data[i]);
    }
    MapFilterIdempotent(data, ClosingRecord, KeepClosing);
  }

  // ---------------------------------------------------------------- processPhase2Cutoffs

  const Phase2Identifiers: seq<string> := ["College_Code", "College_Name", "Branch_Code", "Branch_Name"]

  /**
   * A name the pass reads, because its code is missing, is not a truthy
   * non-string, on which `split` or `toUpperCase` would throw.
   */
  predicate Phase2Usable(r: Record) {
    && (!Truthy(Get(r, "College_Code")) ==> Get(r, "College_Name").Str? || !Truthy(Get(r, "College_Name")))
    && (!Truthy(Get(r, "Branch_Code")) ==> Get(r, "Branch_Name").Str? || !Truthy(Get(r, "Branch_Name")))
  }

  /** The college code filled in from the name when the code is missing. */
  function FillCollegeCode(c: Record): Record {
    if !Truthy(Get(c, "College_Code")) && Truthy(Get(c, "College_Name"))
    then Put(c, "College_Code", Str(Abbreviation(ToText(Get(c, "College_Name")))))
    else c
  }

  /** The branch code filled in from the branch name when the code is missing. */
  function FillBranchCode(c: Record): Record
    requires !Truthy(Get(c, "Branch_Code")) ==> Get(c, "Branch_Name").Str? || !Truthy(Get(c, "Branch_Name"))
  {
    if !Truthy(Get(c, "Branch_Code")) && Truthy(Get(c, "Branch_Name"))
    then Put(c, "Branch_Code", Str(GetBranchCode(Get(c, "Branch_Name"))))
    else c
  }

  lemma FillCollegeCodeKeepsBranch(c: Record)
    ensures Get(FillCollegeCode(c), "Branch_Name") == Get(c, "Branch_Name")
    ensures Get(FillCollegeCode(c), "Branch_Code") == Get(c, "Branch_Code")
  {
    assert |"College_Code"| != |"Branch_Name"|;
    assert "College_Code"[0] != "Branch_Code"[0];
    PutGet(c, "College_Code", Str(Abbreviation(ToText(Get(c, "College_Name")))), "Branch_Name");
    PutGet(c, "College_Code", Str(Abbreviation(ToText(Get(c, "College_Name")))), "Branch_Code");
  }

  /** The `map` callback of the phase-2 pass: clean, then fill in the missing codes. */
  function Phase2Record(r: Record): Record
    requires Phase2Usable(r)
  {
    var c := CleanValues(r, Phase2Identifiers);
    GetCleanValues(r, Phase2Identifiers, "Branch_Name");
    GetCleanValues(r, Phase2Identifiers, "Branch_Code");
    FillCollegeCodeKeepsBranch(c);
    FillBranchCode(FillCollegeCode(c))
  }

  method CleanPhase2Record(record: Record) returns (cleanedRecord: Record)
    requires DistinctKeys(record) && Phase2Usable(record)
    ensures cleanedRecord == Phase2Record(record)
  {
    cleanedRecord := CleanRecordValues(record, Phase2Identifiers);
    GetCleanValues(record, Phase2Identifiers, "Branch_Name");
    GetCleanValues(record, Phase2Identifiers, "Branch_Code");
    if !Truthy(Get(cleanedRecord, "College_Code")) && Truthy(Get(cleanedRecord, "College_Name")) {
      var words := Split(ToText(Get(cleanedRecord, "College_Name")), ' ');
      cleanedRecord := Put(cleanedRecord, "College_Code", Str(Take(ToUpper(Initials(words)), 4)));
    }
    FillCollegeCodeKeepsBranch(CleanValues(record, Phase2Identifiers));
    if !Truthy(Get(cleanedRecord, "Branch_Code")) && Truthy(Get(cleanedRecord, "Branch_Name")) {
      cleanedRecord := Put(cleanedRecord, "Branch_Code", Str(GetBranchCode(Get(cleanedRecord, "Branch_Name"))));
    }
  }

  /** `Object.keys(record).filter(...)`: the keys that are not identifiers, in order. */
  function RankKeys(r: Record): (ks: seq<string>)
    ensures |ks| <= |r|
    ensures forall k :: k in ks <==> k in KeysOf(r) && k !in Phase2Identifiers
  {
    if r == [] then []
    else (if r[0].0 in Phase2Identifiers then [] else [r[0].0]) + RankKeys(r[1..])
  }

  /** The phase-2 validity test, which also rejects `'-'`. */
  predicate IsValidPhase2Point(v: Value) {
    Truthy(v) && v != Str("NA") && v != Str("") && v != Str("-") && ParseIntValue(v).Some? && ParseIntValue(v).value < 400000
  }

  /** The extra `'-'` test changes nothing: `'-'` does not parse. */
  lemma Phase2ValiditySame(v: Value)
    ensures IsValidPhase2Point(v) == IsValidPoint(v)
  {
    if v == Str("-") {
      CleanDash();
    }
  }

  /** `Math.min(10, Math.floor(n * 0.5))`. */
  function Phase2Threshold(n: nat): (t: nat)
    ensures t <= 10 && t <= n / 2
    ensures t == 10 || t == n / 2
  {
    if 10 <= n / 2 then 10 else n / 2
  }

  /** The `filter` callback of the phase-2 pass. */
  predicate KeepPhase2(r: Record) {
    ValidCount(r, RankKeys(r)) >= Phase2Threshold(|RankKeys(r)|)
  }

  /** The body of the phase-2 `filter`: count the valid rank cells and compare with the threshold. */
  method Phase2HasEnoughData(record: Record) returns (keep: bool)
    ensures keep == KeepPhase2(record)
  {
    var rankColumns := RankKeys(record);
    var validCount := 0;
    for i := 0 to |rankColumns|
      invariant validCount == ValidCount(record, rankColumns[..i])
    {
      ValidCountStep(record, rankColumns, i);
      var value := Get(record, rankColumns[i]);
      Phase2ValiditySame(value);
      var parsed := ParseIntValue(value);
      if Truthy(value) && value != Str("NA") && value != Str("") && value != Str("-") && parsed.Some? && parsed.value < 400000 {
        validCount := validCount + 1;
      }
    }
    assert rankColumns[..|rankColumns|] == rankColumns;
    keep := validCount >= Phase2Threshold(|rankColumns|);
  }

  /** The records `processPhase2Cutoffs` writes back, in input order. */
  function Phase2Pass(data: seq<Record>): seq<Record>
    requires forall i :: 0 <= i < |data| ==> Phase2Usable(data[i])
  {
    MapFilter(data, Phase2Record, KeepPhase2)
  }

  method ProcessPhase2Cutoffs(data: seq<Record>) returns (cleanedData: seq<Record>)
    requires forall i :: 0 <= i < |data| ==> DistinctKeys(data[i]) && Phase2Usable(data[i])
    ensures cleanedData == Phase2Pass(data)
  {
    cleanedData := [];
    for i := 0 to |data|
      invariant cleanedData == MapFilter(data[..i], Phase2Record, KeepPhase2)
    {
      MapFilterStep(data, Phase2Record, KeepPhase2, i);
      var cleanedRecord := CleanPhase2Record(data[i]);
      var keep := Phase2HasEnoughData(cleanedRecord);
      if keep {
        cleanedData := cleanedData + [cleanedRecord];
      }
    }
    assert data[..|data|] == data;
  }

  /** A record with fewer than two rank columns has threshold 0 and is always kept. */
  lemma Phase2FewColumnsKept(r: Record)
    requires |RankKeys(r)| < 2
    ensures KeepPhase2(r)
  {
  }

  /** From 20 rank columns on, the threshold is 10; below, it is half the columns, rounded down. */
  lemma Phase2ThresholdValues(n: nat)
    ensures n >= 20 ==> Phase2Threshold(n) == 10
    ensures n < 20 ==> Phase2Threshold(n) == n / 2
  {
  }

  /** A truthy college code is kept; a missing one is the abbreviation of a truthy college name. */
  lemma Phase2CollegeCode(r: Record)
    requires Phase2Usable(r)
    ensures Truthy(Get(r, "College_Code")) ==> Get(Phase2Record(r), "College_Code") == Get(r, "College_Code")
    ensures !Truthy(Get(r, "College_Code")) && Truthy(Get(r, "College_Name")) ==>
      Get(Phase2Record(r), "College_Code") == Str(Abbreviation(Get(r, "College_Name").s))
  {
    var c := Phase2Cleaned(r);
    FillCollegeCodeKeepsBranch(c);
    FillCollegeCodeSets(c);
    FillBranchCodeKeepsCollege(FillCollegeCode(c));
  }

  /** A truthy branch code is kept; a missing one is the code of a truthy branch name. */
  lemma Phase2BranchCode(r: Record)
    requires Phase2Usable(r)
    ensures Truthy(Get(r, "Branch_Code")) ==> Get(Phase2Record(r), "Branch_Code") == Get(r, "Branch_Code")
    ensures !Truthy(Get(r, "Branch_Code")) && Truthy(Get(r, "Branch_Name")) ==>
      Get(Phase2Record(r), "Branch_Code") == Str(GetBranchCode(Get(r, "Branch_Name")))
  {
    var c := Phase2Cleaned(r);
    FillCollegeCodeKeepsBranch(c);
    FillBranchCodeSets(FillCollegeCode(c));
  }

  /** Cleaning leaves the four identifier fields as they are. */
  lemma Phase2Cleaned(r: Record) returns (c: Record)
    ensures c == CleanValues(r, Phase2Identifiers)
    ensures Get(c, "College_Code") == Get(r, "College_Code") && Get(c, "College_Name") == Get(r, "College_Name")
    ensures Get(c, "Branch_Code") == Get(r, "Branch_Code") && Get(c, "Branch_Name") == Get(r, "Branch_Name")
  {
    c := CleanValues(r, Phase2Identifiers);
    GetCleanValues(r, Phase2Identifiers, "College_Code");
    GetCleanValues(r, Phase2Identifiers, "College_Name");
    GetCleanValues(r, Phase2Identifiers, "Branch_Code");
    GetCleanValues(r, Phase2Identifiers, "Branch_Name");
  }

  /** The college code after the fill: the abbreviation of the name when the code was missing and the name present. */
  lemma FillCollegeCodeSets(c: Record)
    ensures Get(FillCollegeCode(c), "College_Code") ==
      if !Truthy(Get(c, "College_Code")) && Truthy(Get(c, "College_Name"))
      then Str(Abbreviation(ToText(Get(c, "College_Name")))) else Get(c, "College_Code")
  {
    PutGet(c, "College_Code", Str(Abbreviation(ToText(Get(c, "College_Name")))), "College_Code");
  }

  /** The branch code after the fill: the code of the name when the code was missing and the name present. */
  lemma FillBranchCodeSets(c: Record)
    requires !Truthy(Get(c, "Branch_Code")) ==> Get(c, "Branch_Name").Str? || !Truthy(Get(c, "Branch_Name"))
    ensures Get(FillBranchCode(c), "Branch_Code") ==
      if !Truthy(Get(c, "Branch_Code")) && Truthy(Get(c, "Branch_Name"))
      then Str(GetBranchCode(Get(c, "Branch_Name"))) else Get(c, "Branch_Code")
  {
    if !Truthy(Get(c, "Branch_Code")) && Truthy(Get(c, "Branch_Name")) {
      PutGet(c, "Branch_Code", Str(GetBranchCode(Get(c, "Branch_Name"))), "Branch_Code");
    }
  }

  /** Filling the branch code leaves the college code alone. */
  lemma FillBranchCodeKeepsCollege(c: Record)
    requires !Truthy(Get(c, "Branch_Code")) ==> Get(c, "Branch_Name").Str? || !Truthy(Get(c, "Branch_Name"))
    ensures Get(FillBranchCode(c), "College_Code") == Get(c, "College_Code")
  {
    if !Truthy(Get(c, "Branch_Code")) && Truthy(Get(c, "Branch_Name")) {
      assert "Branch_Code"[0] != "College_Code"[0];
      PutGet(c, "Branch_Code", Str(GetBranchCode(Get(c, "Branch_Name"))), "College_Code");
    }
  }

  /** A record is in the output exactly when it is the processed form of an input record that passes the threshold. */
  lemma Phase2PassMembers(data: seq<Record>, x: Record)
    requires forall i :: 0 <= i < |data| ==> Phase2Usable(data[i])
    ensures x in Phase2Pass(data) <==> exists i :: 0 <= i < |data| && x == Phase2Record(data[i]) && KeepPhase2(x)
  {
    MapFilterMembers(data, Phase2Record, KeepPhase2, x);
  }

  // ---------------------------------------------------------------- map, then filter

  /** `data.map(f).filter(keep)`, as a left fold so that a loop can follow it. */
  function MapFilter(data: seq<Record>, f: Record --> Record, keep: Record -> bool): (out: seq<Record>)
    requires forall i :: 0 <= i < |data| ==> f.requires(data[i])
    ensures |out| <= |data|
    decreases |data|
  {
    if data == [] then []
    else
      var c := f(data[|data| - 1]);
      MapFilter(data[..|data| - 1], f, keep) + (if keep(c) then [c] else [])
  }

  lemma MapFilterStep(data: seq<Record>, f: Record --> Record, keep: Record -> bool, i: nat)
    requires forall i :: 0 <= i < |data| ==> f.requires(data[i])
    requires i < |data|
    ensures MapFilter(data[..i + 1], f, keep) ==
      MapFilter(data[..i], f, keep) + (if keep(f(data[i])) then [f(data[i])] else [])
  {
    assert data[..i + 1][..i] == data[..i];
  }

  lemma {:induction false} MapFilterAppend(a: seq<Record>, b: seq<Record>, f: Record --> Record, keep: Record -> bool)
    requires forall i :: 0 <= i < |a| ==> f.requires(a[i])
    requires forall i :: 0 <= i < |b| ==> f.requires(b[i])
    ensures forall i :: 0 <= i < |a + b| ==> f.requires((a + b)[i])
    ensures MapFilter(a + b, f, keep) == MapFilter(a, f, keep) + MapFilter(b, f, keep)
    decreases |b|
  {
    forall i | 0 <= i < |a + b| ensures f.requires((a + b)[i]) {
      if i >= |a| { assert (a + b)[i] == b[i - |a|]; }
    }
    if b == [] {
      assert a + b == a;
    } else {
      var init := b[..|b| - 1];
      MapFilterAppend(a, init, f, keep);
      assert (a + b)[..|a + b| - 1] == a + init;
    }
  }

  lemma {:induction false} MapFilterMembers(data: seq<Record>, f: Record --> Record, keep: Record -> bool, x: Record)
    requires forall i :: 0 <= i < |data| ==> f.requires(data[i])
    ensures x in MapFilter(data, f, keep) <==> exists i :: 0 <= i < |data| && x == f(data[i]) && keep(x)
    decreases |data|
  {
    if data != [] {
      var init := data[..|data| - 1];
      MapFilterMembers(init, f, keep, x);
      if x in MapFilter(init, f, keep) {
        var i :| 0 <= i < |init| && x == f(init[i]) && keep(x);
        assert data[i] == init[i];
      }
      if exists i :: 0 <= i < |data| && x == f(data[i]) && keep(x) {
        var i :| 0 <= i < |data| && x == f(data[i]) && keep(x);
        if i < |init| {
          assert init[i] == data[i];
        }
      }
    }
  }

  lemma {:induction false} MapFilterIdempotent(data: seq<Record>, f: Record --> Record, keep: Record -> bool)
    requires forall i :: 0 <= i < |data| ==> f.requires(data[i]) && f.requires(f(data[i])) && f(f(data[i])) == f(data[i])
    ensures forall i :: 0 <= i < |MapFilter(data, f, keep)| ==> f.requires(MapFilter(data, f, keep)[i])
    ensures MapFilter(MapFilter(data, f, keep), f, keep) == MapFilter(data, f, keep)
    decreases |data|
  {
    if data != [] {
      var init := data[..|data| - 1];
      var c := f(data[|data| - 1]);
      var tail := if keep(c) then [c] else [];
      MapFilterIdempotent(init, f, keep);
      MapFilterAppend(MapFilter(init, f, keep), tail, f, keep);
      if keep(c) {
        assert tail[..0] == [];
      }
    }
  }
}
