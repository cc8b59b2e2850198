/**
 * Field-name normalisation of converted spreadsheet records: every key of a
 * record is lower-cased and trimmed and matched against an ordered list of
 * keyword rules; a key that matches a rule is stored under that rule's
 * canonical name, any other key under its own name, and the value is copied
 * unchanged. When several keys of one record end up under the same name, the
 * one latest in key order wins.
 */
module FieldNames {
  import opened Options
  import opened Strings
  import opened Values

  /** The canonical name of the first rule a lower-cased, trimmed key matches. */
  function RuleFor(lowerKey: string): Option<string> {
    if Contains(lowerKey, "college") && Contains(lowerKey, "code") then Some("College_Code")
    else if Contains(lowerKey, "college") && Contains(lowerKey, "name") then Some("College_Name")
    else if Contains(lowerKey, "branch") && Contains(lowerKey, "code") then Some("Branch_Code")
    else if Contains(lowerKey, "branch") && Contains(lowerKey, "name") then Some("Branch_Name")
    else if Contains(lowerKey, "cutoff") || Contains(lowerKey, "rank") then Some("Cutoff_Rank")
    else if Contains(lowerKey, "caste") || Contains(lowerKey, "category") then Some("Caste")
    else if Contains(lowerKey, "gender") || Contains(lowerKey, "sex") then Some("Gender")
    else None
  }

  /** `key.toLowerCase().trim()`. */
  function LowerKey(key: string): string {
    Trim(ToLower(key))
  }

  /** The name a key is stored under in the normalised record. */
  function TargetKey(key: string): string {
    match RuleFor(LowerKey(key))
    case Some(name) => name
    case None => key
  }

  /** The assignments the `forEach` over `Object.keys(record)` performs, in key order. */
  function RenamedPairs(record: Record): (ps: seq<(string, Value)>)
    ensures |ps| == |record|
    ensures forall i :: 0 <= i < |record| ==> ps[i] == (TargetKey(record[i].0), Get(record, record[i].0))
  {
    seq(|record|, i requires 0 <= i < |record| => (TargetKey(record[i].0), Get(record, record[i].0)))
  }

  /** The `normalized` object built for one record. */
  function Normalized(record: Record): Record {
    FromPairs(RenamedPairs(record))
  }

  /** `normalizeFieldNames(data)`: one normalised record per input record, in order. */
  function NormalizeFieldNames(data: seq<Record>): (out: seq<Record>)
    ensures |out| == |data|
    ensures forall i :: 0 <= i < |data| ==> out[i] == Normalized(data[i])
  {
    seq(|data|, i requires 0 <= i < |data| => Normalized(data[i]))
  }

  // ---------------------------------------------------------------- methods

  /** The `if`/`else if` chain of the `forEach` callback: the name `record[key]` is stored under. */
  method ChooseName(key: string) returns (name: string)
    ensures name == TargetKey(key)
  {
    var lowerKey := Trim(ToLower(key));
    if Contains(lowerKey, "college") && Contains(lowerKey, "code") {
      name := "College_Code";
    } else if Contains(lowerKey, "college") && Contains(lowerKey, "name") {
      name := "College_Name";
    } else if Contains(lowerKey, "branch") && Contains(lowerKey, "code") {
      name := "Branch_Code";
    } else if Contains(lowerKey, "branch") && Contains(lowerKey, "name") {
      name := "Branch_Name";
    } else if Contains(lowerKey, "cutoff") || Contains(lowerKey, "rank") {
      name := "Cutoff_Rank";
    } else if Contains(lowerKey, "caste") || Contains(lowerKey, "category") {
      name := "Caste";
    } else if Contains(lowerKey, "gender") || Contains(lowerKey, "sex") {
      name := "Gender";
    } else {
      name := key;
    }
  }

  /** The `forEach` over the keys of one record. */
  method NormalizeRecord(record: Record) returns (normalized: Record)
    ensures normalized == Normalized(record)
  {
    ghost var ps := RenamedPairs(record);
    var keys := KeysOf(record);
    normalized := [];
    for i := 0 to |keys|
      invariant normalized == FromPairs(ps[..i])
    {
      FromPairsSnoc(ps, i);
      var key := keys[i];
      var name := ChooseName(key);
      assert ps[i] == (name, Get(record, key));
      normalized := Put(normalized, name, Get(record, key));
    }
    assert ps[..|keys|] == ps;
  }

  // ---------------------------------------------------------------- properties

  /** The seven canonical names. */
  predicate IsCanonical(name: string) {
    name in {"College_Code", "College_Name", "Branch_Code", "Branch_Name", "Cutoff_Rank", "Caste", "Gender"}
  }

  /** A key with `college` and `code` goes to `College_Code`, even when it also mentions `name`. */
  lemma CollegeCodeFirst(key: string)
    requires Contains(LowerKey(key), "college") && Contains(LowerKey(key), "code")
    ensures TargetKey(key) == "College_Code"
  {
  }

  /** A key matching no rule keeps its own name; a matching key is renamed to a canonical name. */
  lemma TargetKeyCases(key: string)
    ensures RuleFor(LowerKey(key)).None? ==> TargetKey(key) == key
    ensures RuleFor(LowerKey(key)).Some? ==> IsCanonical(TargetKey(key))
  {
    RuleIsCanonical(LowerKey(key));
  }

  /** Every rule names a canonical name. */
  lemma RuleIsCanonical(lower: string)
    ensures RuleFor(lower).Some? ==> IsCanonical(RuleFor(lower).value)
  {
  }

  /** Every canonical name is its own target, so renaming twice is renaming once. */
  lemma TargetKeyIdempotent(key: string)
    ensures TargetKey(TargetKey(key)) == TargetKey(key)
  {
    var rule := RuleFor(LowerKey(key));
    if rule.Some? {
      RuleIsCanonical(LowerKey(key));
      CanonicalFixed(rule.value);
    }
  }

  /** Lower-casing and trimming a key with no surrounding whitespace lower-cases each character. */
  lemma LowerKeyOf(key: string, lower: string)
    requires |key| == |lower| > 0
    requires forall i :: 0 <= i < |key| ==> LowerChar(key[i]) == lower[i]
    requires !IsSpace(lower[0]) && !IsSpace(lower[|lower| - 1])
    ensures LowerKey(key) == lower
  {
    assert ToLower(key) == lower;
    TrimOfTrimmed(lower);
  }

  /** The rules send each canonical name to itself. */
  lemma CanonicalFixed(name: string)
    requires IsCanonical(name)
    ensures TargetKey(name) == name
  {
    if name == "College_Code" {
      CollegeCodeFixed(name);
    } else if name == "College_Name" {
      CollegeNameFixed(name);
    } else if name == "Branch_Code" {
      BranchCodeFixed(name);
    } else if name == "Branch_Name" {
      BranchNameFixed(name);
    } else if name == "Cutoff_Rank" {
      CutoffRankFixed(name);
    } else if name == "Caste" {
      CasteFixed(name);
    } else {
      GenderFixed(name);
    }
  }

  /** A key is its own target when its lowered form selects its own name. */
  lemma FixedByRule(name: string, lower: string)
    requires LowerKey(name) == lower && RuleFor(lower) == Some(name)
    ensures TargetKey(name) == name
  {
  }

  lemma CollegeCodeFixed(name: string)
    requires name == "College_Code"
    ensures TargetKey(name) == name
  {
    var lower := "college_code";
    LowerKeyOf(name, lower);
    CollegeCodeRule(lower);
    FixedByRule(name, lower);
  }

  lemma CollegeCodeRule(lower: string)
    requires lower == "college_code"
    ensures RuleFor(lower) == Some("College_Code")
  {
    ContainsAt(lower, "college", 0);
    ContainsAt(lower, "code", 8);
  }

  lemma CollegeNameFixed(name: string)
    requires name == "College_Name"
    ensures TargetKey(name) == name
  {
    var lower := "college_name";
    LowerKeyOf(name, lower);
    CollegeNameRule(lower);
    FixedByRule(name, lower);
  }

  lemma CollegeNameRule(lower: string)
    requires lower == "college_name"
    ensures RuleFor(lower) == Some("College_Name")
  {
    NotContainsChar(lower, "code", 2);
    ContainsAt(lower, "college", 0);
    ContainsAt(lower, "name", 8);
  }

  lemma BranchCodeFixed(name: string)
    requires name == "Branch_Code"
    ensures TargetKey(name) == name
  {
    var lower := "branch_code";
    LowerKeyOf(name, lower);
    BranchCodeRule(lower);
    FixedByRule(name, lower);
  }

  lemma BranchCodeRule(lower: string)
    requires lower == "branch_code"
    ensures RuleFor(lower) == Some("Branch_Code")
  {
    NotContainsChar(lower, "college", 2);
    ContainsAt(lower, "branch", 0);
    ContainsAt(lower, "code", 7);
  }

  lemma BranchNameFixed(name: string)
    requires name == "Branch_Name"
    ensures TargetKey(name) == name
  {
    var lower := "branch_name";
    LowerKeyOf(name, lower);
    BranchNameRule(lower);
    FixedByRule(name, lower);
  }

  lemma BranchNameRule(lower: string)
    requires lower == "branch_name"
    ensures RuleFor(lower) == Some("Branch_Name")
  {
    NotContainsChar(lower, "college", 2);
    NotContainsChar(lower, "code", 1);
    ContainsAt(lower, "branch", 0);
    ContainsAt(lower, "name", 7);
  }

  lemma CutoffRankFixed(name: string)
    requires name == "Cutoff_Rank"
    ensures TargetKey(name) == name
  {
    var lower := "cutoff_rank";
    LowerKeyOf(name, lower);
    CutoffRankRule(lower);
    FixedByRule(name, lower);
  }

  lemma CutoffRankRule(lower: string)
    requires lower == "cutoff_rank"
    ensures RuleFor(lower) == Some("Cutoff_Rank")
  {
    NotContainsChar(lower, "college", 2);
    NotContainsChar(lower, "branch", 0);
    ContainsAt(lower, "cutoff", 0);
  }

  lemma CasteFixed(name: string)
    requires name == "Caste"
    ensures TargetKey(name) == name
  {
    var lower := "caste";
    LowerKeyOf(name, lower);
    CasteRule(lower);
    FixedByRule(name, lower);
  }

  lemma CasteRule(lower: string)
    requires lower == "caste"
    ensures RuleFor(lower) == Some("Caste")
  {
    NotContainsChar(lower, "college", 2);
    NotContainsChar(lower, "branch", 0);
    NotContainsChar(lower, "cutoff", 4);
    NotContainsChar(lower, "rank", 0);
    ContainsSelf(lower);
  }

  lemma GenderFixed(name: string)
    requires name == "Gender"
    ensures TargetKey(name) == name
  {
    var lower := "gender";
    LowerKeyOf(name, lower);
    GenderRule(lower);
    FixedByRule(name, lower);
  }

  lemma GenderRule(lower: string)
    requires lower == "gender"
    ensures RuleFor(lower) == Some("Gender")
  {
    NotContainsChar(lower, "college", 0);
    NotContainsChar(lower, "branch", 0);
    NotContainsChar(lower, "cutoff", 0);
    NotContainsChar(lower, "rank", 1);
    NotContainsChar(lower, "caste", 0);
    NotContainsChar(lower, "category", 0);
    ContainsSelf(lower);
  }

  /** The keys of a normalised record are distinct, and are exactly the targets of the input keys. */
  lemma NormalizedKeys(record: Record, k: string)
    ensures DistinctKeys(Normalized(record))
    ensures k in KeysOf(Normalized(record)) <==> exists i :: 0 <= i < |record| && TargetKey(record[i].0) == k
  {
    var ps := RenamedPairs(record);
    FromPairsKeys(ps);
    if k in KeysOf(ps) {
      var i :| 0 <= i < |ps| && KeysOf(ps)[i] == k;
    }
    if exists i :: 0 <= i < |record| && TargetKey(record[i].0) == k {
      var i :| 0 <= i < |record| && TargetKey(record[i].0) == k;
      assert KeysOf(ps)[i] == k;
    }
  }

  /** Each key of a normalised record is a canonical name or an input key that matches no rule. */
  lemma NormalizedKeyKinds(record: Record, k: string)
    requires k in KeysOf(Normalized(record))
    ensures IsCanonical(k) || (k in KeysOf(record) && RuleFor(LowerKey(k)).None?)
  {
    NormalizedKeys(record, k);
    var i :| 0 <= i < |record| && TargetKey(record[i].0) == k;
    TargetKeyCases(record[i].0);
    if RuleFor(LowerKey(record[i].0)).None? {
      assert KeysOf(record)[i] == k;
    }
  }

  /** A key's value is copied unchanged, unless a later key goes to the same name. */
  lemma NormalizedLastWins(record: Record, i: nat)
    requires DistinctKeys(record) && i < |record|
    requires forall j :: i < j < |record| ==> TargetKey(record[j].0) != TargetKey(record[i].0)
    ensures Get(Normalized(record), TargetKey(record[i].0)) == record[i].1
  {
    FromPairsLastWins(RenamedPairs(record), i);
    GetAt(record, i);
  }

  /** A record whose keys are all already normalised, and distinct, is left as it is. */
  lemma NormalizedFixed(record: Record)
    requires DistinctKeys(record)
    requires forall i :: 0 <= i < |record| ==> TargetKey(record[i].0) == record[i].0
    ensures Normalized(record) == record
  {
    var ps := RenamedPairs(record);
    forall i | 0 <= i < |record| ensures ps[i] == record[i] {
      GetAt(record, i);
    }
    assert ps == record;
    FromPairsDistinct(ps);
  }

  /** Normalising a normalised record changes nothing. */
  lemma NormalizedIdempotent(record: Record)
    ensures Normalized(Normalized(record)) == Normalized(record)
  {
    var n := Normalized(record);
    forall i | 0 <= i < |n| ensures TargetKey(n[i].0) == n[i].0 {
      assert KeysOf(n)[i] == n[i].0;
      NormalizedKeys(record, n[i].0);
      var j :| 0 <= j < |record| && TargetKey(record[j].0) == n[i].0;
      TargetKeyIdempotent(record[j].0);
    }
    NormalizedKeys(record, "");
    NormalizedFixed(n);
  }
}
