/**
 * The table-driven branch-code resolver: an exact lookup of the upper-cased,
 * trimmed branch name in the official code table, then the first table entry
 * whose name overlaps the normalised name (one contains the other), then the
 * first four characters of the original name, upper-cased.
 */
module EnhancedBranchCode {
  import opened Options
  import opened Strings
  import opened Values

  /** Mechanical & Related. */
  const MechanicalCodes: seq<(string, string)> := [
    ("AERONAUTICAL ENGINEERING", "ANE"),
    ("AUTOMATION AND ROBOTICS", "ARB"),
    ("AUTOMOBILE ENGINEERING", "AUT"),
    ("BUILDING SERVICES ENGG", "BSE"),
    ("CIVIL ENGINEERING", "CIV"),
    ("INDUSTRIAL PRODUCTION ENGINEERING", "IPE"),
    ("MECHANICAL (MECHTRONICS) ENGINEERING", "MCT"),
    ("MECHANICAL ENGINEERING", "MEC"),
    ("METALLURGICAL ENGINEERING", "MET"),
    ("BTECH MECHANICAL WITH MTECH MANUFACTURING SYSTEMS", "MMS"),
    ("BTECH MECHANICAL WITH MTECH MANUFACTURING  SYSTEMS", "MMS"),
    ("BTECH MECHANICAL WITH MTECH THERMAL ENGG", "MTE"),
    ("B.PLANNING", "PLG")
  ]

  /** Agricultural & Bio. */
  const AgriculturalCodes: seq<(string, string)> := [
    ("AGRICULTURAL ENGINEERING", "AGR"),
    ("BIO-TECHNOLOGY", "BIO"),
    ("CHEMICAL ENGINEERING", "CHE"),
    ("DAIRYING", "DRG"),
    ("FOOD TECHNOLOGY", "FDT"),
    ("GEO INFORMATICS", "GEO"),
    ("MINING ENGINEERING", "MIN"),
    ("METALLURGY AND MATERIAL ENGINEERING", "MMT"),
    ("PHARMACEUTICAL ENGINEERING", "PHE"),
    ("TEXTILE TECHNOLOGY / TEXTILE ENGINEERING", "TEX")
  ]

  /** Computer Science & IT. */
  const ComputingCodes: seq<(string, string)> := [
    ("COMPUTER ENGINEERING", "CME"),
    ("COMPUTER SCIENCE AND ENGG (ARTIFICIAL INTELLIGENCE)", "CSA"),
    ("COMPUTER SCIENCE & DESIGN", "CSG"),
    ("COMPUTER SCIENCE & ENGINEERING (NETWORKS)", "CSN"),
    ("COMPUTER SCIENCE AND ENGINEERING (IOT)", "CSO"),
    ("COMPUTER SCIENCE AND TECHNOLOGY", "CST"),
    ("COMPUTER ENGINEERING(SOFTWARE ENGINEERING)", "CSW"),
    ("DIGITAL TECHNIQUES FOR DESIGN AND PLANNING", "DTD"),
    ("INFORMATION TECHNOLOGY", "INF"),
    ("INFORMATION TECHNOLOGY AND ENGINEERING", "ITE")
  ]

  /** AI & Data Science. */
  const DataScienceCodes: seq<(string, string)> := [
    ("ARTIFICIAL INTELLIGENCE", "AI"),
    ("ARTIFICIAL INTELLIGENCE AND DATA SCIENCE", "AID"),
    ("ARTIFICIAL INTELLIGENCE AND MACHINE LEARNING", "AIM"),
    ("CSE (IOT AND CYBER SECURITY INCLUDING BLOCK CHAIN TECHNOLOGY)", "CIC"),
    (MixedCaseKey, "CIC"),
    ("COMPUTER SCIENCE", "CS"),
    ("COMPUTER SCIENCE AND BUSINESS SYSTEM", "CSB"),
    ("COMPUTER SCIENCE AND ENGINEERING (CYBER SECURITY)", "CSC"),
    ("COMPUTER SCIENCE AND ENGINEERING (DATA SCIENCE)", "CSD"),
    ("COMPUTER SCIENCE AND ENGINEERING", "CSE"),
    ("COMPUTER SCIENCE AND INFORMATION TECHNOLOGY", "CSI"),
    ("COMPUTER SCIENCE AND ENGINEERING (ARTIFICIAL INTELLIGENCE AND MACHINE LEARNING)", "CSM")
  ]

  /** Electronics & Electrical. */
  const ElectronicsCodes: seq<(string, string)> := [
    ("BIO-MEDICAL ENGINEERING", "BME"),
    ("ELECTRONICS AND COMMUNICATION (ADVANCED COMMUNICATION TECH)", "ECA"),
    ("ELECTRONICS AND COMMUNICATION ENGINEERING", "ECE"),
    ("ELECTRONICS COMMUNICATION AND INSTRUMENTATION ENGINEERING", "ECI"),
    ("ELECTRONICS AND COMPUTER ENGINEERING", "ECM"),
    ("ELECTRICAL AND ELECTRONICS ENGINEERING", "EEE"),
    ("ELECTRONICS AND INSTRUMENTATION ENGINEERING", "EIE"),
    ("ELECTRONICS AND TELECOMMUNICATION ENGG", "ETE"),
    ("ELECTRONICS AND TELEMATICS", "ETM"),
    ("ELECTRONICS ENGINEERING (VLSI DESIGN AND TECHNOLOGY)", "EVL")
  ]

  /** Pharmacy. */
  const PharmacyCodes: seq<(string, string)> := [
    ("PHARM - D (M.P.C. STREAM)", "PHD"),
    ("B. PHARMACY (M.P.C. STREAM)", "PHM")
  ]

  /** The official branch codes, in declaration order. */
  const OfficialBranchCodes: seq<(string, string)> :=
    MechanicalCodes + AgriculturalCodes + ComputingCodes + DataScienceCodes + ElectronicsCodes + PharmacyCodes

  /** Every key is non-empty and every code is one to three letters. */
  predicate WellFormedTable(table: seq<(string, string)>) {
    forall i :: 0 <= i < |table| ==> table[i].0 != "" && 0 < |table[i].1| <= 3
  }

  lemma WellFormedConcat(a: seq<(string, string)>, b: seq<(string, string)>)
    requires WellFormedTable(a) && WellFormedTable(b)
    ensures WellFormedTable(a + b)
  {
    forall i | 0 <= i < |a + b| ensures (a + b)[i].0 != "" && 0 < |(a + b)[i].1| <= 3 {
      if i >= |a| {
        assert (a + b)[i] == b[i - |a|];
      }
    }
  }

  lemma EngineeringGroupsWellFormed()
    ensures WellFormedTable(MechanicalCodes) && WellFormedTable(AgriculturalCodes)
    ensures WellFormedTable(ComputingCodes)
  {
  }

  lemma ScienceGroupsWellFormed()
    ensures WellFormedTable(DataScienceCodes) && WellFormedTable(ElectronicsCodes)
    ensures WellFormedTable(PharmacyCodes)
  {
  }

  lemma OfficialTableWellFormed()
    ensures WellFormedTable(OfficialBranchCodes)
  {
    EngineeringGroupsWellFormed();
    ScienceGroupsWellFormed();
    WellFormedConcat(MechanicalCodes, AgriculturalCodes);
    WellFormedConcat(MechanicalCodes + AgriculturalCodes, ComputingCodes);
    WellFormedConcat(MechanicalCodes + AgriculturalCodes + ComputingCodes, DataScienceCodes);
    WellFormedConcat(MechanicalCodes + AgriculturalCodes + ComputingCodes + DataScienceCodes, ElectronicsCodes);
    WellFormedConcat(MechanicalCodes + AgriculturalCodes + ComputingCodes + DataScienceCodes + ElectronicsCodes, PharmacyCodes);
  }

  /** The one key with a lower-case letter in it, written in two pieces so that its letters can be read off. */
  const MixedCaseKey: string := "CSE (IoT" + " AND CYBER SECURITY INCLUDING BLOCK CHAIN TECHNOLOGY)"

  /** `branchName.toUpperCase().trim()`. */
  function Normalize(name: string): (n: string)
    ensures HasNoLower(n)
  {
    ToUpperHasNoLower(name);
    TrimSubset(ToUpper(name));
    Trim(ToUpper(name))
  }

  /** The partial-match test: one name contains the other. */
  predicate Overlaps(entry: string, n: string) {
    Contains(entry, n) || Contains(n, entry)
  }

  /** The first entry of `table`, in declaration order, whose name overlaps `n`. */
  function FirstOverlap(table: seq<(string, string)>, n: string): (r: Option<nat>)
    ensures r.Some? ==> r.value < |table| && Overlaps(table[r.value].0, n)
    ensures r.Some? ==> forall j :: 0 <= j < r.value ==> !Overlaps(table[j].0, n)
    ensures r.None? ==> forall j :: 0 <= j < |table| ==> !Overlaps(table[j].0, n)
  {
    if table == [] then None
    else if Overlaps(table[0].0, n) then Some(0)
    else
      match FirstOverlap(table[1..], n)
      case None => None
      case Some(i) => Some(i + 1)
  }

  /** An overlapping entry with no overlapping entry before it is the first overlap. */
  lemma {:induction false} FirstOverlapIs(table: seq<(string, string)>, n: string, i: nat)
    requires i < |table| && Overlaps(table[i].0, n)
    requires forall j :: 0 <= j < i ==> !Overlaps(table[j].0, n)
    ensures FirstOverlap(table, n) == Some(i)
  {
    if i > 0 {
      FirstOverlapIs(table[1..], n, i - 1);
    }
  }

  /** A code of a well-formed table has at most three letters. */
  lemma EntryShort(table: seq<(string, string)>, i: nat)
    requires WellFormedTable(table) && i < |table|
    ensures |table[i].1| <= 3
  {
  }

  /** A code found in a well-formed table has at most three letters. */
  lemma LookupShort(table: seq<(string, string)>, k: string)
    ensures WellFormedTable(table) && Lookup(table, k).Some? ==> |Lookup(table, k).value| <= 3
  {
    var r := Lookup(table, k);
    if WellFormedTable(table) && r.Some? {
      var i :| 0 <= i < |table| && table[i] == (k, r.value);
    }
  }

  /** The resolver on a truthy name, over a given code table. */
  function Resolve(table: seq<(string, string)>, name: string): string {
    var n := Normalize(name);
    var exact := Lookup(table, n);
    var overlap := FirstOverlap(table, n);
    if exact.Some? && exact.value != "" then exact.value
    else if overlap.Some? then table[overlap.value].1
    else ToUpper(Take(name, 4))
  }

  /** Over a well-formed table no code is longer than four characters. */
  lemma ResolveShort(table: seq<(string, string)>, name: string)
    requires WellFormedTable(table)
    ensures |Resolve(table, name)| <= 4
  {
    var n := Normalize(name);
    var exact := Lookup(table, n);
    if exact.Some? && exact.value != "" {
      LookupShort(table, n);
    } else if FirstOverlap(table, n).Some? {
      EntryShort(table, FirstOverlap(table, n).value);
    } else {
      assert |Take(name, 4)| <= 4;
    }
  }

  /**
   * `getBranchCode(branchName)`. A truthy name that is not a string makes the
   * source throw, so callers pass a string or a falsy value.
   */
  function GetBranchCode(branchName: Value): (code: string)
    requires branchName.Str? || !Truthy(branchName)
    ensures !Truthy(branchName) ==> code == ""
    ensures |code| <= 4
  {
    if !Truthy(branchName) then ""
    else
      OfficialTableWellFormed();
      ResolveShort(OfficialBranchCodes, branchName.s);
      Resolve(OfficialBranchCodes, branchName.s)
  }

  /** An input whose normalised form is a key, and no earlier entry's, gets that entry's code. */
  lemma ExactMatchWins(table: seq<(string, string)>, name: string, i: nat)
    requires WellFormedTable(table)
    requires i < |table| && Normalize(name) == table[i].0
    requires forall j :: 0 <= j < i ==> table[j].0 != table[i].0
    ensures Resolve(table, name) == table[i].1
  {
    LookupFirst(table, i);
  }

  /** Without an exact hit, the first entry that overlaps the normalised name decides. */
  lemma OverlapWins(table: seq<(string, string)>, name: string, i: nat)
    requires Lookup(table, Normalize(name)).None?
    requires i < |table| && Overlaps(table[i].0, Normalize(name))
    requires forall j :: 0 <= j < i ==> !Overlaps(table[j].0, Normalize(name))
    ensures Resolve(table, name) == table[i].1
  {
    FirstOverlapIs(table, Normalize(name), i);
  }

  /** A name no entry overlaps is no entry's key either. */
  lemma NoOverlapNoEntry(table: seq<(string, string)>, n: string)
    requires forall j :: 0 <= j < |table| ==> !Overlaps(table[j].0, n)
    ensures Lookup(table, n).None? && FirstOverlap(table, n).None?
  {
    ContainsSelf(n);
    forall k | 0 <= k < |table| ensures table[k].0 != n {
      assert !Overlaps(table[k].0, n);
    }
  }

  /** With no overlapping entry, the code is the first four characters of the original name, upper-cased. */
  lemma NoOverlapFallsBack(table: seq<(string, string)>, name: string)
    requires forall j :: 0 <= j < |table| ==> !Overlaps(table[j].0, Normalize(name))
    ensures |name| <= 4 ==> Resolve(table, name) == ToUpper(name)
    ensures |name| > 4 ==> Resolve(table, name) == ToUpper(name)[..4]
  {
    NoOverlapNoEntry(table, Normalize(name));
    if |name| > 4 {
      ToUpperPrefix(name, 4);
    }
  }

  /** The code depends only on the upper-cased name. */
  lemma CaseInsensitive(table: seq<(string, string)>, a: string, b: string)
    requires ToUpper(a) == ToUpper(b)
    ensures Resolve(table, a) == Resolve(table, b)
  {
    var n := Normalize(a);
    assert Normalize(b) == n;
    assert Lookup(table, Normalize(b)) == Lookup(table, n);
    assert FirstOverlap(table, Normalize(b)) == FirstOverlap(table, n);
    UpperTakeAgree(a, b, 4);
  }

  /** Names with the same upper-cased form have the same upper-cased prefixes. */
  lemma UpperTakeAgree(a: string, b: string, n: nat)
    requires ToUpper(a) == ToUpper(b)
    ensures ToUpper(Take(a, n)) == ToUpper(Take(b, n))
  {
    assert |a| == |b|;
    if |a| > n {
      ToUpperPrefix(a, n);
      ToUpperPrefix(b, n);
    }
  }

  /** A whitespace-only name normalises to `''`, which every key contains: the first entry's code. */
  lemma BlankNameGivesFirstCode(table: seq<(string, string)>, name: string)
    requires WellFormedTable(table) && |table| > 0
    requires forall i :: 0 <= i < |name| ==> IsSpace(name[i])
    ensures Resolve(table, name) == table[0].1
  {
    assert forall i :: 0 <= i < |name| ==> ToUpper(name)[i] == name[i];
    TrimAllSpace(ToUpper(name));
    ContainsEmpty(table[0].0);
    assert FirstOverlap(table, "") == Some(0);
  }

  /** So a non-empty name of spaces resolves to `ANE`, the aeronautical code. */
  lemma BlankNameGivesAne(name: string)
    requires name != [] && forall i :: 0 <= i < |name| ==> IsSpace(name[i])
    ensures GetBranchCode(Str(name)) == "ANE"
  {
    OfficialTableWellFormed();
    BlankNameGivesFirstCode(OfficialBranchCodes, name);
    assert OfficialBranchCodes[0] == MechanicalCodes[0];
  }

  /** The `CSE (IoT ...)` key is in the table but holds a lower-case letter, which a normalised input never has. */
  lemma MixedCaseKeyNeverExact(name: string)
    ensures (MixedCaseKey, "CIC") in OfficialBranchCodes
    ensures Normalize(name) != MixedCaseKey
  {
    assert DataScienceCodes[4] == (MixedCaseKey, "CIC");
    assert MixedCaseKey[6] == 'o';
  }
}
