/**
 * The seat-category mapper of the phase-1 consolidation: a raw token such as
 * `BC_A_GIRLS_OU` becomes one of the 18 canonical rank columns, is excluded
 * (CAP and PH seats), or is passed through unchanged.
 */
module SeatCategory {
  import opened Options
  import opened Strings

  /** The caste groups of the output columns. */
  datatype Caste = OC | BCA | BCB | BCC | BCD | BCE | SC | ST | EWS

  datatype Gender = Boys | Girls

  /** The output column of a (caste group, gender) pair; EWS keeps the source's own header names. */
  function ColumnName(c: Caste, g: Gender): string {
    match c
    case OC => if g == Boys then "OC Boys" else "OC Girls"
    case BCA => if g == Boys then "BC-A Boys" else "BC-A Girls"
    case BCB => if g == Boys then "BC-B Boys" else "BC-B Girls"
    case BCC => if g == Boys then "BC-C Boys" else "BC-C Girls"
    case BCD => if g == Boys then "BC-D Boys" else "BC-D Girls"
    case BCE => if g == Boys then "BC-E Boys" else "BC-E Girls"
    case SC => if g == Boys then "SC Boys" else "SC Girls"
    case ST => if g == Boys then "ST Boys" else "ST Girls"
    case EWS => if g == Boys then "EWS GEN OU" else "EWS GIRLS"
  }

  /** Distinct (caste, gender) pairs have distinct column names. */
  lemma ColumnNameInjective(c1: Caste, g1: Gender, c2: Caste, g2: Gender)
    requires ColumnName(c1, g1) == ColumnName(c2, g2)
    ensures c1 == c2 && g1 == g2
  {
    var n1, n2 := ColumnName(c1, g1), ColumnName(c2, g2);
    // Tell the names apart by length and a few characters.
    assert |n1| == |n2| && n1[0] == n2[0] && n1[1] == n2[1];
    assert |n1| >= 8 ==> n1[3] == n2[3] && n1[5] == n2[5];
  }

  /** What `mapSeatCategory` returns: `null`, a canonical column, or the token itself. */
  datatype SeatMapping = Excluded | Canonical(caste: Caste, gender: Gender) | Unmapped(token: string)

  /** The object key the consolidation writes to for a mapped token. */
  function MappedKey(m: SeatMapping): string
    requires !m.Excluded?
  {
    match m
    case Canonical(c, g) => ColumnName(c, g)
    case Unmapped(t) => t
  }

  /** CAP and PH seats are left out of the cutoff table. */
  predicate IsExcludedToken(t: string) {
    Contains(t, "_CAP_") || Contains(t, "_PH")
  }

  /** The gender test every caste rule applies. */
  function GenderOf(t: string): Gender {
    if Contains(t, "GIRLS") then Girls else Boys
  }

  /** The caste prefixes in rule order; the six minority prefixes fold into OC. */
  const CastePrefixes: seq<(string, Caste)> := [
    ("OC_", OC), ("BC_A_", BCA), ("BC_B_", BCB), ("BC_C_", BCC), ("BC_D_", BCD),
    ("BC_E_", BCE), ("SC_", SC), ("ST_", ST), ("EWS_", EWS),
    ("MUS_", OC), ("CHR_", OC), ("SIK_", OC), ("JAI_", OC), ("BUD_", OC), ("PAR_", OC)
  ]

  /**
   * `mapSeatCategory`, rule by rule: the exclusion test first, then one
   * prefix test per caste group, then the minority prefixes, else the token.
   * The lemmas below read the same mapping off the prefix table.
   */
  function MapSeatCategory(t: string): (m: SeatMapping)
    ensures m.Excluded? <==> IsExcludedToken(t)
    ensures m.Canonical? ==> m.gender == GenderOf(t)
    ensures m.Unmapped? ==> m.token == t
  {
    if Contains(t, "_CAP_") || Contains(t, "_PH") then Excluded
    else if StartsWith(t, "OC_") then (if Contains(t, "GIRLS") then Canonical(OC, Girls) else Canonical(OC, Boys))
    else if StartsWith(t, "BC_A_") then (if Contains(t, "GIRLS") then Canonical(BCA, Girls) else Canonical(BCA, Boys))
    else if StartsWith(t, "BC_B_") then (if Contains(t, "GIRLS") then Canonical(BCB, Girls) else Canonical(BCB, Boys))
    else if StartsWith(t, "BC_C_") then (if Contains(t, "GIRLS") then Canonical(BCC, Girls) else Canonical(BCC, Boys))
    else if StartsWith(t, "BC_D_") then (if Contains(t, "GIRLS") then Canonical(BCD, Girls) else Canonical(BCD, Boys))
    else if StartsWith(t, "BC_E_") then (if Contains(t, "GIRLS") then Canonical(BCE, Girls) else Canonical(BCE, Boys))
    else if StartsWith(t, "SC_") then (if Contains(t, "GIRLS") then Canonical(SC, Girls) else Canonical(SC, Boys))
    else if StartsWith(t, "ST_") then (if Contains(t, "GIRLS") then Canonical(ST, Girls) else Canonical(ST, Boys))
    else if StartsWith(t, "EWS_") then (if Contains(t, "GIRLS") then Canonical(EWS, Girls) else Canonical(EWS, Boys))
    else if StartsWith(t, "MUS_") || StartsWith(t, "CHR_") || StartsWith(t, "SIK_")
         || StartsWith(t, "JAI_") || StartsWith(t, "BUD_") || StartsWith(t, "PAR_") then
      (if Contains(t, "GIRLS") then Canonical(OC, Girls) else Canonical(OC, Boys))
    else Unmapped(t)
  }

  /** Exclusion wins over every caste prefix. */
  lemma ExclusionHasPriority(t: string)
    requires Contains(t, "_CAP_") || Contains(t, "_PH")
    ensures MapSeatCategory(t) == Excluded
  {
  }

  /** A token that is not excluded and starts with a table prefix maps to that prefix's group. */
  lemma PrefixGivesCaste(t: string, i: nat)
    requires i < |CastePrefixes| && StartsWith(t, CastePrefixes[i].0)
    requires !IsExcludedToken(t)
    ensures MapSeatCategory(t) == Canonical(CastePrefixes[i].1, GenderOf(t))
  {
    var p := CastePrefixes[i].0;
    assert !(Contains(t, "_CAP_") || Contains(t, "_PH"));
    assert Contains(t, "GIRLS") <==> GenderOf(t) == Girls;
    // Whichever rule fires, its prefix and `p` begin alike, which singles out `p` in the table.
    if StartsWith(t, "OC_") {
      PrefixesAgree(t, p, "OC_");
    } else if StartsWith(t, "BC_A_") {
      PrefixesAgree(t, p, "BC_A_");
    } else if StartsWith(t, "BC_B_") {
      PrefixesAgree(t, p, "BC_B_");
    } else if StartsWith(t, "BC_C_") {
      PrefixesAgree(t, p, "BC_C_");
    } else if StartsWith(t, "BC_D_") {
      PrefixesAgree(t, p, "BC_D_");
    } else if StartsWith(t, "BC_E_") {
      PrefixesAgree(t, p, "BC_E_");
    } else if StartsWith(t, "SC_") {
      PrefixesAgree(t, p, "SC_");
    } else if StartsWith(t, "ST_") {
      PrefixesAgree(t, p, "ST_");
    } else if StartsWith(t, "EWS_") {
      PrefixesAgree(t, p, "EWS_");
    } else if StartsWith(t, "MUS_") {
      PrefixesAgree(t, p, "MUS_");
    } else if StartsWith(t, "CHR_") {
      PrefixesAgree(t, p, "CHR_");
    } else if StartsWith(t, "SIK_") {
      PrefixesAgree(t, p, "SIK_");
    } else if StartsWith(t, "JAI_") {
      PrefixesAgree(t, p, "JAI_");
    } else if StartsWith(t, "BUD_") {
      PrefixesAgree(t, p, "BUD_");
    } else if StartsWith(t, "PAR_") {
      PrefixesAgree(t, p, "PAR_");
    } else {
      assert false;
    }
  }

  /** Two prefixes of `t` of at least three letters share their first three letters, and their fourth when both have one. */
  lemma PrefixesAgree(t: string, p: string, q: string)
    requires StartsWith(t, p) && StartsWith(t, q) && |p| >= 3 && |q| >= 3
    ensures p[0] == q[0] && p[1] == q[1] && p[2] == q[2]
    ensures |p| >= 4 && |q| >= 4 ==> p[3] == q[3]
  {
    assert p[0] == t[..|p|][0] && q[0] == t[..|q|][0];
    assert p[1] == t[..|p|][1] && q[1] == t[..|q|][1];
    assert p[2] == t[..|p|][2] && q[2] == t[..|q|][2];
    if |p| >= 4 && |q| >= 4 {
      assert p[3] == t[..|p|][3] && q[3] == t[..|q|][3];
    }
  }

  /** A token that is not excluded and has none of the table's prefixes is passed through. */
  lemma NoPrefixIsUnmapped(t: string)
    requires !IsExcludedToken(t)
    requires forall i :: 0 <= i < |CastePrefixes| ==> !StartsWith(t, CastePrefixes[i].0)
    ensures MapSeatCategory(t) == Unmapped(t)
  {
    assert CastePrefixes[0].0 == "OC_" && CastePrefixes[1].0 == "BC_A_" && CastePrefixes[2].0 == "BC_B_";
    assert CastePrefixes[3].0 == "BC_C_" && CastePrefixes[4].0 == "BC_D_" && CastePrefixes[5].0 == "BC_E_";
    assert CastePrefixes[6].0 == "SC_" && CastePrefixes[7].0 == "ST_" && CastePrefixes[8].0 == "EWS_";
    assert CastePrefixes[9].0 == "MUS_" && CastePrefixes[10].0 == "CHR_" && CastePrefixes[11].0 == "SIK_";
    assert CastePrefixes[12].0 == "JAI_" && CastePrefixes[13].0 == "BUD_" && CastePrefixes[14].0 == "PAR_";
  }

  /** The minority prefixes fold into the OC columns, by the same `GIRLS` test. */
  lemma MinorityFoldsIntoOC(t: string, i: nat)
    requires 9 <= i < |CastePrefixes| && StartsWith(t, CastePrefixes[i].0)
    requires !IsExcludedToken(t)
    ensures MapSeatCategory(t) == Canonical(OC, GenderOf(t))
  {
    PrefixGivesCaste(t, i);
  }
}
