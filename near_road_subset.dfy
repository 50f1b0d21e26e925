/** The cleaning script NearRoadExp_AADT_Subset.py: the same column rules as
    scripts/subset_hpms.py, applied after dropping links of non-positive
    length, with only the total VKT and VMT derived and the urban codes
    compared without cutting at '.'; the error, single-truck-class and
    missing-lane subsets; the URBAN descriptions; the share of links whose
    urban code did not change; and the file name of an exported table. */
module NearRoadSubset {
  import opened Common
  import opened HpmsCleaning

  /** `Shape_Length > 0`. */
  predicate PositiveLength(r: HpmsLink) {
    r.shapeLength > 0.0
  }

  /** UAC_IS_SAME of the script: the original code compared as it is. */
  function MarkSameCode(r: HpmsLink): (c: HpmsLink)
    ensures c.uacIsSame <==> r.origUrbanCode == r.newUrbanCode
    ensures c.(uacIsSame := r.uacIsSame) == r
  {
    r.(uacIsSame := r.origUrbanCode == r.newUrbanCode)
  }

  /** A cell of NEW_URBAN_CODE as the script leaves it at line 236: the
      mapping's 'U' entry is the UACE10 column as a whole and no `astype(str)`
      follows, so a 'U' link's cell holds that column object, not a code. */
  datatype UrbanCell = CodeText(text: string) | WholeUaceColumn

  /** NEW_URBAN_CODE of one link as written at line 236. */
  function UrbanCellAsWritten(m: Option<UacMatch>): (c: UrbanCell)
    ensures c == WholeUaceColumn <==> m.Some? && m.value.uatyp10 == "U"
    ensures c.CodeText? ==> c.text == NewUrbanCode(m)
  {
    if m.Some? && m.value.uatyp10 == "U" then WholeUaceColumn else CodeText(NewUrbanCode(m))
  }

  /** As written, two 'U' links with different census codes get the same
      cell, and that cell is no code text at all, so the comparison with
      ORIG_URBAN_CODE at line 265 and the mapping at line 247 do not see the
      link's own code. */
  lemma AsWrittenCellIgnoresRow(a: UacMatch, b: UacMatch, orig: string)
    requires a.uatyp10 == "U" && b.uatyp10 == "U" && a.uace10 != b.uace10
    ensures UrbanCellAsWritten(Some(a)) == UrbanCellAsWritten(Some(b))
    ensures NewUrbanCode(Some(a)) != NewUrbanCode(Some(b))
    ensures UrbanCellAsWritten(Some(a)) != CodeText(orig)
  {
  }

  /** One link through the column steps of the script, in order: totals,
      zero-filling and the lane default, lane lengths, urban code and
      category, code comparison. */
  function NearRoadRow(r: HpmsLink, uac: map<int, UacMatch>): HpmsLink {
    MarkSameCode(WithUrban(WithLaneLengths(CorrectRow(WithTotals(r))), uac))
  }

  /** The prepared table: the links of positive length, each through the
      column steps, in input order. */
  function NearRoadPrepared(raw: seq<HpmsLink>, uac: map<int, UacMatch>): (t: seq<HpmsLink>)
    ensures |t| == |Filter(raw, PositiveLength)| <= |raw|
    ensures forall i :: 0 <= i < |t| ==> t[i] == NearRoadRow(Filter(raw, PositiveLength)[i], uac)
  {
    var kept := Filter(raw, PositiveLength);
    seq(|kept|, i requires 0 <= i < |kept| => NearRoadRow(kept[i], uac))
  }

  /** The preparation part of the script, in place on `hpms`. */
  method PrepareNearRoad(hpms: Frame, uac: map<int, UacMatch>)
    modifies hpms
    ensures hpms.rows == NearRoadPrepared(old(hpms.rows), uac)
  {
    var rows := Filter(hpms.rows, PositiveLength);
    rows := Map(rows, WithTotals);
    rows := Map(rows, CorrectRow);
    rows := Map(rows, WithLaneLengths);
    rows := MergeUacData(rows, uac);
    rows := Map(rows, MarkSameCode);
    assert rows == NearRoadPrepared(hpms.rows, uac);
    hpms.rows := rows;
  }

  /** What the column steps make of one link. */
  lemma NearRoadRowFacts(r: HpmsLink, uac: map<int, UacMatch>)
    ensures var p := NearRoadRow(r, uac);
      SameFacts(p, r) &&
      |p.geoid| >= 5 && |p.statefp| >= 2 && |p.countyfp| >= 3 &&
      p.throughLanes.Some? && p.throughLanes.value != 0.0 &&
      p.urban == Urban(p.newUrbanCode) &&
      p.newUrbanCode == NewUrbanCode(Lookup(uac, r.fid)) &&
      p.origUrbanCode == r.origUrbanCode &&
      (p.uacIsSame <==> p.origUrbanCode == p.newUrbanCode) &&
      (p.vkt.Some? <==> r.aadt.Some?)
  {
    var a := WithTotals(r);
    var b := CorrectRow(a);
    var c := WithLaneLengths(b);
    var d := WithUrban(c, uac);
    var p := MarkSameCode(d);
    assert p == NearRoadRow(r, uac);
    assert SameFacts(a, r) && a.origUrbanCode == r.origUrbanCode;
    assert SameFacts(b, a) && b.vkt == a.vkt && b.origUrbanCode == a.origUrbanCode;
    assert SameFacts(c, b) && c.vkt == b.vkt && c.origUrbanCode == b.origUrbanCode;
    assert c.geoid == b.geoid && c.statefp == b.statefp && c.countyfp == b.countyfp;
    assert c.throughLanes == b.throughLanes;
    assert SameFacts(d, c) && d.vkt == c.vkt && d.origUrbanCode == c.origUrbanCode;
    assert d.geoid == c.geoid && d.statefp == c.statefp && d.countyfp == c.countyfp;
    assert d.throughLanes == c.throughLanes;
    assert SameFacts(p, d) && p.vkt == d.vkt && p.origUrbanCode == d.origUrbanCode;
    assert p.geoid == d.geoid && p.statefp == d.statefp && p.countyfp == d.countyfp;
    assert p.throughLanes == d.throughLanes && p.newUrbanCode == d.newUrbanCode && p.urban == d.urban;
  }

  /** The length filter comes first: every prepared link comes from an
      input link of positive length with the same identifier, counts and
      length, and every input link of positive length is prepared. */
  lemma LengthFilterFirst(raw: seq<HpmsLink>, uac: map<int, UacMatch>)
    ensures forall p :: p in NearRoadPrepared(raw, uac) ==>
      p.shapeLength > 0.0 && exists r :: r in raw && PositiveLength(r) && SameFacts(p, r)
    ensures forall r :: r in raw && PositiveLength(r) ==> NearRoadRow(r, uac) in NearRoadPrepared(raw, uac)
  {
    var kept := Filter(raw, PositiveLength);
    var t := NearRoadPrepared(raw, uac);
    forall p | p in t
      ensures p.shapeLength > 0.0 && exists r :: r in raw && PositiveLength(r) && SameFacts(p, r)
    {
      var i :| 0 <= i < |t| && t[i] == p;
      NearRoadRowFacts(kept[i], uac);
      assert kept[i] in kept;
    }
    forall r | r in raw && PositiveLength(r)
      ensures NearRoadRow(r, uac) in t
    {
      assert r in kept;
      var i :| 0 <= i < |kept| && kept[i] == r;
      assert t[i] == NearRoadRow(r, uac);
    }
  }

  /** `THROUGH_LANES` missing or 0 (the script's comparisons with "" and
      " " never hold for a number). */
  predicate MissingLanes(r: HpmsLink) {
    r.throughLanes.None? || r.throughLanes.value == 0.0
  }

  /** `sub_aadt_lnnazeroerrorsrm`: links outside the error subset with a
      missing lane count. */
  function MissingLanesSubset(t: seq<HpmsLink>): (m: seq<HpmsLink>)
    ensures forall r :: r in m <==> r in t && SharesNoErrorId(t, r) && MissingLanes(r)
  {
    Filter(t, MissingLanesFn(t))
  }

  function MissingLanesFn(t: seq<HpmsLink>): HpmsLink -> bool {
    (r: HpmsLink) => SharesNoErrorId(t, r) && MissingLanes(r)
  }

  /** The lane default runs before the subset is taken, so the subset of
      links with a missing lane count is always empty. */
  lemma MissingLanesSubsetEmpty(raw: seq<HpmsLink>, uac: map<int, UacMatch>)
    ensures MissingLanesSubset(NearRoadPrepared(raw, uac)) == []
  {
    var t := NearRoadPrepared(raw, uac);
    var kept := Filter(raw, PositiveLength);
    forall i | 0 <= i < |t|
      ensures !MissingLanesFn(t)(t[i])
    {
      NearRoadRowFacts(kept[i], uac);
    }
    FilterNone(t, MissingLanesFn(t));
  }

  /** One truck class reported: heavy-duty positive with medium-duty
      missing or 0, or the other way round. */
  predicate OneTruckClass(r: HpmsLink) {
    (r.aadtHdv.Some? && r.aadtHdv.value > 0.0 && (r.aadtMdv.None? || r.aadtMdv.value == 0.0)) ||
    (r.aadtMdv.Some? && r.aadtMdv.value > 0.0 && (r.aadtHdv.None? || r.aadtHdv.value == 0.0))
  }

  /** `sub_aadt_1type`: links outside the error subset that report one
      truck class. */
  function OneTruckClassSubset(t: seq<HpmsLink>): (o: seq<HpmsLink>)
    ensures |o| <= |t|
  {
    Filter(t, (r: HpmsLink) => SharesNoErrorId(t, r) && OneTruckClass(r))
  }

  /** A link is in the single-class subset exactly when it is kept by the
      error filter and exactly one of its truck counts, a missing one read
      as 0, is positive while the other is 0. */
  lemma OneTruckClassMeans(t: seq<HpmsLink>)
    ensures forall r :: r in OneTruckClassSubset(t) <==>
      (r in SubsetHpms(t) &&
       ((r.aadtHdv.GetOr(0.0) > 0.0 && r.aadtMdv.GetOr(0.0) == 0.0) ||
        (r.aadtMdv.GetOr(0.0) > 0.0 && r.aadtHdv.GetOr(0.0) == 0.0)))
  {
  }

  /** `urban_desc`: the description of an URBAN category, missing for any
      other value. */
  function UrbanDesc(u: int): (d: Option<string>)
    ensures d.Some? <==> 0 <= u <= 2
    ensures d == Some("rural") <==> u == 0
    ensures d == Some("urban") <==> u == 1
    ensures d == Some("small urban") <==> u == 2
  {
    if u == 0 then Some("rural")
    else if u == 1 then Some("urban")
    else if u == 2 then Some("small urban")
    else None
  }

  /** Every prepared link gets a description, and its description names the
      kind of its urban code. */
  lemma PreparedLinksDescribed(raw: seq<HpmsLink>, uac: map<int, UacMatch>)
    ensures forall p :: p in NearRoadPrepared(raw, uac) ==>
      UrbanDesc(p.urban).Some? &&
      (UrbanDesc(p.urban) == Some("rural") <==> p.newUrbanCode == "99999") &&
      (UrbanDesc(p.urban) == Some("small urban") <==> p.newUrbanCode == "99998")
  {
    var kept := Filter(raw, PositiveLength);
    var t := NearRoadPrepared(raw, uac);
    forall p | p in t
      ensures p.urban == Urban(p.newUrbanCode)
    {
      var i :| 0 <= i < |t| && t[i] == p;
      NearRoadRowFacts(kept[i], uac);
    }
  }

  /** The number of links whose urban code did not change. */
  function SameCount(t: seq<HpmsLink>): (n: nat)
    ensures n <= |t|
  {
    if t == [] then 0 else (if t[0].uacIsSame then 1 else 0) + SameCount(t[1..])
  }

  /** `pcnt_uac_same` and `pcnt_uac_diff`: the percentages of links whose
      urban code stayed the same and changed; missing for an empty table,
      where the division fails. */
  function UacPercentages(t: seq<HpmsLink>): (p: Option<(real, real)>)
    ensures p.None? <==> |t| == 0
    ensures p.Some? ==> p.value.0 + p.value.1 == 100.0
    ensures p.Some? ==> 0.0 <= p.value.0 <= 100.0 && 0.0 <= p.value.1 <= 100.0
    ensures p.Some? ==> p.value.0 * (|t| as real) == (SameCount(t) as real) * 100.0
  {
    if |t| == 0 then None
    else
      var same := (SameCount(t) as real) / (|t| as real) * 100.0;
      assert same <= 100.0 by {
        assert (SameCount(t) as real) / (|t| as real) <= 1.0;
      }
      Some((same, 100.0 - same))
  }

  /** The percentage of unchanged codes is 100 exactly when every link kept
      its code. */
  lemma {:induction false} AllSameMeansHundred(t: seq<HpmsLink>)
    ensures SameCount(t) == |t| <==> forall i :: 0 <= i < |t| ==> t[i].uacIsSame
  {
    if t != [] {
      AllSameMeansHundred(t[1..]);
      assert forall i :: 1 <= i < |t| ==> t[i] == t[1..][i - 1];
    }
  }

  // ---------------------------------------------------------------------
  // my_table_export

  const CsvChars: set<char> := {'.', 'c', 's', 'v'}

  /** `s.rstrip(chars)`: trailing characters from the set removed. */
  function RStrip(s: string, chars: set<char>): (r: string)
    ensures |r| <= |s| && r == s[..|r|]
    ensures r != [] ==> r[|r| - 1] !in chars
    ensures forall i :: |r| <= i < |s| ==> s[i] in chars
  {
    if s != [] && s[|s| - 1] in chars then RStrip(s[..|s| - 1], chars) else s
  }

  /** The file name `my_table_export` builds as written: the name with its
      trailing '.', 'c', 's' and 'v' characters stripped, then ".csv". */
  function ExportNameAsWritten(fileName: string): (n: string)
    ensures n == RStrip(fileName, CsvChars) + ".csv"
    ensures |n| <= |fileName| + 4
  {
    RStrip(fileName, CsvChars) + ".csv"
  }

  /** The summary-statistics table is written as "..._summary_stat.csv":
      the final 's' of "stats" is stripped along with the suffix. */
  lemma SummaryStatsNameLosesLetter()
    ensures ExportNameAsWritten("hpms_aadt_subset_summary_stats") == "hpms_aadt_subset_summary_stat.csv"
    ensures ExportNameAsWritten("hpms_aadt_subset_summary_stats") != "hpms_aadt_subset_summary_stats" + ".csv"
  {
    var s := "hpms_aadt_subset_summary_stats";
    assert s[|s| - 1] == 's' && s[..|s| - 1] == "hpms_aadt_subset_summary_stat";
    var s' := s[..|s| - 1];
    assert s'[|s'| - 1] == 't';
    assert RStrip(s', CsvChars) == s';
    assert RStrip(s, CsvChars) == s';
  }

  /** `name` ends with ".csv". */
  predicate HasCsvSuffix(name: string) {
    |name| >= 4 && name[|name| - 4..] == ".csv"
  }

  /** The intended name: a trailing ".csv" removed as a suffix, then
      ".csv" appended. */
  function ExportName(fileName: string): (n: string)
    ensures HasCsvSuffix(n)
    ensures !HasCsvSuffix(fileName) ==> n == fileName + ".csv"
    ensures HasCsvSuffix(fileName) ==> n == fileName
  {
    if HasCsvSuffix(fileName) then fileName[..|fileName| - 4] + ".csv" else fileName + ".csv"
  }

  /** Naming is idempotent, and the base name is recovered from the file
      name: removing ".csv" gives back the name without its suffix. */
  lemma ExportNameRoundTrip(fileName: string)
    ensures ExportName(ExportName(fileName)) == ExportName(fileName)
    ensures !HasCsvSuffix(fileName) ==>
      ExportName(fileName)[..|ExportName(fileName)| - 4] == fileName
  {
  }

  /** Under the intended rule the summary-statistics table keeps its full
      name. */
  lemma SummaryStatsNameIntended()
    ensures ExportName("hpms_aadt_subset_summary_stats") == "hpms_aadt_subset_summary_stats.csv"
  {
    var s := "hpms_aadt_subset_summary_stats";
    assert s[|s| - 4..] == "tats";
  }

  /** A name ending in none of '.', 'c', 's' and 'v' (the names of the
      other exported tables) gets the same file name under both rules. */
  lemma AsWrittenAgreesWithoutStripChar(fileName: string)
    requires fileName == [] || fileName[|fileName| - 1] !in CsvChars
    ensures ExportNameAsWritten(fileName) == ExportName(fileName)
  {
    assert RStrip(fileName, CsvChars) == fileName;
    if |fileName| >= 4 {
      assert fileName[|fileName| - 4..][3] == fileName[|fileName| - 1];
    }
  }
}
