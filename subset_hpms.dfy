/** The road-link cleaning of scripts/subset_hpms.py: FIPS codes are
    zero-filled, a missing lane count becomes 2, VKT and VMT are derived per
    vehicle class, each link gets a corrected urban code and an URBAN
    category, and every link sharing its identifier with an AADT error row is
    removed. Lengths are in metres; arithmetic is exact over `real`. */
module HpmsCleaning {
  import opened Common

  /** One row of the HPMS county-intersection table, with the columns the
      cleaning derives. A derived column holds whatever the input carried
      until the step that computes it overwrites it. */
  datatype HpmsLink = HpmsLink(
    fid: int,
    statefp: string,
    countyfp: string,
    geoid: string,
    fSystem: int,
    throughLanes: Option<real>,
    origUrbanCode: string,
    aadt: Option<real>,
    aadtMdv: Option<real>,
    aadtHdv: Option<real>,
    shapeLength: real,
    vkt: Option<real>,
    vmt: Option<real>,
    vktMdv: Option<real>,
    vmtMdv: Option<real>,
    vktHdv: Option<real>,
    vmtHdv: Option<real>,
    vktLdv: Option<real>,
    vmtLdv: Option<real>,
    laneKms: Option<real>,
    laneMiles: Option<real>,
    newUrbanCode: string,
    urban: int,
    uacIsSame: bool)

  /** The census urban-area columns UACE10 and UATYP10 joined to a link. */
  datatype UacMatch = UacMatch(uace10: string, uatyp10: string)

  /** A data frame the cleaning steps modify in place. */
  class Frame {
    var rows: seq<HpmsLink>

    constructor(rows: seq<HpmsLink>)
      ensures this.rows == rows
    {
      this.rows := rows;
    }
  }

  const MetresPerKm: real := 1000.0
  const MetresPerMile: real := 1609.344

  /** `p` is `s` zero-filled to `width` characters. */
  ghost predicate ZeroFilled(p: string, s: string, width: nat) {
    |p| == (if |s| < width then width else |s|) &&
    p[|p| - |s|..] == s &&
    forall i :: 0 <= i < |p| - |s| ==> p[i] == '0'
  }

  /** The columns a cleaning step reads and does not write. */
  ghost predicate SameBase(a: HpmsLink, b: HpmsLink) {
    a.fid == b.fid && a.fSystem == b.fSystem && a.origUrbanCode == b.origUrbanCode &&
    a.aadt == b.aadt && a.aadtMdv == b.aadtMdv && a.aadtHdv == b.aadtHdv &&
    a.shapeLength == b.shapeLength
  }

  // ---------------------------------------------------------------------
  // correct_hpms_columns

  /** `fillna(0).replace(0, 2)` on THROUGH_LANES: a missing or zero lane
      count becomes 2, any other count is kept. */
  function DefaultLanes(x: Option<real>): (n: real)
    ensures n != 0.0
    ensures x.Some? && x.value != 0.0 ==> n == x.value
    ensures x.None? || x.value == 0.0 ==> n == 2.0
  {
    x.GetOr(0.0) + (if x.GetOr(0.0) == 0.0 then 2.0 else 0.0)
  }

  /** One row of `correct_hpms_columns`: GEOID, STATEFP and COUNTYFP
      zero-filled to 5, 2 and 3 characters, and the lane default. */
  function CorrectRow(r: HpmsLink): (c: HpmsLink)
    ensures ZeroFilled(c.geoid, r.geoid, 5)
    ensures ZeroFilled(c.statefp, r.statefp, 2)
    ensures ZeroFilled(c.countyfp, r.countyfp, 3)
    ensures c.throughLanes == Some(DefaultLanes(r.throughLanes))
    ensures c.(geoid := r.geoid, statefp := r.statefp, countyfp := r.countyfp,
               throughLanes := r.throughLanes) == r
  {
    r.(geoid := PadLeft(r.geoid, 5, '0'),
       statefp := PadLeft(r.statefp, 2, '0'),
       countyfp := PadLeft(r.countyfp, 3, '0'),
       throughLanes := Some(DefaultLanes(r.throughLanes)))
  }

  /** Correcting a corrected row changes nothing. */
  lemma CorrectRowIdempotent(r: HpmsLink)
    ensures CorrectRow(CorrectRow(r)) == CorrectRow(r)
  {
    PadLeftIdempotent(r.geoid, 5, '0');
    PadLeftIdempotent(r.statefp, 2, '0');
    PadLeftIdempotent(r.countyfp, 3, '0');
  }

  /** `correct_hpms_columns(hpms)`: the column corrections, in place. */
  method CorrectHpmsColumns(hpms: Frame)
    modifies hpms
    ensures hpms.rows == Map(old(hpms.rows), CorrectRow)
  {
    hpms.rows := Map(hpms.rows, CorrectRow);
  }

  // ---------------------------------------------------------------------
  // calculate_vkt_vmt and the lane lengths of main

  /** `x * Shape_Length / unit`: missing when `x` is missing. */
  function PerUnit(x: Option<real>, len: real, unit: real): (y: Option<real>)
    requires unit > 0.0
    ensures y.Some? <==> x.Some?
    ensures y.Some? ==> y.value * unit == x.value * len
  {
    if x.None? then None else Some(x.value * len / unit)
  }

  /** `a - b` over columns that may be missing (NaN propagates). */
  function Minus(a: Option<real>, b: Option<real>): (d: Option<real>)
    ensures d.Some? <==> a.Some? && b.Some?
    ensures d.Some? ==> d.value + b.value == a.value
  {
    if a.Some? && b.Some? then Some(a.value - b.value) else None
  }

  /** The total VKT and VMT of a link. */
  function WithTotals(r: HpmsLink): (c: HpmsLink)
    ensures c.vkt.Some? <==> r.aadt.Some?
    ensures c.vkt.Some? ==> c.vkt.value * MetresPerKm == r.aadt.value * r.shapeLength
    ensures c.vmt.Some? <==> r.aadt.Some?
    ensures c.vmt.Some? ==> c.vmt.value * MetresPerMile == r.aadt.value * r.shapeLength
    ensures c.(vkt := r.vkt, vmt := r.vmt) == r
  {
    r.(vkt := PerUnit(r.aadt, r.shapeLength, MetresPerKm),
       vmt := PerUnit(r.aadt, r.shapeLength, MetresPerMile))
  }

  /** One row of `calculate_vkt_vmt`: totals, the medium- and heavy-duty
      shares, and the light-duty remainder. The light-duty columns are
      present exactly when all three AADT counts are, and the three classes
      then add up to the total. */
  function WithVktVmt(r: HpmsLink): (c: HpmsLink)
    ensures SameBase(c, r) && c.throughLanes == r.throughLanes
    ensures c.geoid == r.geoid && c.statefp == r.statefp && c.countyfp == r.countyfp
    ensures c.vkt == WithTotals(r).vkt && c.vmt == WithTotals(r).vmt
    ensures c.vktLdv.Some? <==> r.aadt.Some? && r.aadtMdv.Some? && r.aadtHdv.Some?
    ensures c.vmtLdv.Some? <==> r.aadt.Some? && r.aadtMdv.Some? && r.aadtHdv.Some?
    ensures c.vktMdv.Some? <==> r.aadtMdv.Some?
    ensures c.vktHdv.Some? <==> r.aadtHdv.Some?
    ensures c.vmtMdv.Some? <==> r.aadtMdv.Some?
    ensures c.vmtHdv.Some? <==> r.aadtHdv.Some?
    ensures c.vktLdv.Some? ==> c.vktLdv.value + c.vktMdv.value + c.vktHdv.value == c.vkt.value
    ensures c.vmtLdv.Some? ==> c.vmtLdv.value + c.vmtMdv.value + c.vmtHdv.value == c.vmt.value
    ensures c.vktMdv.Some? ==> c.vktMdv.value * MetresPerKm == r.aadtMdv.value * r.shapeLength
    ensures c.vktHdv.Some? ==> c.vktHdv.value * MetresPerKm == r.aadtHdv.value * r.shapeLength
  {
    var t := WithTotals(r);
    var vktMdv := PerUnit(r.aadtMdv, r.shapeLength, MetresPerKm);
    var vmtMdv := PerUnit(r.aadtMdv, r.shapeLength, MetresPerMile);
    var vktHdv := PerUnit(r.aadtHdv, r.shapeLength, MetresPerKm);
    var vmtHdv := PerUnit(r.aadtHdv, r.shapeLength, MetresPerMile);
    var vktLdv := Minus(Minus(t.vkt, vktMdv), vktHdv);
    t.(vktMdv := vktMdv, vmtMdv := vmtMdv, vktHdv := vktHdv, vmtHdv := vmtHdv,
       vktLdv := vktLdv, vmtLdv := Minus(Minus(t.vmt, vmtMdv), vmtHdv))
  }

  /** The light-duty VKT is the light-duty count (AADT less both truck
      counts) times the length, in kilometres. */
  lemma LightDutyVkt(r: HpmsLink)
    requires WithVktVmt(r).vktLdv.Some?
    ensures var c := WithVktVmt(r);
      c.vktLdv.value * MetresPerKm == (r.aadt.value - r.aadtMdv.value - r.aadtHdv.value) * r.shapeLength
  {
    var c := WithVktVmt(r);
    RemainderScaled(c.vktLdv.value, c.vktMdv.value, c.vktHdv.value, c.vkt.value,
      r.aadt.value, r.aadtMdv.value, r.aadtHdv.value, r.shapeLength);
  }

  /** A light-duty share that completes the two truck shares to the total,
      each share being its count scaled by the length, is the light-duty
      count scaled by the length. */
  lemma RemainderScaled(ldv: real, mdv: real, hdv: real, total: real,
                        aadt: real, aadtMdv: real, aadtHdv: real, len: real)
    requires ldv + mdv + hdv == total
    requires total * MetresPerKm == aadt * len
    requires mdv * MetresPerKm == aadtMdv * len
    requires hdv * MetresPerKm == aadtHdv * len
    ensures ldv * MetresPerKm == (aadt - aadtMdv - aadtHdv) * len
  {
    calc {
      ldv * MetresPerKm;
      (total - mdv - hdv) * MetresPerKm;
      total * MetresPerKm - mdv * MetresPerKm - hdv * MetresPerKm;
      aadt * len - aadtMdv * len - aadtHdv * len;
      (aadt - aadtMdv - aadtHdv) * len;
    }
  }

  /** `calculate_vkt_vmt(hpms)`, in place. */
  method CalculateVktVmt(hpms: Frame)
    modifies hpms
    ensures hpms.rows == Map(old(hpms.rows), WithVktVmt)
  {
    hpms.rows := Map(hpms.rows, WithVktVmt);
  }

  /** LANE_KMS and LANE_MILES: the lane count times the length. */
  function WithLaneLengths(r: HpmsLink): (c: HpmsLink)
    ensures c.laneKms.Some? <==> r.throughLanes.Some?
    ensures c.laneKms.Some? ==> c.laneKms.value * MetresPerKm == r.throughLanes.value * r.shapeLength
    ensures c.laneMiles.Some? <==> r.throughLanes.Some?
    ensures c.laneMiles.Some? ==> c.laneMiles.value * MetresPerMile == r.throughLanes.value * r.shapeLength
    ensures c.(laneKms := r.laneKms, laneMiles := r.laneMiles) == r
  {
    r.(laneKms := PerUnit(r.throughLanes, r.shapeLength, MetresPerKm),
       laneMiles := PerUnit(r.throughLanes, r.shapeLength, MetresPerMile))
  }

  // ---------------------------------------------------------------------
  // merge_uac_data

  /** The corrected urban code: the link's own census code for an urbanized
      area ('U'), "99998" for an urban cluster ('C'), and "99999" for any
      other type or an unmatched link. */
  function NewUrbanCode(m: Option<UacMatch>): (code: string)
    ensures m.Some? && m.value.uatyp10 == "U" ==> code == m.value.uace10
    ensures m.Some? && m.value.uatyp10 == "C" ==> code == "99998"
    ensures (m.None? || (m.value.uatyp10 != "U" && m.value.uatyp10 != "C")) ==> code == "99999"
  {
    if m.Some? && m.value.uatyp10 == "U" then m.value.uace10
    else if m.Some? && m.value.uatyp10 == "C" then "99998"
    else "99999"
  }

  /** The urban code as written at scripts/subset_hpms.py:63: the 'U' entry
      of the mapping is the UACE10 column as a whole, so a 'U' link receives
      `columnText`, the text of that whole column, instead of its own code. */
  function NewUrbanCodeAsWritten(m: Option<UacMatch>, columnText: string): (code: string)
    ensures m.Some? && m.value.uatyp10 == "U" ==> code == columnText
    ensures !(m.Some? && m.value.uatyp10 == "U") ==> code == NewUrbanCode(m)
  {
    if m.Some? && m.value.uatyp10 == "U" then columnText else NewUrbanCode(m)
  }

  /** URBAN: 0 (rural) for "99999", 2 (small urban) for "99998", and 1
      (urban) for every other code. */
  function Urban(code: string): (u: int)
    ensures 0 <= u <= 2
    ensures u == 0 <==> code == "99999"
    ensures u == 2 <==> code == "99998"
  {
    if code == "99999" then 0 else if code == "99998" then 2 else 1
  }

  /** The urban-area match of a link (a left merge on FID_Link_Cnty_Intxn). */
  function Lookup(uac: map<int, UacMatch>, fid: int): (m: Option<UacMatch>)
    ensures m.Some? <==> fid in uac
    ensures m.Some? ==> m.value == uac[fid]
  {
    if fid in uac then Some(uac[fid]) else None
  }

  /** The URBAN category of a link follows its census type: rural exactly
      when unmatched or of another type, small urban exactly for a cluster,
      urban for an urbanized area whose code is not one of the two reserved
      codes. */
  lemma UrbanFollowsType(m: Option<UacMatch>)
    requires m.Some? && m.value.uatyp10 == "U" ==> m.value.uace10 != "99999" && m.value.uace10 != "99998"
    ensures Urban(NewUrbanCode(m)) == 0 <==> (m.None? || (m.value.uatyp10 != "U" && m.value.uatyp10 != "C"))
    ensures Urban(NewUrbanCode(m)) == 2 <==> (m.Some? && m.value.uatyp10 == "C")
    ensures Urban(NewUrbanCode(m)) == 1 <==> (m.Some? && m.value.uatyp10 == "U")
  {
    assert "U" != "C";
  }

  /** As written, every 'U' link receives the same text, so two urbanized
      areas with different codes cannot both get their own code, and a 'U'
      link whose own code differs from that text is marked as having changed
      urban code even when its original code was its census code. */
  lemma AsWrittenUrbanCodeIgnoresRow(a: UacMatch, b: UacMatch, columnText: string)
    requires a.uatyp10 == "U" && b.uatyp10 == "U" && a.uace10 != b.uace10
    ensures NewUrbanCodeAsWritten(Some(a), columnText) == NewUrbanCodeAsWritten(Some(b), columnText)
    ensures NewUrbanCode(Some(a)) != NewUrbanCode(Some(b))
    ensures NewUrbanCodeAsWritten(Some(a), columnText) != NewUrbanCode(Some(a)) ||
            NewUrbanCodeAsWritten(Some(b), columnText) != NewUrbanCode(Some(b))
  {
  }

  /** The URBAN category is the same under both readings as long as the
      column text is not a reserved code. */
  lemma AsWrittenUrbanAgrees(m: Option<UacMatch>, columnText: string)
    requires columnText != "99999" && columnText != "99998"
    requires m.Some? && m.value.uatyp10 == "U" ==> m.value.uace10 != "99999" && m.value.uace10 != "99998"
    ensures Urban(NewUrbanCodeAsWritten(m, columnText)) == Urban(NewUrbanCode(m))
  {
  }

  /** NEW_URBAN_CODE and URBAN of one link. */
  function WithUrban(r: HpmsLink, uac: map<int, UacMatch>): (c: HpmsLink)
    ensures c.newUrbanCode == NewUrbanCode(Lookup(uac, r.fid))
    ensures c.urban == Urban(c.newUrbanCode)
    ensures c.(newUrbanCode := r.newUrbanCode, urban := r.urban) == r
  {
    var code := NewUrbanCode(Lookup(uac, r.fid));
    r.(newUrbanCode := code, urban := Urban(code))
  }

  function UrbanFn(uac: map<int, UacMatch>): HpmsLink -> HpmsLink {
    (r: HpmsLink) => WithUrban(r, uac)
  }

  /** `merge_uac_data(hpms, hpms_uac)`: a new frame with the same rows in
      the same order, each with its corrected urban code and category. */
  function MergeUacData(t: seq<HpmsLink>, uac: map<int, UacMatch>): (m: seq<HpmsLink>)
    ensures |m| == |t|
    ensures forall i :: 0 <= i < |t| ==> m[i] == WithUrban(t[i], uac)
  {
    Map(t, UrbanFn(uac))
  }

  // ---------------------------------------------------------------------
  // The urban-code comparison of main

  /** `s.split('.')[0]`: everything before the first '.'. */
  function CutAtDot(s: string): (c: string)
    ensures '.' !in c
    ensures |c| <= |s| && c == s[..|c|]
    ensures |c| < |s| ==> s[|c|] == '.'
  {
    if s == [] || s[0] == '.' then [] else [s[0]] + CutAtDot(s[1..])
  }

  /** A string without '.' is its own cut. */
  lemma {:induction false} CutAtDotNoDot(s: string)
    requires '.' !in s
    ensures CutAtDot(s) == s
  {
    if s != [] {
      assert s[0] in s;
      assert forall x :: x in s[1..] ==> x in s;
      CutAtDotNoDot(s[1..]);
    }
  }

  /** Cutting at '.' twice is cutting once. */
  lemma CutAtDotIdempotent(s: string)
    ensures CutAtDot(CutAtDot(s)) == CutAtDot(s)
  {
    CutAtDotNoDot(CutAtDot(s));
  }

  /** ORIG_URBAN_CODE cut at '.', and UAC_IS_SAME. */
  function MarkUacSame(r: HpmsLink): (c: HpmsLink)
    ensures c.origUrbanCode == CutAtDot(r.origUrbanCode)
    ensures c.uacIsSame <==> c.origUrbanCode == r.newUrbanCode
    ensures c.(origUrbanCode := r.origUrbanCode, uacIsSame := r.uacIsSame) == r
  {
    var orig := CutAtDot(r.origUrbanCode);
    r.(origUrbanCode := orig, uacIsSame := orig == r.newUrbanCode)
  }

  // ---------------------------------------------------------------------
  // subset_hpms

  /** `AADT == 0 or AADT is NaN`. */
  predicate ZeroOrMissingAadt(r: HpmsLink) {
    r.aadt.None? || r.aadt.value == 0.0
  }

  /** `AADT > 0 and AADT < AADT_HDV + AADT_MDV`, a missing truck count read
      as 0 (a missing AADT compares false). */
  predicate BelowTruckSum(r: HpmsLink) {
    r.aadt.Some? && r.aadt.value > 0.0 &&
    r.aadt.value < r.aadtHdv.GetOr(0.0) + r.aadtMdv.GetOr(0.0)
  }

  predicate IsErrorRow(r: HpmsLink) {
    ZeroOrMissingAadt(r) || BelowTruckSum(r)
  }

  /** A row passes the error rules exactly when its AADT is present and is
      either negative or positive and at least the sum of the truck counts:
      a negative AADT is not an error. */
  lemma NotErrorMeans(r: HpmsLink)
    ensures !IsErrorRow(r) <==>
      (r.aadt.Some? && (r.aadt.value < 0.0 ||
        (r.aadt.value > 0.0 && r.aadt.value >= r.aadtHdv.GetOr(0.0) + r.aadtMdv.GetOr(0.0))))
  {
  }

  function FidOf(r: HpmsLink): int {
    r.fid
  }

  function IdIn(ids: seq<int>): HpmsLink -> bool {
    (r: HpmsLink) => r.fid in ids
  }

  function IdNotIn(ids: seq<int>): HpmsLink -> bool {
    (r: HpmsLink) => r.fid !in ids
  }

  /** The identifiers of `s`, in row order. */
  lemma FidsOf(s: seq<HpmsLink>, x: int)
    ensures x in Map(s, FidOf) <==> exists e :: e in s && e.fid == x
  {
    var ids := Map(s, FidOf);
    if x in ids {
      var i :| 0 <= i < |ids| && ids[i] == x;
      assert s[i] in s && s[i].fid == x;
    }
    if exists e :: e in s && e.fid == x {
      var e :| e in s && e.fid == x;
      var i :| 0 <= i < |s| && s[i] == e;
      assert ids[i] == x;
    }
  }

  /** The identifier list of line 92: those of the zero/missing rows
      followed by those of the below-truck-sum rows. */
  function ErrorIds(t: seq<HpmsLink>): (ids: seq<int>)
    ensures forall x :: x in ids <==> exists e :: e in t && IsErrorRow(e) && e.fid == x
  {
    var zero := Filter(t, ZeroOrMissingAadt);
    var neg := Filter(t, BelowTruckSum);
    forall x ensures x in Map(zero, FidOf) + Map(neg, FidOf) <==> exists e :: e in t && IsErrorRow(e) && e.fid == x {
      FidsOf(zero, x);
      FidsOf(neg, x);
    }
    Map(zero, FidOf) + Map(neg, FidOf)
  }

  /** No error row of `t` carries the identifier of `r`. */
  predicate SharesNoErrorId(t: seq<HpmsLink>, r: HpmsLink) {
    forall e :: e in t && IsErrorRow(e) ==> e.fid != r.fid
  }

  /** `sub_aadt_errors`: every row whose identifier is in the error list,
      so every row sharing its identifier with an error row. */
  function ErrorRows(t: seq<HpmsLink>): (errors: seq<HpmsLink>)
    ensures forall r :: r in errors <==> r in t && !SharesNoErrorId(t, r)
  {
    Filter(t, IdIn(ErrorIds(t)))
  }

  /** An identifier is carried by an error row exactly when it is carried
      by some row of the error subset. */
  lemma ErrorRowIds(t: seq<HpmsLink>, x: int)
    ensures x in Map(ErrorRows(t), FidOf) <==> x in ErrorIds(t)
  {
    FidsOf(ErrorRows(t), x);
    if x in ErrorIds(t) {
      var e :| e in t && IsErrorRow(e) && e.fid == x;
      assert e in ErrorRows(t);
    }
  }

  /** `subset_hpms` without the column selection: every row whose
      identifier is not one of the error subset's. A row is kept exactly
      when no error row shares its identifier, so no kept row is an error
      row. */
  function SubsetHpms(t: seq<HpmsLink>): (sub: seq<HpmsLink>)
    ensures |sub| <= |t|
    ensures forall r :: r in sub <==> r in t && SharesNoErrorId(t, r)
    ensures forall r :: r in sub ==> !IsErrorRow(r)
  {
    var sub := Filter(t, IdNotIn(Map(ErrorRows(t), FidOf)));
    forall r | r in t
      ensures r in sub <==> SharesNoErrorId(t, r)
    {
      ErrorRowIds(t, r.fid);
    }
    sub
  }

  /** The error subset and the kept subset split the table between them:
      every row is in exactly one of the two, as often as in the input. */
  lemma ErrorsAndSubsetPartition(t: seq<HpmsLink>)
    ensures multiset(ErrorRows(t)) + multiset(SubsetHpms(t)) == multiset(t)
  {
    var ids := Map(ErrorRows(t), FidOf);
    forall r: HpmsLink
      ensures IdNotIn(ids)(r) == !IdIn(ErrorIds(t))(r)
    {
      ErrorRowIds(t, r.fid);
    }
    FilterComplement(t, IdIn(ErrorIds(t)), IdNotIn(ids));
  }

  function KeepFn(t: seq<HpmsLink>): HpmsLink -> bool {
    (r: HpmsLink) => SharesNoErrorId(t, r)
  }

  /** Two filters whose conditions agree on the rows of `s` keep the same
      rows. */
  lemma {:induction false} FilterSameOn(s: seq<HpmsLink>, p: HpmsLink -> bool, q: HpmsLink -> bool)
    requires forall r :: r in s ==> p(r) == q(r)
    ensures Filter(s, p) == Filter(s, q)
  {
    if s != [] {
      assert s[0] in s;
      assert forall r :: r in s[1..] ==> r in s;
      FilterSameOn(s[1..], p, q);
    }
  }

  /** The subset is the input with some rows masked out: the kept rows keep
      their relative order. */
  lemma SubsetIsMask(t: seq<HpmsLink>)
    ensures SubsetHpms(t) == Filter(t, KeepFn(t))
  {
    var ids := Map(ErrorRows(t), FidOf);
    forall r | r in t
      ensures IdNotIn(ids)(r) == KeepFn(t)(r)
    {
      assert r in SubsetHpms(t) <==> SharesNoErrorId(t, r);
    }
    FilterSameOn(t, IdNotIn(ids), KeepFn(t));
  }

  /** With unique identifiers, a row is dropped exactly when it is itself an
      error row. */
  lemma UniqueIdsDropExactlyErrors(t: seq<HpmsLink>)
    requires forall i, j :: 0 <= i < |t| && 0 <= j < |t| && t[i].fid == t[j].fid ==> i == j
    ensures forall i :: 0 <= i < |t| ==> (t[i] in SubsetHpms(t) <==> !IsErrorRow(t[i]))
  {
    forall i | 0 <= i < |t| && !IsErrorRow(t[i])
      ensures SharesNoErrorId(t, t[i])
    {
      forall e | e in t && IsErrorRow(e)
        ensures e.fid != t[i].fid
      {
        var j :| 0 <= j < |t| && t[j] == e;
      }
    }
  }

  // ---------------------------------------------------------------------
  // main

  /** One link through every column step of `main`, in order. */
  function PrepareRow(r: HpmsLink, uac: map<int, UacMatch>): HpmsLink {
    MarkUacSame(WithUrban(WithLaneLengths(WithVktVmt(CorrectRow(r))), uac))
  }

  /** The table `main` hands to `subset_hpms`. */
  function Prepared(raw: seq<HpmsLink>, uac: map<int, UacMatch>): (t: seq<HpmsLink>)
    ensures |t| == |raw|
    ensures forall i :: 0 <= i < |raw| ==> t[i] == PrepareRow(raw[i], uac)
  {
    seq(|raw|, i requires 0 <= i < |raw| => PrepareRow(raw[i], uac))
  }

  /** The rows written to hpms_aadt_subset.csv. */
  function SubsetOutput(raw: seq<HpmsLink>, uac: map<int, UacMatch>): seq<HpmsLink> {
    SubsetHpms(Prepared(raw, uac))
  }

  /** `main`: correct, derive VKT/VMT and lane lengths in place, merge the
      urban areas into a new frame, compare the urban codes, subset. */
  method SubsetMain(raw: seq<HpmsLink>, uac: map<int, UacMatch>) returns (out: seq<HpmsLink>)
    ensures out == SubsetOutput(raw, uac)
  {
    var hpms := new Frame(raw);
    CorrectHpmsColumns(hpms);
    CalculateVktVmt(hpms);
    hpms.rows := Map(hpms.rows, WithLaneLengths);
    var merged := MergeUacData(hpms.rows, uac);
    merged := Map(merged, MarkUacSame);
    assert merged == Prepared(raw, uac);
    out := SubsetHpms(merged);
  }

  /** The codes and lane count the column steps of `main` leave on a link:
      zero-filled codes and a non-zero lane count. */
  lemma PrepareRowCodes(r: HpmsLink, uac: map<int, UacMatch>)
    ensures var p := PrepareRow(r, uac);
      |p.geoid| >= 5 && |p.statefp| >= 2 && |p.countyfp| >= 3 &&
      p.throughLanes.Some? && p.throughLanes.value != 0.0
  {
    var a := CorrectRow(r);
    var c := WithLaneLengths(WithVktVmt(a));
    var d := WithUrban(c, uac);
    assert c.geoid == a.geoid && c.statefp == a.statefp && c.countyfp == a.countyfp;
    assert c.throughLanes == a.throughLanes;
    assert d.geoid == c.geoid && d.statefp == c.statefp && d.countyfp == c.countyfp;
    assert d.throughLanes == c.throughLanes;
  }

  /** The urban columns the column steps of `main` leave on a link: the
      corrected code of its match and its category, an original code
      without '.', and UAC_IS_SAME saying whether the two codes agree. */
  lemma PrepareRowUrban(r: HpmsLink, uac: map<int, UacMatch>)
    ensures var p := PrepareRow(r, uac);
      0 <= p.urban <= 2 && p.urban == Urban(p.newUrbanCode) &&
      p.newUrbanCode == NewUrbanCode(Lookup(uac, r.fid)) &&
      '.' !in p.origUrbanCode &&
      (p.uacIsSame <==> p.origUrbanCode == p.newUrbanCode)
  {
    var a := CorrectRow(r);
    var b := WithVktVmt(a);
    var c := WithLaneLengths(b);
    assert a.fid == r.fid;
    assert b.fid == a.fid;
    assert c.fid == b.fid;
    var d := WithUrban(c, uac);
    var p := MarkUacSame(d);
    assert p.newUrbanCode == d.newUrbanCode && p.urban == d.urban;
  }

  /** The counts the column steps of `main` leave on a link: the identifier,
      counts and length of the input link, and a light-duty VKT that is
      present exactly when the three counts are, and not negative when the
      truck counts do not exceed the total. */
  lemma PrepareRowCounts(r: HpmsLink, uac: map<int, UacMatch>)
    ensures var p := PrepareRow(r, uac);
      SameFacts(p, r) &&
      (p.vktLdv.Some? <==> p.aadt.Some? && p.aadtMdv.Some? && p.aadtHdv.Some?) &&
      (p.vktLdv.Some? && p.aadt.value - p.aadtMdv.value - p.aadtHdv.value >= 0.0 && p.shapeLength >= 0.0 ==>
        p.vktLdv.value >= 0.0)
  {
    var a := CorrectRow(r);
    var b := WithVktVmt(a);
    var c := WithLaneLengths(b);
    var d := WithUrban(c, uac);
    var p := MarkUacSame(d);
    assert SameFacts(a, r);
    assert SameFacts(b, a);
    assert c.vktLdv == b.vktLdv && SameFacts(c, b);
    assert d.vktLdv == c.vktLdv && SameFacts(d, c);
    assert p.vktLdv == d.vktLdv && SameFacts(p, d);
    if b.vktLdv.Some? {
      LightDutyVkt(a);
    }
    if p.vktLdv.Some? && p.aadt.value - p.aadtMdv.value - p.aadtHdv.value >= 0.0 && p.shapeLength >= 0.0 {
      ScaledNonNegative(p.vktLdv.value, p.aadt.value - p.aadtMdv.value - p.aadtHdv.value, p.shapeLength);
    }
  }

  /** Two links with the same identifier, counts and length. */
  predicate SameFacts(a: HpmsLink, b: HpmsLink) {
    a.fid == b.fid && a.aadt == b.aadt && a.aadtMdv == b.aadtMdv &&
    a.aadtHdv == b.aadtHdv && a.shapeLength == b.shapeLength
  }

  /** A kept row is an input row and not an error row. */
  lemma SubsetMembers(t: seq<HpmsLink>, r: HpmsLink)
    requires r in SubsetHpms(t)
    ensures r in t && !IsErrorRow(r)
  {
  }

  /** Every written link is an input link taken through the column steps,
      and passed the error rules. */
  lemma OutputFromInput(raw: seq<HpmsLink>, uac: map<int, UacMatch>, r: HpmsLink) returns (i: nat)
    requires r in SubsetOutput(raw, uac)
    ensures i < |raw| && r == PrepareRow(raw[i], uac) && !IsErrorRow(r)
  {
    var t := Prepared(raw, uac);
    SubsetMembers(t, r);
    i := IndexOf(t, r);
  }

  /** Every written link passed the error rules and carries the corrected
      columns: zero-filled codes, a non-zero lane count, an URBAN category
      matching its code, an original code without '.', and UAC_IS_SAME
      saying whether the two codes agree. Every written link comes from an
      input link with the same identifier, counts and length. */
  lemma OutputRowsCorrected(raw: seq<HpmsLink>, uac: map<int, UacMatch>, r: HpmsLink)
    requires r in SubsetOutput(raw, uac)
    ensures !IsErrorRow(r)
    ensures |r.geoid| >= 5 && |r.statefp| >= 2 && |r.countyfp| >= 3
    ensures r.throughLanes.Some? && r.throughLanes.value != 0.0
    ensures 0 <= r.urban <= 2 && r.urban == Urban(r.newUrbanCode)
    ensures r.newUrbanCode == NewUrbanCode(Lookup(uac, r.fid))
    ensures '.' !in r.origUrbanCode && (r.uacIsSame <==> r.origUrbanCode == r.newUrbanCode)
    ensures exists i :: 0 <= i < |raw| && SameFacts(raw[i], r)
    ensures r.vktLdv.Some? <==> r.aadt.Some? && r.aadtMdv.Some? && r.aadtHdv.Some?
    ensures (r.vktLdv.Some? && r.aadt.value - r.aadtMdv.value - r.aadtHdv.value >= 0.0 &&
             r.shapeLength >= 0.0) ==> r.vktLdv.value >= 0.0
  {
    var i := OutputFromInput(raw, uac, r);
    PrepareRowCodes(raw[i], uac);
    PrepareRowUrban(raw[i], uac);
    PrepareRowCounts(raw[i], uac);
  }

  /** A row that passed the error rules with a non-negative AADT and both
      truck counts has at least as much traffic as trucks. */
  lemma CleanRowCoversTrucks(r: HpmsLink)
    requires !IsErrorRow(r) && r.aadt.Some? && r.aadt.value >= 0.0
    requires r.aadtMdv.Some? && r.aadtHdv.Some?
    ensures r.aadt.value - r.aadtMdv.value - r.aadtHdv.value >= 0.0
  {
    NotErrorMeans(r);
  }

  lemma ScaledNonNegative(x: real, d: real, len: real)
    requires x * MetresPerKm == d * len && d >= 0.0 && len >= 0.0
    ensures x >= 0.0
  {
    assert d * len >= 0.0;
  }

  /** On a written link of non-negative AADT and length, with both truck
      counts present, the light-duty VKT is not negative: the error rules
      rule out a truck sum above the total. */
  lemma OutputLightDutyNonNegative(raw: seq<HpmsLink>, uac: map<int, UacMatch>, r: HpmsLink)
    requires r in SubsetOutput(raw, uac)
    requires r.aadt.Some? && r.aadt.value >= 0.0 && r.shapeLength >= 0.0
    ensures r.vktLdv.Some? ==> r.vktLdv.value >= 0.0
  {
    OutputRowsCorrected(raw, uac, r);
    if r.vktLdv.Some? {
      CleanRowCoversTrucks(r);
    }
  }
}
