/** The road-link record of the AADT subset table (hpms_aadt_subset.csv) and
    the table operations the imputation code applies to it: code padding,
    the non-null training subset, the state partition and the write-back of
    predictions into the rows whose response is missing. */
module Links {
  import opened Common

  /** The two response columns that are imputed (RESPONSE_VARS). */
  datatype ResponseVar = AadtMdv | AadtHdv

  /** One row of the subset table. STATEFP, COUNTYFP and GEOID are read as
      numbers and turned back into digit strings; the truck counts are the
      nullable response columns. */
  datatype Link = Link(
    fid: int,
    statefp: string,
    countyfp: string,
    geoid: string,
    fSystem: int,
    urban: int,
    throughLanes: int,
    aadt: int,
    aadtMdv: Option<real>,
    aadtHdv: Option<real>)

  /** The predictor columns COUNTYFP, F_SYSTEM, THROUGH_LANES and AADT
      (RF_PREDICTOR_VARS); neither response column is among them. */
  datatype Features = Features(countyfp: string, fSystem: int, throughLanes: int, aadt: int)

  function FeaturesOf(r: Link): Features {
    Features(r.countyfp, r.fSystem, r.throughLanes, r.aadt)
  }

  function Get(r: Link, v: ResponseVar): Option<real> {
    match v
    case AadtMdv => r.aadtMdv
    case AadtHdv => r.aadtHdv
  }

  /** The row with response `v` set to `x` (`data_full.loc[i, v] = x`). */
  function Put(r: Link, v: ResponseVar, x: real): (r': Link)
    ensures Get(r', v) == Some(x)
    ensures forall w :: w != v ==> Get(r', w) == Get(r, w)
    ensures Skeleton(r') == Skeleton(r)
  {
    match v
    case AadtMdv => r.(aadtMdv := Some(x))
    case AadtHdv => r.(aadtHdv := Some(x))
  }

  /** Everything in a row except the two response columns. */
  function Skeleton(r: Link): Link {
    r.(aadtMdv := None, aadtHdv := None)
  }

  const StateWidth: nat := 2
  const CountyWidth: nat := 3
  const GeoidWidth: nat := 5

  /** Pre-processing of one row: STATEFP, COUNTYFP and GEOID left-padded with
      '0' to widths 2, 3 and 5; every other column is kept. */
  function PadCodes(r: Link): (r': Link)
    ensures r'.statefp == PadLeft(r.statefp, StateWidth, '0')
    ensures r'.countyfp == PadLeft(r.countyfp, CountyWidth, '0')
    ensures r'.geoid == PadLeft(r.geoid, GeoidWidth, '0')
    ensures |r'.statefp| >= StateWidth && |r'.countyfp| >= CountyWidth && |r'.geoid| >= GeoidWidth
    ensures r'.(statefp := r.statefp, countyfp := r.countyfp, geoid := r.geoid) == r
  {
    r.(statefp := PadLeft(r.statefp, StateWidth, '0'),
       countyfp := PadLeft(r.countyfp, CountyWidth, '0'),
       geoid := PadLeft(r.geoid, GeoidWidth, '0'))
  }

  /** Pre-processing a table twice is the same as doing it once. */
  lemma PadCodesIdempotent(r: Link)
    ensures PadCodes(PadCodes(r)) == PadCodes(r)
  {
    PadLeftIdempotent(r.statefp, StateWidth, '0');
    PadLeftIdempotent(r.countyfp, CountyWidth, '0');
    PadLeftIdempotent(r.geoid, GeoidWidth, '0');
  }

  function PadTable(t: seq<Link>): (t': seq<Link>)
    ensures |t'| == |t|
    ensures forall i :: 0 <= i < |t| ==> t'[i] == PadCodes(t[i])
  {
    Map(t, PadCodes)
  }

  function HasResponse(v: ResponseVar): Link -> bool {
    (r: Link) => Get(r, v).Some?
  }

  /** `dropna(subset=[v])`: the rows whose response `v` is known, in order. */
  function NonNull(t: seq<Link>, v: ResponseVar): (d: seq<Link>)
    ensures forall r :: r in d <==> r in t && Get(r, v).Some?
  {
    Filter(t, HasResponse(v))
  }

  function InState(state: string): Link -> bool {
    (r: Link) => r.statefp == state
  }

  /** The rows used for one fit: with a non-empty state code only the rows of
      that state, otherwise (None, or the falsy empty string) all rows. */
  function Partition(data: seq<Link>, state: Option<string>): (part: seq<Link>)
    ensures state.None? || state.value == "" ==> part == data
    ensures state.Some? && state.value != "" ==>
      forall r :: r in part <==> r in data && r.statefp == state.value
  {
    if state.Some? && state.value != "" then Filter(data, InState(state.value)) else data
  }

  /** A row the imputation writes to: response `v` missing and, when a state
      is given, STATEFP equal to it. */
  predicate IsTarget(r: Link, v: ResponseVar, state: Option<string>) {
    Get(r, v).None? && (state.None? || r.statefp == state.value)
  }

  function IsTargetOf(v: ResponseVar, state: Option<string>): Link -> bool {
    (r: Link) => IsTarget(r, v, state)
  }

  /** The number of rows the imputation writes to (`missing_data.shape[0]`). */
  function TargetCount(t: seq<Link>, v: ResponseVar, state: Option<string>): nat {
    |Filter(t, IsTargetOf(v, state))|
  }

  /** `data_full.loc[missing_data.index, v] = predictions`: every target row
      receives the prediction for its own features (aligned by row, not by
      position), and no other cell of the table changes. */
  function Impute(t: seq<Link>, v: ResponseVar, state: Option<string>, f: Features -> real): (t': seq<Link>)
    ensures |t'| == |t|
    ensures forall i :: 0 <= i < |t| && IsTarget(t[i], v, state) ==>
      Get(t'[i], v) == Some(f(FeaturesOf(t[i])))
    ensures forall i :: 0 <= i < |t| && !IsTarget(t[i], v, state) ==> t'[i] == t[i]
    ensures forall i, w :: 0 <= i < |t| && Get(t[i], w).Some? ==> Get(t'[i], w) == Get(t[i], w)
    ensures forall i, w :: 0 <= i < |t| && w != v ==> Get(t'[i], w) == Get(t[i], w)
    ensures forall i :: 0 <= i < |t| ==> Skeleton(t'[i]) == Skeleton(t[i])
  {
    seq(|t|, i requires 0 <= i < |t| =>
      if IsTarget(t[i], v, state) then Put(t[i], v, f(FeaturesOf(t[i]))) else t[i])
  }

  /** Committing the same predictions twice leaves the table as committing
      them once: the first commit leaves no target behind. */
  lemma ImputeIdempotent(t: seq<Link>, v: ResponseVar, state: Option<string>, f: Features -> real)
    ensures Impute(Impute(t, v, state, f), v, state, f) == Impute(t, v, state, f)
  {
  }

  /** Two tables that agree row by row on everything except possibly the
      response other than `v`. */
  ghost predicate AgreeOn(a: seq<Link>, b: seq<Link>, v: ResponseVar) {
    |a| == |b| &&
    forall i :: 0 <= i < |a| ==> Skeleton(a[i]) == Skeleton(b[i]) && Get(a[i], v) == Get(b[i], v)
  }

  lemma AgreeOnCons(x: Link, y: Link, a: seq<Link>, b: seq<Link>, v: ResponseVar)
    requires Skeleton(x) == Skeleton(y) && Get(x, v) == Get(y, v)
    requires AgreeOn(a, b, v)
    ensures AgreeOn([x] + a, [y] + b, v)
  {
    forall i | 0 <= i < |[x] + a|
      ensures Skeleton(([x] + a)[i]) == Skeleton(([y] + b)[i]) && Get(([x] + a)[i], v) == Get(([y] + b)[i], v)
    {
      if i > 0 {
        assert ([x] + a)[i] == a[i - 1] && ([y] + b)[i] == b[i - 1];
      }
    }
  }

  /** A row filter that looks only at what two agreeing tables share keeps
      the same positions of both, so the filtered tables agree too. */
  lemma {:induction false} AgreeFilter(a: seq<Link>, b: seq<Link>, v: ResponseVar, p: Link -> bool)
    requires AgreeOn(a, b, v)
    requires forall x, y :: Skeleton(x) == Skeleton(y) && Get(x, v) == Get(y, v) ==> p(x) == p(y)
    ensures AgreeOn(Filter(a, p), Filter(b, p), v)
  {
    if a != [] {
      AgreeFilter(a[1..], b[1..], v, p);
      assert p(a[0]) == p(b[0]);
      if p(a[0]) {
        AgreeOnCons(a[0], b[0], Filter(a[1..], p), Filter(b[1..], p), v);
      } else {
        assert Filter(a, p) == Filter(a[1..], p);
      }
    }
  }

  /** The position-based split of two agreeing tables gives agreeing parts. */
  lemma {:induction false} AgreeSplit(a: seq<Link>, b: seq<Link>, v: ResponseVar, inTest: nat -> bool, k: nat)
    requires AgreeOn(a, b, v) && k <= |a|
    ensures AgreeOn(SplitRows(a, inTest, k).0, SplitRows(b, inTest, k).0, v)
    ensures AgreeOn(SplitRows(a, inTest, k).1, SplitRows(b, inTest, k).1, v)
    decreases |a| - k
  {
    if k < |a| {
      AgreeSplit(a, b, v, inTest, k + 1);
      var ra := SplitRows(a, inTest, k + 1);
      var rb := SplitRows(b, inTest, k + 1);
      if inTest(k) {
        AgreeOnCons(a[k], b[k], ra.1, rb.1, v);
      } else {
        AgreeOnCons(a[k], b[k], ra.0, rb.0, v);
      }
    }
  }

  /** Tables that agree on `v` have the same non-null subset for `v`, up to
      the other response column. */
  lemma AgreeNonNull(a: seq<Link>, b: seq<Link>, v: ResponseVar)
    requires AgreeOn(a, b, v)
    ensures AgreeOn(NonNull(a, v), NonNull(b, v), v)
  {
    AgreeFilter(a, b, v, HasResponse(v));
  }

  /** The state partitions of agreeing tables agree. */
  lemma AgreePartition(a: seq<Link>, b: seq<Link>, v: ResponseVar, state: Option<string>)
    requires AgreeOn(a, b, v)
    ensures AgreeOn(Partition(a, state), Partition(b, state), v)
  {
    if state.Some? && state.value != "" {
      forall x, y | Skeleton(x) == Skeleton(y) && Get(x, v) == Get(y, v)
        ensures InState(state.value)(x) == InState(state.value)(y)
      {
        assert x.statefp == Skeleton(x).statefp && y.statefp == Skeleton(y).statefp;
      }
      AgreeFilter(a, b, v, InState(state.value));
    }
  }

  /** Agreeing tables have the same number of rows to impute for `v`. */
  lemma AgreeTargetCount(a: seq<Link>, b: seq<Link>, v: ResponseVar, state: Option<string>)
    requires AgreeOn(a, b, v)
    ensures TargetCount(a, v, state) == TargetCount(b, v, state)
  {
    forall x, y | Skeleton(x) == Skeleton(y) && Get(x, v) == Get(y, v)
      ensures IsTargetOf(v, state)(x) == IsTargetOf(v, state)(y)
    {
      assert x.statefp == Skeleton(x).statefp && y.statefp == Skeleton(y).statefp;
    }
    AgreeFilter(a, b, v, IsTargetOf(v, state));
  }

  /** Imputing one response column keeps the table in agreement, on every
      other column, with the table before. */
  lemma ImputeAgrees(t: seq<Link>, v: ResponseVar, state: Option<string>, f: Features -> real, w: ResponseVar)
    requires w != v
    ensures AgreeOn(t, Impute(t, v, state, f), w)
  {
  }

  /** Two commits whose target rows cannot overlap (different response
      columns, or the same column for two different states) give the same
      table in either order. */
  lemma ImputeCommute(t: seq<Link>, v: ResponseVar, sv: Option<string>, f: Features -> real,
                      w: ResponseVar, sw: Option<string>, g: Features -> real)
    requires v != w || (sv.Some? && sw.Some? && sv.value != sw.value)
    ensures Impute(Impute(t, v, sv, f), w, sw, g) == Impute(Impute(t, w, sw, g), v, sv, f)
  {
    var a := Impute(Impute(t, v, sv, f), w, sw, g);
    var b := Impute(Impute(t, w, sw, g), v, sv, f);
    forall i | 0 <= i < |t| ensures a[i] == b[i] {
      var x := t[i];
      if IsTarget(x, v, sv) && IsTarget(x, w, sw) {
        assert v != w;
        assert Put(Put(x, v, f(FeaturesOf(x))), w, g(FeaturesOf(x))) ==
          Put(Put(x, w, g(FeaturesOf(x))), v, f(FeaturesOf(x)));
      }
    }
  }

  /** A commit for one state leaves the number of targets of any other state
      unchanged. */
  lemma ImputeKeepsOtherStateTargets(t: seq<Link>, v: ResponseVar, a: string, f: Features -> real, b: string)
    requires a != b
    ensures TargetCount(Impute(t, v, Some(a), f), v, Some(b)) == TargetCount(t, v, Some(b))
  {
    FilterPointwise(t, Impute(t, v, Some(a), f), IsTargetOf(v, Some(b)));
  }

  /** The response column that is not `v`. */
  function Other(v: ResponseVar): (w: ResponseVar)
    ensures w != v
  {
    match v
    case AadtMdv => AadtHdv
    case AadtHdv => AadtMdv
  }

  /** `b` is `a` with, at most, missing values of column `v` filled in:
      same rows in the same order, the other column and every
      non-response column unchanged, and no known value of `v` changed. */
  ghost predicate OnlyFills(a: seq<Link>, b: seq<Link>, v: ResponseVar) {
    AgreeOn(a, b, Other(v)) &&
    forall i :: 0 <= i < |a| && Get(a[i], v).Some? ==> Get(b[i], v) == Get(a[i], v)
  }

  lemma OnlyFillsTrans(a: seq<Link>, b: seq<Link>, c: seq<Link>, v: ResponseVar)
    requires OnlyFills(a, b, v) && OnlyFills(b, c, v)
    ensures OnlyFills(a, c, v)
  {
  }
}
