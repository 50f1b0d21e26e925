/** `calculate_traffic_density` of scripts/estimate_traffic_density.py and
    src/estimate_td.py (the two are the same function): road-link pieces
    intersected with census blocks are grouped by block (GEOID20), their VKT
    columns summed, the block's land area taken from its first row, and
    each sum divided by the area in square kilometres, with an undefined or
    infinite quotient replaced by 0. Block identifiers are fixed-width digit
    strings, modelled as integers ordered the same way. */
module TrafficDensity {
  import opened Common

  /** One row of the intersection table. A missing GEOID20 leaves the row
      out of every group. */
  datatype IntersectionRow = IntersectionRow(
    geoid: Option<int>,
    vkt: Option<real>,
    vktLdv: Option<real>,
    vktMdv: Option<real>,
    vktHdv: Option<real>,
    area: Option<real>)

  /** One row of the result: the block, the four summed VKT columns, the
      land area and the four densities. */
  datatype BlockDensity = BlockDensity(
    geoid: int,
    vkt: real,
    vktLdv: real,
    vktMdv: real,
    vktHdv: real,
    area: real,
    tdVkt: real,
    tdLdv: real,
    tdMdv: real,
    tdHdv: real)

  /** The four VKT columns. */
  datatype VktColumn = Total | Ldv | Mdv | Hdv

  function Column(r: IntersectionRow, c: VktColumn): Option<real> {
    match c
    case Total => r.vkt
    case Ldv => r.vktLdv
    case Mdv => r.vktMdv
    case Hdv => r.vktHdv
  }

  function Summed(b: BlockDensity, c: VktColumn): real {
    match c
    case Total => b.vkt
    case Ldv => b.vktLdv
    case Mdv => b.vktMdv
    case Hdv => b.vktHdv
  }

  function Density(b: BlockDensity, c: VktColumn): real {
    match c
    case Total => b.tdVkt
    case Ldv => b.tdLdv
    case Mdv => b.tdMdv
    case Hdv => b.tdHdv
  }

  /** The block identifiers present in `t`, in row order. */
  function PresentKeys(t: seq<IntersectionRow>): (ks: seq<int>)
    ensures forall k :: k in ks <==> exists r :: r in t && r.geoid == Some(k)
  {
    if t == [] then []
    else
      var rest := PresentKeys(t[1..]);
      assert forall r :: r in t <==> r == t[0] || r in t[1..] by {
        assert t == [t[0]] + t[1..];
      }
      if t[0].geoid.Some? then [t[0].geoid.value] + rest else rest
  }

  /** The groups of `groupby('GEOID20')`: each block once, ascending. */
  function Blocks(t: seq<IntersectionRow>): (ks: seq<int>)
    ensures StrictlyIncreasing(ks)
    ensures forall k :: k in ks <==> exists r :: r in t && r.geoid == Some(k)
  {
    SortedUnique(PresentKeys(t))
  }

  function InBlock(k: int): IntersectionRow -> bool {
    (r: IntersectionRow) => r.geoid == Some(k)
  }

  /** The rows of block `k`, in row order. */
  function Group(t: seq<IntersectionRow>, k: int): (g: seq<IntersectionRow>)
    ensures forall r :: r in g <==> r in t && r.geoid == Some(k)
  {
    Filter(t, InBlock(k))
  }

  /** The pandas `sum` of a column: missing values are skipped, and a
      column with none present sums to 0. */
  function SumColumn(rows: seq<IntersectionRow>, c: VktColumn): real {
    if rows == [] then 0.0 else Column(rows[0], c).GetOr(0.0) + SumColumn(rows[1..], c)
  }

  /** The pandas `first` of the area column: the first area present in the
      group, if any. */
  function FirstArea(rows: seq<IntersectionRow>): (a: Option<real>)
    ensures a.None? <==> forall i :: 0 <= i < |rows| ==> rows[i].area.None?
  {
    if rows == [] then None
    else if rows[0].area.Some? then rows[0].area
    else
      assert forall i :: 1 <= i < |rows| ==> rows[i] == rows[1..][i - 1];
      FirstArea(rows[1..])
  }

  /** The area taken is that of the first row carrying one. */
  lemma {:induction false} FirstAreaIsFirst(rows: seq<IntersectionRow>)
    requires FirstArea(rows).Some?
    ensures exists i :: (0 <= i < |rows| && rows[i].area == FirstArea(rows) &&
                         forall j :: 0 <= j < i ==> rows[j].area.None?)
  {
    if rows[0].area.None? {
      FirstAreaIsFirst(rows[1..]);
      var i :| 0 <= i < |rows[1..]| && rows[1..][i].area == FirstArea(rows[1..]) &&
        forall j :: 0 <= j < i ==> rows[1..][j].area.None?;
      assert rows[i + 1].area == FirstArea(rows);
      assert forall j :: 1 <= j < i + 1 ==> rows[j] == rows[1..][j - 1];
    } else {
      assert rows[0].area == FirstArea(rows);
    }
  }

  /** A block whose rows that carry an area all carry the same one has that
      area as its first. */
  lemma FirstAreaOfUniformBlock(rows: seq<IntersectionRow>, a: real)
    requires exists i :: 0 <= i < |rows| && rows[i].area.Some?
    requires forall i :: 0 <= i < |rows| && rows[i].area.Some? ==> rows[i].area.value == a
    ensures FirstArea(rows) == Some(a)
  {
    FirstAreaIsFirst(rows);
  }

  /** `x / (area / 10**6)`, with a missing area, or a zero area (an
      infinite or undefined quotient), giving 0. */
  function PerSquareKm(x: real, area: Option<real>): (td: real)
    ensures area.Some? && area.value != 0.0 ==> td * (area.value / 1000000.0) == x
    ensures area.None? || area.value == 0.0 ==> td == 0.0
  {
    if area.None? || area.value == 0.0 then 0.0 else x / (area.value / 1000000.0)
  }

  /** The result row of block `k`. The area is replaced by 0 when the block
      has none, as the missing-value replacement covers every column. */
  function BlockRow(t: seq<IntersectionRow>, k: int): (b: BlockDensity)
    ensures b.geoid == k
    ensures forall c :: Summed(b, c) == SumColumn(Group(t, k), c)
    ensures b.area == FirstArea(Group(t, k)).GetOr(0.0)
    ensures forall c :: Density(b, c) == PerSquareKm(Summed(b, c), FirstArea(Group(t, k)))
  {
    var g := Group(t, k);
    var area := FirstArea(g);
    var vkt := SumColumn(g, Total);
    var ldv := SumColumn(g, Ldv);
    var mdv := SumColumn(g, Mdv);
    var hdv := SumColumn(g, Hdv);
    BlockDensity(k, vkt, ldv, mdv, hdv, area.GetOr(0.0),
      PerSquareKm(vkt, area), PerSquareKm(ldv, area), PerSquareKm(mdv, area), PerSquareKm(hdv, area))
  }

  /** The rows of blocks `ks`, in that order. */
  function BlockRows(t: seq<IntersectionRow>, ks: seq<int>): (out: seq<BlockDensity>)
    ensures |out| == |ks|
    ensures forall i :: 0 <= i < |ks| ==> out[i] == BlockRow(t, ks[i])
  {
    if ks == [] then [] else [BlockRow(t, ks[0])] + BlockRows(t, ks[1..])
  }

  /** `calculate_traffic_density(df)`: one row per block, ascending. */
  function CalculateTrafficDensity(t: seq<IntersectionRow>): (out: seq<BlockDensity>)
    ensures |out| == |Blocks(t)|
    ensures forall i :: 0 <= i < |out| ==> out[i] == BlockRow(t, Blocks(t)[i])
  {
    BlockRows(t, Blocks(t))
  }

  /** Exactly one result row per block present in the input, in ascending
      block order. */
  lemma OneRowPerBlock(t: seq<IntersectionRow>)
    ensures forall i, j :: 0 <= i < j < |CalculateTrafficDensity(t)| ==>
      CalculateTrafficDensity(t)[i].geoid < CalculateTrafficDensity(t)[j].geoid
    ensures forall k :: (exists i :: 0 <= i < |CalculateTrafficDensity(t)| &&
                                     CalculateTrafficDensity(t)[i].geoid == k) <==>
                        (exists r :: r in t && r.geoid == Some(k))
  {
    ResultKeys(t);
    forall k
      ensures (exists i :: 0 <= i < |CalculateTrafficDensity(t)| &&
                           CalculateTrafficDensity(t)[i].geoid == k) <==>
              (exists r :: r in t && r.geoid == Some(k))
    {
      BlockHasRow(t, k);
    }
  }

  /** The block identifiers of the result, row by row. */
  lemma ResultKeys(t: seq<IntersectionRow>)
    ensures |CalculateTrafficDensity(t)| == |Blocks(t)|
    ensures forall i :: 0 <= i < |CalculateTrafficDensity(t)| ==>
      CalculateTrafficDensity(t)[i].geoid == Blocks(t)[i]
  {
  }

  /** Block `k` has a result row exactly when some input row carries it. */
  lemma BlockHasRow(t: seq<IntersectionRow>, k: int)
    ensures (exists i :: 0 <= i < |CalculateTrafficDensity(t)| &&
                         CalculateTrafficDensity(t)[i].geoid == k) <==>
            (exists r :: r in t && r.geoid == Some(k))
  {
    var out := CalculateTrafficDensity(t);
    var ks := Blocks(t);
    ResultKeys(t);
    if exists i :: 0 <= i < |out| && out[i].geoid == k {
      var i :| 0 <= i < |out| && out[i].geoid == k;
      assert ks[i] == k && ks[i] in ks;
    }
    if exists r :: r in t && r.geoid == Some(k) {
      assert k in ks;
      var i :| 0 <= i < |ks| && ks[i] == k;
      assert out[i].geoid == k;
    }
  }

  // ---------------------------------------------------------------------
  // Sum preservation

  /** The sum of column `c` over the rows of block `k`, one row at a time. */
  function BlockSum(t: seq<IntersectionRow>, k: int, c: VktColumn): real {
    if t == [] then 0.0
    else (if t[0].geoid == Some(k) then Column(t[0], c).GetOr(0.0) else 0.0) + BlockSum(t[1..], k, c)
  }

  /** The running block sum is the sum over the block's group. */
  lemma {:induction false} BlockSumIsGroupSum(t: seq<IntersectionRow>, k: int, c: VktColumn)
    ensures BlockSum(t, k, c) == SumColumn(Group(t, k), c)
  {
    if t != [] {
      BlockSumIsGroupSum(t[1..], k, c);
      var g := Filter(t[1..], InBlock(k));
      if t[0].geoid == Some(k) {
        assert Filter(t, InBlock(k)) == [t[0]] + g;
        assert ([t[0]] + g)[1..] == g;
      } else {
        assert Filter(t, InBlock(k)) == [] + g == g;
      }
    }
  }

  /** The sum of column `c` over the rows that have a block. */
  function KeyedSum(t: seq<IntersectionRow>, c: VktColumn): real {
    if t == [] then 0.0
    else (if t[0].geoid.Some? then Column(t[0], c).GetOr(0.0) else 0.0) + KeyedSum(t[1..], c)
  }

  /** The block sums of column `c` over blocks `ks`, added up. */
  function OverBlocks(t: seq<IntersectionRow>, ks: seq<int>, c: VktColumn): real {
    if ks == [] then 0.0 else BlockSum(t, ks[0], c) + OverBlocks(t, ks[1..], c)
  }

  /** What the first row contributes across distinct blocks `ks`: its value
      once if its block is among them, nothing otherwise. */
  lemma {:induction false} OverBlocksFirstRow(t: seq<IntersectionRow>, ks: seq<int>, c: VktColumn)
    requires t != []
    requires forall i, j :: 0 <= i < j < |ks| ==> ks[i] != ks[j]
    ensures OverBlocks(t, ks, c) == OverBlocks(t[1..], ks, c) +
      (if t[0].geoid.Some? && t[0].geoid.value in ks then Column(t[0], c).GetOr(0.0) else 0.0)
  {
    if ks != [] {
      OverBlocksFirstRow(t, ks[1..], c);
      assert forall x :: x in ks <==> x == ks[0] || x in ks[1..] by {
        assert ks == [ks[0]] + ks[1..];
      }
      if t[0].geoid == Some(ks[0]) {
        assert ks[0] !in ks[1..];
      }
    }
  }

  /** Summing the block sums over blocks covering every keyed row, each
      block once, gives the sum over all keyed rows. */
  lemma {:induction false} OverBlocksIsKeyedSum(t: seq<IntersectionRow>, ks: seq<int>, c: VktColumn)
    requires forall i, j :: 0 <= i < j < |ks| ==> ks[i] != ks[j]
    requires forall r :: r in t && r.geoid.Some? ==> r.geoid.value in ks
    ensures OverBlocks(t, ks, c) == KeyedSum(t, c)
  {
    if t == [] {
      OverBlocksEmpty(ks, c);
    } else {
      assert t[0] in t;
      assert forall r :: r in t[1..] ==> r in t;
      OverBlocksFirstRow(t, ks, c);
      OverBlocksIsKeyedSum(t[1..], ks, c);
    }
  }

  lemma {:induction false} OverBlocksEmpty(ks: seq<int>, c: VktColumn)
    ensures OverBlocks([], ks, c) == 0.0
  {
    if ks != [] {
      OverBlocksEmpty(ks[1..], c);
    }
  }

  /** The sum of column `c` over result rows. */
  function SumSummed(out: seq<BlockDensity>, c: VktColumn): real {
    if out == [] then 0.0 else Summed(out[0], c) + SumSummed(out[1..], c)
  }

  lemma {:induction false} SumBlockRows(t: seq<IntersectionRow>, ks: seq<int>, c: VktColumn)
    ensures SumSummed(BlockRows(t, ks), c) == OverBlocks(t, ks, c)
  {
    if ks != [] {
      SumBlockRows(t, ks[1..], c);
      BlockSumIsGroupSum(t, ks[0], c);
      assert BlockRows(t, ks)[1..] == BlockRows(t, ks[1..]);
    }
  }

  /** Aggregation loses and invents nothing: for each of the four VKT
      columns, the block sums add up to the column's total over the rows
      that have a block. */
  lemma SumPreserved(t: seq<IntersectionRow>, c: VktColumn)
    ensures SumSummed(CalculateTrafficDensity(t), c) == KeyedSum(t, c)
  {
    var ks := Blocks(t);
    SumBlockRows(t, ks, c);
    OverBlocksIsKeyedSum(t, ks, c);
  }
}
