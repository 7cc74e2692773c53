/**
 * Cell classification: the per-cell range pre-filter, the 4-bit square index,
 * the saddle resolution by the corner mean, and the list of segments one cell
 * emits for each isovalue, in the order both drivers emit them.
 */
module Cells {
  import opened IsolineTools
  import opened Tables
  import opened EdgeKeys

  /** The largest finite single-precision value, the initial minimum of the pre-filter. */
  const FLT_MAX: real := 340282346638528859811704183484516925440.0

  /** A grid of samples: rows of columns. */
  type Grid = seq<seq<real>>

  /** Cell (i, j) has all four corners in the grid. */
  predicate CellInGrid(data: Grid, i: int, j: int)
  {
    0 <= i && i + 1 < |data| && 0 <= j && j + 1 < |data[i]| && j + 1 < |data[i + 1]|
  }

  /**
   * The interpolation of a crossing point on the segment between two
   * corners, from the isovalue and the two corners with their samples. Its
   * arithmetic (floating point, snapping to a corner, the map to longitude
   * and latitude) is not part of this model.
   */
  type Interp = (real, Corner, real, Corner, real) -> Point2D

  /** The sample at a corner. */
  function Sample(data: Grid, c: Corner): real
    requires 0 <= c.0 < |data| && 0 <= c.1 < |data[c.0]|
  {
    data[c.0][c.1]
  }

  /**
   * The cut point on local edge e of cell (i, j): the interpolation between
   * the two corners of that edge, in the order the edge lists them.
   */
  function GetCutPoint(e: int, i: int, j: int, data: Grid, iso: real, interp: Interp): (p: Point2D)
    requires 0 <= e < 4 && CellInGrid(data, i, j)
  {
    var cs := CutCorners(e, i, j);
    interp(iso, cs.0, Sample(data, cs.0), cs.1, Sample(data, cs.1))
  }

  /** The corners of cell (i, j) in bit order 8, 4, 2, 1. */
  function Corners(data: Grid, i: int, j: int): (real, real, real, real)
    requires CellInGrid(data, i, j)
  {
    (data[i][j], data[i][j + 1], data[i + 1][j + 1], data[i + 1][j])
  }

  function Max4(v: (real, real, real, real)): real
  {
    var a := if v.0 >= v.1 then v.0 else v.1;
    var b := if v.2 >= v.3 then v.2 else v.3;
    if a >= b then a else b
  }

  function Min4(v: (real, real, real, real)): real
  {
    var a := if v.0 <= v.1 then v.0 else v.1;
    var b := if v.2 <= v.3 then v.2 else v.3;
    if a <= b then a else b
  }

  /**
   * The pre-filter's upper bound: a running maximum that STARTS AT 0, so it is
   * never below 0 even when every corner is negative.
   */
  function PrefilterMax(v: (real, real, real, real)): (r: real)
    ensures r == (if Max4(v) > 0.0 then Max4(v) else 0.0)
  {
    var m0 := 0.0;
    var m1 := if v.0 > m0 then v.0 else m0;
    var m2 := if v.1 > m1 then v.1 else m1;
    var m3 := if v.2 > m2 then v.2 else m2;
    if v.3 > m3 then v.3 else m3
  }

  /** The pre-filter's lower bound: a running minimum that starts at FLT_MAX. */
  function PrefilterMin(v: (real, real, real, real)): (r: real)
    ensures r == (if Min4(v) < FLT_MAX then Min4(v) else FLT_MAX)
  {
    var m0 := FLT_MAX;
    var m1 := if v.0 < m0 then v.0 else m0;
    var m2 := if v.1 < m1 then v.1 else m1;
    var m3 := if v.2 < m2 then v.2 else m2;
    if v.3 < m3 then v.3 else m3
  }

  /** The square index: bit 8, 4, 2, 1 set when corner 0, 1, 2, 3 is at or above the isovalue. */
  function SquareIndex(v: (real, real, real, real), iso: real): (r: int)
    ensures 0 <= r < 16
    ensures HasBit(r, 8) <==> v.0 >= iso
    ensures HasBit(r, 4) <==> v.1 >= iso
    ensures HasBit(r, 2) <==> v.2 >= iso
    ensures HasBit(r, 1) <==> v.3 >= iso
  {
    (if v.0 >= iso then 8 else 0) + (if v.1 >= iso then 4 else 0)
    + (if v.2 >= iso then 2 else 0) + (if v.3 >= iso then 1 else 0)
  }

  /** The corner mean, the estimate of the value at the cell centre. */
  function CenterValue(v: (real, real, real, real)): real
  {
    (1.0 / 4.0) * (v.0 + v.1 + v.2 + v.3)
  }

  /**
   * Saddle resolution: index 5 becomes 10 and 10 becomes 5 when the centre
   * estimate is strictly below the isovalue; a centre equal to the isovalue
   * keeps the index.
   */
  function ResolveSaddle(idx: int, center: real, iso: real): (r: int)
    requires 0 <= idx < 16
    ensures 0 <= r < 16
    ensures r != idx <==> (idx == 5 || idx == 10) && center < iso
    ensures r != idx ==> r == 15 - idx
  {
    if idx == 5 && center < iso then 10
    else if idx == 10 && center < iso then 5
    else idx
  }

  /** The segments cell (i, j) emits for one isovalue, as local edge pairs. */
  function CellPairs(data: Grid, i: int, j: int, iso: real): (r: seq<(int, int)>)
    requires CellInGrid(data, i, j)
    ensures forall p :: p in r ==> 0 <= p.0 < 4 && 0 <= p.1 < 4 && p.0 != p.1
    ensures |r| <= 2
  {
    var v := Corners(data, i, j);
    if iso < PrefilterMin(v) || iso > PrefilterMax(v) then []
    else
      var idx := SquareIndex(v, iso);
      if EdgeTable[idx] == 0 then []
      else
        var r := ResolveSaddle(idx, CenterValue(v), iso);
        SegmentTableMatchesEdgeTable(r);
        PairsOfRows(r);
        SegmentPairs(r)
  }

  /** The shared corner bit of two local edges that meet at a corner. */
  function SharedCorner(e1: int, e2: int): (c: int)
    requires 0 <= e1 < 4 && 0 <= e2 < 4 && (e1 + e2) % 2 == 1
    ensures c == EdgeCornerBits(e1).0 || c == EdgeCornerBits(e1).1
    ensures c == EdgeCornerBits(e2).0 || c == EdgeCornerBits(e2).1
  {
    if {e1, e2} == {0, 1} then 8
    else if {e1, e2} == {1, 2} then 4
    else if {e1, e2} == {2, 3} then 2
    else 1
  }

  /**
   * A cell emits a segment for an isovalue exactly when the isovalue lies in
   * (smallest corner, largest corner]. In particular the pre-filter's
   * maximum starting at 0 never lets an extra segment through.
   */
  lemma {:induction false} CellPairsExactlyInRange(data: Grid, i: int, j: int, iso: real)
    requires CellInGrid(data, i, j)
    ensures CellPairs(data, i, j, iso) != [] <==> Min4(Corners(data, i, j)) < iso <= Max4(Corners(data, i, j))
  {
    var v := Corners(data, i, j);
    var idx := SquareIndex(v, iso);
    if Min4(v) < iso <= Max4(v) {
      assert !(iso < PrefilterMin(v) || iso > PrefilterMax(v));
      assert idx != 0 && idx != 15;
      EdgeTableZero(idx);
      var r := ResolveSaddle(idx, CenterValue(v), iso);
      PairsOfRows(r);
    } else if iso <= Min4(v) {
      assert idx == 15;
    } else {
      assert idx == 0;
    }
  }

  /**
   * In a saddle cell every emitted segment cuts off one corner, and that
   * corner lies on the other side of the isovalue from the centre estimate.
   */
  lemma {:induction false} SaddleSegmentsIsolateCorners(v: (real, real, real, real), iso: real)
    requires SquareIndex(v, iso) == 5 || SquareIndex(v, iso) == 10
    ensures var idx := SquareIndex(v, iso);
            var r := ResolveSaddle(idx, CenterValue(v), iso);
            forall p :: p in SegmentPairs(r) ==>
              0 <= p.0 < 4 && 0 <= p.1 < 4 && (p.0 + p.1) % 2 == 1 &&
              (HasBit(idx, SharedCorner(p.0, p.1)) != (CenterValue(v) >= iso))
  {
    var idx := SquareIndex(v, iso);
    var r := ResolveSaddle(idx, CenterValue(v), iso);
    PairsOfRows(r);
  }

  /** A segment record the stitcher can take: two edges 0..3, an isovalue index below n. */
  predicate WellFormed(e: Edge, n: int)
  {
    0 <= e.edgeIndex1 < 4 && 0 <= e.edgeIndex2 < 4 && 0 <= e.m < n
  }

  /** A segment record describes a segment of the grid for its own isovalue. */
  predicate Tagged(e: Edge, isos: seq<real>)
  {
    0 <= e.m < |isos| && e.isovalue == isos[e.m]
  }

  /**
   * The segment records of cell (i, j) for isovalue number m, in table
   * order: each names two edges 0..3 of this cell and isovalue m with its value.
   */
  function IsoEdges(data: Grid, isos: seq<real>, i: int, j: int, m: int): (r: seq<Edge>)
    requires CellInGrid(data, i, j) && 0 <= m < |isos|
    ensures |r| == |CellPairs(data, i, j, isos[m])|
    ensures forall k :: 0 <= k < |r| ==>
              WellFormed(r[k], |isos|) && Tagged(r[k], isos) && r[k].i == i && r[k].j == j && r[k].m == m
  {
    var ps := CellPairs(data, i, j, isos[m]);
    assert forall k :: 0 <= k < |ps| ==> ps[k] in ps;
    seq(|ps|, k requires 0 <= k < |ps| => Edge(ps[k].0, ps[k].1, i, j, m, isos[m]))
  }

  /**
   * The segment records of cell (i, j) for isovalues 0..m-1, in the drivers'
   * order: each names this cell and an isovalue below m.
   */
  function CellEdgesUpTo(data: Grid, isos: seq<real>, i: int, j: int, m: nat): (r: seq<Edge>)
    requires CellInGrid(data, i, j) && m <= |isos|
    ensures forall k :: 0 <= k < |r| ==>
              WellFormed(r[k], |isos|) && Tagged(r[k], isos) && r[k].i == i && r[k].j == j && r[k].m < m
  {
    if m == 0 then [] else CellEdgesUpTo(data, isos, i, j, m - 1) + IsoEdges(data, isos, i, j, m - 1)
  }
}
