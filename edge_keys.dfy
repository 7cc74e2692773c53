/**
 * Edge keys. Each local edge 0..3 of cell (i, j) is identified by its
 * midpoint in grid-index units, a half-integer point; two segments meet
 * exactly when they carry equal keys. The interpolation of a crossing point
 * reads the two corners of that edge in a fixed order.
 */
module EdgeKeys {
  import opened IsolineTools
  import opened Tables

  /** A grid corner (row, column). */
  type Corner = (int, int)

  /**
   * The two corners edge e of cell (i, j) joins, in the order the crossing
   * point interpolation receives them (first corner, second corner).
   */
  function CutCorners(e: int, i: int, j: int): (r: (Corner, Corner))
    requires 0 <= e < 4
    ensures i <= r.0.0 <= i + 1 && j <= r.0.1 <= j + 1
    ensures i <= r.1.0 <= i + 1 && j <= r.1.1 <= j + 1
    ensures (r.0.0 == r.1.0) != (r.0.1 == r.1.1)
  {
    if e == 0 then ((i + 1, j), (i, j))
    else if e == 1 then ((i, j), (i, j + 1))
    else if e == 2 then ((i, j + 1), (i + 1, j + 1))
    else ((i + 1, j + 1), (i + 1, j))
  }

  /** The square-index bit of a corner of cell (i, j). */
  function CornerBit(c: Corner, i: int, j: int): (b: int)
    requires i <= c.0 <= i + 1 && j <= c.1 <= j + 1
  {
    if c == (i, j) then 8 else if c == (i, j + 1) then 4 else if c == (i + 1, j + 1) then 2 else 1
  }

  /** The geometric midpoint of two corners. */
  function Midpoint(c: (Corner, Corner)): Point2D
  {
    Point2D(((c.0.0 + c.1.0) as real) / 2.0, ((c.0.1 + c.1.1) as real) / 2.0)
  }

  /** The key of local edge e of cell (i, j): the midpoint of the corners it joins. */
  function MiddlePoint(e: int, i: int, j: int): (p: Point2D)
    requires 0 <= e < 4
    ensures p == Midpoint(CutCorners(e, i, j))
  {
    if e == 0 then Point2D(i as real + 0.5, j as real)
    else if e == 1 then Point2D(i as real, j as real + 0.5)
    else if e == 2 then Point2D(i as real + 0.5, j as real + 1.0)
    else Point2D(i as real + 1.0, j as real + 0.5)
  }

  /** The corners each edge joins carry the corner bits the tables assume. */
  lemma {:induction false} CutCornersMatchTables(e: int, i: int, j: int)
    requires 0 <= e < 4
    ensures CornerBit(CutCorners(e, i, j).0, i, j) == EdgeCornerBits(e).0
    ensures CornerBit(CutCorners(e, i, j).1, i, j) == EdgeCornerBits(e).1
  {
  }

  /** The four edge keys of one cell are distinct. */
  lemma {:induction false} KeysDistinctInCell(e1: int, e2: int, i: int, j: int)
    requires 0 <= e1 < 4 && 0 <= e2 < 4 && e1 != e2
    ensures MiddlePoint(e1, i, j) != MiddlePoint(e2, i, j)
  {
  }

  /** Horizontally and vertically adjacent cells share the edge between them. */
  lemma {:induction false} NeighbourKeysShared(i: int, j: int)
    ensures MiddlePoint(2, i, j) == MiddlePoint(0, i, j + 1)
    ensures MiddlePoint(3, i, j) == MiddlePoint(1, i + 1, j)
  {
  }

  /**
   * The shared edge of two neighbours is handed to the interpolation with
   * its two corners in opposite orders by the two cells.
   */
  lemma {:induction false} NeighbourCutCornersReversed(i: int, j: int)
    ensures CutCorners(2, i, j) == (CutCorners(0, i, j + 1).1, CutCorners(0, i, j + 1).0)
    ensures CutCorners(3, i, j) == (CutCorners(1, i + 1, j).1, CutCorners(1, i + 1, j).0)
  {
  }

  /** Two edges are one grid edge: the same edge, or the edge shared with a right or lower neighbour. */
  predicate SameGridEdge(e1: int, i1: int, j1: int, e2: int, i2: int, j2: int)
  {
    (e1 == e2 && i1 == i2 && j1 == j2)
    || (e1 == 2 && e2 == 0 && i2 == i1 && j2 == j1 + 1)
    || (e1 == 0 && e2 == 2 && i1 == i2 && j1 == j2 + 1)
    || (e1 == 3 && e2 == 1 && i2 == i1 + 1 && j2 == j1)
    || (e1 == 1 && e2 == 3 && i1 == i2 + 1 && j1 == j2)
  }

  /** Keys are exact identities: equal keys mean one grid edge, and nothing else. */
  lemma {:induction false} KeyEqualityIsSameEdge(e1: int, i1: int, j1: int, e2: int, i2: int, j2: int)
    requires 0 <= e1 < 4 && 0 <= e2 < 4
    ensures MiddlePoint(e1, i1, j1) == MiddlePoint(e2, i2, j2) <==> SameGridEdge(e1, i1, j1, e2, i2, j2)
  {
  }

  /** The end-of-scan closure test: keys within half a grid unit in both coordinates. */
  predicate Near(a: Point2D, b: Point2D)
  {
    (if a.x >= b.x then a.x - b.x else b.x - a.x) <= 0.5 && (if a.y >= b.y then a.y - b.y else b.y - a.y) <= 0.5
  }

  /**
   * Within one cell two different edge keys pass the closure test exactly
   * when the edges meet at a corner (they are not opposite sides).
   */
  lemma {:induction false} NearKeysInCell(e1: int, e2: int, i: int, j: int)
    requires 0 <= e1 < 4 && 0 <= e2 < 4 && e1 != e2
    ensures Near(MiddlePoint(e1, i, j), MiddlePoint(e2, i, j)) <==> (e1 + e2) % 2 == 1
  {
  }
}
