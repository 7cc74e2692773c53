/**
 * The two lookup tables of marching squares. A square index (0..15) has one
 * bit per cell corner: 8 for (i, j), 4 for (i, j+1), 2 for (i+1, j+1) and 1 for
 * (i+1, j). The local edges of a cell are numbered
 *
 *        1
 *     0     2
 *        3
 *
 * where edge 0 joins (i+1, j)-(i, j), edge 1 joins (i, j)-(i, j+1), edge 2
 * joins (i, j+1)-(i+1, j+1) and edge 3 joins (i+1, j+1)-(i+1, j).
 * EdgeTable flags the crossed edges (leftmost of the four bits = edge 0), and
 * SegmentTable lists them in pairs, terminated by -1.
 */
module Tables {

  const EdgeTable: seq<int> := [
    0x0, 0x9, 0x3, 0xa,
    0x6, 0xf, 0x5, 0xc,
    0xc, 0x5, 0xf, 0x6,
    0xa, 0x3, 0x9, 0x0]

  const SegmentTable: seq<seq<int>> := [
    [-1, -1, -1, -1, -1],
    [0, 3, -1, -1, -1],
    [2, 3, -1, -1, -1],
    [0, 2, -1, -1, -1],

    [1, 2, -1, -1, -1],
    [0, 1, 2, 3, -1],
    [1, 3, -1, -1, -1],
    [0, 1, -1, -1, -1],

    [0, 1, -1, -1, -1],
    [1, 3, -1, -1, -1],
    [0, 3, 1, 2, -1],
    [1, 2, -1, -1, -1],

    [0, 2, -1, -1, -1],
    [2, 3, -1, -1, -1],
    [3, 0, -1, -1, -1],
    [-1, -1, -1, -1, -1]]

  /** Bit `b` (one of 8, 4, 2, 1) of a square index or table entry is set. */
  predicate HasBit(v: int, b: int)
    requires b > 0
  {
    (v / b) % 2 == 1
  }

  /** The table bit of local edge e: edge 0 is the leftmost (8), edge 3 the rightmost (1). */
  function EdgeBit(e: int): (b: int)
    requires 0 <= e < 4
    ensures b in {8, 4, 2, 1}
  {
    if e == 0 then 8 else if e == 1 then 4 else if e == 2 then 2 else 1
  }

  /**
   * The corner bits at the two ends of local edge e, in the order the
   * interpolation reads the corners (see EdgeKeys.CutCorners).
   */
  function EdgeCornerBits(e: int): (r: (int, int))
    requires 0 <= e < 4
    ensures r.0 in {8, 4, 2, 1} && r.1 in {8, 4, 2, 1} && r.0 != r.1
  {
    if e == 0 then (1, 8) else if e == 1 then (8, 4) else if e == 2 then (4, 2) else (2, 1)
  }

  /**
   * The segment pairs of one SegmentTable row read from position k, as the driver loop
   * `for (k = 0; row[k] != -1; k += 2)` reads them.
   */
  function PairsFrom(row: seq<int>, k: nat): (r: seq<(int, int)>)
    decreases |row| - k
  {
    if k + 1 < |row| && row[k] != -1 then [(row[k], row[k + 1])] + PairsFrom(row, k + 2) else []
  }

  /** The segments (pairs of local edges) of square index idx. */
  function SegmentPairs(idx: int): (r: seq<(int, int)>)
    requires 0 <= idx < 16
  {
    PairsFrom(SegmentTable[idx], 0)
  }

  /** Every local edge that the segments of idx mention. */
  function SegmentEdges(idx: int): (r: set<int>)
    requires 0 <= idx < 16
  {
    EdgesOf(SegmentPairs(idx))
  }

  function EdgesOf(ps: seq<(int, int)>): (r: set<int>)
  {
    if ps == [] then {} else {ps[0].0, ps[0].1} + EdgesOf(ps[1..])
  }

  /** EdgeTable is symmetric under complementing all four corners. */
  lemma {:induction false} EdgeTableComplement(k: int)
    requires 0 <= k < 16
    ensures EdgeTable[k] == EdgeTable[15 - k]
  {
  }

  /** Only the all-below and all-above indices cross no edge. */
  lemma {:induction false} EdgeTableZero(k: int)
    requires 0 <= k < 16
    ensures EdgeTable[k] == 0 <==> k == 0 || k == 15
  {
  }

  /**
   * EdgeTable is what the corners imply: edge e is flagged in EdgeTable[k]
   * exactly when the two corners it joins lie on different sides under k.
   */
  lemma {:induction false} EdgeTableIsCornerChange(k: int, e: int)
    requires 0 <= k < 16 && 0 <= e < 4
    ensures HasBit(EdgeTable[k], EdgeBit(e)) <==>
              (HasBit(k, EdgeCornerBits(e).0) != HasBit(k, EdgeCornerBits(e).1))
  {
    match e {
      case 0 => assert EdgeBit(e) == 8 && EdgeCornerBits(e) == (1, 8);
      case 1 => assert EdgeBit(e) == 4 && EdgeCornerBits(e) == (8, 4);
      case 2 => assert EdgeBit(e) == 2 && EdgeCornerBits(e) == (4, 2);
      case 3 => assert EdgeBit(e) == 1 && EdgeCornerBits(e) == (2, 1);
    }
  }

  /** The pairs of every row, with their positions in the row. */
  lemma {:induction false} PairsOfRows(k: int)
    requires 0 <= k < 16
    ensures k == 0 || k == 15 ==> SegmentPairs(k) == []
    ensures k == 5 ==> SegmentPairs(k) == [(0, 1), (2, 3)]
    ensures k == 10 ==> SegmentPairs(k) == [(0, 3), (1, 2)]
    ensures k !in {0, 5, 10, 15} ==> SegmentPairs(k) == [(SegmentTable[k][0], SegmentTable[k][1])]
  {
    var row := SegmentTable[k];
    assert PairsFrom(row, 4) == [];
    assert PairsFrom(row, 2) == if row[2] == -1 then [] else [(row[2], row[3])];
  }

  /**
   * SegmentTable agrees with EdgeTable: the edges listed before the terminator
   * are exactly the flagged ones; there is one segment, or two for the saddle
   * indices 5 and 10, and none for 0 and 15; no edge is listed twice.
   */
  lemma {:induction false} SegmentTableMatchesEdgeTable(k: int)
    requires 0 <= k < 16
    ensures forall e :: 0 <= e < 4 ==> (e in SegmentEdges(k) <==> HasBit(EdgeTable[k], EdgeBit(e)))
    ensures forall e :: e in SegmentEdges(k) ==> 0 <= e < 4
    ensures |SegmentPairs(k)| == (if k == 5 || k == 10 then 2 else if k == 0 || k == 15 then 0 else 1)
    ensures forall p :: p in SegmentPairs(k) ==> p.0 != p.1
    ensures |SegmentPairs(k)| == 2 ==> {SegmentPairs(k)[0].0, SegmentPairs(k)[0].1} !! {SegmentPairs(k)[1].0, SegmentPairs(k)[1].1}
  {
    PairsOfRows(k);
    var ps := SegmentPairs(k);
    if |ps| == 1 {
      assert EdgesOf(ps[1..]) == {};
      assert SegmentEdges(k) == {ps[0].0, ps[0].1};
    } else if |ps| == 2 {
      assert EdgesOf(ps[1..][1..]) == {};
      assert SegmentEdges(k) == {ps[0].0, ps[0].1, ps[1].0, ps[1].1};
    }
    forall e | 0 <= e < 4
      ensures e in SegmentEdges(k) <==> HasBit(EdgeTable[k], EdgeBit(e))
    {
      match e {
        case 0 => assert EdgeBit(e) == 8;
        case 1 => assert EdgeBit(e) == 4;
        case 2 => assert EdgeBit(e) == 2;
        case 3 => assert EdgeBit(e) == 1;
      }
    }
  }

  /** Every row has five entries and ends with the terminator, so the pair walk stops within the row. */
  lemma {:induction false} TableRowsTerminated(k: int)
    requires 0 <= k < 16
    ensures |SegmentTable[k]| == 5 && SegmentTable[k][4] == -1
  {
  }
}
