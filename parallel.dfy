/**
 * The parallel builder: the sentinel fill of the segment buffer, the grid
 * pass that writes every cell's segments into their slots, the four
 * sections that each build lines from one quarter of the buffer, the three
 * band merges that join the sections' lines, and the closure pass. The
 * sections touch disjoint state, so they are modelled as four loops run
 * one after the other.
 */
module Parallel {
  import opened Options
  import opened IsolineTools
  import opened Tables
  import opened EdgeKeys
  import opened Cells
  import opened Sequential
  import opened SlotArith
  import opened Slots
  import opened BandMerge
  import opened Stitcher

  // ---------------------------------------------------------------------
  // Writing into the buffer

  /** The buffer b with the entries of s written over it from slot base on. */
  function OverlayAt(b: seq<Edge>, base: int, s: seq<Option<Edge>>): (r: seq<Edge>)
    requires 0 <= base && base + |s| <= |b|
    ensures |r| == |b|
  {
    seq(|b|, k requires 0 <= k < |b| => if base <= k < base + |s| && s[k - base].Some? then s[k - base].value else b[k])
  }

  /** Writing p and then, right after it at slot mid, c is writing p + c. */
  lemma {:induction false} OverlayAtAppend(b: seq<Edge>, base: int, p: seq<Option<Edge>>, mid: int, c: seq<Option<Edge>>)
    requires 0 <= base && mid == base + |p| && mid + |c| <= |b|
    ensures OverlayAt(OverlayAt(b, base, p), mid, c) == OverlayAt(b, base, p + c)
  {
    var l, r := OverlayAt(OverlayAt(b, base, p), mid, c), OverlayAt(b, base, p + c);
    forall k | 0 <= k < |b|
      ensures l[k] == r[k]
    {
      if base <= k < mid {
        assert (p + c)[k - base] == p[k - base];
      } else if mid <= k < mid + |c| {
        assert (p + c)[k - base] == c[k - mid];
      }
    }
  }

  /** Writing only unwritten slots leaves the buffer as it was. */
  lemma {:induction false} OverlayAtNothing(b: seq<Edge>, base: int, s: seq<Option<Edge>>)
    requires 0 <= base && base + |s| <= |b| && forall k :: 0 <= k < |s| ==> s[k].None?
    ensures b == OverlayAt(b, base, s)
  {
  }

  /** A slice of an overlay is the overlay of the slices. */
  lemma {:induction false} OverlaySlice(b: seq<Edge>, s: seq<Option<Edge>>, lo: int, hi: int)
    requires |b| == |s| && 0 <= lo <= hi <= |b|
    ensures Overlay(b, s)[lo..hi] == Overlay(b[lo..hi], s[lo..hi])
  {
    var l, r := Overlay(b, s)[lo..hi], Overlay(b[lo..hi], s[lo..hi]);
    forall k | 0 <= k < hi - lo
      ensures l[k] == r[k]
    {
      assert l[k] == Overlay(b, s)[lo + k];
    }
  }

  /** Writing a whole buffer's worth from slot 0 is the overlay of the buffer. */
  lemma {:induction false} OverlayAtWhole(b: seq<Edge>, s: seq<Option<Edge>>)
    requires |b| == |s|
    ensures OverlayAt(b, 0, s) == Overlay(b, s)
  {
  }

  /** The initial fill: every slot gets the sentinel isovalue, its other fields untouched. */
  method FillSentinel(a: array<Edge>)
    modifies a
    ensures forall k :: 0 <= k < a.Length ==> a[k] == old(a[k]).(isovalue := Sentinel)
    ensures Filled(a[..])
  {
    var i := 0;
    while i < a.Length
      invariant 0 <= i <= a.Length
      invariant forall k :: 0 <= k < i ==> a[k] == old(a[k]).(isovalue := Sentinel)
      invariant forall k :: i <= k < a.Length ==> a[k] == old(a[k])
    {
      a[i] := a[i].(isovalue := Sentinel);
      i := i + 1;
    }
  }

  /** The grid shape the pass relies on: cell (i, j) among the pass's cells, the buffer of the right size. */
  predicate PassCell(data: Grid, isos: seq<real>, i: int, j: int, dataSize_j: int, len: int)
  {
    Grid2D(data) && 0 <= i < |data| - 1 && 0 <= j < |data[0]| - 1
    && dataSize_j == |data[0]| - 1 && len == EdgeSize(data, |isos|)
  }

  /**
   * Walks the table row of square index idx, writing segment number k / 2 of
   * cell (i, j) and isovalue m into slot ((i * dataSize_j + j) * n + m) * 2 + k / 2.
   */
  method WriteSegments(a: array<Edge>, data: Grid, isos: seq<real>, i: int, j: int, m: int, idx: int, dataSize_j: int)
    modifies a
    requires PassCell(data, isos, i, j, dataSize_j, a.Length) && 0 <= m < |isos| && 0 <= idx < 16
    requires SegmentPairs(idx) == CellPairs(data, i, j, isos[m])
    ensures CellInGrid(data, i, j)
    ensures 0 <= CellBase(i, j, dataSize_j, |isos|) && IsoBase(i, j, dataSize_j, |isos|, m) + 2 <= a.Length
    ensures a[..] == OverlayAt(old(a[..]), IsoBase(i, j, dataSize_j, |isos|, m), Padded(IsoEdges(data, isos, i, j, m)))
  {
    var n := |isos|;
    var row := SegmentTable[idx];
    TableRowsTerminated(idx);
    SegmentsStart(a[..], data, isos, i, j, m, idx, row, dataSize_j);
    var k := 0;
    while row[k] != -1
      invariant SegmentsDone(a[..], old(a[..]), data, isos, i, j, m, idx, row, dataSize_j, k)
      decreases 4 - k
    {
      var currentIndex := ((i * dataSize_j + j) * n + m) * 2 + k / 2;
      assert currentIndex == SlotIndex(i, j, m, k, dataSize_j, n);
      SlotIndexIsOffset(i, j, m, k, dataSize_j, n);
      ghost var before := a[..];
      a[currentIndex] := Edge(row[k], row[k + 1], i, j, m, isos[m]);
      SegmentsStep(a[..], before, old(a[..]), data, isos, i, j, m, idx, row, dataSize_j, k);
      k := k + 2;
    }
    SegmentsEnd(a[..], old(a[..]), data, isos, i, j, m, idx, row, dataSize_j, k);
  }

  /**
   * After the table row of idx has been read up to position k: the slots of
   * the first k / 2 segments of cell (i, j) and isovalue m are written over b.
   */
  predicate SegmentsDone(cur: seq<Edge>, b: seq<Edge>, data: Grid, isos: seq<real>, i: int, j: int, m: int, idx: int, row: seq<int>, dataSize_j: int, k: int)
  {
    PassCell(data, isos, i, j, dataSize_j, |b|) && CellInGrid(data, i, j) && 0 <= m < |isos| && 0 <= idx < 16
    && row == SegmentTable[idx] && |row| == 5 && row[4] == -1
    && SegmentPairs(idx) == CellPairs(data, i, j, isos[m])
    && 0 <= CellBase(i, j, dataSize_j, |isos|) && IsoBase(i, j, dataSize_j, |isos|, m) + 2 <= |b|
    && (k == 0 || k == 2 || k == 4) && k / 2 <= |SegmentPairs(idx)|
    && PairsFrom(row, k) == SegmentPairs(idx)[k / 2..]
    && cur == OverlayAt(b, IsoBase(i, j, dataSize_j, |isos|, m), Padded(IsoEdges(data, isos, i, j, m)[..k / 2]))
  }

  lemma {:induction false} SegmentsStart(b: seq<Edge>, data: Grid, isos: seq<real>, i: int, j: int, m: int, idx: int, row: seq<int>, dataSize_j: int)
    requires PassCell(data, isos, i, j, dataSize_j, |b|) && 0 <= m < |isos| && 0 <= idx < 16 && row == SegmentTable[idx]
    requires SegmentPairs(idx) == CellPairs(data, i, j, isos[m])
    ensures SegmentsDone(b, b, data, isos, i, j, m, idx, row, dataSize_j, 0)
  {
    PassCellInGrid(data, isos, i, j, dataSize_j, |b|);
    TableRowsTerminated(idx);
    var o := IsoBase(i, j, dataSize_j, |isos|, m);
    var es := IsoEdges(data, isos, i, j, m);
    assert Padded(es[..0]) == [None, None];
    assert OverlayAt(b, o, Padded(es[..0])) == b;
  }

  lemma {:induction false} SegmentsStep(cur: seq<Edge>, prev: seq<Edge>, b: seq<Edge>, data: Grid, isos: seq<real>, i: int, j: int, m: int, idx: int, row: seq<int>, dataSize_j: int, k: int)
    requires SegmentsDone(prev, b, data, isos, i, j, m, idx, row, dataSize_j, k) && row[k] != -1
    requires cur == prev[IsoBase(i, j, dataSize_j, |isos|, m) + k / 2 :=
                         Edge(row[k], row[k + 1], i, j, m, isos[m])]
    ensures SegmentsDone(cur, b, data, isos, i, j, m, idx, row, dataSize_j, k + 2)
  {
    var ps, c := SegmentPairs(idx), k / 2;
    assert ps[c..][0] == ps[c] == (row[k], row[k + 1]);
    assert ps[c..][1..] == ps[c + 1..];
    var es := IsoEdges(data, isos, i, j, m);
    assert es[c] == Edge(row[k], row[k + 1], i, j, m, isos[m]);
    PaddedStep(b, IsoBase(i, j, dataSize_j, |isos|, m), es, c);
  }

  lemma {:induction false} SegmentsEnd(cur: seq<Edge>, b: seq<Edge>, data: Grid, isos: seq<real>, i: int, j: int, m: int, idx: int, row: seq<int>, dataSize_j: int, k: int)
    requires SegmentsDone(cur, b, data, isos, i, j, m, idx, row, dataSize_j, k) && row[k] == -1
    ensures CellInGrid(data, i, j)
    ensures 0 <= CellBase(i, j, dataSize_j, |isos|) && IsoBase(i, j, dataSize_j, |isos|, m) + 2 <= |b|
    ensures cur == OverlayAt(b, IsoBase(i, j, dataSize_j, |isos|, m), Padded(IsoEdges(data, isos, i, j, m)))
  {
    var es := IsoEdges(data, isos, i, j, m);
    assert k / 2 == |es|;
    assert es[..k / 2] == es;
  }

  /** Writing the next record of es into its slot extends the padded prefix by one. */
  lemma {:induction false} PaddedStep(b: seq<Edge>, o: int, es: seq<Edge>, c: int)
    requires 0 <= o && o + 2 <= |b| && 0 <= c < |es| <= 2
    ensures OverlayAt(b, o, Padded(es[..c]))[o + c := es[c]] == OverlayAt(b, o, Padded(es[..c + 1]))
  {
    var l, r := OverlayAt(b, o, Padded(es[..c]))[o + c := es[c]], OverlayAt(b, o, Padded(es[..c + 1]));
    forall x | 0 <= x < |b|
      ensures l[x] == r[x]
    {
      if o <= x < o + 2 {
        assert Padded(es[..c + 1])[x - o] == if x - o < c + 1 then Some(es[..c + 1][x - o]) else None;
      }
    }
  }

  /** A cell of the pass is in the grid, and its slots are in the buffer. */
  lemma {:induction false} PassCellInGrid(data: Grid, isos: seq<real>, i: int, j: int, dataSize_j: int, len: int)
    requires PassCell(data, isos, i, j, dataSize_j, len)
    ensures CellInGrid(data, i, j)
    ensures 0 <= CellBase(i, j, dataSize_j, |isos|) && CellBase(i, j, dataSize_j, |isos|) + 2 * |isos| <= len
  {
    assert |data[i]| >= |data[0]| && |data[i + 1]| >= |data[0]|;
    CellSlotsInRange(i, j, |data| - 1, dataSize_j, |isos|);
  }

  /** After the first m isovalues of cell (i, j): the buffer b with their slots written. */
  predicate CellDone(cur: seq<Edge>, b: seq<Edge>, data: Grid, isos: seq<real>, i: int, j: int, dataSize_j: int, m: int)
  {
    PassCell(data, isos, i, j, dataSize_j, |b|) && CellInGrid(data, i, j) && 0 <= m <= |isos|
    && 0 <= CellBase(i, j, dataSize_j, |isos|) && CellBase(i, j, dataSize_j, |isos|) + 2 * |isos| <= |b|
    && cur == OverlayAt(b, CellBase(i, j, dataSize_j, |isos|), CellWrites(data, isos, i, j, m))
  }

  lemma {:induction false} CellStart(b: seq<Edge>, data: Grid, isos: seq<real>, i: int, j: int, dataSize_j: int)
    requires PassCell(data, isos, i, j, dataSize_j, |b|)
    ensures CellDone(b, b, data, isos, i, j, dataSize_j, 0)
  {
    PassCellInGrid(data, isos, i, j, dataSize_j, |b|);
    assert OverlayAt(b, CellBase(i, j, dataSize_j, |isos|), CellWrites(data, isos, i, j, 0)) == b;
  }

  lemma {:induction false} CellStep(cur: seq<Edge>, prev: seq<Edge>, b: seq<Edge>, data: Grid, isos: seq<real>, i: int, j: int, dataSize_j: int, m: int)
    requires CellDone(prev, b, data, isos, i, j, dataSize_j, m) && m < |isos|
    requires cur == OverlayAt(prev, IsoBase(i, j, dataSize_j, |isos|, m), Padded(IsoEdges(data, isos, i, j, m)))
    ensures CellDone(cur, b, data, isos, i, j, dataSize_j, m + 1)
  {
    var base := CellBase(i, j, dataSize_j, |isos|);
    var w, p := CellWrites(data, isos, i, j, m), Padded(IsoEdges(data, isos, i, j, m));
    CellWritesNext(data, isos, i, j, m);
    OverlayStep(b, prev, cur, base, IsoBase(i, j, dataSize_j, |isos|, m), w, p, CellWrites(data, isos, i, j, m + 1));
  }

  /** An isovalue the cell does not cross writes nothing and still completes the cell's slots for m. */
  lemma {:induction false} CellSkip(cur: seq<Edge>, b: seq<Edge>, data: Grid, isos: seq<real>, i: int, j: int, dataSize_j: int, m: int)
    requires CellDone(cur, b, data, isos, i, j, dataSize_j, m) && m < |isos|
    requires CellPairs(data, i, j, isos[m]) == []
    ensures CellDone(cur, b, data, isos, i, j, dataSize_j, m + 1)
  {
    var p := Padded(IsoEdges(data, isos, i, j, m));
    assert p == [None, None];
    OverlayAtNothing(cur, IsoBase(i, j, dataSize_j, |isos|, m), p);
    CellStep(cur, cur, b, data, isos, i, j, dataSize_j, m);
  }

  /** Writing p right after the slots w were written at base is writing w + p at base. */
  lemma {:induction false} OverlayStep(b: seq<Edge>, prev: seq<Edge>, cur: seq<Edge>, base: int, mid: int,
                                       w: seq<Option<Edge>>, p: seq<Option<Edge>>, w': seq<Option<Edge>>)
    requires 0 <= base && mid == base + |w| && mid + |p| <= |b| && w' == w + p
    requires prev == OverlayAt(b, base, w) && cur == OverlayAt(prev, mid, p)
    ensures cur == OverlayAt(b, base, w')
  {
    OverlayAtAppend(b, base, w, mid, p);
  }

  /**
   * The segments of cell (i, j) for every isovalue, written into the cell's
   * 2 n slots; slots of isovalues the cell does not cross are not written.
   */
  method GridCalcOMP(data: Grid, isos: seq<real>, i: int, j: int, dataSize_j: int, a: array<Edge>)
    modifies a
    requires PassCell(data, isos, i, j, dataSize_j, a.Length)
    ensures CellInGrid(data, i, j)
    ensures 0 <= CellBase(i, j, dataSize_j, |isos|) && CellBase(i, j, dataSize_j, |isos|) + 2 * |isos| <= a.Length
    ensures a[..] == OverlayAt(old(a[..]), CellBase(i, j, dataSize_j, |isos|), CellWrites(data, isos, i, j, |isos|))
  {
    PassCellInGrid(data, isos, i, j, dataSize_j, a.Length);
    var maxValue, minValue := CellBounds(data, i, j);
    CellStart(a[..], data, isos, i, j, dataSize_j);
    var m := 0;
    while m < |isos|
      invariant 0 <= m <= |isos|
      invariant CellDone(a[..], old(a[..]), data, isos, i, j, dataSize_j, m)
    {
      IsovalueSlots(a, data, isos, i, j, dataSize_j, m, maxValue, minValue, old(a[..]));
      m := m + 1;
    }
    assert m == |isos|;
  }

  /** One turn of the cell's isovalue loop: classifies the cell for isovalue m and writes its segments, if any. */
  method IsovalueSlots(a: array<Edge>, data: Grid, isos: seq<real>, i: int, j: int, dataSize_j: int, m: int,
                       maxValue: real, minValue: real, ghost b: seq<Edge>)
    modifies a
    requires CellDone(a[..], b, data, isos, i, j, dataSize_j, m) && m < |isos|
    requires maxValue == PrefilterMax(Corners(data, i, j)) && minValue == PrefilterMin(Corners(data, i, j))
    ensures CellDone(a[..], b, data, isos, i, j, dataSize_j, m + 1)
  {
    ghost var before := a[..];
    var emit, idx := ClassifyCell(data, i, j, isos[m], maxValue, minValue);
    if emit {
      WriteSegments(a, data, isos, i, j, m, idx, dataSize_j);
      CellStep(a[..], before, b, data, isos, i, j, dataSize_j, m);
    } else {
      CellSkip(a[..], b, data, isos, i, j, dataSize_j, m);
    }
  }

  /** After the first j cells of row i: the buffer b with their slots written. */
  predicate RowDone(cur: seq<Edge>, b: seq<Edge>, data: Grid, isos: seq<real>, i: int, j: int, dataSize_j: int)
  {
    Grid2D(data) && 0 <= i < |data| - 1 && dataSize_j == |data[0]| - 1 && 0 <= j <= dataSize_j
    && |b| == EdgeSize(data, |isos|)
    && 0 <= CellBase(i, 0, dataSize_j, |isos|)
    && CellBase(i, 0, dataSize_j, |isos|) + |RowWrites(data, isos, i, j)| <= |b|
    && cur == OverlayAt(b, CellBase(i, 0, dataSize_j, |isos|), RowWrites(data, isos, i, j))
  }

  lemma {:induction false} RowStart(b: seq<Edge>, data: Grid, isos: seq<real>, i: int)
    requires Grid2D(data) && 0 <= i < |data| - 1 && |b| == EdgeSize(data, |isos|)
    ensures RowDone(b, b, data, isos, i, 0, |data[0]| - 1)
  {
    var dj := |data[0]| - 1;
    var x := dj * (2 * |isos|);
    MulNonneg(dj, 2 * |isos|);
    MulNonneg(i, x);
    RowFits(i, |data| - 1, x);
    assert i * x + x <= (|data| - 1) * x;
    CellBaseByRows(i, 0, dj, |isos|);
    assert i * x == CellBase(i, 0, dj, |isos|);
    assert OverlayAt(b, CellBase(i, 0, dj, |isos|), RowWrites(data, isos, i, 0)) == b;
  }

  lemma {:induction false} RowStep(cur: seq<Edge>, prev: seq<Edge>, b: seq<Edge>, data: Grid, isos: seq<real>, i: int, j: int, dataSize_j: int)
    requires RowDone(prev, b, data, isos, i, j, dataSize_j) && j < dataSize_j
    requires CellInGrid(data, i, j) && 0 <= CellBase(i, j, dataSize_j, |isos|)
    requires CellBase(i, j, dataSize_j, |isos|) + 2 * |isos| <= |b|
    requires cur == OverlayAt(prev, CellBase(i, j, dataSize_j, |isos|), CellWrites(data, isos, i, j, |isos|))
    ensures RowDone(cur, b, data, isos, i, j + 1, dataSize_j)
  {
    var n := |isos|;
    var rw, cw := RowWrites(data, isos, i, j), CellWrites(data, isos, i, j, n);
    CellBaseInRow(i, j, dataSize_j, n);
    assert CellBase(i, 0, dataSize_j, n) + |rw| == CellBase(i, j, dataSize_j, n);
    OverlayAtAppend(b, CellBase(i, 0, dataSize_j, n), rw, CellBase(i, j, dataSize_j, n), cw);
    assert RowWrites(data, isos, i, j + 1) == rw + cw;
  }

  /** The pass over the cells of row i, column by column. */
  method GridPassRow(data: Grid, isos: seq<real>, i: int, a: array<Edge>)
    modifies a
    requires Grid2D(data) && 0 <= i < |data| - 1 && a.Length == EdgeSize(data, |isos|)
    ensures 0 <= CellBase(i, 0, |data[0]| - 1, |isos|)
    ensures CellBase(i, 0, |data[0]| - 1, |isos|) + |RowWrites(data, isos, i, |data[0]| - 1)| <= a.Length
    ensures a[..] == OverlayAt(old(a[..]), CellBase(i, 0, |data[0]| - 1, |isos|), RowWrites(data, isos, i, |data[0]| - 1))
  {
    var dataSize_j := |data[0]| - 1;
    RowStart(a[..], data, isos, i);
    var j := 0;
    while j < dataSize_j
      invariant 0 <= j <= dataSize_j
      invariant RowDone(a[..], old(a[..]), data, isos, i, j, dataSize_j)
    {
      ghost var prev := a[..];
      GridCalcOMP(data, isos, i, j, dataSize_j, a);
      RowStep(a[..], prev, old(a[..]), data, isos, i, j, dataSize_j);
      j := j + 1;
    }
    assert j == dataSize_j;
  }

  /** After the first i rows: the buffer b with their slots written. */
  predicate PassDone(cur: seq<Edge>, b: seq<Edge>, data: Grid, isos: seq<real>, i: int)
  {
    Grid2D(data) && 0 <= i <= |data| - 1 && |b| == EdgeSize(data, |isos|)
    && |GridWritesUpTo(data, isos, i)| <= |b|
    && cur == OverlayAt(b, 0, GridWritesUpTo(data, isos, i))
  }

  lemma {:induction false} PassStart(b: seq<Edge>, data: Grid, isos: seq<real>)
    requires Grid2D(data) && |b| == EdgeSize(data, |isos|)
    ensures PassDone(b, b, data, isos, 0)
  {
    assert OverlayAt(b, 0, GridWritesUpTo(data, isos, 0)) == b;
  }

  lemma {:induction false} PassStep(cur: seq<Edge>, prev: seq<Edge>, b: seq<Edge>, data: Grid, isos: seq<real>, i: int)
    requires PassDone(prev, b, data, isos, i) && i < |data| - 1
    requires 0 <= CellBase(i, 0, |data[0]| - 1, |isos|)
    requires CellBase(i, 0, |data[0]| - 1, |isos|) + |RowWrites(data, isos, i, |data[0]| - 1)| <= |b|
    requires cur == OverlayAt(prev, CellBase(i, 0, |data[0]| - 1, |isos|), RowWrites(data, isos, i, |data[0]| - 1))
    ensures PassDone(cur, b, data, isos, i + 1)
  {
    RowsBeforeRow(data, isos, i);
    OverlayAtAppend(b, 0, GridWritesUpTo(data, isos, i), CellBase(i, 0, |data[0]| - 1, |isos|), RowWrites(data, isos, i, |data[0]| - 1));
    GridWritesUpToNext(data, isos, i);
  }

  /** The grid pass: every cell of every row, each writing its segments into its own slots. */
  method GridPass(data: Grid, isos: seq<real>, a: array<Edge>)
    modifies a
    requires Grid2D(data) && a.Length == EdgeSize(data, |isos|)
    ensures a[..] == Overlay(old(a[..]), GridWrites(data, isos))
  {
    PassStart(a[..], data, isos);
    var dataSize_i := |data| - 1;
    var i := 0;
    while i < dataSize_i
      invariant 0 <= i <= dataSize_i
      invariant PassDone(a[..], old(a[..]), data, isos, i)
    {
      ghost var prev := a[..];
      GridPassRow(data, isos, i, a);
      PassStep(a[..], prev, old(a[..]), data, isos, i);
      i := i + 1;
    }
    assert i == dataSize_i;
    OverlayAtWhole(old(a[..]), GridWrites(data, isos));
  }

  // ---------------------------------------------------------------------
  // The sections

  /** Every record of the written slots of s is among the written records of the whole pass. */
  lemma {:induction false} WrittenSlice(s: seq<Option<Edge>>, lo: int, hi: int)
    requires 0 <= lo <= hi <= |s|
    ensures forall e :: e in Written(s[lo..hi]) ==> e in Written(s)
  {
    assert s == s[..lo] + s[lo..hi] + s[hi..];
    WrittenAppend(s[..lo] + s[lo..hi], s[hi..]);
    WrittenAppend(s[..lo], s[lo..hi]);
  }

  /** The records a section over slots lo..hi-1 hands to the builder, in slot order. */
  function SectionEdges(data: Grid, isos: seq<real>, lo: int, hi: int): (r: seq<Edge>)
    requires Grid2D(data) && 0 <= lo <= hi <= EdgeSize(data, |isos|)
    ensures AllTaken(r, data, isos)
  {
    var s := GridWrites(data, isos);
    var w := Written(s[lo..hi]);
    WrittenSlice(s, lo, hi);
    LiveMembers(w);
    assert forall k :: 0 <= k < |Live(w)| ==> Live(w)[k] in Live(w);
    Live(w)
  }

  /** The lines and hit tables one section builds. */
  function SectionBuild(data: Grid, isos: seq<real>, lo: int, hi: int, interp: Interp): (r: Build)
    requires Grid2D(data) && 0 <= lo <= hi <= EdgeSize(data, |isos|)
    ensures BuildValid(r, isos) && TaggedLines(r.lines, isos)
  {
    var r := Fold(EmptyBuild(|isos|), SectionEdges(data, isos, lo, hi), data, isos, interp);
    assert forall m :: 0 <= m < |isos| ==> Stitchable(r.lines[m]);
    r
  }

  /** A section's slice of the buffer hands the builder that section's records, whatever the buffer held before the fill. */
  lemma {:induction false} BufferSection(data: Grid, isos: seq<real>, b: seq<Edge>, lo: int, hi: int)
    requires Grid2D(data) && |b| == EdgeSize(data, |isos|) && Filled(b) && 0 <= lo <= hi <= |b|
    ensures Live(Buffer(data, isos, b)[lo..hi]) == SectionEdges(data, isos, lo, hi)
  {
    var s := GridWrites(data, isos);
    OverlaySlice(b, s, lo, hi);
    LiveOverlay(b[lo..hi], s[lo..hi]);
  }

  /** After the first t slots of section sec: the lines and hit tables built from their live records. */
  predicate SectionDone(b: Build, sec: seq<Edge>, t: int, data: Grid, isos: seq<real>, interp: Interp)
  {
    0 <= t <= |sec| && LiveTakes(sec, data, isos) && AllTaken(Live(sec[..t]), data, isos)
    && b == Fold(EmptyBuild(|isos|), Live(sec[..t]), data, isos, interp)
  }

  lemma {:induction false} SectionStart(sec: seq<Edge>, data: Grid, isos: seq<real>, interp: Interp)
    requires LiveTakes(sec, data, isos)
    ensures SectionDone(EmptyBuild(|isos|), sec, 0, data, isos, interp)
  {
    assert sec[..0] == [];
  }

  lemma {:induction false} SectionStep(b': Build, b: Build, sec: seq<Edge>, t: int, data: Grid, isos: seq<real>, interp: Interp)
    requires SectionDone(b, sec, t, data, isos, interp) && t < |sec|
    requires sec[t].isovalue == Sentinel ==> b' == b
    requires sec[t].isovalue != Sentinel ==> Takes(sec[t], data, isos) && b' == Ingest(b, sec[t], data, isos, interp)
    ensures SectionDone(b', sec, t + 1, data, isos, interp)
  {
    LiveSnoc(sec, t);
    LivePrefixTaken(sec, t + 1, data, isos);
    if sec[t].isovalue != Sentinel {
      FoldSnoc(EmptyBuild(|isos|), Live(sec[..t]), sec[t], data, isos, interp);
    }
  }

  lemma {:induction false} SectionFinish(b: Build, sec: seq<Edge>, data: Grid, isos: seq<real>, interp: Interp)
    requires SectionDone(b, sec, |sec|, data, isos, interp)
    ensures AllTaken(Live(sec), data, isos) && b == Fold(EmptyBuild(|isos|), Live(sec), data, isos, interp)
  {
    assert sec[..|sec|] == sec;
  }

  /**
   * One section: the slots lo..hi-1 in order, each one without the sentinel
   * added to the section's own lines and hit tables.
   */
  method RunSection(a: array<Edge>, lo: int, hi: int, data: Grid, isos: seq<real>, interp: Interp) returns (b: Build)
    requires 0 <= lo <= hi <= a.Length && LiveTakes(a[lo..hi], data, isos)
    ensures AllTaken(Live(a[lo..hi]), data, isos)
    ensures b == Fold(EmptyBuild(|isos|), Live(a[lo..hi]), data, isos, interp)
  {
    ghost var sec := a[lo..hi];
    SectionStart(sec, data, isos, interp);
    b := EmptyBuild(|isos|);
    var t := 0;
    while t < hi - lo
      invariant 0 <= t <= hi - lo
      invariant SectionDone(b, sec, t, data, isos, interp)
    {
      var x := a[lo + t];
      assert x == sec[t];
      ghost var b0 := b;
      if x.isovalue != Sentinel {
        assert Takes(x, data, isos);
        assert x == Edge(x.edgeIndex1, x.edgeIndex2, x.i, x.j, x.m, isos[x.m]);
        b := AddSegment(b, x.edgeIndex1, x.edgeIndex2, x.i, x.j, x.m, data, isos, interp);
      }
      SectionStep(b, b0, sec, t, data, isos, interp);
      t := t + 1;
    }
    assert t == |sec|;
    SectionFinish(b, sec, data, isos, interp);
  }

  /** One more slot adds its record to the live records when it does not carry the sentinel. */
  lemma {:induction false} LiveSnoc(s: seq<Edge>, t: int)
    requires 0 <= t < |s|
    ensures s[t].isovalue != Sentinel ==> Live(s[..t + 1]) == Live(s[..t]) + [s[t]]
    ensures s[t].isovalue == Sentinel ==> Live(s[..t + 1]) == Live(s[..t])
  {
    assert s[..t + 1] == s[..t] + [s[t]];
    LiveAppend(s[..t], [s[t]]);
    assert [s[t]][1..] == [];
    if s[t].isovalue == Sentinel {
      assert Live([s[t]]) == [];
      assert Live(s[..t]) + [] == Live(s[..t]);
    } else {
      assert Live([s[t]]) == [s[t]];
    }
  }

  /** The builder can take every live record of a prefix of s when it can take every live slot of s. */
  lemma {:induction false} LivePrefixTaken(s: seq<Edge>, t: int, data: Grid, isos: seq<real>)
    requires LiveTakes(s, data, isos) && 0 <= t <= |s|
    ensures AllTaken(Live(s[..t]), data, isos)
  {
    LiveTakesSlice(s, 0, t, data, isos);
    assert s[0..t] == s[..t];
    LiveTaken(s[..t], data, isos);
  }

  /** The number of the four section ranges [0, b.0), [b.0, b.1), [b.1, b.2), [b.2, edgeSize) that hold slot x. */
  function Visits(b: (int, int, int), edgeSize: int, x: int): (r: nat)
    ensures r <= 4
  {
    (if 0 <= x < b.0 then 1 else 0) + (if b.0 <= x < b.1 then 1 else 0)
    + (if b.1 <= x < b.2 then 1 else 0) + (if b.2 <= x < edgeSize then 1 else 0)
  }

  /** The section bounds as written: edgeSize / 4, edgeSize / 2 and edgeSize / 4 * 3. */
  function SectionBoundsAsWritten(edgeSize: int): (int, int, int)
    requires 0 <= edgeSize
  {
    (edgeSize / 4, edgeSize / 2, edgeSize / 4 * 3)
  }

  /**
   * With a buffer of two slots (one cell, one isovalue) the third bound
   * truncates to 0, below the second bound 1: the last section starts again
   * at slot 0, and slot 0 is handed to the builder twice.
   */
  lemma {:induction false} SectionsOverlapAsWritten()
    ensures SectionBoundsAsWritten(2) == (0, 1, 0)
    ensures Visits(SectionBoundsAsWritten(2), 2, 0) == 2
  {
  }

  /** For every other buffer size the bounds as written are in order. */
  lemma {:induction false} SectionsAsWrittenOrdered(edgeSize: int)
    requires 0 <= edgeSize && edgeSize % 2 == 0
    ensures var b := SectionBoundsAsWritten(edgeSize);
            (0 <= b.0 <= b.1 <= b.2 <= edgeSize) <==> edgeSize != 2
  {
    var q := edgeSize / 4;
    var b := SectionBoundsAsWritten(edgeSize);
    assert b == (q, edgeSize / 2, q * 3);
    if edgeSize % 4 == 0 {
      assert edgeSize == 4 * q;
      assert edgeSize / 2 == 2 * q;
    } else {
      assert edgeSize == 4 * q + 2;
      assert edgeSize / 2 == 2 * q + 1;
      assert edgeSize == 2 <==> q == 0;
    }
  }

  /**
   * The section bounds as written, except that the third bound is raised to
   * the second where it would fall below it (edgeSize == 2 among the even
   * sizes); the last section then starts where the third one ends.
   */
  function SectionBounds(edgeSize: int): (b: (int, int, int))
    requires 0 <= edgeSize
    ensures 0 <= b.0 <= b.1 <= b.2 <= edgeSize
  {
    var third := edgeSize / 4 * 3;
    (edgeSize / 4, edgeSize / 2, if third < edgeSize / 2 then edgeSize / 2 else third)
  }

  /** The corrected bounds are the bounds as written for every even buffer size other than 2. */
  lemma {:induction false} SectionBoundsAsWrittenElsewhere(edgeSize: int)
    requires 0 <= edgeSize && edgeSize % 2 == 0
    ensures SectionBounds(edgeSize) == SectionBoundsAsWritten(edgeSize) <==> edgeSize != 2
  {
    SectionsAsWrittenOrdered(edgeSize);
  }

  /**
   * Every buffer size is even, so on every grid the corrected bounds are the
   * bounds as written unless the buffer holds exactly two slots.
   */
  lemma {:induction false} BufferBoundsAsWritten(data: Grid, n: nat)
    requires Grid2D(data)
    ensures var eS := EdgeSize(data, n);
            SectionBounds(eS) == SectionBoundsAsWritten(eS) <==> eS != 2
  {
    var di, dj := |data| - 1, |data[0]| - 1;
    assert dj * (2 * n) == 2 * (dj * n);
    assert di * (2 * (dj * n)) == 2 * (di * (dj * n));
    SectionBoundsAsWrittenElsewhere(EdgeSize(data, n));
  }

  /** With these bounds every slot of the buffer is in exactly one section. */
  lemma {:induction false} SectionsCoverOnce(edgeSize: int, x: int)
    requires 0 <= edgeSize && 0 <= x < edgeSize
    ensures Visits(SectionBounds(edgeSize), edgeSize, x) == 1
  {
  }

  /** The sections lie side by side: read one after the other, they hand over the pass's records in pass order. */
  lemma {:induction false} SectionsPartition(data: Grid, isos: seq<real>)
    requires Grid2D(data)
    ensures var eS := EdgeSize(data, |isos|);
            var b := SectionBounds(eS);
            SectionEdges(data, isos, 0, b.0) + SectionEdges(data, isos, b.0, b.1)
            + SectionEdges(data, isos, b.1, b.2) + SectionEdges(data, isos, b.2, eS)
            == Live(PassEdges(data, isos))
  {
    var s := GridWrites(data, isos);
    var b := SectionBounds(|s|);
    LiveWrittenSplit(s, b.0, b.1, b.2);
  }

  lemma {:induction false} SliceSplit<T>(s: seq<T>, a: int, b: int, c: int)
    requires 0 <= a <= b <= c <= |s|
    ensures s[a..c] == s[a..b] + s[b..c]
  {
    var l, r := s[a..c], s[a..b] + s[b..c];
    forall k | 0 <= k < c - a
      ensures l[k] == r[k]
    {
      if k < b - a {
        assert r[k] == s[a..b][k];
      } else {
        assert r[k] == s[b..c][k - (b - a)];
      }
    }
  }

  /** The live written records of four consecutive pieces of s, one after the other, are those of s. */
  lemma {:induction false} LiveWrittenSplit(s: seq<Option<Edge>>, b0: int, b1: int, b2: int)
    requires 0 <= b0 <= b1 <= b2 <= |s|
    ensures Live(Written(s[0..b0])) + Live(Written(s[b0..b1])) + Live(Written(s[b1..b2])) + Live(Written(s[b2..|s|]))
            == Live(Written(s))
  {
    var s0, s1, s2, s3 := s[0..b0], s[b0..b1], s[b1..b2], s[b2..|s|];
    SliceSplit(s, 0, b0, b1);
    SliceSplit(s, 0, b1, b2);
    SliceSplit(s, 0, b2, |s|);
    assert s[0..|s|] == s;
    WrittenAppend(s0 + s1 + s2, s3);
    WrittenAppend(s0 + s1, s2);
    WrittenAppend(s0, s1);
    var w0, w1, w2, w3 := Written(s0), Written(s1), Written(s2), Written(s3);
    LiveAppend(w0 + w1 + w2, w3);
    LiveAppend(w0 + w1, w2);
    LiveAppend(w0, w1);
  }

  /**
   * On a rectangular grid whose isovalues avoid the sentinel, the four
   * sections together take exactly the segments of the sequential scan, in
   * scan order.
   */
  lemma {:induction false} SectionsAreScan(data: Grid, isos: seq<real>)
    requires Grid2D(data) && Rectangular(data)
    requires forall m :: 0 <= m < |isos| ==> isos[m] != Sentinel
    ensures Rows(data)
    ensures var eS := EdgeSize(data, |isos|);
            var b := SectionBounds(eS);
            SectionEdges(data, isos, 0, b.0) + SectionEdges(data, isos, b.0, b.1)
            + SectionEdges(data, isos, b.1, b.2) + SectionEdges(data, isos, b.2, eS)
            == GridEdges(data, isos)
  {
    SectionsPartition(data, isos);
    PassIsScan(data, isos);
  }

  /**
   * On a rectangular grid whose isovalues avoid the sentinel, the live
   * records of the pass are the segments of the sequential scan.
   */
  lemma {:induction false} PassIsScan(data: Grid, isos: seq<real>)
    requires Grid2D(data) && Rectangular(data)
    requires forall m :: 0 <= m < |isos| ==> isos[m] != Sentinel
    ensures Rows(data) && Live(PassEdges(data, isos)) == GridEdges(data, isos)
  {
    var es := GridEdges(data, isos);
    assert forall k :: 0 <= k < |es| ==> Tagged(es[k], isos);
    LiveOfSegments(es);
  }

  // ---------------------------------------------------------------------
  // The driver

  /**
   * The four sections' lines merged at row di / 4 (sections 1 and 2), at
   * row di / 4 * 3 (sections 3 and 4) and at row di / 2 (the two halves),
   * then the closure pass.
   */
  function MergeSections(di: int, V0: seq<seq<Isoline>>, V1: seq<seq<Isoline>>, V2: seq<seq<Isoline>>, V3: seq<seq<Isoline>>): seq<seq<Isoline>>
    requires |V0| <= |V1| && |V2| <= |V3| && |V0| <= |V2|
  {
    ClosurePass(AreaMerged(di / 2, AreaMerged(di / 4, V0, V1), AreaMerged(di / 4 * 3, V2, V3)))
  }

  /** The parallel builder's lines: the four sections' lines merged over the grid's dataSize_i rows. */
  function ParallelLines(data: Grid, isos: seq<real>, interp: Interp): (v: seq<seq<Isoline>>)
    requires Grid2D(data)
    ensures ClosedLines(v, isos)
  {
    var V := SectionsLines(data, isos, interp);
    MergeSectionsOutput(|data| - 1, V.0, V.1, V.2, V.3, isos);
    MergeSections(|data| - 1, V.0, V.1, V.2, V.3)
  }

  /** The parallel builder's lines are the merge of the four sections' lines. */
  lemma {:induction false} ParallelLinesMerge(data: Grid, isos: seq<real>, interp: Interp,
                                              L0: seq<seq<Isoline>>, L1: seq<seq<Isoline>>, L2: seq<seq<Isoline>>, L3: seq<seq<Isoline>>)
    requires Grid2D(data) && SectionsLines(data, isos, interp) == (L0, L1, L2, L3)
    ensures |L0| <= |L1| && |L2| <= |L3| && |L0| <= |L2|
    ensures ParallelLines(data, isos, interp) == MergeSections(|data| - 1, L0, L1, L2, L3)
  {
    var V := SectionsLines(data, isos, interp);
    assert V.0 == L0 && V.1 == L1 && V.2 == L2 && V.3 == L3;
  }

  /** Lines merged from the four sections' lines are the parallel builder's lines. */
  lemma {:induction false} ParallelLinesAre(data: Grid, dataSize_i: int, isos: seq<real>, interp: Interp,
                                            L0: seq<seq<Isoline>>, L1: seq<seq<Isoline>>, L2: seq<seq<Isoline>>, L3: seq<seq<Isoline>>,
                                            v: seq<seq<Isoline>>)
    requires Grid2D(data) && SectionsLines(data, isos, interp) == (L0, L1, L2, L3)
    requires |L0| <= |L1| && |L2| <= |L3| && |L0| <= |L2|
    requires dataSize_i == |data| - 1 && v == MergeSections(dataSize_i, L0, L1, L2, L3)
    ensures v == ParallelLines(data, isos, interp)
  {
    ParallelLinesMerge(data, isos, interp, L0, L1, L2, L3);
    SameRows(data, dataSize_i, L0, L1, L2, L3);
  }

  lemma {:induction false} SameRows(data: Grid, dataSize_i: int, L0: seq<seq<Isoline>>, L1: seq<seq<Isoline>>, L2: seq<seq<Isoline>>, L3: seq<seq<Isoline>>)
    requires dataSize_i == |data| - 1 && |L0| <= |L1| && |L2| <= |L3| && |L0| <= |L2|
    ensures MergeSections(dataSize_i, L0, L1, L2, L3) == MergeSections(|data| - 1, L0, L1, L2, L3)
  {
  }

  /** The lines the four sections build, each section over its own slice of the buffer. */
  function SectionsLines(data: Grid, isos: seq<real>, interp: Interp): (V: (seq<seq<Isoline>>, seq<seq<Isoline>>, seq<seq<Isoline>>, seq<seq<Isoline>>))
    requires Grid2D(data)
    ensures TaggedLines(V.0, isos) && TaggedLines(V.1, isos) && TaggedLines(V.2, isos) && TaggedLines(V.3, isos)
  {
    var eS := EdgeSize(data, |isos|);
    var b := SectionBounds(eS);
    (SectionBuild(data, isos, 0, b.0, interp).lines, SectionBuild(data, isos, b.0, b.1, interp).lines,
     SectionBuild(data, isos, b.1, b.2, interp).lines, SectionBuild(data, isos, b.2, eS, interp).lines)
  }

  /** Line lists, one per isovalue, whose lines carry their list's isovalue and at least two points. */
  predicate TaggedLines(V: seq<seq<Isoline>>, isos: seq<real>)
  {
    |V| == |isos| && forall m, k :: 0 <= m < |V| && 0 <= k < |V[m]| ==> V[m][k].isovalue == isos[m] && |V[m][k].points| >= 2
  }

  /**
   * Merging four sections' tagged line lists keeps every line tagged with at
   * least two points, and after the closure pass no open line has its two
   * end keys within half a grid unit.
   */
  lemma {:induction false} MergeSectionsOutput(di: int, V0: seq<seq<Isoline>>, V1: seq<seq<Isoline>>, V2: seq<seq<Isoline>>, V3: seq<seq<Isoline>>, isos: seq<real>)
    requires TaggedLines(V0, isos) && TaggedLines(V1, isos) && TaggedLines(V2, isos) && TaggedLines(V3, isos)
    ensures ClosedLines(MergeSections(di, V0, V1, V2, V3), isos)
  {
    var A: seq<seq<Isoline>> := AreaMerged(di / 4, V0, V1);
    var B: seq<seq<Isoline>> := AreaMerged(di / 4 * 3, V2, V3);
    var C: seq<seq<Isoline>> := AreaMerged(di / 2, A, B);
    forall m | 0 <= m < |isos|
      ensures forall x :: 0 <= x < |C[m]| ==> C[m][x].isovalue == isos[m] && |C[m][x].points| >= 2
    {
      AreaKeepsLines(di / 4, V0, V1, m, isos[m]);
      AreaKeepsLines(di / 4 * 3, V2, V3, m, isos[m]);
      AreaKeepsLines(di / 2, A, B, m, isos[m]);
    }
    ClosedOutput(C, isos);
  }

  /**
   * The parallel builder: erases the isovalues outside [minGridValue,
   * maxGridValue], fills the buffer with the sentinel, writes every cell's
   * segments, builds lines section by section, merges the sections at the
   * three band rows and runs the closure pass.
   */
  method DoMarchingSquaresAccelerateOMP(data: Grid, isovalues: seq<real>, maxGridValue: real, minGridValue: real, interp: Interp)
    returns (isos: seq<real>, pathLinesV: seq<seq<Isoline>>)
    requires Grid2D(data)
    ensures isos == Kept(isovalues, minGridValue, maxGridValue)
    ensures pathLinesV == ParallelLines(data, isos, interp)
  {
    isos := FilterIsovalues(isovalues, minGridValue, maxGridValue);
    var edgeArray, filled := FillBuffer(data, isos);
    var b0, b1, b2, b3 := BuildSections(edgeArray, data, isos, filled, interp);
    ParallelLinesMerge(data, isos, interp, b0.lines, b1.lines, b2.lines, b3.lines);
    var dataSize_i := |data| - 1;
    pathLinesV := MergeAll(dataSize_i, b0.lines, b1.lines, b2.lines, b3.lines);
    ParallelLinesAre(data, dataSize_i, isos, interp, b0.lines, b1.lines, b2.lines, b3.lines, pathLinesV);
  }

  /** Allocates the segment buffer, fills it with the sentinel and runs the grid pass over it. */
  method FillBuffer(data: Grid, isos: seq<real>) returns (edgeArray: array<Edge>, ghost filled: seq<Edge>)
    requires Grid2D(data)
    ensures fresh(edgeArray) && |filled| == EdgeSize(data, |isos|) && Filled(filled)
    ensures edgeArray[..] == Buffer(data, isos, filled)
  {
    var isovaluesNum := |isos|;
    var dataSize_i := |data| - 1;
    var dataSize_j := |data[0]| - 1;
    var edgeSize := dataSize_i * dataSize_j * isovaluesNum * 2;
    EdgeSizeByRows(dataSize_i, dataSize_j, isovaluesNum);
    assert edgeSize == EdgeSize(data, isovaluesNum);
    edgeArray := new Edge[edgeSize];
    FillSentinel(edgeArray);
    filled := edgeArray[..];
    GridPass(data, isos, edgeArray);
  }

  /** Runs the four sections of the buffer after the grid pass, each into a build of its own. */
  method BuildSections(edgeArray: array<Edge>, data: Grid, isos: seq<real>, ghost filled: seq<Edge>, interp: Interp)
    returns (b0: Build, b1: Build, b2: Build, b3: Build)
    requires Grid2D(data) && |filled| == EdgeSize(data, |isos|) && Filled(filled)
    requires edgeArray[..] == Buffer(data, isos, filled)
    ensures SectionsLines(data, isos, interp) == (b0.lines, b1.lines, b2.lines, b3.lines)
  {
    var edgeSize := edgeArray.Length;
    var edgeSize1 := edgeSize / 4;
    var edgeSize2 := edgeSize / 2;
    var edgeSize3 := edgeSize / 4 * 3;
    if edgeSize3 < edgeSize2 {
      edgeSize3 := edgeSize2;
    }
    assert (edgeSize1, edgeSize2, edgeSize3) == SectionBounds(edgeSize);
    b0 := Section(edgeArray, 0, edgeSize1, data, isos, filled, interp);
    b1 := Section(edgeArray, edgeSize1, edgeSize2, data, isos, filled, interp);
    b2 := Section(edgeArray, edgeSize2, edgeSize3, data, isos, filled, interp);
    b3 := Section(edgeArray, edgeSize3, edgeSize, data, isos, filled, interp);
  }

  /**
   * The three band merges of the driver (sections 0 and 1 at a quarter of
   * the rows, 2 and 3 at three quarters, then the two halves at half the
   * rows) followed by the closure pass.
   */
  method MergeAll(dataSize_i: int, L0: seq<seq<Isoline>>, L1: seq<seq<Isoline>>, L2: seq<seq<Isoline>>, L3: seq<seq<Isoline>>)
    returns (pathLinesV: seq<seq<Isoline>>)
    requires |L0| <= |L1| && |L2| <= |L3| && |L0| <= |L2|
    ensures pathLinesV == MergeSections(dataSize_i, L0, L1, L2, L3)
  {
    var V, V1 := MergeTwoArea(dataSize_i / 4, L0, L1);
    var V2, V3 := MergeTwoArea(dataSize_i / 4 * 3, L2, L3);
    V, V2 := MergeTwoArea(dataSize_i / 2, V, V2);
    pathLinesV := ClosureLoop(V);
  }

  /** One section of the driver, over the buffer after the grid pass. */
  method Section(a: array<Edge>, lo: int, hi: int, data: Grid, isos: seq<real>, ghost filled: seq<Edge>, interp: Interp)
    returns (b: Build)
    requires Grid2D(data) && |filled| == EdgeSize(data, |isos|) && Filled(filled)
    requires a[..] == Buffer(data, isos, filled) && 0 <= lo <= hi <= a.Length
    ensures b == SectionBuild(data, isos, lo, hi, interp)
  {
    BufferTakes(data, isos, filled);
    LiveTakesSlice(a[..], lo, hi, data, isos);
    assert a[..][lo..hi] == a[lo..hi];
    BufferSection(data, isos, filled, lo, hi);
    b := RunSection(a, lo, hi, data, isos, interp);
  }

  /**
   * The parallel builder's output: one list of lines per kept isovalue,
   * each kept isovalue within [minGridValue, maxGridValue]; every line holds
   * at least two points and carries the isovalue of its list; and after the
   * closure pass no open line has its two end keys within half a grid unit.
   */
  lemma {:induction false} ParallelOutput(data: Grid, isovalues: seq<real>, maxGridValue: real, minGridValue: real, interp: Interp)
    requires Grid2D(data)
    ensures var isos := Kept(isovalues, minGridValue, maxGridValue);
            var v := ParallelLines(data, isos, interp);
            && |v| == |isos|
            && (forall m :: 0 <= m < |isos| ==> minGridValue <= isos[m] <= maxGridValue)
            && (forall m, k :: 0 <= m < |v| && 0 <= k < |v[m]| ==>
                  v[m][k].isovalue == isos[m] && |v[m][k].points| >= 2
                  && (Near(v[m][k].startPoint, v[m][k].endPoint) ==> v[m][k].isCircle))
  {
    KeptInRange(isovalues, minGridValue, maxGridValue);
  }
}
