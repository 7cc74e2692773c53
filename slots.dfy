/**
 * The segment buffer of the parallel builder. Every (cell, isovalue) pair
 * owns two consecutive slots, at ((i * dataSize_j + j) * n + m) * 2 and the
 * one after. The grid pass writes a segment record into the slot of each
 * segment the cell emits and leaves the other slots as the initial fill
 * left them, with the sentinel isovalue 999. Read in slot order, the
 * written slots list the segments in the order of a row-by-row scan.
 */
module Slots {
  import opened Options
  import opened IsolineTools
  import opened Cells
  import opened Sequential
  import opened SlotArith

  /** The isovalue that marks an unused slot. */
  const Sentinel: real := 999.0

  /**
   * The grid the parallel builder reads: at least one row, a first row of at
   * least one sample, and no row shorter than the first (the builder takes
   * the number of cells per row from the first row).
   */
  predicate Grid2D(data: Grid)
  {
    |data| > 0 && |data[0]| > 0 && forall r :: 0 <= r < |data| ==> |data[r]| >= |data[0]|
  }

  /** Every row as long as the first. */
  predicate Rectangular(data: Grid)
    requires |data| > 0
  {
    forall r :: 0 <= r < |data| ==> |data[r]| == |data[0]|
  }

  /** The buffer size: two slots per cell and isovalue, row by row. */
  function EdgeSize(data: Grid, n: nat): (r: int)
    requires Grid2D(data)
    ensures 0 <= r
  {
    MulNonneg(|data[0]| - 1, 2 * n);
    MulNonneg(|data| - 1, (|data[0]| - 1) * (2 * n));
    (|data| - 1) * ((|data[0]| - 1) * (2 * n))
  }

  /** On a rectangular grid both builders see the same cells. */
  lemma {:induction false} RectangularRows(data: Grid)
    requires Grid2D(data) && Rectangular(data)
    ensures Rows(data) && forall i :: 0 <= i < |data| ==> Cols(data, i) == |data[0]| - 1
  {
  }

  // ---------------------------------------------------------------------
  // What the grid pass writes

  /** The records of the written slots, in slot order. */
  function Written(s: seq<Option<Edge>>): seq<Edge>
  {
    if s == [] then [] else (if s[0].Some? then [s[0].value] else []) + Written(s[1..])
  }

  lemma {:induction false} WrittenAppend(a: seq<Option<Edge>>, b: seq<Option<Edge>>)
    ensures Written(a + b) == Written(a) + Written(b)
  {
    if a == [] {
      assert a + b == b;
    } else {
      assert (a + b)[1..] == a[1..] + b;
      assert (a + b)[0] == a[0];
      WrittenAppend(a[1..], b);
    }
  }

  /** Every written slot's record is among the written records. */
  lemma {:induction false} WrittenMembers(s: seq<Option<Edge>>)
    ensures forall k :: 0 <= k < |s| && s[k].Some? ==> s[k].value in Written(s)
  {
    if s != [] {
      WrittenMembers(s[1..]);
      assert forall k :: 1 <= k < |s| ==> s[k] == s[1..][k - 1];
    }
  }

  /**
   * The two slots of one (cell, isovalue): the segments in table order, the
   * first at the pair's first slot; a slot without a segment is not written.
   */
  function Padded(es: seq<Edge>): (r: seq<Option<Edge>>)
    requires |es| <= 2
    ensures |r| == 2 && Written(r) == es
    ensures forall t :: 0 <= t < 2 ==> r[t] == if t < |es| then Some(es[t]) else None
  {
    if |es| == 0 then
      WrittenPair(None, None);
      [None, None]
    else if |es| == 1 then
      WrittenPair(Some(es[0]), None);
      [Some(es[0]), None]
    else
      WrittenPair(Some(es[0]), Some(es[1]));
      [Some(es[0]), Some(es[1])]
  }

  lemma {:induction false} WrittenPair(x: Option<Edge>, y: Option<Edge>)
    ensures Written([x, y]) == (if x.Some? then [x.value] else []) + (if y.Some? then [y.value] else [])
  {
    assert [x, y][1..] == [y];
    assert [y][1..] == [];
    assert Written([y]) == (if y.Some? then [y.value] else []) + Written([]);
  }

  /** What the grid pass writes for cell (i, j) and isovalues 0..m-1: the cell's segments for them. */
  function CellWrites(data: Grid, isos: seq<real>, i: int, j: int, m: nat): (r: seq<Option<Edge>>)
    requires CellInGrid(data, i, j) && m <= |isos|
    ensures |r| == 2 * m
    ensures Written(r) == CellEdgesUpTo(data, isos, i, j, m)
  {
    if m == 0 then []
    else
      var a, p := CellWrites(data, isos, i, j, m - 1), Padded(IsoEdges(data, isos, i, j, m - 1));
      WrittenAppend(a, p);
      a + p
  }

  /** The writes for isovalues 0..m are those for 0..m-1, then the padded segments of isovalue m. */
  lemma {:induction false} CellWritesNext(data: Grid, isos: seq<real>, i: int, j: int, m: int)
    requires CellInGrid(data, i, j) && 0 <= m < |isos|
    ensures CellWrites(data, isos, i, j, m + 1) == CellWrites(data, isos, i, j, m) + Padded(IsoEdges(data, isos, i, j, m))
  {
    var k := m + 1;
    assert CellWrites(data, isos, i, j, k) == CellWrites(data, isos, i, j, k - 1) + Padded(IsoEdges(data, isos, i, j, k - 1));
  }

  /** The cells of row i that the parallel pass visits before column j, in its loop order. */
  function PassRowEdges(data: Grid, isos: seq<real>, i: int, j: nat): (r: seq<Edge>)
    requires Grid2D(data) && 0 <= i < |data| - 1 && j <= |data[0]| - 1
    ensures Rows(data) && j <= Cols(data, i) ==> r == RowEdgesUpTo(data, isos, i, j)
    ensures TakesEach(r, data, isos)
  {
    if j == 0 then []
    else
      CellEdgesTakes(data, isos, i, j - 1);
      PassRowEdges(data, isos, i, j - 1) + CellEdgesUpTo(data, isos, i, j - 1, |isos|)
  }

  /** The segments of the rows before row i, in the parallel pass's loop order. */
  function PassEdgesUpTo(data: Grid, isos: seq<real>, i: nat): (r: seq<Edge>)
    requires Grid2D(data) && i <= |data| - 1
    ensures Rectangular(data) && Rows(data) ==> r == GridEdgesUpTo(data, isos, i)
    ensures TakesEach(r, data, isos)
  {
    if i == 0 then []
    else
      assert Rectangular(data) ==> Cols(data, i - 1) == |data[0]| - 1 by {
        if Rectangular(data) {
          assert |data[i - 1]| == |data[0]|;
        }
      }
      PassEdgesUpTo(data, isos, i - 1) + PassRowEdges(data, isos, i - 1, |data[0]| - 1)
  }

  /** The segments of every cell the parallel pass visits. */
  function PassEdges(data: Grid, isos: seq<real>): (r: seq<Edge>)
    requires Grid2D(data)
    ensures Rectangular(data) ==> Rows(data) && r == GridEdges(data, isos)
    ensures TakesEach(r, data, isos)
  {
    if Rectangular(data) then RectangularRows(data); PassEdgesUpTo(data, isos, |data| - 1)
    else PassEdgesUpTo(data, isos, |data| - 1)
  }

  /** What the grid pass writes for the cells of row i before column j. */
  function RowWrites(data: Grid, isos: seq<real>, i: int, j: nat): (r: seq<Option<Edge>>)
    requires Grid2D(data) && 0 <= i < |data| - 1 && j <= |data[0]| - 1
    ensures |r| == j * (2 * |isos|)
    ensures Written(r) == PassRowEdges(data, isos, i, j)
  {
    if j == 0 then []
    else
      var a, c := RowWrites(data, isos, i, j - 1), CellWrites(data, isos, i, j - 1, |isos|);
      WrittenAppend(a, c);
      MulStep(j, 2 * |isos|);
      a + c
  }

  /** What the grid pass writes for the rows before row i. */
  function GridWritesUpTo(data: Grid, isos: seq<real>, i: nat): (r: seq<Option<Edge>>)
    requires Grid2D(data) && i <= |data| - 1
    ensures |r| == i * ((|data[0]| - 1) * (2 * |isos|))
    ensures Written(r) == PassEdgesUpTo(data, isos, i)
  {
    if i == 0 then []
    else
      var a, c := GridWritesUpTo(data, isos, i - 1), RowWrites(data, isos, i - 1, |data[0]| - 1);
      WrittenAppend(a, c);
      MulStep(i, (|data[0]| - 1) * (2 * |isos|));
      a + c
  }

  /** What the whole grid pass writes: one entry per slot of the buffer, the segments of every cell in pass order. */
  function GridWrites(data: Grid, isos: seq<real>): (r: seq<Option<Edge>>)
    requires Grid2D(data)
    ensures |r| == EdgeSize(data, |isos|)
    ensures Written(r) == PassEdges(data, isos)
  {
    GridWritesUpTo(data, isos, |data| - 1)
  }

  /** The rows before row i fill the slots before the first cell of row i. */
  lemma {:induction false} RowsBeforeRow(data: Grid, isos: seq<real>, i: int)
    requires Grid2D(data) && 0 <= i <= |data| - 1
    ensures |GridWritesUpTo(data, isos, i)| == CellBase(i, 0, |data[0]| - 1, |isos|)
  {
    RowBase(i, |data[0]| - 1, |isos|);
    assert CellBase(i, 0, |data[0]| - 1, |isos|) == i * ((|data[0]| - 1) * (2 * |isos|));
  }

  /** The writes of the rows before row i + 1 are those before row i, then row i's. */
  lemma {:induction false} GridWritesUpToNext(data: Grid, isos: seq<real>, i: int)
    requires Grid2D(data) && 0 <= i < |data| - 1
    ensures GridWritesUpTo(data, isos, i + 1) == GridWritesUpTo(data, isos, i) + RowWrites(data, isos, i, |data[0]| - 1)
  {
    var k := i + 1;
    assert GridWritesUpTo(data, isos, k) == GridWritesUpTo(data, isos, k - 1) + RowWrites(data, isos, k - 1, |data[0]| - 1);
  }

  // ---------------------------------------------------------------------
  // The buffer the sections read

  /** Every slot carries the sentinel isovalue: the buffer after the initial fill. */
  predicate Filled(b: seq<Edge>)
  {
    forall k :: 0 <= k < |b| ==> b[k].isovalue == Sentinel
  }

  /** The buffer b after writing s over it: written slots take their record, the others keep b's. */
  function Overlay(b: seq<Edge>, s: seq<Option<Edge>>): (r: seq<Edge>)
    requires |b| == |s|
  {
    seq(|b|, k requires 0 <= k < |b| => if s[k].Some? then s[k].value else b[k])
  }

  /**
   * The records a section hands to the builder: its slots whose isovalue is
   * not the sentinel, in slot order.
   */
  function Live(s: seq<Edge>): seq<Edge>
  {
    if s == [] then []
    else (if s[0].isovalue != Sentinel then [s[0]] else []) + Live(s[1..])
  }

  /** The live records are exactly the slots without the sentinel. */
  lemma {:induction false} LiveMembers(s: seq<Edge>)
    ensures forall e :: e in Live(s) <==> e in s && e.isovalue != Sentinel
  {
    if s != [] {
      assert s == [s[0]] + s[1..];
      LiveMembers(s[1..]);
    }
  }

  /** The live records of two lists one after the other. */
  lemma {:induction false} LiveAppend(a: seq<Edge>, b: seq<Edge>)
    ensures Live(a + b) == Live(a) + Live(b)
  {
    if a == [] {
      assert a + b == b;
    } else {
      assert (a + b)[1..] == a[1..] + b;
      assert (a + b)[0] == a[0];
      LiveAppend(a[1..], b);
    }
  }

  /** A list of records none of which carries the sentinel is its own live part. */
  lemma {:induction false} LiveOfSegments(es: seq<Edge>)
    requires forall k :: 0 <= k < |es| ==> es[k].isovalue != Sentinel
    ensures Live(es) == es
  {
    if es != [] {
      LiveOfSegments(es[1..]);
    }
  }

  /** Over a filled buffer, the live records are the written records without the sentinel isovalue. */
  lemma {:induction false} LiveOverlay(b: seq<Edge>, s: seq<Option<Edge>>)
    requires |b| == |s| && Filled(b)
    ensures Live(Overlay(b, s)) == Live(Written(s))
  {
    if s != [] {
      var o := Overlay(b, s);
      var w0: seq<Edge> := if s[0].Some? then [s[0].value] else [];
      assert o[1..] == Overlay(b[1..], s[1..]);
      LiveOverlay(b[1..], s[1..]);
      LiveAppend(w0, Written(s[1..]));
      if s[0].Some? {
        assert w0[1..] == [];
      }
      assert Live(w0) == if o[0].isovalue != Sentinel then [o[0]] else [];
    }
  }

  /** Every live slot holds a record the builder can take. */
  predicate LiveTakes(s: seq<Edge>, data: Grid, isos: seq<real>)
  {
    forall k :: 0 <= k < |s| && s[k].isovalue != Sentinel ==> Takes(s[k], data, isos)
  }

  /** The buffer after the grid pass over the filled buffer b. */
  function Buffer(data: Grid, isos: seq<real>, b: seq<Edge>): (r: seq<Edge>)
    requires Grid2D(data) && |b| == EdgeSize(data, |isos|)
  {
    Overlay(b, GridWrites(data, isos))
  }

  /** The builder can take every record of es, stated by membership. */
  predicate TakesEach(es: seq<Edge>, data: Grid, isos: seq<real>)
  {
    forall e :: e in es ==> Takes(e, data, isos)
  }

  lemma {:induction false} CellEdgesTakes(data: Grid, isos: seq<real>, i: int, j: int)
    requires CellInGrid(data, i, j)
    ensures TakesEach(CellEdgesUpTo(data, isos, i, j, |isos|), data, isos)
  {
  }

  /** Every live slot of the buffer holds a segment of the pass, which the builder can take. */
  lemma {:induction false} BufferTakes(data: Grid, isos: seq<real>, b: seq<Edge>)
    requires Grid2D(data) && |b| == EdgeSize(data, |isos|) && Filled(b)
    ensures LiveTakes(Buffer(data, isos, b), data, isos)
  {
    var s := GridWrites(data, isos);
    var o := Buffer(data, isos, b);
    var es := PassEdges(data, isos);
    WrittenMembers(s);
    forall k | 0 <= k < |o| && o[k].isovalue != Sentinel
      ensures Takes(o[k], data, isos)
    {
      assert s[k].Some?;
    }
  }

  /** A section's slice of a buffer whose live slots the builder can take. */
  lemma {:induction false} LiveTakesSlice(s: seq<Edge>, lo: int, hi: int, data: Grid, isos: seq<real>)
    requires LiveTakes(s, data, isos) && 0 <= lo <= hi <= |s|
    ensures LiveTakes(s[lo..hi], data, isos)
  {
    assert forall k :: 0 <= k < hi - lo ==> s[lo..hi][k] == s[lo + k];
  }

  /** The builder can take every live record of a slice whose live slots it can take. */
  lemma {:induction false} LiveTaken(s: seq<Edge>, data: Grid, isos: seq<real>)
    requires LiveTakes(s, data, isos)
    ensures AllTaken(Live(s), data, isos)
  {
    var r := Live(s);
    LiveMembers(s);
    forall k | 0 <= k < |r|
      ensures Takes(r[k], data, isos)
    {
      assert r[k] in r;
      var x :| 0 <= x < |s| && s[x] == r[k];
    }
  }

  /** Read in slot order without its unused slots, the buffer is the pass's segments less those of the sentinel isovalue. */
  lemma {:induction false} BufferLive(data: Grid, isos: seq<real>, b: seq<Edge>)
    requires Grid2D(data) && |b| == EdgeSize(data, |isos|) && Filled(b)
    ensures Live(Buffer(data, isos, b)) == Live(PassEdges(data, isos))
  {
    LiveOverlay(b, GridWrites(data, isos));
  }

  // ---------------------------------------------------------------------
  // The pass and the sequential scan

  /** With no isovalue equal to the sentinel, the buffer's live records are exactly the sequential scan's, in its order. */
  lemma {:induction false} BufferIsScan(data: Grid, isos: seq<real>, b: seq<Edge>)
    requires Grid2D(data) && Rectangular(data) && |b| == EdgeSize(data, |isos|) && Filled(b)
    requires forall m :: 0 <= m < |isos| ==> isos[m] != Sentinel
    ensures Rows(data)
    ensures Live(Buffer(data, isos, b)) == GridEdges(data, isos)
  {
    BufferLive(data, isos, b);
    var es := GridEdges(data, isos);
    assert forall k :: 0 <= k < |es| ==> Tagged(es[k], isos);
    LiveOfSegments(es);
  }

  /** The segments of an isovalue equal to the sentinel never leave the buffer. */
  lemma {:induction false} SentinelIsovalueDropped(data: Grid, isos: seq<real>, b: seq<Edge>, m: int)
    requires Grid2D(data) && |b| == EdgeSize(data, |isos|) && Filled(b)
    requires 0 <= m < |isos| && isos[m] == Sentinel
    ensures forall k :: 0 <= k < |Live(Buffer(data, isos, b))| ==> Live(Buffer(data, isos, b))[k].m != m
  {
    var o := Buffer(data, isos, b);
    var r := Live(o);
    BufferTakes(data, isos, b);
    LiveMembers(o);
    forall k | 0 <= k < |r|
      ensures r[k].m != m
    {
      assert r[k] in r;
      var x :| 0 <= x < |o| && o[x] == r[k];
    }
  }

  /** A buffer holding the sentinel in every slot has no live slot. */
  lemma {:induction false} LiveOfFilled(s: seq<Edge>)
    requires Filled(s)
    ensures Live(s) == []
  {
    if s != [] {
      LiveOfFilled(s[1..]);
    }
  }

  /**
   * With the sentinel as the only isovalue, every segment the pass writes
   * carries the sentinel, so the buffer hands nothing to the builder.
   */
  lemma {:induction false} OnlySentinel(data: Grid, b: seq<Edge>)
    requires Grid2D(data) && |b| == EdgeSize(data, 1) && Filled(b)
    ensures Live(Buffer(data, [Sentinel], b)) == []
  {
    var s := GridWrites(data, [Sentinel]);
    var o := Buffer(data, [Sentinel], b);
    WrittenMembers(s);
    forall k | 0 <= k < |o|
      ensures o[k].isovalue == Sentinel
    {
      if s[k].Some? {
        assert Takes(s[k].value, data, [Sentinel]);
      }
    }
    LiveOfFilled(o);
  }

  /** On the grid [[1000, 1000], [998, 998]] the sequential scan emits one segment for the isovalue 999. */
  lemma {:induction false} ScanAtSentinel()
    ensures var data: Grid := [[1000.0, 1000.0], [998.0, 998.0]];
            Rows(data) && |GridEdges(data, [Sentinel])| == 1
  {
    var data: Grid := [[1000.0, 1000.0], [998.0, 998.0]];
    var isos := [Sentinel];
    CellPairsExactlyInRange(data, 0, 0, Sentinel);
    assert |IsoEdges(data, isos, 0, 0, 0)| == 1;
    assert CellEdgesUpTo(data, isos, 0, 0, 1) == [] + IsoEdges(data, isos, 0, 0, 0);
    assert RowEdgesUpTo(data, isos, 0, 1) == [] + CellEdgesUpTo(data, isos, 0, 0, 1);
    assert GridEdgesUpTo(data, isos, 1) == [] + RowEdgesUpTo(data, isos, 0, Cols(data, 0));
  }

  /**
   * A concrete case: on the grid [[1000, 1000], [998, 998]] the isovalue
   * 999 crosses the one cell, the sequential scan emits its segment, and the
   * parallel buffer hands nothing to the builder.
   */
  lemma {:induction false} SentinelCollision(b: seq<Edge>)
    requires |b| == 2 && Filled(b)
    ensures var data: Grid := [[1000.0, 1000.0], [998.0, 998.0]];
            Grid2D(data) && Rows(data) && |b| == EdgeSize(data, 1)
            && |GridEdges(data, [Sentinel])| == 1 && Live(Buffer(data, [Sentinel], b)) == []
  {
    var data: Grid := [[1000.0, 1000.0], [998.0, 998.0]];
    ScanAtSentinel();
    OnlySentinel(data, b);
  }
}
