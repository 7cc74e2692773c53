/**
 * The sequential builder: the isovalues outside the grid's range are
 * erased, the cells are scanned row by row, column by column and isovalue by
 * isovalue, each emitted segment is added to the lines of its isovalue, and
 * a final pass closes every line whose end keys lie within half a grid unit.
 */
module Sequential {
  import opened IsolineTools
  import opened Tables
  import opened EdgeKeys
  import opened Cells
  import opened HitTable
  import opened Accumulate

  // ---------------------------------------------------------------------
  // The isovalue filter

  /** The isovalues within [lo, hi], in their original order. */
  function Kept(s: seq<real>, lo: real, hi: real): (r: seq<real>)
    ensures |r| <= |s|
  {
    if s == [] then []
    else Kept(s[..|s| - 1], lo, hi) + (if lo <= s[|s| - 1] <= hi then [s[|s| - 1]] else [])
  }

  /** The filter keeps each isovalue in range, as often as it occurs, and nothing else. */
  lemma {:induction false} KeptCounts(s: seq<real>, lo: real, hi: real)
    ensures forall x :: multiset(Kept(s, lo, hi))[x] == if lo <= x <= hi then multiset(s)[x] else 0
  {
    if s != [] {
      KeptCounts(s[..|s| - 1], lo, hi);
      assert s == s[..|s| - 1] + [s[|s| - 1]];
    }
  }

  /** The filter distributes over concatenation, so it keeps the original order. */
  lemma {:induction false} KeptAppend(a: seq<real>, b: seq<real>, lo: real, hi: real)
    ensures Kept(a + b, lo, hi) == Kept(a, lo, hi) + Kept(b, lo, hi)
    decreases |b|
  {
    if b == [] {
      assert a + b == a;
    } else {
      assert (a + b)[..|a + b| - 1] == a + b[..|b| - 1];
      KeptAppend(a, b[..|b| - 1], lo, hi);
    }
  }

  /** Filtering twice is filtering once. */
  lemma {:induction false} KeptIdempotent(s: seq<real>, lo: real, hi: real)
    ensures Kept(Kept(s, lo, hi), lo, hi) == Kept(s, lo, hi)
  {
    if s != [] {
      var t := Kept(s[..|s| - 1], lo, hi);
      var last := if lo <= s[|s| - 1] <= hi then [s[|s| - 1]] else [];
      KeptIdempotent(s[..|s| - 1], lo, hi);
      KeptAppend(t, last, lo, hi);
      if last != [] {
        assert last[..0] == [];
      }
    }
  }

  /** Erases, in place and in order, the isovalues below lo or above hi. */
  method FilterIsovalues(isos: seq<real>, lo: real, hi: real) returns (r: seq<real>)
    ensures r == Kept(isos, lo, hi)
  {
    r := isos;
    var m := 0;
    ghost var c := 0;
    assert isos[..0] == [];
    while m < |r|
      invariant FilterDone(r, isos, lo, hi, m, c)
      decreases |isos| - c
    {
      ghost var r0, m0 := r, m;
      if r[m] < lo || r[m] > hi {
        r := r[..m] + r[m + 1..];
        m := m - 1;
      }
      m := m + 1;
      FilterStep(r0, r, isos, lo, hi, m0, m, c);
      c := c + 1;
    }
    FilterEnd(r, isos, lo, hi, m, c);
  }

  /**
   * The state of the erase loop: the first m entries are the kept isovalues
   * among the first c inputs, and the rest is the unvisited input.
   */
  ghost predicate FilterDone(r: seq<real>, isos: seq<real>, lo: real, hi: real, m: int, c: int)
  {
    0 <= m <= |r| && 0 <= c <= |isos|
    && r[..m] == Kept(isos[..c], lo, hi) && r[m..] == isos[c..]
  }

  /** One turn of the erase loop: the entry at m is erased or kept as the filter says. */
  lemma {:induction false} FilterStep(r0: seq<real>, r: seq<real>, isos: seq<real>, lo: real, hi: real, m0: int, m: int, c: int)
    requires FilterDone(r0, isos, lo, hi, m0, c) && m0 < |r0|
    requires if r0[m0] < lo || r0[m0] > hi then r == r0[..m0] + r0[m0 + 1..] && m == m0 else r == r0 && m == m0 + 1
    ensures FilterDone(r, isos, lo, hi, m, c + 1)
  {
    assert isos[..c + 1][..c] == isos[..c];
    assert r0[m0] == isos[c];
    assert isos[..c + 1] == isos[..c] + [isos[c]];
    if r0[m0] < lo || r0[m0] > hi {
      assert r[..m] == r0[..m0];
      assert r[m..] == r0[m0 + 1..];
    } else {
      assert r[..m] == r0[..m0] + [r0[m0]];
    }
  }

  /** When the erase loop stops, every input was visited. */
  lemma {:induction false} FilterEnd(r: seq<real>, isos: seq<real>, lo: real, hi: real, m: int, c: int)
    requires FilterDone(r, isos, lo, hi, m, c) && m >= |r|
    ensures r == Kept(isos, lo, hi)
  {
    assert isos[c..] == r[m..] == [];
    assert isos[..c] == isos;
    assert r == r[..m];
  }

  // ---------------------------------------------------------------------
  // The lines of every isovalue

  /** No row has fewer columns than a row above it, so every cell a row scan visits is in the grid. */
  predicate Rows(data: Grid)
  {
    forall i, k :: 0 <= i < k < |data| ==> |data[i]| <= |data[k]|
  }

  /** The number of cells in row i. */
  function Cols(data: Grid, i: int): nat
    requires 0 <= i < |data|
  {
    if |data[i]| == 0 then 0 else |data[i]| - 1
  }

  /** The lines and the hit table of every isovalue. */
  datatype Build = Build(lines: seq<seq<Isoline>>, hits: seq<seq<int>>)

  function EmptyBuild(n: nat): Build
  {
    Build(seq(n, _ => []), seq(n, _ => []))
  }

  /** The empty build is a valid start for any list of isovalues. */
  lemma {:induction false} EmptyBuildValid(isos: seq<real>)
    ensures BuildValid(EmptyBuild(|isos|), isos)
  {
  }

  /**
   * Every isovalue's lines and table are valid, the table holds at most five
   * entries, and every line carries its isovalue.
   */
  predicate BuildValid(b: Build, isos: seq<real>)
  {
    |b.lines| == |isos| && |b.hits| == |isos|
    && forall m :: 0 <= m < |isos| ==>
         Valid(b.lines[m], b.hits[m]) && |b.hits[m]| <= HitSize
         && forall k :: 0 <= k < |b.lines[m]| ==> b.lines[m][k].isovalue == isos[m]
  }

  /** A segment record the builder can take for this grid and these isovalues. */
  predicate Takes(e: Edge, data: Grid, isos: seq<real>)
  {
    WellFormed(e, |isos|) && Tagged(e, isos) && CellInGrid(data, e.i, e.j)
  }

  /** Adding one segment record to the lines of its isovalue, with its two cut points. */
  function Ingest(b: Build, e: Edge, data: Grid, isos: seq<real>, interp: Interp): (r: Build)
    requires BuildValid(b, isos) && Takes(e, data, isos)
    ensures BuildValid(r, isos)
    ensures forall m :: 0 <= m < |isos| && m != e.m ==> r.lines[m] == b.lines[m] && r.hits[m] == b.hits[m]
  {
    var p1 := GetCutPoint(e.edgeIndex1, e.i, e.j, data, e.isovalue, interp);
    var p2 := GetCutPoint(e.edgeIndex2, e.i, e.j, data, e.isovalue, interp);
    var a := AddPointSpec(e.edgeIndex1, e.edgeIndex2, e.i, e.j, p1, p2, b.hits[e.m], e.isovalue, b.lines[e.m]);
    AddPointKeepsValid(e.edgeIndex1, e.edgeIndex2, e.i, e.j, p1, p2, b.hits[e.m], e.isovalue, b.lines[e.m]);
    Build(b.lines[e.m := a.lines], b.hits[e.m := a.hit])
  }

  /** Every record of es is one the builder can take. */
  predicate AllTaken(es: seq<Edge>, data: Grid, isos: seq<real>)
  {
    forall k :: 0 <= k < |es| ==> Takes(es[k], data, isos)
  }

  lemma {:induction false} AllTakenAppend(a: seq<Edge>, b: seq<Edge>, data: Grid, isos: seq<real>)
    requires AllTaken(a, data, isos) && AllTaken(b, data, isos)
    ensures AllTaken(a + b, data, isos)
  {
    assert forall k :: |a| <= k < |a + b| ==> (a + b)[k] == b[k - |a|];
  }

  /** Adding the segment records in order. */
  function Fold(b: Build, es: seq<Edge>, data: Grid, isos: seq<real>, interp: Interp): (r: Build)
    requires BuildValid(b, isos) && AllTaken(es, data, isos)
    ensures BuildValid(r, isos)
  {
    if es == [] then b
    else Ingest(Fold(b, es[..|es| - 1], data, isos, interp), es[|es| - 1], data, isos, interp)
  }

  /** Only the segments of an isovalue change its lines. */
  lemma {:induction false} FoldSeparatesIsovalues(b: Build, es: seq<Edge>, data: Grid, isos: seq<real>, interp: Interp, m: int)
    requires BuildValid(b, isos) && AllTaken(es, data, isos)
    requires 0 <= m < |isos| && forall k :: 0 <= k < |es| ==> es[k].m != m
    ensures Fold(b, es, data, isos, interp).lines[m] == b.lines[m]
    ensures Fold(b, es, data, isos, interp).hits[m] == b.hits[m]
  {
    if es != [] {
      FoldSeparatesIsovalues(b, es[..|es| - 1], data, isos, interp, m);
    }
  }

  /** The segment records of the cells of row i before column j. */
  function RowEdgesUpTo(data: Grid, isos: seq<real>, i: int, j: nat): (r: seq<Edge>)
    requires Rows(data) && 0 <= i < |data| - 1 && j <= Cols(data, i)
    ensures AllTaken(r, data, isos)
  {
    if j == 0 then []
    else
      var a, c := RowEdgesUpTo(data, isos, i, j - 1), CellEdgesUpTo(data, isos, i, j - 1, |isos|);
      AllTakenAppend(a, c, data, isos);
      a + c
  }

  /** The segment records of the rows before row i, in scan order. */
  function GridEdgesUpTo(data: Grid, isos: seq<real>, i: nat): (r: seq<Edge>)
    requires Rows(data) && i <= (if |data| == 0 then 0 else |data| - 1)
    ensures AllTaken(r, data, isos)
  {
    if i == 0 then []
    else
      var a, c := GridEdgesUpTo(data, isos, i - 1), RowEdgesUpTo(data, isos, i - 1, Cols(data, i - 1));
      AllTakenAppend(a, c, data, isos);
      a + c
  }

  /** The segment records of the whole grid, in scan order. */
  function GridEdges(data: Grid, isos: seq<real>): (r: seq<Edge>)
    requires Rows(data)
    ensures AllTaken(r, data, isos)
  {
    GridEdgesUpTo(data, isos, if |data| == 0 then 0 else |data| - 1)
  }

  /** Adding a list of records and then one more is adding the longer list. */
  lemma {:induction false} FoldSnoc(b: Build, es: seq<Edge>, e: Edge, data: Grid, isos: seq<real>, interp: Interp)
    requires BuildValid(b, isos) && AllTaken(es, data, isos) && Takes(e, data, isos)
    ensures AllTaken(es + [e], data, isos)
    ensures Fold(b, es + [e], data, isos, interp) == Ingest(Fold(b, es, data, isos, interp), e, data, isos, interp)
  {
    assert (es + [e])[..|es|] == es;
  }

  // ---------------------------------------------------------------------
  // The closure pass

  /** A line whose end keys lie within half a grid unit of each other is marked closed, its tail key set to its head key. */
  function CloseIfNear(l: Isoline): Isoline
  {
    if Near(l.startPoint, l.endPoint) then l.(isCircle := true, endPoint := l.startPoint) else l
  }

  function ClosureOf(ls: seq<Isoline>): seq<Isoline>
  {
    seq(|ls|, k requires 0 <= k < |ls| => CloseIfNear(ls[k]))
  }

  /** The closure pass over every isovalue's lines. */
  function ClosurePass(v: seq<seq<Isoline>>): (r: seq<seq<Isoline>>)
  {
    seq(|v|, m requires 0 <= m < |v| => ClosureOf(v[m]))
  }

  /**
   * The pass keeps every line's points, isovalue, border flag and head
   * key; a line is closed afterwards exactly when it was closed or its keys
   * were near, and then its two keys are equal; an open line is left as it
   * was; and a second pass changes nothing.
   */
  lemma {:induction false} ClosurePassFacts(v: seq<seq<Isoline>>)
    ensures var r := ClosurePass(v);
            && |r| == |v|
            && (forall m :: 0 <= m < |v| ==> |r[m]| == |v[m]|)
            && (forall m, k :: 0 <= m < |v| && 0 <= k < |v[m]| ==>
                  var a, b := v[m][k], r[m][k];
                  && b.points == a.points && b.isovalue == a.isovalue && b.isBorder == a.isBorder
                  && b.startPoint == a.startPoint
                  && (b.isCircle <==> a.isCircle || Near(a.startPoint, a.endPoint))
                  && (Near(a.startPoint, a.endPoint) ==> b.endPoint == b.startPoint)
                  && (!Near(a.startPoint, a.endPoint) ==> b == a))
            && ClosurePass(r) == r
  {
    var r := ClosurePass(v);
    assert forall m, k :: 0 <= m < |v| && 0 <= k < |v[m]| ==> r[m][k] == CloseIfNear(v[m][k]);
    forall m | 0 <= m < |r|
      ensures ClosureOf(r[m]) == r[m]
    {
      forall k | 0 <= k < |r[m]|
        ensures CloseIfNear(r[m][k]) == r[m][k]
      {
        var a := v[m][k];
        if Near(a.startPoint, a.endPoint) {
          assert Near(a.startPoint, a.startPoint);
        }
      }
    }
  }

  /** The closure pass, line by line, in place. */
  method ClosureLoop(v: seq<seq<Isoline>>) returns (r: seq<seq<Isoline>>)
    ensures r == ClosurePass(v)
  {
    r := v;
    var i := 0;
    while i < |r|
      invariant 0 <= i <= |r| == |v|
      invariant forall m :: 0 <= m < i ==> r[m] == ClosureOf(v[m])
      invariant forall m :: i <= m < |r| ==> r[m] == v[m]
    {
      var ls := r[i];
      var j := 0;
      while j < |ls|
        invariant 0 <= j <= |ls| == |v[i]|
        invariant forall k :: 0 <= k < j ==> ls[k] == CloseIfNear(v[i][k])
        invariant forall k :: j <= k < |ls| ==> ls[k] == v[i][k]
      {
        var l := ls[j];
        var dx := if l.startPoint.x >= l.endPoint.x then l.startPoint.x - l.endPoint.x else l.endPoint.x - l.startPoint.x;
        var dy := if l.startPoint.y >= l.endPoint.y then l.startPoint.y - l.endPoint.y else l.endPoint.y - l.startPoint.y;
        if dx <= 0.5 && dy <= 0.5 {
          ls := ls[j := l.(isCircle := true, endPoint := l.startPoint)];
        }
        j := j + 1;
      }
      r := r[i := ls];
      i := i + 1;
    }
  }

  // ---------------------------------------------------------------------
  // The scan

  /** Adding two lists of records one after the other is adding their concatenation. */
  lemma {:induction false} FoldAppend(b: Build, x: seq<Edge>, y: seq<Edge>, data: Grid, isos: seq<real>, interp: Interp)
    requires BuildValid(b, isos) && AllTaken(x, data, isos) && AllTaken(y, data, isos)
    ensures AllTaken(x + y, data, isos)
    ensures Fold(b, x + y, data, isos, interp) == Fold(Fold(b, x, data, isos, interp), y, data, isos, interp)
    decreases |y|
  {
    AllTakenAppend(x, y, data, isos);
    if y == [] {
      assert x + y == x;
    } else {
      var y' := y[..|y| - 1];
      assert AllTaken(y', data, isos);
      assert (x + y)[..|x + y| - 1] == x + y';
      FoldAppend(b, x, y', data, isos, interp);
    }
  }

  /** The records of one (cell, isovalue) are ones the builder can take. */
  lemma {:induction false} IsoEdgesTaken(data: Grid, isos: seq<real>, i: int, j: int, m: int)
    requires CellInGrid(data, i, j) && 0 <= m < |isos|
    ensures AllTaken(IsoEdges(data, isos, i, j, m), data, isos)
  {
  }

  /** Adds the segment between edges e1 and e2 of cell (i, j) to the lines of isovalue number m. */
  method AddSegment(b: Build, e1: int, e2: int, i: int, j: int, m: int, data: Grid, isos: seq<real>, interp: Interp)
    returns (b': Build)
    requires 0 <= m < |isos| && BuildValid(b, isos) && Takes(Edge(e1, e2, i, j, m, isos[m]), data, isos)
    ensures b' == Ingest(b, Edge(e1, e2, i, j, m, isos[m]), data, isos, interp)
  {
    var iso := isos[m];
    var p1 := GetCutPoint(e1, i, j, data, iso, interp);
    var p2 := GetCutPoint(e2, i, j, data, iso, interp);
    var lines', hit' := AddPointToLineAccelerate(e1, e2, i, j, p1, p2, b.hits[m], iso, b.lines[m]);
    b' := Build(b.lines[m := lines'], b.hits[m := hit']);
  }

  /**
   * Walks the table row of square index idx, pair by pair until the
   * terminator, adding each segment of cell (i, j) for isovalue number m.
   */
  method WalkSegments(b: Build, data: Grid, isos: seq<real>, i: int, j: int, m: int, idx: int, interp: Interp)
    returns (b': Build)
    requires BuildValid(b, isos) && CellInGrid(data, i, j) && 0 <= m < |isos| && 0 <= idx < 16
    requires SegmentPairs(idx) == CellPairs(data, i, j, isos[m])
    ensures AllTaken(IsoEdges(data, isos, i, j, m), data, isos)
    ensures b' == Fold(b, IsoEdges(data, isos, i, j, m), data, isos, interp)
  {
    var row := SegmentTable[idx];
    TableRowsTerminated(idx);
    WalkStart(b, data, isos, i, j, m, idx, row, interp);
    b' := b;
    var k := 0;
    while row[k] != -1
      invariant WalkDone(b', b, data, isos, i, j, m, idx, row, k, interp)
      decreases 4 - k
    {
      var e1, e2 := row[k], row[k + 1];
      WalkNext(b', b, data, isos, i, j, m, idx, row, k, interp);
      ghost var prev := b';
      b' := AddSegment(b', e1, e2, i, j, m, data, isos, interp);
      WalkStep(b', prev, b, data, isos, i, j, m, idx, row, k, interp);
      k := k + 2;
    }
    WalkEnd(b', b, data, isos, i, j, m, idx, row, k, interp);
  }

  /**
   * After the table row of idx has been read up to position k: the first
   * k / 2 segments of cell (i, j) and isovalue m are added to b.
   */
  predicate WalkDone(cur: Build, b: Build, data: Grid, isos: seq<real>, i: int, j: int, m: int, idx: int, row: seq<int>, k: int, interp: Interp)
  {
    BuildValid(b, isos) && CellInGrid(data, i, j) && 0 <= m < |isos| && 0 <= idx < 16
    && row == SegmentTable[idx] && |row| == 5 && row[4] == -1
    && SegmentPairs(idx) == CellPairs(data, i, j, isos[m])
    && (k == 0 || k == 2 || k == 4) && k / 2 <= |SegmentPairs(idx)|
    && PairsFrom(row, k) == SegmentPairs(idx)[k / 2..]
    && AllTaken(IsoEdges(data, isos, i, j, m)[..k / 2], data, isos)
    && cur == Fold(b, IsoEdges(data, isos, i, j, m)[..k / 2], data, isos, interp)
  }

  lemma {:induction false} WalkStart(b: Build, data: Grid, isos: seq<real>, i: int, j: int, m: int, idx: int, row: seq<int>, interp: Interp)
    requires BuildValid(b, isos) && CellInGrid(data, i, j) && 0 <= m < |isos| && 0 <= idx < 16 && row == SegmentTable[idx]
    requires SegmentPairs(idx) == CellPairs(data, i, j, isos[m])
    ensures WalkDone(b, b, data, isos, i, j, m, idx, row, 0, interp)
  {
    TableRowsTerminated(idx);
    assert IsoEdges(data, isos, i, j, m)[..0] == [];
  }

  /** The pair at position k of the row is the next segment: the builder can take it. */
  lemma {:induction false} WalkNext(cur: Build, b: Build, data: Grid, isos: seq<real>, i: int, j: int, m: int, idx: int, row: seq<int>, k: int, interp: Interp)
    requires WalkDone(cur, b, data, isos, i, j, m, idx, row, k, interp) && row[k] != -1
    ensures k + 1 < |row| && k / 2 < |IsoEdges(data, isos, i, j, m)|
    ensures IsoEdges(data, isos, i, j, m)[k / 2] == Edge(row[k], row[k + 1], i, j, m, isos[m])
    ensures BuildValid(cur, isos) && Takes(Edge(row[k], row[k + 1], i, j, m, isos[m]), data, isos)
  {
    var ps, c := SegmentPairs(idx), k / 2;
    assert ps[c..][0] == ps[c] == (row[k], row[k + 1]);
    IsoEdgesTaken(data, isos, i, j, m);
  }

  lemma {:induction false} WalkStep(cur: Build, prev: Build, b: Build, data: Grid, isos: seq<real>, i: int, j: int, m: int, idx: int, row: seq<int>, k: int, interp: Interp)
    requires WalkDone(prev, b, data, isos, i, j, m, idx, row, k, interp) && row[k] != -1
    requires k + 1 < |row|
    requires BuildValid(prev, isos) && Takes(Edge(row[k], row[k + 1], i, j, m, isos[m]), data, isos)
    requires cur == Ingest(prev, Edge(row[k], row[k + 1], i, j, m, isos[m]), data, isos, interp)
    ensures WalkDone(cur, b, data, isos, i, j, m, idx, row, k + 2, interp)
  {
    var ps, c := SegmentPairs(idx), k / 2;
    WalkNext(prev, b, data, isos, i, j, m, idx, row, k, interp);
    assert ps[c..][1..] == ps[c + 1..];
    var es := IsoEdges(data, isos, i, j, m);
    assert es[..c + 1] == es[..c] + [es[c]];
    FoldSnoc(b, es[..c], es[c], data, isos, interp);
  }

  lemma {:induction false} WalkEnd(cur: Build, b: Build, data: Grid, isos: seq<real>, i: int, j: int, m: int, idx: int, row: seq<int>, k: int, interp: Interp)
    requires WalkDone(cur, b, data, isos, i, j, m, idx, row, k, interp) && row[k] == -1
    ensures AllTaken(IsoEdges(data, isos, i, j, m), data, isos)
    ensures cur == Fold(b, IsoEdges(data, isos, i, j, m), data, isos, interp)
  {
    var es := IsoEdges(data, isos, i, j, m);
    assert k / 2 == |es|;
    assert es[..k / 2] == es;
  }

  /**
   * The segments of cell (i, j) for isovalue number m, given the cell's
   * pre-filter bounds: the range test, the square index, the saddle
   * resolution, then the table walk.
   */
  method ScanIsovalue(b: Build, data: Grid, isos: seq<real>, i: int, j: int, m: int,
                      maxValue: real, minValue: real, interp: Interp) returns (b': Build)
    requires BuildValid(b, isos) && CellInGrid(data, i, j) && 0 <= m < |isos|
    requires maxValue == PrefilterMax(Corners(data, i, j)) && minValue == PrefilterMin(Corners(data, i, j))
    ensures AllTaken(IsoEdges(data, isos, i, j, m), data, isos)
    ensures b' == Fold(b, IsoEdges(data, isos, i, j, m), data, isos, interp)
  {
    IsoEdgesTaken(data, isos, i, j, m);
    b' := b;
    var emit, idx := ClassifyCell(data, i, j, isos[m], maxValue, minValue);
    if !emit {
      return;
    }
    b' := WalkSegments(b, data, isos, i, j, m, idx, interp);
  }

  /**
   * The classification both builders run for one cell and one isovalue:
   * the range test against the pre-filter bounds, the square index, the
   * EdgeTable test and the saddle resolution. Without emit the cell has no
   * segment; with it, the table row idx lists the cell's segments.
   */
  method ClassifyCell(data: Grid, i: int, j: int, iso: real, maxValue: real, minValue: real)
    returns (emit: bool, idx: int)
    requires CellInGrid(data, i, j)
    requires maxValue == PrefilterMax(Corners(data, i, j)) && minValue == PrefilterMin(Corners(data, i, j))
    ensures 0 <= idx < 16
    ensures emit ==> SegmentPairs(idx) == CellPairs(data, i, j, iso)
    ensures !emit ==> CellPairs(data, i, j, iso) == []
  {
    idx := 0;
    if iso < minValue || iso > maxValue {
      return false, idx;
    }
    var v := Corners(data, i, j);
    if data[i][j] >= iso { idx := idx + 8; }
    if data[i][j + 1] >= iso { idx := idx + 4; }
    if data[i + 1][j + 1] >= iso { idx := idx + 2; }
    if data[i + 1][j] >= iso { idx := idx + 1; }
    assert idx == SquareIndex(v, iso);
    if EdgeTable[idx] == 0 {
      EdgeTableZero(idx);
      PairsOfRows(idx);
      return false, idx;
    }
    if idx == 5 {
      var centerValue := CenterValue(v);
      if centerValue < iso {
        idx := 10;
      }
    } else if idx == 10 {
      var centerValue := CenterValue(v);
      if centerValue < iso {
        idx := 5;
      }
    }
    assert idx == ResolveSaddle(SquareIndex(v, iso), CenterValue(v), iso);
    emit := true;
  }

  /** The pre-filter bounds of cell (i, j): a running maximum from 0 and a running minimum from FLT_MAX. */
  method CellBounds(data: Grid, i: int, j: int) returns (maxValue: real, minValue: real)
    requires CellInGrid(data, i, j)
    ensures maxValue == PrefilterMax(Corners(data, i, j)) && minValue == PrefilterMin(Corners(data, i, j))
  {
    maxValue, minValue := 0.0, FLT_MAX;
    if data[i][j] > maxValue { maxValue := data[i][j]; }
    if data[i][j + 1] > maxValue { maxValue := data[i][j + 1]; }
    if data[i + 1][j + 1] > maxValue { maxValue := data[i + 1][j + 1]; }
    if data[i + 1][j] > maxValue { maxValue := data[i + 1][j]; }
    if data[i][j] < minValue { minValue := data[i][j]; }
    if data[i][j + 1] < minValue { minValue := data[i][j + 1]; }
    if data[i + 1][j + 1] < minValue { minValue := data[i + 1][j + 1]; }
    if data[i + 1][j] < minValue { minValue := data[i + 1][j]; }
  }

  /** The segments of cell (i, j) for every isovalue, in isovalue order. */
  method ScanCell(b: Build, data: Grid, isos: seq<real>, i: int, j: int, interp: Interp) returns (b': Build)
    requires BuildValid(b, isos) && CellInGrid(data, i, j)
    ensures b' == Fold(b, CellEdgesUpTo(data, isos, i, j, |isos|), data, isos, interp)
  {
    var maxValue, minValue := CellBounds(data, i, j);
    b' := b;
    var m := 0;
    while m < |isos|
      invariant 0 <= m <= |isos|
      invariant b' == Fold(b, CellEdgesUpTo(data, isos, i, j, m), data, isos, interp)
    {
      var pre := CellEdgesUpTo(data, isos, i, j, m);
      var es := IsoEdges(data, isos, i, j, m);
      b' := ScanIsovalue(b', data, isos, i, j, m, maxValue, minValue, interp);
      FoldAppend(b, pre, es, data, isos, interp);
      m := m + 1;
    }
  }

  /** Scans the cells of row i, column by column. */
  method ScanRow(b: Build, data: Grid, isos: seq<real>, i: int, interp: Interp) returns (b': Build)
    requires Rows(data) && 0 <= i < |data| - 1 && BuildValid(b, isos)
    ensures b' == Fold(b, RowEdgesUpTo(data, isos, i, Cols(data, i)), data, isos, interp)
  {
    b' := b;
    var dataSize_j := |data[i]| - 1;
    var j := 0;
    while j < dataSize_j
      invariant 0 <= j <= Cols(data, i)
      invariant b' == Fold(b, RowEdgesUpTo(data, isos, i, j), data, isos, interp)
    {
      b' := ScanCell(b', data, isos, i, j, interp);
      FoldAppend(b, RowEdgesUpTo(data, isos, i, j), CellEdgesUpTo(data, isos, i, j, |isos|), data, isos, interp);
      j := j + 1;
    }
    assert j == Cols(data, i);
  }

  /** After the first i rows the build is the fold of their records into the empty build. */
  ghost predicate ScanDone(b: Build, data: Grid, isos: seq<real>, i: int, interp: Interp)
  {
    Rows(data) && 0 <= i <= (if |data| == 0 then 0 else |data| - 1)
    && b == Fold(EmptyBuild(|isos|), GridEdgesUpTo(data, isos, i), data, isos, interp)
  }

  /** Scanning row i after the rows above it extends the fold by that row's records. */
  method ScanNextRow(b: Build, data: Grid, isos: seq<real>, i: int, interp: Interp) returns (b': Build)
    requires ScanDone(b, data, isos, i, interp) && i < |data| - 1
    ensures ScanDone(b', data, isos, i + 1, interp)
  {
    ghost var e := EmptyBuild(|isos|);
    EmptyBuildValid(isos);
    b' := ScanRow(b, data, isos, i, interp);
    FoldAppend(e, GridEdgesUpTo(data, isos, i), RowEdgesUpTo(data, isos, i, Cols(data, i)), data, isos, interp);
  }

  /** Scans rows, then columns: every cell's segments, in scan order. */
  method ScanGrid(data: Grid, isos: seq<real>, interp: Interp) returns (b: Build)
    requires Rows(data)
    ensures b == Fold(EmptyBuild(|isos|), GridEdges(data, isos), data, isos, interp)
  {
    b := EmptyBuild(|isos|);
    var dataSize_i := |data| - 1;
    var i := 0;
    while i < dataSize_i
      invariant ScanDone(b, data, isos, i, interp)
      decreases dataSize_i - i
    {
      b := ScanNextRow(b, data, isos, i, interp);
      i := i + 1;
    }
    assert i == (if |data| == 0 then 0 else |data| - 1);
  }

  /**
   * The sequential builder: erases the isovalues outside [minGridValue,
   * maxGridValue], builds the lines of every remaining isovalue by the scan
   * and runs the closure pass.
   */
  method DoMarchingSquaresAccelerate(data: Grid, isovalues: seq<real>, maxGridValue: real, minGridValue: real, interp: Interp)
    returns (isos: seq<real>, pathLinesV: seq<seq<Isoline>>)
    requires Rows(data)
    ensures isos == Kept(isovalues, minGridValue, maxGridValue)
    ensures pathLinesV == ClosurePass(Fold(EmptyBuild(|isos|), GridEdges(data, isos), data, isos, interp).lines)
  {
    isos := FilterIsovalues(isovalues, minGridValue, maxGridValue);
    var b := ScanGrid(data, isos, interp);
    pathLinesV := ClosureLoop(b.lines);
  }

  /** Every kept isovalue lies in [lo, hi]. */
  lemma {:induction false} KeptInRange(s: seq<real>, lo: real, hi: real)
    ensures forall k :: 0 <= k < |Kept(s, lo, hi)| ==> lo <= Kept(s, lo, hi)[k] <= hi
  {
    var r := Kept(s, lo, hi);
    KeptCounts(s, lo, hi);
    forall k | 0 <= k < |r|
      ensures lo <= r[k] <= hi
    {
      assert r[k] in multiset(r);
    }
  }

  /**
   * The sequential builder's output: one list of lines per kept isovalue,
   * each kept isovalue within [minGridValue, maxGridValue]; every line holds
   * at least two points and carries the isovalue of its list; and after the
   * closure pass no open line has its two end keys within half a grid unit.
   */
  lemma {:induction false} SequentialOutput(data: Grid, isovalues: seq<real>, maxGridValue: real, minGridValue: real, interp: Interp)
    requires Rows(data)
    ensures var isos := Kept(isovalues, minGridValue, maxGridValue);
            var v := ClosurePass(Fold(EmptyBuild(|isos|), GridEdges(data, isos), data, isos, interp).lines);
            && |v| == |isos|
            && (forall m :: 0 <= m < |isos| ==> minGridValue <= isos[m] <= maxGridValue)
            && (forall m, k :: 0 <= m < |v| && 0 <= k < |v[m]| ==>
                  v[m][k].isovalue == isos[m] && |v[m][k].points| >= 2
                  && (Near(v[m][k].startPoint, v[m][k].endPoint) ==> v[m][k].isCircle))
  {
    var isos := Kept(isovalues, minGridValue, maxGridValue);
    KeptInRange(isovalues, minGridValue, maxGridValue);
    var b := Fold(EmptyBuild(|isos|), GridEdges(data, isos), data, isos, interp);
    ClosedOutput(b.lines, isos);
  }

  /**
   * One list of lines per isovalue; every line carries its list's isovalue
   * and at least two points, and no open line has its two end keys within
   * half a grid unit.
   */
  predicate ClosedLines(v: seq<seq<Isoline>>, isos: seq<real>)
  {
    && |v| == |isos|
    && (forall m, k :: 0 <= m < |v| && 0 <= k < |v[m]| ==>
          v[m][k].isovalue == isos[m] && |v[m][k].points| >= 2
          && (Near(v[m][k].startPoint, v[m][k].endPoint) ==> v[m][k].isCircle))
  }

  /**
   * Lists of lines, one per isovalue, each line carrying its list's
   * isovalue and at least two points, keep that after the closure pass, and
   * no open line is left with its two end keys within half a grid unit.
   */
  lemma {:induction false} ClosedOutput(v: seq<seq<Isoline>>, isos: seq<real>)
    requires |v| == |isos|
    requires forall m, k :: 0 <= m < |v| && 0 <= k < |v[m]| ==> v[m][k].isovalue == isos[m] && |v[m][k].points| >= 2
    ensures ClosedLines(ClosurePass(v), isos)
  {
    ClosurePassFacts(v);
    var r: seq<seq<Isoline>> := ClosurePass(v);
    forall m: int, k: int | 0 <= m < |r| && 0 <= k < |r[m]|
      ensures Near(r[m][k].startPoint, r[m][k].endPoint) ==> r[m][k].isCircle
    {
      var a := v[m][k];
      if !Near(a.startPoint, a.endPoint) {
        assert r[m][k] == a;
      }
    }
  }
}
