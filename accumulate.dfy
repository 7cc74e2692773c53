/**
 * Adding one cell segment to the lines of its isovalue. The segment runs
 * between two cut points on local edges e1 and e2 of cell (i, j), with keys
 * mid1 and mid2. The lines named by the hit table are tried first, then all
 * lines in order; closed lines are skipped. The first line that carries
 * both keys is closed; one that carries one of them is extended at that end
 * by the other cut point and then joined with any line sharing the new key,
 * and becomes the most recent hit. Otherwise the segment starts a new line.
 */
module Accumulate {
  import opened IsolineTools
  import opened Options
  import opened EdgeKeys
  import opened HitTable
  import opened Stitcher

  /** What a segment does to a line: close it, or push a cut point at one end. */
  datatype Extension = Close | FrontWith2 | BackWith2 | FrontWith1 | BackWith1

  /** The first action that applies to line l, in the order the source tests them. */
  function ExtensionFor(l: Isoline, mid1: Point2D, mid2: Point2D): (x: Option<Extension>)
    ensures x.None? <==> l.isCircle || (mid1 != l.startPoint && mid1 != l.endPoint && mid2 != l.startPoint && mid2 != l.endPoint)
    ensures x == Some(Close) <==>
              !l.isCircle && ((mid1 == l.startPoint && mid2 == l.endPoint) || (mid2 == l.startPoint && mid1 == l.endPoint))
  {
    if l.isCircle then None
    else if (mid1 == l.startPoint && mid2 == l.endPoint) || (mid2 == l.startPoint && mid1 == l.endPoint) then Some(Close)
    else if mid1 == l.startPoint then Some(FrontWith2)
    else if mid1 == l.endPoint then Some(BackWith2)
    else if mid2 == l.startPoint then Some(FrontWith1)
    else if mid2 == l.endPoint then Some(BackWith1)
    else None
  }

  /** The lines of one isovalue with its hit table: every line has two points, every entry names a line. */
  predicate Valid(lines: seq<Isoline>, hit: seq<int>)
  {
    Stitchable(lines) && forall k :: 0 <= k < |hit| ==> 0 <= hit[k] < |lines|
  }

  /** The first position at `from` or later in the hit table whose line the segment acts on. */
  function FirstCached(lines: seq<Isoline>, hit: seq<int>, mid1: Point2D, mid2: Point2D, from: nat): (r: Option<nat>)
    requires Valid(lines, hit)
    ensures r.Some? ==> from <= r.value < |hit| && ExtensionFor(lines[hit[r.value]], mid1, mid2).Some?
    ensures r.Some? ==> forall k :: from <= k < r.value ==> ExtensionFor(lines[hit[k]], mid1, mid2).None?
    ensures r.None? ==> forall k :: from <= k < |hit| ==> ExtensionFor(lines[hit[k]], mid1, mid2).None?
    decreases |hit| - from
  {
    if from >= |hit| then None
    else if ExtensionFor(lines[hit[from]], mid1, mid2).Some? then Some(from)
    else FirstCached(lines, hit, mid1, mid2, from + 1)
  }

  /** The first line at `from` or later that the segment acts on. */
  function FirstOpen(lines: seq<Isoline>, mid1: Point2D, mid2: Point2D, from: nat): (r: Option<nat>)
    ensures r.Some? ==> from <= r.value < |lines| && ExtensionFor(lines[r.value], mid1, mid2).Some?
    ensures r.Some? ==> forall k :: from <= k < r.value ==> ExtensionFor(lines[k], mid1, mid2).None?
    ensures r.None? ==> forall k :: from <= k < |lines| ==> ExtensionFor(lines[k], mid1, mid2).None?
    decreases |lines| - from
  {
    if from >= |lines| then None
    else if ExtensionFor(lines[from], mid1, mid2).Some? then Some(from)
    else FirstOpen(lines, mid1, mid2, from + 1)
  }

  /** The lines of one isovalue and their hit table. */
  datatype Acc = Acc(lines: seq<Isoline>, hit: seq<int>)

  /** After line m grew at its head (atHead) or tail, now keyed mid: the join test, then the hit. */
  function Grown(lines: seq<Isoline>, hit: seq<int>, m: int, mid: Point2D, atHead: bool): Acc
    requires Stitchable(lines) && 0 <= m < |lines|
  {
    var r := MergeSpec(mid, atHead, lines, m, hit);
    Acc(r.lines, HitAfter(r.m, HitSize, r.hit))
  }

  /** The segment's action x on line m, with p1 and p2 the cut points on edges e1 and e2. */
  function Extended(lines: seq<Isoline>, hit: seq<int>, m: int, x: Extension,
                    mid1: Point2D, mid2: Point2D, p1: Point2D, p2: Point2D): Acc
    requires Stitchable(lines) && 0 <= m < |lines|
  {
    var l := lines[m];
    match x
    case Close => Acc(lines[m := l.(isCircle := true)], hit)
    case FrontWith2 => Grown(lines[m := PushFront(l, p2).(startPoint := mid2)], hit, m, mid2, true)
    case BackWith2 => Grown(lines[m := PushBack(l, p2).(endPoint := mid2)], hit, m, mid2, false)
    case FrontWith1 => Grown(lines[m := PushFront(l, p1).(startPoint := mid1)], hit, m, mid1, true)
    case BackWith1 => Grown(lines[m := PushBack(l, p1).(endPoint := mid1)], hit, m, mid1, false)
  }

  /** The line a segment starts: open, not on the border, its two cut points keyed mid1 and mid2. */
  function NewLine(iso: real, p1: Point2D, p2: Point2D, mid1: Point2D, mid2: Point2D): Isoline
  {
    Isoline(iso, false, false, [p1, p2], mid1, mid2)
  }

  /** The line the segment acts on: the first in the hit table, else the first in the list. */
  function Chosen(lines: seq<Isoline>, hit: seq<int>, mid1: Point2D, mid2: Point2D): (r: Option<nat>)
    requires Valid(lines, hit)
  {
    match FirstCached(lines, hit, mid1, mid2, 0)
    case Some(k) => Some(hit[k] as nat)
    case None => FirstOpen(lines, mid1, mid2, 0)
  }

  /** Adding the segment between edges e1 and e2 of cell (i, j), cut at p1 and p2. */
  function AddPointSpec(e1: int, e2: int, i: int, j: int, p1: Point2D, p2: Point2D,
                        hit: seq<int>, iso: real, lines: seq<Isoline>): Acc
    requires 0 <= e1 < 4 && 0 <= e2 < 4 && Valid(lines, hit)
  {
    var mid1, mid2 := MiddlePoint(e1, i, j), MiddlePoint(e2, i, j);
    match Chosen(lines, hit, mid1, mid2)
    case Some(m) => Extended(lines, hit, m, ExtensionFor(lines[m], mid1, mid2).value, mid1, mid2, p1, p2)
    case None => Acc(lines + [NewLine(iso, p1, p2, mid1, mid2)], hit)
  }

  /** Performs action x on line m: the push, the key update, the join test and the hit. */
  method ExtendLine(lines: seq<Isoline>, hit: seq<int>, m: int, x: Extension,
                    mid1: Point2D, mid2: Point2D, p1: Point2D, p2: Point2D)
    returns (lines': seq<Isoline>, hit': seq<int>)
    requires Stitchable(lines) && 0 <= m < |lines|
    ensures Acc(lines', hit') == Extended(lines, hit, m, x, mid1, mid2, p1, p2)
  {
    var l := lines[m];
    var mid: Point2D;
    var atHead: bool;
    match x {
      case Close =>
        lines', hit' := lines[m := l.(isCircle := true)], hit;
        return;
      case FrontWith2 =>
        lines' := lines[m := l.(points := [p2] + l.points, startPoint := mid2)];
        mid, atHead := mid2, true;
      case BackWith2 =>
        lines' := lines[m := l.(points := l.points + [p2], endPoint := mid2)];
        mid, atHead := mid2, false;
      case FrontWith1 =>
        lines' := lines[m := l.(points := [p1] + l.points, startPoint := mid1)];
        mid, atHead := mid1, true;
      case BackWith1 =>
        lines' := lines[m := l.(points := l.points + [p1], endPoint := mid1)];
        mid, atHead := mid1, false;
    }
    var merged, m' := false, m;
    merged, lines', m', hit' := MergeIsoLineAccelerate(mid, atHead, lines', m, hit);
    hit' := SetHitTable(m', HitSize, hit');
  }

  /**
   * Adds the segment between edges e1 and e2 of cell (i, j), whose cut
   * points are p1 and p2, to the lines of isovalue iso: first through the hit
   * table, then through all lines; without a line to act on, a new line is
   * appended (and not entered in the hit table).
   */
  method AddPointToLineAccelerate(e1: int, e2: int, i: int, j: int, p1: Point2D, p2: Point2D,
                                  hit: seq<int>, iso: real, lines: seq<Isoline>)
    returns (lines': seq<Isoline>, hit': seq<int>)
    requires 0 <= e1 < 4 && 0 <= e2 < 4 && Valid(lines, hit)
    ensures Acc(lines', hit') == AddPointSpec(e1, e2, i, j, p1, p2, hit, iso, lines)
  {
    var mid1, mid2 := MiddlePoint(e1, i, j), MiddlePoint(e2, i, j);
    var k := 0;
    while k < |hit|
      invariant 0 <= k <= |hit|
      invariant FirstCached(lines, hit, mid1, mid2, 0) == FirstCached(lines, hit, mid1, mid2, k)
    {
      var m := hit[k];
      var x := ExtensionFor(lines[m], mid1, mid2);
      if x.Some? {
        lines', hit' := ExtendLine(lines, hit, m, x.value, mid1, mid2, p1, p2);
        return;
      }
      k := k + 1;
    }
    var m := 0;
    while m < |lines|
      invariant 0 <= m <= |lines|
      invariant FirstOpen(lines, mid1, mid2, 0) == FirstOpen(lines, mid1, mid2, m)
    {
      var x := ExtensionFor(lines[m], mid1, mid2);
      if x.Some? {
        lines', hit' := ExtendLine(lines, hit, m, x.value, mid1, mid2, p1, p2);
        return;
      }
      m := m + 1;
    }
    lines', hit' := lines + [NewLine(iso, p1, p2, mid1, mid2)], hit;
  }

  /**
   * The choice of line: there is none exactly when no open line carries
   * either key; a chosen line is open and carries one of them; when a line
   * in the hit table qualifies, the chosen line is one of the hit table's,
   * and otherwise it is the first qualifying line of the list.
   */
  lemma {:induction false} ChoiceOfLine(lines: seq<Isoline>, hit: seq<int>, mid1: Point2D, mid2: Point2D)
    requires Valid(lines, hit)
    ensures var c := Chosen(lines, hit, mid1, mid2);
            && (c.None? <==> forall k :: 0 <= k < |lines| ==> ExtensionFor(lines[k], mid1, mid2).None?)
            && (c.Some? ==> c.value < |lines| && ExtensionFor(lines[c.value], mid1, mid2).Some?)
            && ((exists k :: 0 <= k < |hit| && ExtensionFor(lines[hit[k]], mid1, mid2).Some?) ==> c.Some? && c.value in hit)
            && (c.Some? && c.value !in hit ==> forall k :: 0 <= k < c.value ==> ExtensionFor(lines[k], mid1, mid2).None?)
  {
    var f := FirstCached(lines, hit, mid1, mid2, 0);
    if f.Some? {
      assert hit[f.value] in hit;
    } else {
      var g := FirstOpen(lines, mid1, mid2, 0);
      if g.None? {
        assert forall k :: 0 <= k < |lines| ==> ExtensionFor(lines[k], mid1, mid2).None?;
      }
    }
  }

  /**
   * Growing line m at the end now keyed mid: the lines and the table stay
   * valid, the survivor of the join test becomes the most recent hit, and a
   * table of at most five entries stays so.
   */
  lemma {:induction false} GrownValid(lines: seq<Isoline>, hit: seq<int>, m: int, mid: Point2D, atHead: bool)
    requires Valid(lines, hit) && 0 <= m < |lines|
    ensures var g := Grown(lines, hit, m, mid, atHead);
            var r := MergeSpec(mid, atHead, lines, m, hit);
            && Valid(g.lines, g.hit)
            && |g.hit| > 0 && g.hit[0] == r.m && 0 <= r.m < |g.lines|
            && (|hit| <= HitSize ==> |g.hit| <= HitSize)
  {
    var r := MergeSpec(mid, atHead, lines, m, hit);
    MergeIffKeyShared(mid, atHead, lines, m, hit);
    if r.merged {
      MergeKeepsOthers(mid, atHead, lines, m, hit);
    }
    MergeStitchable(mid, atHead, lines, m, hit);
    assert 0 <= r.m < |r.lines| && |r.hit| == |hit|;
    assert forall k :: 0 <= k < |r.hit| ==> 0 <= r.hit[k] < |r.lines|;
    HitAfterValid(r.m, HitSize, r.hit, |r.lines|);
  }

  /** Growing line m: the join test removes one point and one line, or changes nothing. */
  lemma {:induction false} GrownCounts(lines: seq<Isoline>, hit: seq<int>, m: int, mid: Point2D, atHead: bool)
    requires Valid(lines, hit) && 0 <= m < |lines|
    ensures var g := Grown(lines, hit, m, mid, atHead);
            var r := MergeSpec(mid, atHead, lines, m, hit);
            && (r.merged ==> TotalPoints(g.lines) + 1 == TotalPoints(lines) && |g.lines| + 1 == |lines|)
            && (!r.merged ==> g.lines == lines && r.m == m)
  {
    var r := MergeSpec(mid, atHead, lines, m, hit);
    MergeIffKeyShared(mid, atHead, lines, m, hit);
    if r.merged {
      MergeKeepsOthers(mid, atHead, lines, m, hit);
      MergeCounts(mid, atHead, lines, m, hit);
    }
  }

  /**
   * A segment no open line touches starts a new line of two points, keyed
   * mid1 to mid2, at the end of the list; the hit table is not updated.
   */
  lemma {:induction false} AddPointNewLine(e1: int, e2: int, i: int, j: int, p1: Point2D, p2: Point2D,
                                           hit: seq<int>, iso: real, lines: seq<Isoline>)
    requires 0 <= e1 < 4 && 0 <= e2 < 4 && Valid(lines, hit)
    requires forall k :: 0 <= k < |lines| ==> ExtensionFor(lines[k], MiddlePoint(e1, i, j), MiddlePoint(e2, i, j)).None?
    ensures var r := AddPointSpec(e1, e2, i, j, p1, p2, hit, iso, lines);
            && |r.lines| == |lines| + 1 && r.lines[..|lines|] == lines && r.hit == hit
            && r.lines[|lines|].points == [p1, p2]
            && r.lines[|lines|].startPoint == MiddlePoint(e1, i, j) && r.lines[|lines|].endPoint == MiddlePoint(e2, i, j)
            && r.lines[|lines|].isovalue == iso && !r.lines[|lines|].isCircle && !r.lines[|lines|].isBorder
            && TotalPoints(r.lines) == TotalPoints(lines) + 2
  {
    ChoiceOfLine(lines, hit, MiddlePoint(e1, i, j), MiddlePoint(e2, i, j));
    TotalPointsAppend(lines, NewLine(iso, p1, p2, MiddlePoint(e1, i, j), MiddlePoint(e2, i, j)));
  }

  /**
   * A segment whose two keys are the two keys of the chosen line closes it:
   * only its flag changes; its points and keys, every other line and the hit
   * table stay as they were.
   */
  lemma {:induction false} AddPointCloses(e1: int, e2: int, i: int, j: int, p1: Point2D, p2: Point2D,
                                          hit: seq<int>, iso: real, lines: seq<Isoline>)
    requires 0 <= e1 < 4 && 0 <= e2 < 4 && Valid(lines, hit)
    requires var mid1, mid2 := MiddlePoint(e1, i, j), MiddlePoint(e2, i, j);
             var c := Chosen(lines, hit, mid1, mid2);
             c.Some? && c.value < |lines| && ExtensionFor(lines[c.value], mid1, mid2) == Some(Close)
    ensures var mid1, mid2 := MiddlePoint(e1, i, j), MiddlePoint(e2, i, j);
            var m := Chosen(lines, hit, mid1, mid2).value;
            var r := AddPointSpec(e1, e2, i, j, p1, p2, hit, iso, lines);
            && |r.lines| == |lines| && r.hit == hit
            && r.lines[m].isCircle && !lines[m].isCircle
            && r.lines[m].points == lines[m].points
            && r.lines[m].startPoint == lines[m].startPoint && r.lines[m].endPoint == lines[m].endPoint
            && multiset{lines[m].startPoint, lines[m].endPoint} == multiset{mid1, mid2}
            && (forall k :: 0 <= k < |lines| && k != m ==> r.lines[k] == lines[k])
            && TotalPoints(r.lines) == TotalPoints(lines)
  {
    var mid1, mid2 := MiddlePoint(e1, i, j), MiddlePoint(e2, i, j);
    var m := Chosen(lines, hit, mid1, mid2).value;
    TotalPointsReplace(lines, m, lines[m].(isCircle := true));
  }

  /**
   * A segment that shares one key with the chosen line extends it at that
   * end by the cut point on the other edge, then the line may be joined; the
   * line holding the extension becomes the most recent hit, and the list
   * gains one point, or none when the join removed the shared one.
   */
  lemma {:induction false} AddPointExtends(e1: int, e2: int, i: int, j: int, p1: Point2D, p2: Point2D,
                                           hit: seq<int>, iso: real, lines: seq<Isoline>)
    requires 0 <= e1 < 4 && 0 <= e2 < 4 && Valid(lines, hit)
    requires var mid1, mid2 := MiddlePoint(e1, i, j), MiddlePoint(e2, i, j);
             var c := Chosen(lines, hit, mid1, mid2);
             c.Some? && c.value < |lines| && ExtensionFor(lines[c.value], mid1, mid2).Some?
             && ExtensionFor(lines[c.value], mid1, mid2) != Some(Close)
    ensures var mid1, mid2 := MiddlePoint(e1, i, j), MiddlePoint(e2, i, j);
            var m := Chosen(lines, hit, mid1, mid2).value;
            var x := ExtensionFor(lines[m], mid1, mid2).value;
            var l := lines[m];
            var g := match x
                     case FrontWith2 => PushFront(l, p2).(startPoint := mid2)
                     case BackWith2 => PushBack(l, p2).(endPoint := mid2)
                     case FrontWith1 => PushFront(l, p1).(startPoint := mid1)
                     case _ => PushBack(l, p1).(endPoint := mid1);
            var r := AddPointSpec(e1, e2, i, j, p1, p2, hit, iso, lines);
            && (x == FrontWith2 ==> l.startPoint == mid1 && l.endPoint != mid2)
            && (x == BackWith2 ==> l.endPoint == mid1 && l.startPoint != mid2)
            && (x == FrontWith1 ==> l.startPoint == mid2 && l.endPoint != mid1)
            && (x == BackWith1 ==> l.endPoint == mid2 && l.startPoint != mid1)
            && r == Grown(lines[m := g], hit, m, if x == FrontWith2 || x == BackWith2 then mid2 else mid1,
                          x == FrontWith2 || x == FrontWith1)
            && Valid(r.lines, r.hit) && |r.hit| > 0 && r.hit[0] < |r.lines|
            && (TotalPoints(r.lines) == TotalPoints(lines) + 1 || TotalPoints(r.lines) == TotalPoints(lines))
            && (|r.lines| == |lines| <==> TotalPoints(r.lines) == TotalPoints(lines) + 1)
  {
    var mid1, mid2 := MiddlePoint(e1, i, j), MiddlePoint(e2, i, j);
    var m := Chosen(lines, hit, mid1, mid2).value;
    var x := ExtensionFor(lines[m], mid1, mid2).value;
    var l := lines[m];
    var g := match x
             case FrontWith2 => PushFront(l, p2).(startPoint := mid2)
             case BackWith2 => PushBack(l, p2).(endPoint := mid2)
             case FrontWith1 => PushFront(l, p1).(startPoint := mid1)
             case _ => PushBack(l, p1).(endPoint := mid1);
    var mid := if x == FrontWith2 || x == BackWith2 then mid2 else mid1;
    var atHead := x == FrontWith2 || x == FrontWith1;
    var ls := lines[m := g];
    TotalPointsReplace(lines, m, g);
    assert Valid(ls, hit);
    GrownValid(ls, hit, m, mid, atHead);
    GrownCounts(ls, hit, m, mid, atHead);
  }

  /**
   * Whatever the segment does, the lines and the hit table stay valid, a
   * table of at most five entries stays so, and when every line carries
   * isovalue iso, so does every line afterwards.
   */
  lemma {:induction false} AddPointKeepsValid(e1: int, e2: int, i: int, j: int, p1: Point2D, p2: Point2D,
                                              hit: seq<int>, iso: real, lines: seq<Isoline>)
    requires 0 <= e1 < 4 && 0 <= e2 < 4 && Valid(lines, hit)
    ensures var r := AddPointSpec(e1, e2, i, j, p1, p2, hit, iso, lines);
            && Valid(r.lines, r.hit)
            && (|hit| <= HitSize ==> |r.hit| <= HitSize)
            && ((forall k :: 0 <= k < |lines| ==> lines[k].isovalue == iso) ==>
                  forall k :: 0 <= k < |r.lines| ==> r.lines[k].isovalue == iso)
  {
    var mid1, mid2 := MiddlePoint(e1, i, j), MiddlePoint(e2, i, j);
    var c := Chosen(lines, hit, mid1, mid2);
    var r := AddPointSpec(e1, e2, i, j, p1, p2, hit, iso, lines);
    ChoiceOfLine(lines, hit, mid1, mid2);
    if c.Some? {
      var m := c.value;
      var x := ExtensionFor(lines[m], mid1, mid2).value;
      if x != Close {
        var l := lines[m];
        var g := match x
                 case FrontWith2 => PushFront(l, p2).(startPoint := mid2)
                 case BackWith2 => PushBack(l, p2).(endPoint := mid2)
                 case FrontWith1 => PushFront(l, p1).(startPoint := mid1)
                 case _ => PushBack(l, p1).(endPoint := mid1);
        var mid := if x == FrontWith2 || x == BackWith2 then mid2 else mid1;
        var atHead := x == FrontWith2 || x == FrontWith1;
        var ls := lines[m := g];
        assert Valid(ls, hit);
        assert r == Grown(ls, hit, m, mid, atHead);
        GrownValid(ls, hit, m, mid, atHead);
        if forall k :: 0 <= k < |lines| ==> lines[k].isovalue == iso {
          assert forall k :: 0 <= k < |ls| ==> ls[k].isovalue == iso;
          MergeKeepsIsovalue(mid, atHead, ls, m, hit, iso);
        }
      }
    }
  }
}
