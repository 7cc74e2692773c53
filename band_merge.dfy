/**
 * The band merge of the parallel builder. Two neighbouring regions were
 * stitched separately; the open lines with an end key in the band of rows
 * (pos - 1, pos] are pulled out of both, marked as border lines, stitched
 * pairwise (the shorter line moves into the longer one, without dropping
 * the shared point), and the region is put back together as the remaining
 * lines of the first region, the stitched fragments, then the remaining
 * lines of the second region.
 */
module BandMerge {
  import opened IsolineTools
  import opened Options
  import opened PointLists
  import opened Stitcher

  // ---------------------------------------------------------------------
  // Two fragments

  /** Which ends of a and b meet, in the order the pairwise merge tests them. */
  datatype PairCase = BothSame | BothCrossed | StartStart | StartEnd | EndEnd | EndStart

  /** Both lines hold points and are open, and an end key of one is an end key of the other. */
  predicate Joins(a: Isoline, b: Isoline)
  {
    |a.points| > 0 && |b.points| > 0 && !a.isCircle && !b.isCircle
    && (a.startPoint == b.startPoint || a.startPoint == b.endPoint || a.endPoint == b.endPoint || a.endPoint == b.startPoint)
  }

  /**
   * The case of the pairwise merge: nothing for an empty or closed line;
   * both ends matching (same or crossed orientation) before a single end.
   */
  function PairCaseOf(a: Isoline, b: Isoline): (r: Option<PairCase>)
    ensures r.None? <==> !Joins(a, b)
    ensures r == Some(BothSame) <==> Joins(a, b) && a.startPoint == b.startPoint && a.endPoint == b.endPoint
    ensures r == Some(BothCrossed) <==>
              Joins(a, b) && !(a.startPoint == b.startPoint && a.endPoint == b.endPoint)
              && a.startPoint == b.endPoint && a.endPoint == b.startPoint
  {
    if |a.points| == 0 || |b.points| == 0 then None
    else if a.isCircle || b.isCircle then None
    else if a.startPoint == b.startPoint && a.endPoint == b.endPoint then Some(BothSame)
    else if a.startPoint == b.endPoint && a.endPoint == b.startPoint then Some(BothCrossed)
    else if a.startPoint == b.startPoint then Some(StartStart)
    else if a.startPoint == b.endPoint then Some(StartEnd)
    else if a.endPoint == b.endPoint then Some(EndEnd)
    else if a.endPoint == b.startPoint then Some(EndStart)
    else None
  }

  /** Line b survives exactly when it is strictly longer; a tie keeps a. */
  predicate SecondSurvives(a: Isoline, b: Isoline)
  {
    |a.points| < |b.points|
  }

  /**
   * The survivor of the pairwise merge of a and b in case c. The shorter
   * line's points are moved one by one into the longer one, so both lists
   * appear whole; a double match closes the survivor and sets its tail key
   * to its head key; a single match gives the survivor the far key of the
   * other line at the joined end.
   */
  function JoinedPair(a: Isoline, b: Isoline, c: PairCase): (r: Isoline)
  {
    var x, y := a.points, b.points;
    if SecondSurvives(a, b) then
      match c
      case BothSame => b.(isCircle := true, endPoint := b.startPoint, points := y + Reverse(x))
      case BothCrossed => b.(isCircle := true, endPoint := b.startPoint, points := y + x)
      case StartStart => b.(startPoint := a.endPoint, points := Reverse(x) + y)
      case StartEnd => b.(endPoint := a.endPoint, points := y + x)
      case EndEnd => b.(endPoint := a.startPoint, points := y + Reverse(x))
      case EndStart => b.(startPoint := a.startPoint, points := x + y)
    else
      match c
      case BothSame => a.(isCircle := true, endPoint := a.startPoint, points := x + Reverse(y))
      case BothCrossed => a.(isCircle := true, endPoint := a.startPoint, points := x + y)
      case StartStart => a.(startPoint := b.endPoint, points := Reverse(y) + x)
      case StartEnd => a.(startPoint := b.startPoint, points := y + x)
      case EndEnd => a.(endPoint := b.startPoint, points := x + Reverse(y))
      case EndStart => a.(endPoint := b.endPoint, points := x + y)
  }

  /**
   * The survivor as the source writes it: when a's head meets b's tail and a
   * survives, a's head key is assigned to itself instead of taking b's head
   * key, so the joined line keeps the shared key at its head.
   */
  function JoinedPairAsWritten(a: Isoline, b: Isoline, c: PairCase): (r: Isoline)
  {
    if c == StartEnd && !SecondSurvives(a, b) then a.(points := b.points + a.points)
    else JoinedPair(a, b, c)
  }

  /** r is x followed by y, joined where x's tail key meets y's head key, with the outer keys. */
  predicate ChainOf(r: Isoline, x: Isoline, y: Isoline)
  {
    x.endPoint == y.startPoint && r.points == x.points + y.points
    && r.startPoint == x.startPoint && r.endPoint == y.endPoint
  }

  /** r is a and b joined end to end, each read in some direction, in some order, with keys that follow the points. */
  predicate Chain(r: Isoline, a: Isoline, b: Isoline)
  {
    ChainOf(r, a, b) || ChainOf(r, a, Flip(b)) || ChainOf(r, Flip(a), b) || ChainOf(r, Flip(a), Flip(b))
    || ChainOf(r, b, a) || ChainOf(r, b, Flip(a)) || ChainOf(r, Flip(b), a) || ChainOf(r, Flip(b), Flip(a))
  }

  /** The outcome of the pairwise merge: whether it merged, and the lines afterwards. */
  datatype PairMerged = PairMerged(merged: bool, lines: seq<Isoline>)

  /** Fragments j1 and j2 of ls merged as the pairwise merge does: the survivor takes the joined line, the other is erased. */
  function MergeTwoSpec(ls: seq<Isoline>, j1: int, j2: int): PairMerged
    requires 0 <= j1 < |ls| && 0 <= j2 < |ls| && j1 != j2
  {
    var a, b := ls[j1], ls[j2];
    match PairCaseOf(a, b)
    case None => PairMerged(false, ls)
    case Some(c) =>
      if SecondSurvives(a, b) then PairMerged(true, RemoveAt(ls[j2 := JoinedPair(a, b, c)], j1))
      else PairMerged(true, RemoveAt(ls[j1 := JoinedPair(a, b, c)], j2))
  }

  /**
   * The pairwise merge of fragments j1 and j2, as the source tests and moves
   * the points, with the head key of the head-to-tail case taken from line
   * j2. The sizes are the two lines' sizes, as the only caller passes them.
   */
  method MergeTwoIsolines(ls: seq<Isoline>, j1: int, j2: int) returns (merged: bool, ls': seq<Isoline>)
    requires 0 <= j1 < |ls| && 0 <= j2 < |ls| && j1 != j2
    ensures PairMerged(merged, ls') == MergeTwoSpec(ls, j1, j2)
  {
    var a, b := ls[j1], ls[j2];
    var size1, size2 := |a.points|, |b.points|;
    ls' := ls;
    if size1 == 0 || size2 == 0 {
      return false, ls;
    }
    if a.isCircle || b.isCircle {
      return false, ls;
    }
    var pts: seq<Point2D>;
    if a.startPoint == b.startPoint && a.endPoint == b.endPoint {
      if size1 < size2 {
        pts := PushBackFromLast(b.points, a.points);
        ls' := RemoveAt(ls[j2 := b.(isCircle := true, endPoint := b.startPoint, points := pts)], j1);
      } else {
        pts := PushBackFromLast(a.points, b.points);
        ls' := RemoveAt(ls[j1 := a.(isCircle := true, endPoint := a.startPoint, points := pts)], j2);
      }
    } else if a.startPoint == b.endPoint && a.endPoint == b.startPoint {
      if size1 < size2 {
        pts := PushBackAll(b.points, a.points);
        ls' := RemoveAt(ls[j2 := b.(isCircle := true, endPoint := b.startPoint, points := pts)], j1);
      } else {
        pts := PushBackAll(a.points, b.points);
        ls' := RemoveAt(ls[j1 := a.(isCircle := true, endPoint := a.startPoint, points := pts)], j2);
      }
    } else if a.startPoint == b.startPoint {
      if size1 < size2 {
        pts := PushFrontAll(b.points, a.points);
        ls' := RemoveAt(ls[j2 := b.(startPoint := a.endPoint, points := pts)], j1);
      } else {
        pts := PushFrontAll(a.points, b.points);
        ls' := RemoveAt(ls[j1 := a.(startPoint := b.endPoint, points := pts)], j2);
      }
    } else if a.startPoint == b.endPoint {
      if size1 < size2 {
        pts := PushBackAll(b.points, a.points);
        ls' := RemoveAt(ls[j2 := b.(endPoint := a.endPoint, points := pts)], j1);
      } else {
        pts := PushFrontFromLast(a.points, b.points);
        ls' := RemoveAt(ls[j1 := a.(startPoint := b.startPoint, points := pts)], j2);
      }
    } else if a.endPoint == b.endPoint {
      if size1 < size2 {
        pts := PushBackFromLast(b.points, a.points);
        ls' := RemoveAt(ls[j2 := b.(endPoint := a.startPoint, points := pts)], j1);
      } else {
        pts := PushBackFromLast(a.points, b.points);
        ls' := RemoveAt(ls[j1 := a.(endPoint := b.startPoint, points := pts)], j2);
      }
    } else if a.endPoint == b.startPoint {
      if size1 < size2 {
        pts := PushFrontFromLast(b.points, a.points);
        ls' := RemoveAt(ls[j2 := b.(startPoint := a.startPoint, points := pts)], j1);
      } else {
        pts := PushBackAll(a.points, b.points);
        ls' := RemoveAt(ls[j1 := a.(endPoint := b.endPoint, points := pts)], j2);
      }
    } else {
      return false, ls;
    }
    merged := true;
  }

  /**
   * The joined line is the two fragments end to end, each read in some
   * direction, with its keys those of its two outer ends.
   */
  lemma {:induction false} JoinedPairChains(a: Isoline, b: Isoline)
    requires Joins(a, b)
    ensures Chain(JoinedPair(a, b, PairCaseOf(a, b).value), a, b)
  {
    var c := PairCaseOf(a, b).value;
    var r := JoinedPair(a, b, c);
    if SecondSurvives(a, b) {
      match c
      case BothSame => assert ChainOf(r, b, Flip(a));
      case BothCrossed => assert ChainOf(r, b, a);
      case StartStart => assert ChainOf(r, Flip(a), b);
      case StartEnd => assert ChainOf(r, b, a);
      case EndEnd => assert ChainOf(r, b, Flip(a));
      case EndStart => assert ChainOf(r, a, b);
    } else {
      match c
      case BothSame => assert ChainOf(r, a, Flip(b));
      case BothCrossed => assert ChainOf(r, a, b);
      case StartStart => assert ChainOf(r, Flip(b), a);
      case StartEnd => assert ChainOf(r, b, a);
      case EndEnd => assert ChainOf(r, a, Flip(b));
      case EndStart => assert ChainOf(r, a, b);
    }
  }

  /**
   * The joined line keeps every point of both fragments, the shared one
   * twice; it carries the survivor's isovalue and border flag, and it is
   * closed, with equal keys, exactly when both ends matched.
   */
  lemma {:induction false} JoinedPairContents(a: Isoline, b: Isoline)
    requires Joins(a, b)
    ensures var c := PairCaseOf(a, b).value;
            var r := JoinedPair(a, b, c);
            var s := if SecondSurvives(a, b) then b else a;
            && |r.points| == |a.points| + |b.points|
            && multiset(r.points) == multiset(a.points) + multiset(b.points)
            && r.isovalue == s.isovalue && r.isBorder == s.isBorder
            && (r.isCircle <==> c == BothSame || c == BothCrossed)
            && (r.isCircle ==> r.endPoint == r.startPoint)
  {
    ReverseMultiset(a.points);
    ReverseMultiset(b.points);
  }

  /**
   * As written, the head-to-tail merge in which the first line survives
   * leaves the shared key at the head of the joined line: for two 2-point
   * fragments keyed (K, A) and (B, K), the joined line starts with the
   * points of the second fragment, whose head key is B, but is keyed K.
   */
  lemma {:induction false} StaleHeadKey()
    ensures var k, ka, kb := Point2D(1.0, 0.5), Point2D(1.0, 1.5), Point2D(0.5, 0.0);
            var a := Isoline(1.0, false, false, [Point2D(0.0, 0.0), Point2D(0.0, 1.0)], k, ka);
            var b := Isoline(1.0, false, false, [Point2D(2.0, 0.0), Point2D(2.0, 1.0)], kb, k);
            var w := JoinedPairAsWritten(a, b, PairCaseOf(a, b).value);
            && PairCaseOf(a, b) == Some(StartEnd)
            && w.startPoint == k && JoinedPair(a, b, StartEnd).startPoint == kb
            && !Chain(w, a, b) && Chain(JoinedPair(a, b, StartEnd), a, b)
  {
    var k, ka, kb := Point2D(1.0, 0.5), Point2D(1.0, 1.5), Point2D(0.5, 0.0);
    var a := Isoline(1.0, false, false, [Point2D(0.0, 0.0), Point2D(0.0, 1.0)], k, ka);
    var b := Isoline(1.0, false, false, [Point2D(2.0, 0.0), Point2D(2.0, 1.0)], kb, k);
    var w := JoinedPairAsWritten(a, b, StartEnd);
    assert Reverse(a.points) == [a.points[1], a.points[0]] by {
      assert Reverse(a.points[1..]) == [a.points[1]];
    }
    assert Reverse(b.points) == [b.points[1], b.points[0]] by {
      assert Reverse(b.points[1..]) == [b.points[1]];
    }
    assert w.points == b.points + a.points;
    JoinedPairChains(a, b);
  }

  /**
   * The pairwise merge changes nothing exactly when the two fragments do not
   * join; otherwise one line fewer remains, the survivor (the longer line,
   * the first on a tie) holds the joined line, and every other line is kept
   * in order.
   */
  lemma {:induction false} MergeTwoOutcome(ls: seq<Isoline>, j1: int, j2: int)
    requires 0 <= j1 < |ls| && 0 <= j2 < |ls| && j1 != j2
    ensures var r := MergeTwoSpec(ls, j1, j2);
            var a, b := ls[j1], ls[j2];
            && (!r.merged <==> !Joins(a, b))
            && (!r.merged ==> r.lines == ls)
            && (r.merged ==> |r.lines| == |ls| - 1)
            && (r.merged && SecondSurvives(a, b) ==>
                  r.lines[Shift(j2, j1)] == JoinedPair(a, b, PairCaseOf(a, b).value))
            && (r.merged && !SecondSurvives(a, b) ==>
                  r.lines[Shift(j1, j2)] == JoinedPair(a, b, PairCaseOf(a, b).value))
            && (r.merged ==> forall x :: 0 <= x < |ls| && x != j1 && x != j2 ==>
                  r.lines[Shift(x, if SecondSurvives(a, b) then j1 else j2)] == ls[x])
  {
    var r := MergeTwoSpec(ls, j1, j2);
    var a, b := ls[j1], ls[j2];
    if r.merged {
      var s, rm := if SecondSurvives(a, b) then j2 else j1, if SecondSurvives(a, b) then j1 else j2;
      JoinedKeepsOthers(ls, s, rm, JoinedPair(a, b, PairCaseOf(a, b).value), []);
    }
  }

  /** The pairwise merge keeps every point, the shared one included: the point bag is unchanged. */
  lemma {:induction false} MergeTwoKeepsBag(ls: seq<Isoline>, j1: int, j2: int)
    requires 0 <= j1 < |ls| && 0 <= j2 < |ls| && j1 != j2
    ensures PointBag(MergeTwoSpec(ls, j1, j2).lines) == PointBag(ls)
  {
    var a, b := ls[j1], ls[j2];
    if Joins(a, b) {
      var l := JoinedPair(a, b, PairCaseOf(a, b).value);
      JoinedPairContents(a, b);
      var sv, rm := if SecondSurvives(a, b) then j2 else j1, if SecondSurvives(a, b) then j1 else j2;
      assert MergeTwoSpec(ls, j1, j2).lines == Joined(ls, sv, rm, l, []).lines;
      JoinedBag(ls, sv, rm, l, []);
      BagCancel2(PointBag(Joined(ls, sv, rm, l, []).lines), PointBag(ls), multiset(ls[sv].points), multiset(ls[rm].points), multiset(l.points));
    }
  }

  /** Hence the point total is unchanged too. */
  lemma {:induction false} MergeTwoKeepsTotal(ls: seq<Isoline>, j1: int, j2: int)
    requires 0 <= j1 < |ls| && 0 <= j2 < |ls| && j1 != j2
    ensures TotalPoints(MergeTwoSpec(ls, j1, j2).lines) == TotalPoints(ls)
  {
    MergeTwoKeepsBag(ls, j1, j2);
    PointBagSize(MergeTwoSpec(ls, j1, j2).lines);
    PointBagSize(ls);
  }

  lemma {:induction false} BagCancel2<T>(n: multiset<T>, p: multiset<T>, x: multiset<T>, y: multiset<T>, l: multiset<T>)
    requires n + x + y == p + l && l == x + y
    ensures n == p
  {
    forall e
      ensures n[e] == p[e]
    {
      assert (n + x + y)[e] == (p + l)[e];
    }
  }

  // ---------------------------------------------------------------------
  // Pulling the border fragments out of a region

  /** An end key of l lies in the band of rows (pos - 1, pos]. */
  predicate InBand(l: Isoline, pos: int)
  {
    ((pos - 1) as real < l.startPoint.x && l.startPoint.x <= pos as real)
    || ((pos - 1) as real < l.endPoint.x && l.endPoint.x <= pos as real)
  }

  /** The fragments the band merge pulls out: open lines with an end key in the band. */
  predicate Pulled(l: Isoline, pos: int)
  {
    InBand(l, pos) && !l.isCircle
  }

  /** The lines that stay in the region, in order. */
  function Remaining(ls: seq<Isoline>, pos: int): (r: seq<Isoline>)
    ensures |r| <= |ls|
  {
    if ls == [] then []
    else Remaining(ls[..|ls| - 1], pos) + (if Pulled(ls[|ls| - 1], pos) then [] else [ls[|ls| - 1]])
  }

  /** The fragments pulled out, in order, each marked as a border line. */
  function Border(ls: seq<Isoline>, pos: int): (r: seq<Isoline>)
    ensures |r| <= |ls|
  {
    if ls == [] then []
    else Border(ls[..|ls| - 1], pos) + (if Pulled(ls[|ls| - 1], pos) then [ls[|ls| - 1].(isBorder := true)] else [])
  }

  /**
   * Erases, in order, the fragments of the band from ls and pushes them,
   * marked as border lines, onto temp.
   */
  method PullBorder(ls: seq<Isoline>, pos: int, temp: seq<Isoline>) returns (rest: seq<Isoline>, temp': seq<Isoline>)
    ensures rest == Remaining(ls, pos) && temp' == temp + Border(ls, pos)
  {
    rest, temp' := ls, temp;
    var size := |rest|;
    var j := 0;
    ghost var c := 0;
    PullStart(ls, pos, temp);
    while j < size
      invariant PullDone(rest, temp', ls, pos, temp, j, size, c)
      decreases |ls| - c
    {
      ghost var rest0, temp0, j0, size0 := rest, temp', j, size;
      var l := rest[j];
      if InBand(l, pos) {
        if !l.isCircle {
          temp' := temp' + [l.(isBorder := true)];
          rest := rest[..j] + rest[j + 1..];
          j := j - 1;
          size := size - 1;
        }
      }
      j := j + 1;
      PullTurn(rest0, temp0, rest, temp', ls, pos, temp, j0, j, size0, size, c);
      c := c + 1;
    }
    PullEnd(rest, temp', ls, pos, temp, j, size, c);
  }

  /**
   * The state of the erase loop: the first j lines kept are what stays of
   * the first c lines, the rest is the unvisited input, and temp has grown by
   * the fragments pulled out of the first c lines.
   */
  ghost predicate PullDone(rest: seq<Isoline>, temp': seq<Isoline>, ls: seq<Isoline>, pos: int, temp: seq<Isoline>, j: int, size: int, c: int)
  {
    0 <= j <= size == |rest| && 0 <= c <= |ls|
    && rest[..j] == Remaining(ls[..c], pos) && rest[j..] == ls[c..]
    && temp' == temp + Border(ls[..c], pos)
  }

  lemma {:induction false} PullStart(ls: seq<Isoline>, pos: int, temp: seq<Isoline>)
    ensures PullDone(ls, temp, ls, pos, temp, 0, |ls|, 0)
  {
    assert ls[..0] == [] && ls[0..] == ls && temp + [] == temp;
  }

  /** One turn of the erase loop: the line at j is pulled out or stays as the band says. */
  lemma {:induction false} PullTurn(rest0: seq<Isoline>, temp0: seq<Isoline>, rest: seq<Isoline>, temp1: seq<Isoline>,
                                    ls: seq<Isoline>, pos: int, temp: seq<Isoline>, j0: int, j: int, size0: int, size: int, c: int)
    requires PullDone(rest0, temp0, ls, pos, temp, j0, size0, c) && j0 < size0
    requires if Pulled(rest0[j0], pos)
             then rest == rest0[..j0] + rest0[j0 + 1..] && temp1 == temp0 + [rest0[j0].(isBorder := true)]
                  && j == j0 && size == size0 - 1
             else rest == rest0 && temp1 == temp0 && j == j0 + 1 && size == size0
    ensures PullDone(rest, temp1, ls, pos, temp, j, size, c + 1)
  {
    var init := ls[..c + 1];
    assert init[..c] == ls[..c];
    assert rest0[j0] == ls[c] == init[|init| - 1];
    if Pulled(rest0[j0], pos) {
      assert Remaining(init, pos) == Remaining(ls[..c], pos) + [];
      assert Border(init, pos) == Border(ls[..c], pos) + [rest0[j0].(isBorder := true)];
      assert rest[..j] == rest0[..j0];
      assert rest[j..] == rest0[j0 + 1..];
    } else {
      assert Remaining(init, pos) == Remaining(ls[..c], pos) + [rest0[j0]];
      assert Border(init, pos) == Border(ls[..c], pos) + [];
      assert rest[..j] == rest0[..j0] + [rest0[j0]];
    }
  }

  lemma {:induction false} PullEnd(rest: seq<Isoline>, temp': seq<Isoline>, ls: seq<Isoline>, pos: int, temp: seq<Isoline>, j: int, size: int, c: int)
    requires PullDone(rest, temp', ls, pos, temp, j, size, c) && j >= size
    ensures rest == Remaining(ls, pos) && temp' == temp + Border(ls, pos)
  {
    assert ls[c..] == rest[j..] == [];
    assert ls[..c] == ls;
    assert rest[..j] == rest;
  }

  /** Pulling out loses nothing: the lines and their points split between what stays and what is pulled out. */
  lemma {:induction false} PullSplitsPoints(ls: seq<Isoline>, pos: int)
    ensures |Remaining(ls, pos)| + |Border(ls, pos)| == |ls|
    ensures PointBag(Remaining(ls, pos)) + PointBag(Border(ls, pos)) == PointBag(ls)
  {
    if ls != [] {
      PullSplitsPoints(ls[..|ls| - 1], pos);
      PullStep(ls, pos);
    }
  }

  /** The last line of ls either stays or is pulled out, with all its points. */
  lemma {:induction false} PullStep(ls: seq<Isoline>, pos: int)
    requires ls != []
    ensures var init := ls[..|ls| - 1];
            |Remaining(ls, pos)| + |Border(ls, pos)| == |Remaining(init, pos)| + |Border(init, pos)| + 1
    ensures var init := ls[..|ls| - 1];
            PointBag(Remaining(ls, pos)) + PointBag(Border(ls, pos))
            == PointBag(Remaining(init, pos)) + PointBag(Border(init, pos)) + multiset(ls[|ls| - 1].points)
  {
    var init, last := ls[..|ls| - 1], ls[|ls| - 1];
    var R, B := Remaining(init, pos), Border(init, pos);
    if Pulled(last, pos) {
      PulledLast(ls, pos);
    } else {
      KeptLast(ls, pos);
    }
  }

  /** When the last line is pulled out, the border list grows by it, marked, and nothing else changes. */
  lemma {:induction false} PulledLast(ls: seq<Isoline>, pos: int)
    requires ls != [] && Pulled(ls[|ls| - 1], pos)
    ensures var init := ls[..|ls| - 1];
            |Remaining(ls, pos)| + |Border(ls, pos)| == |Remaining(init, pos)| + |Border(init, pos)| + 1
    ensures var init := ls[..|ls| - 1];
            PointBag(Remaining(ls, pos)) + PointBag(Border(ls, pos))
            == PointBag(Remaining(init, pos)) + PointBag(Border(init, pos)) + multiset(ls[|ls| - 1].points)
  {
    var init, last := ls[..|ls| - 1], ls[|ls| - 1];
    var R, B := Remaining(init, pos), Border(init, pos);
    var moved := last.(isBorder := true);
    assert Remaining(ls, pos) == R by { assert R + [] == R; }
    assert Border(ls, pos) == B + [moved];
    PointBagSnoc(B, moved);
    BagRegroup(PointBag(R), PointBag(B), multiset(last.points));
  }

  /** When the last line stays, the remaining list grows by it and nothing else changes. */
  lemma {:induction false} KeptLast(ls: seq<Isoline>, pos: int)
    requires ls != [] && !Pulled(ls[|ls| - 1], pos)
    ensures var init := ls[..|ls| - 1];
            |Remaining(ls, pos)| + |Border(ls, pos)| == |Remaining(init, pos)| + |Border(init, pos)| + 1
    ensures var init := ls[..|ls| - 1];
            PointBag(Remaining(ls, pos)) + PointBag(Border(ls, pos))
            == PointBag(Remaining(init, pos)) + PointBag(Border(init, pos)) + multiset(ls[|ls| - 1].points)
  {
    var init, last := ls[..|ls| - 1], ls[|ls| - 1];
    var R, B := Remaining(init, pos), Border(init, pos);
    assert Border(ls, pos) == B by { assert B + [] == B; }
    assert Remaining(ls, pos) == R + [last];
    PointBagSnoc(R, last);
    BagRegroup(PointBag(B), PointBag(R), multiset(last.points));
  }

  /** Adding one bag to either of two others gives the same total. */
  lemma {:induction false} BagRegroup(x: multiset<Point2D>, y: multiset<Point2D>, z: multiset<Point2D>)
    ensures x + (y + z) == x + y + z
    ensures (y + z) + x == x + y + z
  {
  }

  /**
   * Every line that is closed or has no end key in the band stays, and only
   * such lines stay; every pulled-out fragment is open, in the band and
   * marked as a border line.
   */
  lemma {:induction false} PullSelects(ls: seq<Isoline>, pos: int)
    ensures forall k :: 0 <= k < |ls| && !Pulled(ls[k], pos) ==> ls[k] in Remaining(ls, pos)
    ensures forall l :: l in Remaining(ls, pos) ==> l in ls && !Pulled(l, pos)
    ensures forall l :: l in Border(ls, pos) ==> l.isBorder && Pulled(l, pos)
  {
    if ls != [] {
      var init, last := ls[..|ls| - 1], ls[|ls| - 1];
      PullSelects(init, pos);
      forall k | 0 <= k < |ls| && !Pulled(ls[k], pos)
        ensures ls[k] in Remaining(ls, pos)
      {
        if k < |init| {
          assert init[k] == ls[k];
        }
      }
      forall l | l in Remaining(ls, pos)
        ensures l in ls
      {
        if l in Remaining(init, pos) {
          assert l in init;
        }
      }
    }
  }

  /** In particular no closed line is ever pulled out. */
  lemma {:induction false} ClosedLinesStay(ls: seq<Isoline>, pos: int)
    ensures forall k :: 0 <= k < |ls| && ls[k].isCircle ==> ls[k] in Remaining(ls, pos)
    ensures forall l :: l in Border(ls, pos) ==> !l.isCircle
  {
    PullSelects(ls, pos);
  }

  // ---------------------------------------------------------------------
  // Stitching the border fragments

  /** The first fragment at index k or later that fragment j joins. */
  function FirstPartner(ls: seq<Isoline>, j: nat, k: nat): (r: Option<nat>)
    requires j < |ls|
    ensures r.Some? ==> k <= r.value < |ls| && Joins(ls[j], ls[r.value])
    ensures r.Some? ==> forall x :: k <= x < r.value ==> !Joins(ls[j], ls[x])
    ensures r.None? ==> forall x :: k <= x < |ls| ==> !Joins(ls[j], ls[x])
    decreases |ls| - k
  {
    if k >= |ls| then None
    else if Joins(ls[j], ls[k]) then Some(k)
    else FirstPartner(ls, j, k + 1)
  }

  /**
   * The pairwise stitching from fragment j on: fragment j is merged with the
   * first later fragment it joins, and tried again, until no later fragment
   * joins it; then the next fragment is tried.
   */
  function Stitch(ls: seq<Isoline>, j: nat): (r: seq<Isoline>)
    ensures |r| <= |ls|
    decreases |ls|, |ls| - j
  {
    if j + 1 >= |ls| then ls
    else match FirstPartner(ls, j, j + 1)
      case None => Stitch(ls, j + 1)
      case Some(k) =>
        MergeTwoOutcome(ls, j, k);
        Stitch(MergeTwoSpec(ls, j, k).lines, j)
  }

  /** Appends the lines of src, one by one, to dst. */
  method AppendLines(dst: seq<Isoline>, src: seq<Isoline>) returns (r: seq<Isoline>)
    ensures r == dst + src
  {
    r := dst;
    var j := 0;
    while j < |src|
      invariant 0 <= j <= |src|
      invariant r == dst + src[..j]
    {
      assert src[..j + 1] == src[..j] + [src[j]];
      r := r + [src[j]];
      j := j + 1;
    }
    assert src[..j] == src;
  }

  /**
   * The double loop over the fragments: for each j, the first later
   * fragment k that merges with j; after a merge, j is tried again.
   */
  method StitchFragments(ls: seq<Isoline>) returns (r: seq<Isoline>)
    ensures r == Stitch(ls, 0)
  {
    r := ls;
    var size := |r|;
    var j := 0;
    while j < size - 1
      invariant 0 <= j && size == |r|
      invariant Stitch(r, j) == Stitch(ls, 0)
      decreases |r|, |r| - j
    {
      ghost var r0, j0 := r, j;
      var k := j + 1;
      while k < size
        invariant r == r0 && j == j0 && j0 + 1 <= k <= size
        invariant FirstPartner(r0, j0, j0 + 1) == FirstPartner(r0, j0, k)
        decreases size - k
      {
        var merged, r' := MergeTwoIsolines(r, j, k);
        if merged {
          MergeTwoOutcome(r, j, k);
          r := r';
          j := j - 1;
          size := size - 1;
          break;
        }
        MergeTwoOutcome(r, j, k);
        k := k + 1;
      }
      j := j + 1;
    }
  }

  /** Stitching keeps every point of the fragments: the point bag is unchanged. */
  lemma {:induction false} StitchKeepsBag(ls: seq<Isoline>, j: nat)
    ensures PointBag(Stitch(ls, j)) == PointBag(ls)
    decreases |ls|, |ls| - j
  {
    if j + 1 < |ls| {
      match FirstPartner(ls, j, j + 1)
      case None => StitchKeepsBag(ls, j + 1);
      case Some(k) =>
        MergeTwoOutcome(ls, j, k);
        MergeTwoKeepsBag(ls, j, k);
        StitchKeepsBag(MergeTwoSpec(ls, j, k).lines, j);
    }
  }

  /** The pairwise merge keeps a common isovalue and at least two points per line. */
  lemma {:induction false} MergeTwoKeepsLines(ls: seq<Isoline>, j1: int, j2: int, v: real)
    requires 0 <= j1 < |ls| && 0 <= j2 < |ls| && j1 != j2
    requires forall x :: 0 <= x < |ls| ==> ls[x].isovalue == v && |ls[x].points| >= 2
    ensures forall x :: 0 <= x < |MergeTwoSpec(ls, j1, j2).lines| ==>
              MergeTwoSpec(ls, j1, j2).lines[x].isovalue == v && |MergeTwoSpec(ls, j1, j2).lines[x].points| >= 2
  {
    var a, b := ls[j1], ls[j2];
    if Joins(a, b) {
      JoinedPairContents(a, b);
      var sv, rm := if SecondSurvives(a, b) then j2 else j1, if SecondSurvives(a, b) then j1 else j2;
      var l := JoinedPair(a, b, PairCaseOf(a, b).value);
      var r := MergeTwoSpec(ls, j1, j2).lines;
      assert r == RemoveAt(ls[sv := l], rm);
      forall x | 0 <= x < |r|
        ensures r[x].isovalue == v && |r[x].points| >= 2
      {
        var x0 := if x < rm then x else x + 1;
        assert r[x] == ls[sv := l][x0];
      }
    }
  }

  /** Stitching keeps a common isovalue and at least two points per line. */
  lemma {:induction false} StitchKeepsLines(ls: seq<Isoline>, j: nat, v: real)
    requires forall x :: 0 <= x < |ls| ==> ls[x].isovalue == v && |ls[x].points| >= 2
    ensures forall x :: 0 <= x < |Stitch(ls, j)| ==> Stitch(ls, j)[x].isovalue == v && |Stitch(ls, j)[x].points| >= 2
    decreases |ls|, |ls| - j
  {
    if j + 1 < |ls| {
      match FirstPartner(ls, j, j + 1)
      case None => StitchKeepsLines(ls, j + 1, v);
      case Some(k) =>
        MergeTwoOutcome(ls, j, k);
        MergeTwoKeepsLines(ls, j, k, v);
        StitchKeepsLines(MergeTwoSpec(ls, j, k).lines, j, v);
    }
  }

  /** The end keys of a line. */
  function Keys(l: Isoline): set<Point2D>
  {
    {l.startPoint, l.endPoint}
  }

  /** The joined line's keys are keys of the two fragments. */
  lemma {:induction false} JoinedPairKeys(a: Isoline, b: Isoline)
    requires Joins(a, b)
    ensures Keys(JoinedPair(a, b, PairCaseOf(a, b).value)) <= Keys(a) + Keys(b)
  {
  }

  /** A line that joins neither fragment does not join their merged line either. */
  lemma {:induction false} JoinsNeitherPart(l: Isoline, a: Isoline, b: Isoline)
    requires Joins(a, b) && !Joins(l, a) && !Joins(l, b)
    ensures !Joins(l, JoinedPair(a, b, PairCaseOf(a, b).value))
  {
    JoinedPairKeys(a, b);
  }

  /** No fragment before j joins a later one. */
  predicate SettledBefore(ls: seq<Isoline>, j: int)
  {
    forall x, y :: 0 <= x < j && x < y < |ls| ==> !Joins(ls[x], ls[y])
  }

  /** A merge at (j, k) with k after j keeps the fragments before j settled. */
  lemma {:induction false} MergeKeepsSettled(ls: seq<Isoline>, j: int, k: int)
    requires 0 <= j < k < |ls| && Joins(ls[j], ls[k]) && SettledBefore(ls, j)
    ensures SettledBefore(MergeTwoSpec(ls, j, k).lines, j)
  {
    var a, b := ls[j], ls[k];
    var sv, rm := if SecondSurvives(a, b) then k else j, if SecondSurvives(a, b) then j else k;
    var l := JoinedPair(a, b, PairCaseOf(a, b).value);
    var r := MergeTwoSpec(ls, j, k).lines;
    assert r == RemoveAt(ls[sv := l], rm);
    forall x, y | 0 <= x < j && x < y < |r|
      ensures !Joins(r[x], r[y])
    {
      var y0 := if y < rm then y else y + 1;
      assert r[x] == ls[x];
      assert r[y] == ls[sv := l][y0];
      if y0 == sv {
        JoinsNeitherPart(ls[x], a, b);
      }
    }
  }

  /**
   * Stitching is complete: afterwards no two fragments join, because every
   * fragment is merged until no later one joins it, and a merged line's keys
   * are keys of its parts.
   */
  lemma {:induction false} StitchSettles(ls: seq<Isoline>, j: nat)
    requires SettledBefore(ls, j)
    ensures SettledBefore(Stitch(ls, j), |Stitch(ls, j)|)
    decreases |ls|, |ls| - j
  {
    if j + 1 < |ls| {
      match FirstPartner(ls, j, j + 1)
      case None =>
        assert SettledBefore(ls, j + 1);
        StitchSettles(ls, j + 1);
      case Some(k) =>
        MergeTwoOutcome(ls, j, k);
        MergeKeepsSettled(ls, j, k);
        StitchSettles(MergeTwoSpec(ls, j, k).lines, j);
    }
  }

  // ---------------------------------------------------------------------
  // Merging two regions

  /** The stitched border fragments of isovalue i. */
  function Fragments(pos: int, V: seq<seq<Isoline>>, V1: seq<seq<Isoline>>, i: int): seq<Isoline>
    requires 0 <= i < |V| <= |V1|
  {
    Stitch(Border(V[i], pos) + Border(V1[i], pos), 0)
  }

  /**
   * The first region after the band merge at pos, isovalue by isovalue: its
   * remaining lines, the stitched border fragments of both regions, then the
   * remaining lines of the second region.
   */
  function AreaMerged(pos: int, V: seq<seq<Isoline>>, V1: seq<seq<Isoline>>): (r: seq<seq<Isoline>>)
    requires |V| <= |V1|
    ensures |r| == |V|
  {
    seq(|V|, i requires 0 <= i < |V| => Remaining(V[i], pos) + Fragments(pos, V, V1, i) + Remaining(V1[i], pos))
  }

  /** The second region after the band merge: its fragments in the band are gone. */
  function AreaRest(pos: int, V: seq<seq<Isoline>>, V1: seq<seq<Isoline>>): (r: seq<seq<Isoline>>)
    requires |V| <= |V1|
    ensures |r| == |V1|
  {
    seq(|V1|, i requires 0 <= i < |V1| => if i < |V| then Remaining(V1[i], pos) else V1[i])
  }

  /**
   * The band merge at mergePos of the first region V with the second region
   * V1: the border fragments of V and then of V1 are pulled out, stitched,
   * and appended to V with the remaining lines of V1.
   */
  method MergeTwoArea(mergePos: int, V: seq<seq<Isoline>>, V1: seq<seq<Isoline>>)
    returns (V': seq<seq<Isoline>>, V1': seq<seq<Isoline>>)
    requires |V| <= |V1|
    ensures V' == AreaMerged(mergePos, V, V1) && V1' == AreaRest(mergePos, V, V1)
  {
    var temp: seq<seq<Isoline>> := seq(|V|, _ => []);
    V', temp := PullFirstRegion(mergePos, V, temp);
    V1', temp := PullSecondRegion(mergePos, V, V1, temp);
    V' := JoinBand(mergePos, V, V1, V', V1', temp);
  }

  /** The first pass of the band merge: pulls the band's fragments out of every isovalue's lines of the first region. */
  method PullFirstRegion(mergePos: int, V: seq<seq<Isoline>>, temp0: seq<seq<Isoline>>)
    returns (V': seq<seq<Isoline>>, temp: seq<seq<Isoline>>)
    requires |temp0| == |V| && forall x :: 0 <= x < |V| ==> temp0[x] == []
    ensures |V'| == |temp| == |V|
    ensures forall x :: 0 <= x < |V| ==> V'[x] == Remaining(V[x], mergePos) && temp[x] == Border(V[x], mergePos)
  {
    var n := |V|;
    V', temp := V, temp0;
    var i := 0;
    while i < n
      invariant 0 <= i <= n == |V'| == |temp|
      invariant forall x :: 0 <= x < i ==> V'[x] == Remaining(V[x], mergePos) && temp[x] == Border(V[x], mergePos)
      invariant forall x :: i <= x < n ==> V'[x] == V[x] && temp[x] == []
    {
      var rest, t := PullBorder(V'[i], mergePos, temp[i]);
      assert t == Border(V[i], mergePos);
      V', temp := V'[i := rest], temp[i := t];
      i := i + 1;
    }
  }

  /** The second pass: pulls the band's fragments out of the second region, after the first region's. */
  method PullSecondRegion(mergePos: int, V: seq<seq<Isoline>>, V1: seq<seq<Isoline>>, temp0: seq<seq<Isoline>>)
    returns (V1': seq<seq<Isoline>>, temp: seq<seq<Isoline>>)
    requires |V| <= |V1| && |temp0| == |V|
    requires forall x :: 0 <= x < |V| ==> temp0[x] == Border(V[x], mergePos)
    ensures V1' == AreaRest(mergePos, V, V1) && |temp| == |V|
    ensures forall x :: 0 <= x < |V| ==> temp[x] == Border(V[x], mergePos) + Border(V1[x], mergePos)
  {
    var n := |V|;
    V1', temp := V1, temp0;
    var i := 0;
    while i < n
      invariant 0 <= i <= n == |temp| && |V1'| == |V1|
      invariant forall x :: 0 <= x < i ==>
                  V1'[x] == Remaining(V1[x], mergePos) && temp[x] == Border(V[x], mergePos) + Border(V1[x], mergePos)
      invariant forall x :: i <= x < n ==> temp[x] == Border(V[x], mergePos)
      invariant forall x :: i <= x < |V1| ==> V1'[x] == V1[x]
    {
      var rest, t := PullBorder(V1'[i], mergePos, temp[i]);
      V1', temp := V1'[i := rest], temp[i := t];
      i := i + 1;
    }
    assert V1' == AreaRest(mergePos, V, V1);
  }

  /** The third pass: stitches each isovalue's fragments and appends them, then the second region's lines, to the first region's. */
  method JoinBand(mergePos: int, V: seq<seq<Isoline>>, V1: seq<seq<Isoline>>, V0': seq<seq<Isoline>>, V1': seq<seq<Isoline>>, temp0: seq<seq<Isoline>>)
    returns (V': seq<seq<Isoline>>)
    requires |V| <= |V1| && |V0'| == |temp0| == |V| && V1' == AreaRest(mergePos, V, V1)
    requires forall x :: 0 <= x < |V| ==>
               V0'[x] == Remaining(V[x], mergePos) && temp0[x] == Border(V[x], mergePos) + Border(V1[x], mergePos)
    ensures V' == AreaMerged(mergePos, V, V1)
  {
    var n := |V|;
    V' := V0';
    var temp := temp0;
    var i := 0;
    while i < n
      invariant 0 <= i <= n == |V'| == |temp|
      invariant forall x :: 0 <= x < i ==> V'[x] == AreaMerged(mergePos, V, V1)[x]
      invariant forall x :: i <= x < n ==>
                  V'[x] == Remaining(V[x], mergePos) && temp[x] == Border(V[x], mergePos) + Border(V1[x], mergePos)
    {
      var stitched := StitchFragments(temp[i]);
      temp := temp[i := stitched];
      var w := AppendLines(V'[i], stitched);
      w := AppendLines(w, V1'[i]);
      V' := V'[i := w];
      i := i + 1;
    }
  }

  /** The band merge keeps every point of both regions, isovalue by isovalue. */
  lemma {:induction false} AreaConserves(pos: int, V: seq<seq<Isoline>>, V1: seq<seq<Isoline>>, i: int)
    requires 0 <= i < |V| <= |V1|
    ensures PointBag(AreaMerged(pos, V, V1)[i]) == PointBag(V[i]) + PointBag(V1[i])
    ensures TotalPoints(AreaMerged(pos, V, V1)[i]) == TotalPoints(V[i]) + TotalPoints(V1[i])
  {
    var r0, r1 := Remaining(V[i], pos), Remaining(V1[i], pos);
    var b0, b1 := Border(V[i], pos), Border(V1[i], pos);
    assert AreaMerged(pos, V, V1)[i] == r0 + Fragments(pos, V, V1, i) + r1;
    PullSplitsPoints(V[i], pos);
    PullSplitsPoints(V1[i], pos);
    StitchKeepsBag(b0 + b1, 0);
    PartsBag(r0, Fragments(pos, V, V1, i), r1, b0, b1);
    PointBagSize(AreaMerged(pos, V, V1)[i]);
    PointBagSize(V[i]);
    PointBagSize(V1[i]);
  }

  /** Regrouping the pieces of a merged line list: what stays of each region and the stitched border lines. */
  lemma {:induction false} PartsBag(r0: seq<Isoline>, f: seq<Isoline>, r1: seq<Isoline>, b0: seq<Isoline>, b1: seq<Isoline>)
    requires PointBag(f) == PointBag(b0 + b1)
    ensures PointBag(r0 + f + r1) == (PointBag(r0) + PointBag(b0)) + (PointBag(r1) + PointBag(b1))
  {
    PointBagAppend(b0, b1);
    PointBagAppend(r0 + f, r1);
    PointBagAppend(r0, f);
    var R0, F, R1, B0, B1 := PointBag(r0), PointBag(f), PointBag(r1), PointBag(b0), PointBag(b1);
    assert PointBag(r0 + f + r1) == R0 + F + R1;
    assert F == B0 + B1;
    forall e
      ensures (R0 + F + R1)[e] == ((R0 + B0) + (R1 + B1))[e]
    {
    }
    assert R0 + F + R1 == (R0 + B0) + (R1 + B1);
  }

  /**
   * The band merge keeps, unchanged, every line of either region that is
   * closed or has no end key in the band; the stitched fragments in between
   * are border lines no two of which join.
   */
  lemma {:induction false} AreaKeepsSettledLines(pos: int, V: seq<seq<Isoline>>, V1: seq<seq<Isoline>>, i: int)
    requires 0 <= i < |V| <= |V1|
    ensures forall k :: 0 <= k < |V[i]| && !Pulled(V[i][k], pos) ==> V[i][k] in AreaMerged(pos, V, V1)[i]
    ensures forall k :: 0 <= k < |V1[i]| && !Pulled(V1[i][k], pos) ==> V1[i][k] in AreaMerged(pos, V, V1)[i]
    ensures SettledBefore(Fragments(pos, V, V1, i), |Fragments(pos, V, V1, i)|)
  {
    PullSelects(V[i], pos);
    PullSelects(V1[i], pos);
    StitchSettles(Border(V[i], pos) + Border(V1[i], pos), 0);
    assert AreaMerged(pos, V, V1)[i] == Remaining(V[i], pos) + Fragments(pos, V, V1, i) + Remaining(V1[i], pos);
  }

  /** Every line the band merge pulls out or keeps carries a common isovalue and two points when all input lines do. */
  lemma {:induction false} AreaKeepsLines(pos: int, V: seq<seq<Isoline>>, V1: seq<seq<Isoline>>, i: int, v: real)
    requires 0 <= i < |V| <= |V1|
    requires forall x :: 0 <= x < |V[i]| ==> V[i][x].isovalue == v && |V[i][x].points| >= 2
    requires forall x :: 0 <= x < |V1[i]| ==> V1[i][x].isovalue == v && |V1[i][x].points| >= 2
    ensures forall x :: 0 <= x < |AreaMerged(pos, V, V1)[i]| ==>
              AreaMerged(pos, V, V1)[i][x].isovalue == v && |AreaMerged(pos, V, V1)[i][x].points| >= 2
  {
    var r0, r1 := Remaining(V[i], pos), Remaining(V1[i], pos);
    var b0, b1 := Border(V[i], pos), Border(V1[i], pos);
    PullSelectsTagged(V[i], pos, v);
    PullSelectsTagged(V1[i], pos, v);
    var b := b0 + b1;
    assert forall x :: 0 <= x < |b| ==> b[x].isovalue == v && |b[x].points| >= 2;
    StitchKeepsLines(b, 0, v);
    var f := Fragments(pos, V, V1, i);
    var r := AreaMerged(pos, V, V1)[i];
    assert r == r0 + f + r1;
    forall x | 0 <= x < |r|
      ensures r[x].isovalue == v && |r[x].points| >= 2
    {
      if x < |r0| {
        assert r[x] == r0[x];
      } else if x < |r0| + |f| {
        assert r[x] == f[x - |r0|];
      } else {
        assert r[x] == r1[x - |r0| - |f|];
      }
    }
  }

  /** Pulling out keeps a common isovalue and two points per line on both sides. */
  lemma {:induction false} PullSelectsTagged(ls: seq<Isoline>, pos: int, v: real)
    requires forall x :: 0 <= x < |ls| ==> ls[x].isovalue == v && |ls[x].points| >= 2
    ensures forall x :: 0 <= x < |Remaining(ls, pos)| ==> Remaining(ls, pos)[x].isovalue == v && |Remaining(ls, pos)[x].points| >= 2
    ensures forall x :: 0 <= x < |Border(ls, pos)| ==> Border(ls, pos)[x].isovalue == v && |Border(ls, pos)[x].points| >= 2
  {
    if ls != [] {
      PullSelectsTagged(ls[..|ls| - 1], pos, v);
    }
  }
}
