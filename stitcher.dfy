/**
 * Joining two open isolines that share an end key: the test the stitcher
 * runs after it has grown line m at its head or its tail. The first other
 * line whose head or tail key equals the new key is joined with line m; one
 * of the two survives with the points of both, the other is removed from the
 * list, and the hit table and the index m follow the removal.
 */
module Stitcher {
  import opened IsolineTools
  import opened Options
  import opened PointLists

  /** Which ends meet: head-head, tail-tail, head of m to tail of the other, tail of m to head of the other. */
  datatype JoinCase = HeadHead | TailTail | HeadTail | TailHead

  /** Every line has at least two points, as every line the stitcher creates does. */
  predicate Stitchable(lines: seq<Isoline>)
  {
    forall k :: 0 <= k < |lines| ==> |lines[k].points| >= 2
  }

  /**
   * The join test against line l when line m's head (atHead) or tail now
   * carries key mid. For a head the other line's head is tested first, for a
   * tail its tail.
   */
  function JoinWith(mid: Point2D, atHead: bool, l: Isoline): (c: Option<JoinCase>)
    ensures c.None? <==> mid != l.startPoint && mid != l.endPoint
  {
    if atHead then
      if mid == l.startPoint then Some(HeadHead)
      else if mid == l.endPoint then Some(HeadTail)
      else None
    else
      if mid == l.endPoint then Some(TailTail)
      else if mid == l.startPoint then Some(TailHead)
      else None
  }

  /** The first line at index `from` or later, other than m, that the new key joins. */
  function FirstJoin(mid: Point2D, atHead: bool, lines: seq<Isoline>, m: int, from: nat): (r: Option<nat>)
    ensures r.Some? ==> from <= r.value < |lines| && r.value != m && JoinWith(mid, atHead, lines[r.value]).Some?
    ensures r.Some? ==> forall k :: from <= k < r.value && k != m ==> JoinWith(mid, atHead, lines[k]).None?
    ensures r.None? ==> forall k :: from <= k < |lines| && k != m ==> JoinWith(mid, atHead, lines[k]).None?
    decreases |lines| - from
  {
    if from >= |lines| then None
    else if from != m && JoinWith(mid, atHead, lines[from]).Some? then Some(from)
    else FirstJoin(mid, atHead, lines, m, from + 1)
  }

  /** Where index x lands once index r is erased from the list. */
  function Shift(x: int, r: int): int
  {
    if x > r then x - 1 else x
  }

  /** A hit table entry once line r is erased and its role passes to line s. */
  function Renumber(x: int, r: int, s: int): int
  {
    if x > r then x - 1 else if x == r then s else x
  }

  function Renumbered(hit: seq<int>, r: int, s: int): (h: seq<int>)
  {
    seq(|hit|, k requires 0 <= k < |hit| => Renumber(hit[k], r, s))
  }

  /** The list without position r. */
  function RemoveAt(ls: seq<Isoline>, r: int): (res: seq<Isoline>)
    requires 0 <= r < |ls|
  {
    ls[..r] + ls[r + 1..]
  }

  /** The outcome of the join test. */
  datatype Merged = Merged(merged: bool, lines: seq<Isoline>, m: int, hit: seq<int>)

  /**
   * Line s takes the joined content, line r is erased, and both m and every
   * hit table entry for r now name the survivor.
   */
  function Joined(lines: seq<Isoline>, s: int, r: int, survivor: Isoline, hit: seq<int>): Merged
    requires 0 <= s < |lines| && 0 <= r < |lines| && s != r
  {
    var s' := Shift(s, r);
    Merged(true, RemoveAt(lines[s := survivor], r), s', Renumbered(hit, r, s'))
  }

  /**
   * The content of the surviving line when line m (a) joins line i (b),
   * case by case as the stitcher builds it.
   */
  function SplicedLine(c: JoinCase, a: Isoline, b: Isoline): (l: Isoline)
    requires |a.points| >= 1 && |b.points| >= 1
  {
    match c
    case HeadHead =>
      if |a.points| > |b.points| then a.(points := Reverse(b.points[1..]) + a.points, startPoint := b.endPoint)
      else b.(points := Reverse(a.points[1..]) + b.points, startPoint := a.endPoint)
    case TailTail =>
      if |a.points| > |b.points| then a.(points := a.points + Reverse(b.points[..|b.points| - 1]), endPoint := b.startPoint)
      else b.(points := b.points + Reverse(a.points[..|a.points| - 1]), endPoint := a.startPoint)
    case HeadTail => b.(points := b.points + a.points[1..], endPoint := a.endPoint)
    case TailHead => a.(points := a.points + b.points[1..], endPoint := b.endPoint)
  }

  /** The join of line m with line i: the survivor takes the spliced content, the other is erased. */
  function Splice(lines: seq<Isoline>, m: int, i: int, c: JoinCase, hit: seq<int>): Merged
    requires Stitchable(lines) && 0 <= m < |lines| && 0 <= i < |lines| && m != i
  {
    var a, b := lines[m], lines[i];
    if MSurvives(c, a, b) then Joined(lines, m, i, SplicedLine(c, a, b), hit)
    else Joined(lines, i, m, SplicedLine(c, a, b), hit)
  }

  /** The join test with its outcome: the first joinable line, or nothing changes. */
  function MergeSpec(mid: Point2D, atHead: bool, lines: seq<Isoline>, m: int, hit: seq<int>): Merged
    requires Stitchable(lines) && 0 <= m < |lines|
  {
    match FirstJoin(mid, atHead, lines, m, 0)
    case None => Merged(false, lines, m, hit)
    case Some(i) => Splice(lines, m, i, JoinWith(mid, atHead, lines[i]).value, hit)
  }

  /** Whether line m (rather than the other line) survives a join. */
  function MSurvives(c: JoinCase, a: Isoline, b: Isoline): bool
  {
    match c
    case HeadHead => |a.points| > |b.points|
    case TailTail => |a.points| > |b.points|
    case HeadTail => false
    case TailHead => true
  }

  /** The point of the removed line's shared end that is not copied. */
  function DroppedPoint(c: JoinCase, a: Isoline, b: Isoline): Point2D
    requires |a.points| >= 1 && |b.points| >= 1
  {
    var donor := if MSurvives(c, a, b) then b else a;
    match c
    case TailTail => donor.points[|donor.points| - 1]
    case _ => donor.points[0]
  }

  /** Renumbers the hit table after line r is erased, entry by entry. */
  method RenumberHits(hit: seq<int>, r: int, s: int) returns (h: seq<int>)
    ensures h == Renumbered(hit, r, s)
  {
    h := hit;
    var j := 0;
    while j < |h|
      invariant 0 <= j <= |h| == |hit|
      invariant forall k :: 0 <= k < j ==> h[k] == Renumber(hit[k], r, s)
      invariant forall k :: j <= k < |h| ==> h[k] == hit[k]
    {
      if h[j] > r {
        h := h[j := h[j] - 1];
      } else if h[j] == r {
        h := h[j := s];
      }
      j := j + 1;
    }
  }

  /** Stores the survivor, erases line r and renumbers. */
  method Join(lines: seq<Isoline>, s: int, r: int, survivor: Isoline, hit: seq<int>)
    returns (merged: bool, lines': seq<Isoline>, m': int, hit': seq<int>)
    requires 0 <= s < |lines| && 0 <= r < |lines| && s != r
    ensures Merged(merged, lines', m', hit') == Joined(lines, s, r, survivor, hit)
  {
    lines' := lines[s := survivor];
    lines' := lines'[..r] + lines'[r + 1..];
    m' := if r < s then s - 1 else s;
    hit' := RenumberHits(hit, r, m');
    merged := true;
  }

  /**
   * Tries to join line m, whose head (atHead) or tail now carries key mid,
   * with another line: scans the lines in order, skipping m, and joins the
   * first whose head or tail key equals mid.
   */
  method MergeIsoLineAccelerate(mid: Point2D, atHead: bool, lines: seq<Isoline>, m: int, hit: seq<int>)
    returns (merged: bool, lines': seq<Isoline>, m': int, hit': seq<int>)
    requires Stitchable(lines) && 0 <= m < |lines|
    ensures Merged(merged, lines', m', hit') == MergeSpec(mid, atHead, lines, m, hit)
  {
    var i := 0;
    while i < |lines|
      invariant 0 <= i <= |lines|
      invariant FirstJoin(mid, atHead, lines, m, 0) == FirstJoin(mid, atHead, lines, m, i)
    {
      if i != m {
        var c := JoinWith(mid, atHead, lines[i]);
        if c.Some? {
          merged, lines', m', hit' := SpliceLines(lines, m, i, c.value, hit);
          return;
        }
      }
      i := i + 1;
    }
    merged, lines', m', hit' := false, lines, m, hit;
  }

  /** Joins line m with line i as case c says: the line with more points (or the one the case names) survives. */
  method SpliceLines(lines: seq<Isoline>, m: int, i: int, c: JoinCase, hit: seq<int>)
    returns (merged: bool, lines': seq<Isoline>, m': int, hit': seq<int>)
    requires Stitchable(lines) && 0 <= m < |lines| && 0 <= i < |lines| && m != i
    ensures Merged(merged, lines', m', hit') == Splice(lines, m, i, c, hit)
  {
    var a, b := lines[m], lines[i];
    match c {
      case HeadHead =>
        if |a.points| > |b.points| {
          var pts := PushFrontAll(a.points, b.points[1..]);
          merged, lines', m', hit' := Join(lines, m, i, a.(points := pts, startPoint := b.endPoint), hit);
        } else {
          var pts := PushFrontAll(b.points, a.points[1..]);
          merged, lines', m', hit' := Join(lines, i, m, b.(points := pts, startPoint := a.endPoint), hit);
        }
      case TailTail =>
        if |a.points| > |b.points| {
          var pts := PushBackFromLast(a.points, b.points[..|b.points| - 1]);
          merged, lines', m', hit' := Join(lines, m, i, a.(points := pts, endPoint := b.startPoint), hit);
        } else {
          var pts := PushBackFromLast(b.points, a.points[..|a.points| - 1]);
          merged, lines', m', hit' := Join(lines, i, m, b.(points := pts, endPoint := a.startPoint), hit);
        }
      case HeadTail =>
        var pts := PushBackAll(b.points, a.points[1..]);
        merged, lines', m', hit' := Join(lines, i, m, b.(points := pts, endPoint := a.endPoint), hit);
      case TailHead =>
        var pts := PushBackAll(a.points, b.points[1..]);
        merged, lines', m', hit' := Join(lines, m, i, a.(points := pts, endPoint := b.endPoint), hit);
    }
  }

  /** The line the first join test succeeds for. */
  function Partner(mid: Point2D, atHead: bool, lines: seq<Isoline>, m: int): (i: nat)
    requires FirstJoin(mid, atHead, lines, m, 0).Some?
  {
    FirstJoin(mid, atHead, lines, m, 0).value
  }

  /** The index, before the join, of the line that survives it. */
  function SurvivorIndex(mid: Point2D, atHead: bool, lines: seq<Isoline>, m: int): (s: int)
    requires 0 <= m < |lines| && FirstJoin(mid, atHead, lines, m, 0).Some?
  {
    var i := Partner(mid, atHead, lines, m);
    if MSurvives(JoinWith(mid, atHead, lines[i]).value, lines[m], lines[i]) then m else i
  }

  /** The index of the line a join erases. */
  function RemovedIndex(mid: Point2D, atHead: bool, lines: seq<Isoline>, m: int): (r: int)
    requires 0 <= m < |lines| && FirstJoin(mid, atHead, lines, m, 0).Some?
  {
    var i := Partner(mid, atHead, lines, m);
    if MSurvives(JoinWith(mid, atHead, lines[i]).value, lines[m], lines[i]) then i else m
  }

  /**
   * A join happens exactly when some other line has mid as its head or tail
   * key; without one, the lines, m and the hit table are returned unchanged.
   */
  lemma {:induction false} MergeIffKeyShared(mid: Point2D, atHead: bool, lines: seq<Isoline>, m: int, hit: seq<int>)
    requires Stitchable(lines) && 0 <= m < |lines|
    ensures MergeSpec(mid, atHead, lines, m, hit).merged <==>
              exists k :: 0 <= k < |lines| && k != m && (mid == lines[k].startPoint || mid == lines[k].endPoint)
    ensures !MergeSpec(mid, atHead, lines, m, hit).merged ==> MergeSpec(mid, atHead, lines, m, hit) == Merged(false, lines, m, hit)
  {
    var f := FirstJoin(mid, atHead, lines, m, 0);
    if f.Some? {
      var i := f.value;
      assert 0 <= i < |lines| && i != m && (mid == lines[i].startPoint || mid == lines[i].endPoint);
    }
  }

  /** After Joined: every line other than the two is kept, shifted past the erased one; hit entries follow. */
  lemma {:induction false} JoinedKeepsOthers(lines: seq<Isoline>, s: int, r: int, survivor: Isoline, hit: seq<int>)
    requires 0 <= s < |lines| && 0 <= r < |lines| && s != r
    ensures var j := Joined(lines, s, r, survivor, hit);
            && |j.lines| == |lines| - 1 && 0 <= j.m < |j.lines| && j.lines[j.m] == survivor
            && (forall x :: 0 <= x < |lines| && x != s && x != r ==> j.lines[Shift(x, r)] == lines[x])
            && |j.hit| == |hit|
            && (forall k :: 0 <= k < |hit| && 0 <= hit[k] < |lines| ==>
                  0 <= j.hit[k] < |j.lines|
                  && (hit[k] != s && hit[k] != r ==> j.lines[j.hit[k]] == lines[hit[k]])
                  && (hit[k] == s || hit[k] == r ==> j.hit[k] == j.m))
  {
  }

  /** After Joined: the point bag loses the survivor's and the erased line's old points and gains the survivor's new ones. */
  lemma {:induction false} JoinedBag(lines: seq<Isoline>, s: int, r: int, survivor: Isoline, hit: seq<int>)
    requires 0 <= s < |lines| && 0 <= r < |lines| && s != r
    ensures PointBag(Joined(lines, s, r, survivor, hit).lines) + multiset(lines[s].points) + multiset(lines[r].points)
            == PointBag(lines) + multiset(survivor.points)
  {
    var ls := lines[s := survivor];
    PointBagReplace(lines, s, survivor);
    PointBagRemove(ls, r);
  }

  /** The keys a join case needs: line a's moved end and line b's matched end both carry mid. */
  predicate CaseKeys(c: JoinCase, mid: Point2D, a: Isoline, b: Isoline)
  {
    match c
    case HeadHead => a.startPoint == mid && b.startPoint == mid
    case TailTail => a.endPoint == mid && b.endPoint == mid
    case HeadTail => a.startPoint == mid && b.endPoint == mid
    case TailHead => a.endPoint == mid && b.startPoint == mid
  }

  /** The line l read from its tail to its head. */
  function Flip(l: Isoline): (r: Isoline)
    ensures |r.points| == |l.points|
  {
    l.(points := Reverse(l.points), startPoint := l.endPoint, endPoint := l.startPoint)
  }

  /** Reversing a list and dropping its first element is dropping its last element and reversing. */
  lemma {:induction false} ReverseTail<T>(s: seq<T>)
    requires |s| >= 1
    ensures Reverse(s)[1..] == Reverse(s[..|s| - 1])
    ensures Reverse(s)[..|s| - 1] == Reverse(s[1..])
  {
    var l, r := Reverse(s)[1..], Reverse(s[..|s| - 1]);
    forall k | 0 <= k < |s| - 1
      ensures l[k] == r[k]
    {
      ReverseAt(s, k + 1);
      ReverseAt(s[..|s| - 1], k);
    }
  }

  /**
   * Line l is line x with line y attached at the end of x that carries key
   * mid, y read in its own direction and meeting mid with its other end, and
   * y's point at mid left out: l runs from x's free key to y's free key, or
   * from y's free key to x's.
   */
  predicate Attached(l: Isoline, x: Isoline, y: Isoline, mid: Point2D)
    requires |y.points| >= 1
  {
    || (x.endPoint == mid && y.startPoint == mid && l.points == x.points + y.points[1..]
        && l.startPoint == x.startPoint && l.endPoint == y.endPoint)
    || (x.startPoint == mid && y.endPoint == mid && l.points == y.points[..|y.points| - 1] + x.points
        && l.startPoint == y.startPoint && l.endPoint == x.endPoint)
  }

  /**
   * The spliced line, with x the line that survives and y the other: the
   * survivor is the longer one for head-head and tail-tail joins (a only when
   * strictly longer) and the one whose tail is joined otherwise; it keeps x's
   * isovalue and flags, keeps x's points in x's own order, and has y, read in
   * one direction or the other, attached where both carry the shared key,
   * without y's copy of the point there.
   */
  lemma {:induction false} SplicedLineOrder(c: JoinCase, mid: Point2D, a: Isoline, b: Isoline)
    requires |a.points| >= 2 && |b.points| >= 2 && CaseKeys(c, mid, a, b)
    ensures var x := if MSurvives(c, a, b) then a else b;
            var y := if MSurvives(c, a, b) then b else a;
            var l := SplicedLine(c, a, b);
            && (c == HeadHead || c == TailTail ==> |x.points| >= |y.points|)
            && (c == HeadHead || c == TailTail ==> (MSurvives(c, a, b) <==> |a.points| > |b.points|))
            && (c == HeadTail || c == TailHead ==> x.endPoint == mid && y.startPoint == mid)
            && l.isovalue == x.isovalue && l.isCircle == x.isCircle && l.isBorder == x.isBorder
            && (Attached(l, x, y, mid) || Attached(l, x, Flip(y), mid))
  {
    var x := if MSurvives(c, a, b) then a else b;
    var y := if MSurvives(c, a, b) then b else a;
    var l := SplicedLine(c, a, b);
    ReverseTail(y.points);
    match c
    case HeadHead =>
      assert Attached(l, x, Flip(y), mid);
    case TailTail =>
      assert Attached(l, x, Flip(y), mid);
    case HeadTail =>
      assert Attached(l, x, y, mid);
    case TailHead =>
      assert Attached(l, x, y, mid);
  }

  /** The spliced line holds all points of both lines but one: the erased line's point at the shared key. */
  lemma {:induction false} SplicedLineCount(c: JoinCase, a: Isoline, b: Isoline)
    requires |a.points| >= 2 && |b.points| >= 2
    ensures var l := SplicedLine(c, a, b);
            && |l.points| == |a.points| + |b.points| - 1
            && multiset(l.points) + multiset{DroppedPoint(c, a, b)} == multiset(a.points) + multiset(b.points)
  {
    SplicedFrom(c, a, b);
    if !MSurvives(c, a, b) {
      var A, B := multiset(a.points), multiset(b.points);
      assert B + A == A + B;
    }
  }

  /** The spliced line holds the survivor's points and the other line's points but one. */
  lemma {:induction false} SplicedFrom(c: JoinCase, a: Isoline, b: Isoline)
    requires |a.points| >= 2 && |b.points| >= 2
    ensures var x, y := if MSurvives(c, a, b) then a else b, if MSurvives(c, a, b) then b else a;
            var l := SplicedLine(c, a, b);
            && |l.points| == |x.points| + |y.points| - 1
            && multiset(l.points) + multiset{DroppedPoint(c, a, b)} == multiset(x.points) + multiset(y.points)
  {
    var x := if MSurvives(c, a, b) then a else b;
    var y := if MSurvives(c, a, b) then b else a;
    var l, d := SplicedLine(c, a, b), DroppedPoint(c, a, b);
    match c {
      case HeadHead =>
        HeadSplice(x, y);
        assert l.points == Reverse(y.points[1..]) + x.points && d == y.points[0];
      case TailTail =>
        TailSplice(x, y);
        assert l.points == x.points + Reverse(y.points[..|y.points| - 1]) && d == y.points[|y.points| - 1];
      case HeadTail =>
        ChainSplice(x, y);
        assert l.points == x.points + y.points[1..] && d == y.points[0];
      case TailHead =>
        ChainSplice(x, y);
        assert l.points == x.points + y.points[1..] && d == y.points[0];
    }
  }

  /** Points of y, less its first, pushed one by one onto x's head. */
  lemma {:induction false} HeadSplice(x: Isoline, y: Isoline)
    requires |y.points| >= 1
    ensures |Reverse(y.points[1..]) + x.points| == |x.points| + |y.points| - 1
    ensures multiset(Reverse(y.points[1..]) + x.points) + multiset{y.points[0]} == multiset(x.points) + multiset(y.points)
  {
    ReverseMultiset(y.points[1..]);
    assert y.points == [y.points[0]] + y.points[1..];
  }

  /** Points of y, less its last, pushed last to first onto x's tail. */
  lemma {:induction false} TailSplice(x: Isoline, y: Isoline)
    requires |y.points| >= 1
    ensures |x.points + Reverse(y.points[..|y.points| - 1])| == |x.points| + |y.points| - 1
    ensures multiset(x.points + Reverse(y.points[..|y.points| - 1])) + multiset{y.points[|y.points| - 1]}
            == multiset(x.points) + multiset(y.points)
  {
    ReverseMultiset(y.points[..|y.points| - 1]);
    assert y.points == y.points[..|y.points| - 1] + [y.points[|y.points| - 1]];
  }

  /** Points of y, less its first, appended to x's tail. */
  lemma {:induction false} ChainSplice(x: Isoline, y: Isoline)
    requires |y.points| >= 1
    ensures |x.points + y.points[1..]| == |x.points| + |y.points| - 1
    ensures multiset(x.points + y.points[1..]) + multiset{y.points[0]} == multiset(x.points) + multiset(y.points)
  {
    assert y.points == [y.points[0]] + y.points[1..];
  }

  /** The new key mid, set on line m's moved end, meets the partner's key in the case the test reports. */
  lemma {:induction false} PartnerCaseKeys(mid: Point2D, atHead: bool, lines: seq<Isoline>, m: int)
    requires 0 <= m < |lines|
    requires atHead ==> mid == lines[m].startPoint
    requires !atHead ==> mid == lines[m].endPoint
    requires FirstJoin(mid, atHead, lines, m, 0).Some?
    ensures var i := Partner(mid, atHead, lines, m);
            CaseKeys(JoinWith(mid, atHead, lines[i]).value, mid, lines[m], lines[i])
  {
  }

  /**
   * A join, when it happens: the list loses one line, m names the survivor,
   * which holds the spliced content of line m and its partner.
   */
  lemma {:induction false} MergeSurvivor(mid: Point2D, atHead: bool, lines: seq<Isoline>, m: int, hit: seq<int>)
    requires Stitchable(lines) && 0 <= m < |lines|
    requires FirstJoin(mid, atHead, lines, m, 0).Some?
    ensures var i := Partner(mid, atHead, lines, m);
            var c := JoinWith(mid, atHead, lines[i]).value;
            var s, rm := SurvivorIndex(mid, atHead, lines, m), RemovedIndex(mid, atHead, lines, m);
            var r := MergeSpec(mid, atHead, lines, m, hit);
            && r.merged && {s, rm} == {m, i} && s != rm
            && |r.lines| == |lines| - 1 && r.m == Shift(s, rm) && 0 <= r.m < |r.lines|
            && r.lines[r.m] == SplicedLine(c, lines[m], lines[i])
  {
    var i := Partner(mid, atHead, lines, m);
    var c := JoinWith(mid, atHead, lines[i]).value;
    var s, rm := SurvivorIndex(mid, atHead, lines, m), RemovedIndex(mid, atHead, lines, m);
    JoinedKeepsOthers(lines, s, rm, SplicedLine(c, lines[m], lines[i]), hit);
  }

  /**
   * A join keeps the rest: every other line is kept, shifted past the erased
   * one; a valid hit table entry stays valid and names the same line, or the
   * survivor when it named either joined line.
   */
  lemma {:induction false} MergeKeepsOthers(mid: Point2D, atHead: bool, lines: seq<Isoline>, m: int, hit: seq<int>)
    requires Stitchable(lines) && 0 <= m < |lines|
    requires FirstJoin(mid, atHead, lines, m, 0).Some?
    ensures var i := Partner(mid, atHead, lines, m);
            var rm := RemovedIndex(mid, atHead, lines, m);
            var r := MergeSpec(mid, atHead, lines, m, hit);
            && 0 <= r.m < |r.lines| == |lines| - 1
            && (forall x :: 0 <= x < |lines| && x != m && x != i ==> r.lines[Shift(x, rm)] == lines[x])
            && |r.hit| == |hit|
            && (forall k :: 0 <= k < |hit| && 0 <= hit[k] < |lines| ==>
                  0 <= r.hit[k] < |r.lines|
                  && (hit[k] != m && hit[k] != i ==> r.lines[r.hit[k]] == lines[hit[k]])
                  && (hit[k] == m || hit[k] == i ==> r.hit[k] == r.m))
  {
    var i := Partner(mid, atHead, lines, m);
    var c := JoinWith(mid, atHead, lines[i]).value;
    var s, rm := SurvivorIndex(mid, atHead, lines, m), RemovedIndex(mid, atHead, lines, m);
    JoinedKeepsOthers(lines, s, rm, SplicedLine(c, lines[m], lines[i]), hit);
  }

  /**
   * A join keeps every line at two points or more, and exactly one point
   * leaves the list of lines: the erased line's copy at the shared key.
   */
  lemma {:induction false} MergeCounts(mid: Point2D, atHead: bool, lines: seq<Isoline>, m: int, hit: seq<int>)
    requires Stitchable(lines) && 0 <= m < |lines|
    requires FirstJoin(mid, atHead, lines, m, 0).Some?
    ensures var i := Partner(mid, atHead, lines, m);
            var c := JoinWith(mid, atHead, lines[i]).value;
            var r := MergeSpec(mid, atHead, lines, m, hit);
            && Stitchable(r.lines)
            && PointBag(r.lines) + multiset{DroppedPoint(c, lines[m], lines[i])} == PointBag(lines)
            && TotalPoints(r.lines) + 1 == TotalPoints(lines)
  {
    var i := Partner(mid, atHead, lines, m);
    var c := JoinWith(mid, atHead, lines[i]).value;
    var s, rm := SurvivorIndex(mid, atHead, lines, m), RemovedIndex(mid, atHead, lines, m);
    var l := SplicedLine(c, lines[m], lines[i]);
    var r := MergeSpec(mid, atHead, lines, m, hit);
    assert r == Joined(lines, s, rm, l, hit);
    SplicedLineCount(c, lines[m], lines[i]);
    JoinedStitchable(lines, s, rm, l, hit);
    JoinedBag(lines, s, rm, l, hit);
    BagCancel(PointBag(lines), PointBag(r.lines), multiset(lines[m].points), multiset(lines[i].points),
              multiset(l.points), multiset{DroppedPoint(c, lines[m], lines[i])});
    PointBagSize(r.lines);
    PointBagSize(lines);
  }

  lemma {:induction false} BagCancel<T>(p: multiset<T>, n: multiset<T>, x: multiset<T>, y: multiset<T>, l: multiset<T>, d: multiset<T>)
    requires n + x + y == p + l || n + y + x == p + l
    requires l + d == x + y
    ensures n + d == p
  {
    forall e
      ensures (n + d)[e] == p[e]
    {
      assert (n + x + y)[e] == (p + l)[e] || (n + y + x)[e] == (p + l)[e];
      assert (l + d)[e] == (x + y)[e];
    }
  }

  lemma {:induction false} JoinedStitchable(lines: seq<Isoline>, s: int, r: int, survivor: Isoline, hit: seq<int>)
    requires 0 <= s < |lines| && 0 <= r < |lines| && s != r
    requires Stitchable(lines) && |survivor.points| >= 2
    ensures Stitchable(Joined(lines, s, r, survivor, hit).lines)
  {
    var j := Joined(lines, s, r, survivor, hit);
    forall k | 0 <= k < |j.lines|
      ensures |j.lines[k].points| >= 2
    {
      var x0 := if k < r then k else k + 1;
      assert j.lines[k] == lines[s := survivor][x0];
    }
  }

  /** A join keeps every line's isovalue when all lines share one. */
  lemma {:induction false} MergeKeepsIsovalue(mid: Point2D, atHead: bool, lines: seq<Isoline>, m: int, hit: seq<int>, v: real)
    requires Stitchable(lines) && 0 <= m < |lines|
    requires forall k :: 0 <= k < |lines| ==> lines[k].isovalue == v
    ensures var r := MergeSpec(mid, atHead, lines, m, hit);
            forall k :: 0 <= k < |r.lines| ==> r.lines[k].isovalue == v
  {
    var r := MergeSpec(mid, atHead, lines, m, hit);
    if r.merged {
      var i := Partner(mid, atHead, lines, m);
      var c := JoinWith(mid, atHead, lines[i]).value;
      var s, rm := SurvivorIndex(mid, atHead, lines, m), RemovedIndex(mid, atHead, lines, m);
      var l := SplicedLine(c, lines[m], lines[i]);
      assert r == Joined(lines, s, rm, l, hit);
      assert l.isovalue == v;
      JoinedKeepsIsovalue(lines, s, rm, l, hit, v);
    }
  }

  /** Erasing one line and replacing another by a line of the same isovalue keeps every line's isovalue. */
  lemma {:induction false} JoinedKeepsIsovalue(lines: seq<Isoline>, s: int, r: int, survivor: Isoline, hit: seq<int>, v: real)
    requires 0 <= s < |lines| && 0 <= r < |lines| && s != r
    requires survivor.isovalue == v && forall k :: 0 <= k < |lines| ==> lines[k].isovalue == v
    ensures forall k :: 0 <= k < |Joined(lines, s, r, survivor, hit).lines| ==> Joined(lines, s, r, survivor, hit).lines[k].isovalue == v
  {
    var j := Joined(lines, s, r, survivor, hit);
    forall k | 0 <= k < |j.lines|
      ensures j.lines[k].isovalue == v
    {
      var x0 := if k < r then k else k + 1;
      assert j.lines[k] == lines[s := survivor][x0];
    }
  }

  /** The join test keeps every line at two points or more. */
  lemma {:induction false} MergeStitchable(mid: Point2D, atHead: bool, lines: seq<Isoline>, m: int, hit: seq<int>)
    requires Stitchable(lines) && 0 <= m < |lines|
    ensures Stitchable(MergeSpec(mid, atHead, lines, m, hit).lines)
  {
    var f := FirstJoin(mid, atHead, lines, m, 0);
    if f.Some? {
      var i := f.value;
      var c := JoinWith(mid, atHead, lines[i]).value;
      var s, rm := SurvivorIndex(mid, atHead, lines, m), RemovedIndex(mid, atHead, lines, m);
      var l := SplicedLine(c, lines[m], lines[i]);
      SplicedLineCount(c, lines[m], lines[i]);
      JoinedStitchable(lines, s, rm, l, hit);
    }
  }
}
