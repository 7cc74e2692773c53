/**
 * The records shared by the isoline builder: a 2D point with exact field-wise
 * equality, an isoline (an ordered point list that grows at either end, with
 * its isovalue, flags and the edge-midpoint keys of its two ends) and the
 * segment record that one cell produces for one isovalue.
 */
module IsolineTools {

  /** A point of the plane. Coordinates are exact reals, so `==` is exact. */
  datatype Point2D = Point2D(x: real, y: real)

  /** The record's equality operator: both coordinates equal. */
  function SamePoint(a: Point2D, b: Point2D): (r: bool)
    ensures r <==> a == b
  {
    a.x == b.x && a.y == b.y
  }

  /**
   * One isoline. `points` are the geometric crossing points, first to last;
   * `startPoint` and `endPoint` are NOT geometric: they are the keys (edge
   * midpoints in grid-index units) of the cell edges that carry the first and
   * the last point.
   */
  datatype Isoline = Isoline(
    isovalue: real,
    isCircle: bool,
    isBorder: bool,
    points: seq<Point2D>,
    startPoint: Point2D,
    endPoint: Point2D)

  /** Insertion at the head of the point list. */
  function PushFront(l: Isoline, p: Point2D): (r: Isoline)
    ensures |r.points| == |l.points| + 1 && r.points[0] == p && r.points[1..] == l.points
    ensures r.(points := l.points) == l
  {
    l.(points := [p] + l.points)
  }

  /** Insertion at the tail of the point list. */
  function PushBack(l: Isoline, p: Point2D): (r: Isoline)
    ensures |r.points| == |l.points| + 1
    ensures r.points[|l.points|] == p && r.points[..|l.points|] == l.points
    ensures r.(points := l.points) == l
  {
    l.(points := l.points + [p])
  }

  /**
   * One segment found in a grid cell: the cell (i, j), the two local edge
   * numbers it joins, and which isovalue (index m, value isovalue) it is for.
   */
  datatype Edge = Edge(edgeIndex1: int, edgeIndex2: int, i: int, j: int, m: int, isovalue: real)

  /** The reversal of a sequence: what pushing a list element by element onto the other end produces. */
  function Reverse<T>(s: seq<T>): (r: seq<T>)
    ensures |r| == |s|
  {
    if s == [] then [] else Reverse(s[1..]) + [s[0]]
  }

  lemma {:induction false} ReverseAt<T>(s: seq<T>, k: nat)
    requires k < |s|
    ensures Reverse(s)[k] == s[|s| - 1 - k]
  {
    if k < |s| - 1 {
      ReverseAt(s[1..], k);
    }
  }

  lemma {:induction false} ReverseMultiset<T>(s: seq<T>)
    ensures multiset(Reverse(s)) == multiset(s)
  {
    if s != [] {
      ReverseMultiset(s[1..]);
      assert s == [s[0]] + s[1..];
    }
  }

  /** Total number of points over a list of isolines. */
  function TotalPoints(ls: seq<Isoline>): (n: nat)
  {
    if ls == [] then 0 else TotalPoints(ls[..|ls| - 1]) + |ls[|ls| - 1].points|
  }

  /** All points over a list of isolines, as a bag. */
  function PointBag(ls: seq<Isoline>): (b: multiset<Point2D>)
  {
    if ls == [] then multiset{} else PointBag(ls[..|ls| - 1]) + multiset(ls[|ls| - 1].points)
  }

  lemma {:induction false} PointBagSize(ls: seq<Isoline>)
    ensures |PointBag(ls)| == TotalPoints(ls)
  {
    if ls != [] {
      PointBagSize(ls[..|ls| - 1]);
    }
  }

  lemma {:induction false} PointBagAppend(a: seq<Isoline>, b: seq<Isoline>)
    ensures PointBag(a + b) == PointBag(a) + PointBag(b)
    decreases |b|
  {
    if b == [] {
      assert a + b == a;
    } else {
      var b' := b[..|b| - 1];
      assert (a + b)[..|a + b| - 1] == a + b';
      PointBagAppend(a, b');
    }
  }

  /** Appending one line adds exactly its points to the bag. */
  lemma {:induction false} PointBagSnoc(ls: seq<Isoline>, l: Isoline)
    ensures PointBag(ls + [l]) == PointBag(ls) + multiset(l.points)
  {
    assert (ls + [l])[..|ls + [l]| - 1] == ls;
  }

  lemma {:induction false} PointBagSingle(l: Isoline)
    ensures PointBag([l]) == multiset(l.points)
  {
    assert [l][..0] == [];
  }

  /** Replacing one element changes the bag by exactly that element's points. */
  lemma {:induction false} PointBagReplace(ls: seq<Isoline>, k: nat, l: Isoline)
    requires k < |ls|
    ensures PointBag(ls[k := l]) + multiset(ls[k].points) == PointBag(ls) + multiset(l.points)
  {
    var pre, post := ls[..k], ls[k + 1..];
    assert ls == (pre + [ls[k]]) + post;
    assert ls[k := l] == (pre + [l]) + post;
    PointBagAppend(pre + [ls[k]], post);
    PointBagAppend(pre, [ls[k]]);
    PointBagAppend(pre + [l], post);
    PointBagAppend(pre, [l]);
    PointBagSingle(ls[k]);
    PointBagSingle(l);
  }

  /** Taking one element out of the middle takes exactly its points out of the bag. */
  lemma {:induction false} PointBagSplit(pre: seq<Isoline>, l: Isoline, post: seq<Isoline>)
    ensures PointBag(pre + [l] + post) == PointBag(pre + post) + multiset(l.points)
  {
    PointBagAppend(pre + [l], post);
    PointBagAppend(pre, [l]);
    PointBagSingle(l);
    PointBagAppend(pre, post);
  }

  /** Removing one element takes exactly its points out of the bag. */
  lemma {:induction false} PointBagRemove(ls: seq<Isoline>, k: nat)
    requires k < |ls|
    ensures PointBag(ls) == PointBag(ls[..k] + ls[k + 1..]) + multiset(ls[k].points)
  {
    assert ls == ls[..k] + [ls[k]] + ls[k + 1..];
    PointBagSplit(ls[..k], ls[k], ls[k + 1..]);
  }

  /** Replacing one line changes the point total by the difference of the two sizes. */
  lemma {:induction false} TotalPointsReplace(ls: seq<Isoline>, k: nat, l: Isoline)
    requires k < |ls|
    ensures TotalPoints(ls[k := l]) + |ls[k].points| == TotalPoints(ls) + |l.points|
  {
    PointBagReplace(ls, k, l);
    PointBagSize(ls[k := l]);
    PointBagSize(ls);
    assert |multiset(ls[k].points)| == |ls[k].points| && |multiset(l.points)| == |l.points|;
    assert |PointBag(ls[k := l]) + multiset(ls[k].points)| == |PointBag(ls) + multiset(l.points)|;
  }

  /** Appending one line adds its size to the point total. */
  lemma {:induction false} TotalPointsAppend(ls: seq<Isoline>, l: Isoline)
    ensures TotalPoints(ls + [l]) == TotalPoints(ls) + |l.points|
  {
    assert (ls + [l])[..|ls|] == ls;
  }
}
