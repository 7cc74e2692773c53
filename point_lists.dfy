/**
 * The element-by-element point moves both merge routines perform on a
 * point list: pushing another list's points onto the front or the back,
 * taking them first-to-last or last-to-first.
 */
module PointLists {
  import opened IsolineTools

  lemma {:induction false} ReverseSnoc<T>(s: seq<T>, x: T)
    ensures Reverse(s + [x]) == [x] + Reverse(s)
  {
    if s != [] {
      assert (s + [x])[1..] == s[1..] + [x];
      ReverseSnoc(s[1..], x);
    } else {
      assert Reverse([x]) == Reverse([x][1..]) + [x];
    }
  }

  /** Pushes src's points, first to last, onto the back of dst. */
  method PushBackAll(dst: seq<Point2D>, src: seq<Point2D>) returns (r: seq<Point2D>)
    ensures r == dst + src
  {
    r := dst;
    var i := 0;
    while i < |src|
      invariant 0 <= i <= |src|
      invariant r == dst + src[..i]
    {
      assert src[..i + 1] == src[..i] + [src[i]];
      r := r + [src[i]];
      i := i + 1;
    }
    assert src[..i] == src;
  }

  /** Pushes src's points, first to last, onto the front of dst: src ends up reversed in front. */
  method PushFrontAll(dst: seq<Point2D>, src: seq<Point2D>) returns (r: seq<Point2D>)
    ensures r == Reverse(src) + dst
  {
    r := dst;
    var i := 0;
    while i < |src|
      invariant 0 <= i <= |src|
      invariant r == Reverse(src[..i]) + dst
    {
      assert src[..i + 1] == src[..i] + [src[i]];
      ReverseSnoc(src[..i], src[i]);
      r := [src[i]] + r;
      i := i + 1;
    }
    assert src[..i] == src;
  }

  /** Pushes src's points, last to first, onto the back of dst: src ends up reversed behind. */
  method PushBackFromLast(dst: seq<Point2D>, src: seq<Point2D>) returns (r: seq<Point2D>)
    ensures r == dst + Reverse(src)
  {
    r := dst;
    var i := |src|;
    while i > 0
      invariant 0 <= i <= |src|
      invariant r == dst + Reverse(src[i..])
    {
      assert src[i - 1..][1..] == src[i..];
      r := r + [src[i - 1]];
      i := i - 1;
    }
  }

  /** Pushes src's points, last to first, onto the front of dst: src ends up in order in front. */
  method PushFrontFromLast(dst: seq<Point2D>, src: seq<Point2D>) returns (r: seq<Point2D>)
    ensures r == src + dst
  {
    r := dst;
    var i := |src|;
    while i > 0
      invariant 0 <= i <= |src|
      invariant r == src[i..] + dst
    {
      assert src[i - 1..] == [src[i - 1]] + src[i..];
      r := [src[i - 1]] + r;
      i := i - 1;
    }
  }
}
