/**
 * The recency ("hit") table of one isovalue: a short list of line indices,
 * most recently extended first, probed before the full scan of all lines.
 */
module HitTable {

  /** The capacity the stitcher passes for every table. */
  const HitSize: nat := 5

  /**
   * The table after hitting line h, for capacity cap: unchanged when h is
   * already in front; otherwise h goes in front and the old entries move one
   * place back, the last one falling off when the table is full.
   */
  function HitAfter(h: int, cap: nat, t: seq<int>): (r: seq<int>)
    ensures |t| > 0 && t[0] == h ==> r == t
    ensures !(|t| > 0 && t[0] == h) ==> |r| > 0 && r[0] == h
    ensures !(|t| > 0 && t[0] == h) && |t| < cap ==> r[1..] == t
    ensures !(|t| > 0 && t[0] == h) && 0 < cap <= |t| ==> |r| == |t| && r[1..cap] == t[..cap - 1] && r[cap..] == t[cap..]
    ensures |t| <= cap ==> |r| <= cap || |r| == 1
    ensures forall x :: x in r ==> x == h || x in t
  {
    if |t| == 0 then [h]
    else if t[0] == h then t
    else if |t| < cap then [h] + t
    else
      var c := if cap == 0 then 1 else cap;
      [h] + t[..c - 1] + t[c..]
  }

  /** The shift-and-insert of the source, element by element. */
  method SetHitTable(h: int, cap: nat, t: seq<int>) returns (r: seq<int>)
    ensures r == HitAfter(h, cap, t)
  {
    if |t| == 0 {
      r := [h];
      return;
    }
    r := t;
    if |t| < cap {
      if h == r[0] {
        return;
      }
      r := r + [h];
      var i := |r| - 1;
      while i > 0
        invariant 0 <= i <= |t| && |r| == |t| + 1
        invariant forall k :: 0 <= k <= i ==> r[k] == (t + [h])[k]
        invariant forall k :: i < k < |r| ==> r[k] == t[k - 1]
      {
        r := r[i := r[i - 1]];
        i := i - 1;
      }
      r := r[0 := h];
    } else {
      if h == r[0] {
        return;
      }
      var i := cap - 1;
      while i > 0
        invariant -1 <= i < |t| && |r| == |t| && cap <= |t| && (0 <= i || cap == 0)
        invariant cap > 0 ==> i < cap
        invariant forall k :: 0 <= k <= i ==> r[k] == t[k]
        invariant forall k :: i < k < cap ==> r[k] == t[k - 1]
        invariant forall k :: cap <= k < |r| ==> r[k] == t[k]
      {
        r := r[i := r[i - 1]];
        i := i - 1;
      }
      r := r[0 := h];
    }
  }

  /** A hit keeps every entry a valid line index when h is one. */
  lemma {:induction false} HitAfterInRange(h: int, cap: nat, t: seq<int>, n: int)
    requires 0 <= h < n && forall x :: x in t ==> 0 <= x < n
    ensures forall x :: x in HitAfter(h, cap, t) ==> 0 <= x < n
  {
  }

  /**
   * A hit at a valid index h leaves h in front, keeps every entry a valid
   * index, and keeps a table within the capacity at most that long.
   */
  lemma {:induction false} HitAfterValid(h: int, cap: nat, t: seq<int>, n: int)
    requires 0 <= h < n && forall k :: 0 <= k < |t| ==> 0 <= t[k] < n
    ensures var r := HitAfter(h, cap, t);
            && |r| > 0 && r[0] == h
            && (forall k :: 0 <= k < |r| ==> 0 <= r[k] < n)
            && (0 < cap && |t| <= cap ==> |r| <= cap)
  {
    var r := HitAfter(h, cap, t);
    HitAfterInRange(h, cap, t, n);
    assert forall k :: 0 <= k < |r| ==> r[k] in r;
  }
}
