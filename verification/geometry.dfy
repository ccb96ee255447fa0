/** Axis-aligned boxes and contour candidates, as the detectors see them. */
module Geometry {

  /** A bounding rectangle in frame pixels: top-left corner (x, y), width w, height h. */
  datatype Box = Box(x: int, y: int, w: nat, h: nat)
  {
    /** Exclusive right edge, `x + w` in the source. */
    function Right(): int { x + w }

    /** Exclusive bottom edge, `y + h` in the source. */
    function Bottom(): int { y + h }
  }

  /** One external contour after extraction: its bounding rectangle and its
      measured area. The area is the contour's own (floating-point) area,
      which is not required to equal w * h. */
  datatype Candidate = Candidate(box: Box, area: real)

  function Min(a: int, b: int): int { if a <= b then a else b }

  function Max(a: int, b: int): int { if a <= b then b else a }

  function Abs(a: int): nat { if a < 0 then -a else a }

  /** `outer` covers `inner` completely (edges may coincide). */
  predicate Contains(outer: Box, inner: Box) {
    && outer.x <= inner.x
    && outer.y <= inner.y
    && inner.Right() <= outer.Right()
    && inner.Bottom() <= outer.Bottom()
  }

  /** The bounding rectangles of a candidate sequence, in order. */
  function BoxesOf(cs: seq<Candidate>): (r: seq<Box>)
    ensures |r| == |cs|
    ensures forall i :: 0 <= i < |cs| ==> r[i] == cs[i].box
  {
    seq(|cs|, i requires 0 <= i < |cs| => cs[i].box)
  }

  /** Smallest element of a non-empty integer sequence (Python's `min`). */
  function Least(xs: seq<int>): (m: int)
    requires |xs| > 0
    ensures forall i :: 0 <= i < |xs| ==> m <= xs[i]
    ensures exists i :: 0 <= i < |xs| && xs[i] == m
  {
    if |xs| == 1 then xs[0]
    else
      var m0 := Least(xs[..|xs| - 1]);
      assert forall i :: 0 <= i < |xs| - 1 ==> xs[..|xs| - 1][i] == xs[i];
      Min(m0, xs[|xs| - 1])
  }

  /** Largest element of a non-empty integer sequence (Python's `max`). */
  function Greatest(xs: seq<int>): (m: int)
    requires |xs| > 0
    ensures forall i :: 0 <= i < |xs| ==> xs[i] <= m
    ensures exists i :: 0 <= i < |xs| && xs[i] == m
  {
    if |xs| == 1 then xs[0]
    else
      var m0 := Greatest(xs[..|xs| - 1]);
      assert forall i :: 0 <= i < |xs| - 1 ==> xs[..|xs| - 1][i] == xs[i];
      Max(m0, xs[|xs| - 1])
  }

  function Lefts(bs: seq<Box>): (r: seq<int>)
    ensures |r| == |bs| && forall i :: 0 <= i < |bs| ==> r[i] == bs[i].x
  {
    seq(|bs|, i requires 0 <= i < |bs| => bs[i].x)
  }

  function Tops(bs: seq<Box>): (r: seq<int>)
    ensures |r| == |bs| && forall i :: 0 <= i < |bs| ==> r[i] == bs[i].y
  {
    seq(|bs|, i requires 0 <= i < |bs| => bs[i].y)
  }

  function Rights(bs: seq<Box>): (r: seq<int>)
    ensures |r| == |bs| && forall i :: 0 <= i < |bs| ==> r[i] == bs[i].Right()
  {
    seq(|bs|, i requires 0 <= i < |bs| => bs[i].Right())
  }

  function Bottoms(bs: seq<Box>): (r: seq<int>)
    ensures |r| == |bs| && forall i :: 0 <= i < |bs| ==> r[i] == bs[i].Bottom()
  {
    seq(|bs|, i requires 0 <= i < |bs| => bs[i].Bottom())
  }

  /** The rectangle from the least left/top edge to the greatest right/bottom
      edge of a non-empty box sequence: it covers every box, and each of its
      four edges is the matching edge of some box. */
  function Hull(bs: seq<Box>): (r: Box)
    requires |bs| > 0
    ensures forall i :: 0 <= i < |bs| ==> Contains(r, bs[i])
    ensures exists i :: 0 <= i < |bs| && bs[i].x == r.x
    ensures exists i :: 0 <= i < |bs| && bs[i].y == r.y
    ensures exists i :: 0 <= i < |bs| && bs[i].Right() == r.Right()
    ensures exists i :: 0 <= i < |bs| && bs[i].Bottom() == r.Bottom()
  {
    var left := Least(Lefts(bs));
    var top := Least(Tops(bs));
    var right := Greatest(Rights(bs));
    var bottom := Greatest(Bottoms(bs));
    assert left <= Lefts(bs)[0] && Rights(bs)[0] <= right;
    assert top <= Tops(bs)[0] && Bottoms(bs)[0] <= bottom;
    Box(left, top, right - left, bottom - top)
  }

  /** Any rectangle that covers every box also covers their hull, so the hull
      is the smallest covering rectangle. */
  lemma HullIsSmallest(bs: seq<Box>, outer: Box)
    requires |bs| > 0
    requires forall i :: 0 <= i < |bs| ==> Contains(outer, bs[i])
    ensures Contains(outer, Hull(bs))
  {
    var h := Hull(bs);
    var i0 :| 0 <= i0 < |bs| && bs[i0].x == h.x;
    var i1 :| 0 <= i1 < |bs| && bs[i1].y == h.y;
    var i2 :| 0 <= i2 < |bs| && bs[i2].Right() == h.Right();
    var i3 :| 0 <= i3 < |bs| && bs[i3].Bottom() == h.Bottom();
    assert Contains(outer, bs[i0]) && Contains(outer, bs[i1]);
    assert Contains(outer, bs[i2]) && Contains(outer, bs[i3]);
  }
}
