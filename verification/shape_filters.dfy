/** The acceptance loops of the avatar and pipe detectors
    (`detect_bird`, `detect_pipes`): which extracted contours survive as
    boxes. The floating-point ratio tests are written with exact reals, and
    each detector also has an integer restatement proved equivalent. */
module ShapeFilters {
  import opened Geometry
  import opened Selection

  /** `a / b < k` and `a < k * b` agree when the divisor is positive. */
  lemma QuotientBelow(a: real, b: real, k: real)
    requires b > 0.0
    ensures a / b < k <==> a < k * b
  {
    var q := a / b;
    assert q * b == a;
    if q < k {
      assert (k - q) * b > 0.0;
    } else {
      assert (q - k) * b >= 0.0;
    }
  }

  /** `a / b > k` and `a > k * b` agree when the divisor is positive. */
  lemma QuotientAbove(a: real, b: real, k: real)
    requires b > 0.0
    ensures a / b > k <==> a > k * b
  {
    var q := a / b;
    assert q * b == a;
    if q > k {
      assert (q - k) * b > 0.0;
    } else {
      assert (k - q) * b >= 0.0;
    }
  }

  // ---------------------------------------------------------------- avatar

  /** Longer side over shorter side, or 0 when the shorter side is 0. */
  function AvatarAspect(b: Box): real {
    if Min(b.w, b.h) > 0 then Max(b.w, b.h) as real / Min(b.w, b.h) as real else 0.0
  }

  /** The avatar detector's test on one contour: area strictly between 100
      and 2000, aspect below 2.5, both sides above 12 pixels. */
  predicate AvatarAccepts(c: Candidate) {
    && c.area > 100.0 && c.area < 2000.0
    && AvatarAspect(c.box) < 2.5
    && c.box.w > 12 && c.box.h > 12
  }

  /** Shape part of the avatar test in integers: 2.5 scaled by 2. */
  predicate AvatarShape(b: Box) {
    b.w > 12 && b.h > 12 && 2 * Max(b.w, b.h) < 5 * Min(b.w, b.h)
  }

  /** The avatar test without division. */
  predicate AvatarQualifies(c: Candidate) {
    100.0 < c.area < 2000.0 && AvatarShape(c.box)
  }

  lemma AvatarAcceptsIff(c: Candidate)
    ensures AvatarAccepts(c) <==> AvatarQualifies(c)
  {
    var b := c.box;
    if Min(b.w, b.h) > 0 {
      QuotientBelow(Max(b.w, b.h) as real, Min(b.w, b.h) as real, 2.5);
    }
  }

  lemma AcceptedAvatarsQualify(cs: seq<Candidate>)
    requires forall c :: c in cs ==> AvatarAccepts(c)
    ensures forall i :: 0 <= i < |cs| ==> AvatarQualifies(cs[i])
  {
    forall i | 0 <= i < |cs| ensures AvatarQualifies(cs[i]) {
      AvatarAcceptsIff(cs[i]);
    }
  }

  /** The boxes `detect_bird` returns for the given contours. Every box is
      wider and taller than 12 pixels with aspect below 2.5. */
  function DetectAvatar(cs: seq<Candidate>): (r: seq<Box>)
    ensures |r| <= |cs|
    ensures forall i :: 0 <= i < |r| ==> AvatarShape(r[i])
  {
    var kept := Filter(cs, AvatarAccepts);
    AcceptedAvatarsQualify(kept);
    BoxesOf(kept)
  }

  /** The avatar boxes are exactly the boxes of the qualifying candidates,
      in input order: `idx` lists the qualifying positions, increasing. */
  lemma DetectAvatarExact(cs: seq<Candidate>)
    ensures var r, idx := DetectAvatar(cs), Kept(cs, AvatarAccepts);
      && Increasing(idx, |cs|)
      && |r| == |idx|
      && (forall k :: 0 <= k < |idx| ==> r[k] == cs[idx[k]].box && AvatarQualifies(cs[idx[k]]))
      && (forall i :: 0 <= i < |cs| && AvatarQualifies(cs[i]) ==> i in idx)
  {
    FilterIsKeptSubsequence(cs, AvatarAccepts);
    forall i | 0 <= i < |cs| {
      AvatarAcceptsIff(cs[i]);
    }
  }

  // ---------------------------------------------------------------- pipes

  /** Height over width, or 0 for a zero-width box. */
  function PipeAspect(b: Box): real {
    if b.w > 0 then b.h as real / b.w as real else 0.0
  }

  /** The pipe detector's test on one contour: area above 50, height over
      width above 0.3, width above 5 and height above 8. */
  predicate PipeAccepts(c: Candidate) {
    && c.area > 50.0
    && PipeAspect(c.box) > 0.3
    && c.box.w > 5 && c.box.h > 8
  }

  /** Shape part of the pipe test in integers: 0.3 scaled by 10. */
  predicate PipeShape(b: Box) {
    b.w > 5 && b.h > 8 && 10 * b.h > 3 * b.w
  }

  predicate PipeQualifies(c: Candidate) {
    c.area > 50.0 && PipeShape(c.box)
  }

  /** The ratio test alone already rejects a zero-width box, because its
      ratio is taken as 0. */
  lemma PipeAcceptsIff(c: Candidate)
    ensures PipeAccepts(c) <==> PipeQualifies(c)
    ensures c.box.w == 0 ==> !(PipeAspect(c.box) > 0.3)
  {
    if c.box.w > 0 {
      QuotientAbove(c.box.h as real, c.box.w as real, 0.3);
    }
  }

  lemma AcceptedPipesQualify(cs: seq<Candidate>)
    requires forall c :: c in cs ==> PipeAccepts(c)
    ensures forall i :: 0 <= i < |cs| ==> PipeQualifies(cs[i])
  {
    forall i | 0 <= i < |cs| ensures PipeQualifies(cs[i]) {
      PipeAcceptsIff(cs[i]);
    }
  }

  /** The boxes `detect_pipes` returns for the given contours. */
  function DetectPipes(cs: seq<Candidate>): (r: seq<Box>)
    ensures |r| <= |cs|
    ensures forall i :: 0 <= i < |r| ==> PipeShape(r[i])
  {
    var kept := Filter(cs, PipeAccepts);
    AcceptedPipesQualify(kept);
    BoxesOf(kept)
  }

  /** The pipe boxes are an order-preserving subsequence of the input: the
      boxes of exactly the qualifying candidates, in input order. */
  lemma DetectPipesExact(cs: seq<Candidate>)
    ensures var r, idx := DetectPipes(cs), Kept(cs, PipeAccepts);
      && Increasing(idx, |cs|)
      && |r| == |idx|
      && (forall k :: 0 <= k < |idx| ==> r[k] == cs[idx[k]].box && PipeQualifies(cs[idx[k]]))
      && (forall i :: 0 <= i < |cs| && PipeQualifies(cs[i]) ==> i in idx)
  {
    FilterIsKeptSubsequence(cs, PipeAccepts);
    forall i | 0 <= i < |cs| {
      PipeAcceptsIff(cs[i]);
    }
  }
}
