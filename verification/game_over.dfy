/** The end-of-run banner detector (`detect_gameover_color_enhanced`): each
    orange contour gets at most one tier from its area, size, absolute
    position and centring in the frame, and a rule over the whole tiered set
    decides which boxes, if any, are reported. */
module GameOver {
  import opened Options
  import opened Geometry
  import opened Selection

  datatype Tier = Large | Medium | Small

  /** A contour that received a tier. */
  datatype Tiered = Tiered(cand: Candidate, tier: Tier)

  /** Width and height of the analysed frame, in pixels. */
  datatype FrameSize = FrameSize(width: nat, height: nat)

  /** Fewest tiered fragments that still count as a banner when no large
      blob was seen. */
  const FragmentQuorum: nat := 8

  function CentreX(b: Box): real { b.x as real + b.w as real / 2.0 }

  function CentreY(b: Box): real { b.y as real + b.h as real / 2.0 }

  /** The box centre lies strictly inside the middle 70% of the frame's
      width and the middle 60% of its height. */
  predicate Centred(b: Box, f: FrameSize) {
    && 0.15 * (f.width as real) < CentreX(b) < 0.85 * (f.width as real)
    && 0.2 * (f.height as real) < CentreY(b) < 0.8 * (f.height as real)
  }

  /** A solid banner blob where the banner usually renders. */
  predicate IsLargeBanner(c: Candidate) {
    && c.area > 3000.0 && c.box.w > 70 && c.box.h > 70
    && 200 < c.box.x < 400 && 250 < c.box.y < 400
  }

  /** A medium piece of banner text in a wider window. */
  predicate IsMediumText(c: Candidate) {
    && c.area > 500.0 && c.box.w > 20 && c.box.h > 15
    && 150 < c.box.x < 450 && 200 < c.box.y < 500
  }

  /** A small text fragment roughly centred in the frame. */
  predicate IsSmallText(c: Candidate, f: FrameSize) {
    && c.area > 50.0 && c.area < 500.0 && c.box.w > 10 && c.box.h > 8
    && Centred(c.box, f)
  }

  /** The tier of one contour, or None when it is dropped. Because every
      tier predicate needs more than 30 of area, the outer area gate never
      changes the outcome; because the small tier needs less than 500 and
      the other two more, precedence only matters between large and
      medium. */
  function TierOf(c: Candidate, f: FrameSize): (r: Option<Tier>)
    ensures r.Some? ==> c.area > 30.0
    ensures r == Some(Large) <==> IsLargeBanner(c)
    ensures r == Some(Medium) <==> IsMediumText(c) && !IsLargeBanner(c)
    ensures r == Some(Small) <==> IsSmallText(c, f)
    ensures r == None <==> !IsLargeBanner(c) && !IsMediumText(c) && !IsSmallText(c, f)
  {
    if c.area > 30.0 then
      if IsLargeBanner(c) then Some(Large)
      else if IsMediumText(c) then Some(Medium)
      else if IsSmallText(c, f) then Some(Small)
      else None
    else None
  }

  /** Every large banner also meets the medium test, so the large-first
      order of the tests is what keeps the large tier reachable. */
  lemma LargeBannerIsMediumText(c: Candidate, f: FrameSize)
    ensures IsLargeBanner(c) ==> IsMediumText(c)
    ensures IsLargeBanner(c) ==> TierOf(c, f) == Some(Large)
  {
  }

  /** Whether a contour receives any tier in a frame of size `f`. */
  function HasTier(f: FrameSize): Candidate -> bool {
    c => TierOf(c, f).Some?
  }

  /** The tiered candidates in discovery order; untiered ones are dropped. */
  function Classify(cs: seq<Candidate>, f: FrameSize): (r: seq<Tiered>)
    ensures |r| <= |cs|
    ensures forall t :: t in r ==> t.cand in cs && TierOf(t.cand, f) == Some(t.tier)
    ensures forall i :: 0 <= i < |cs| && TierOf(cs[i], f).Some? ==> Tiered(cs[i], TierOf(cs[i], f).value) in r
    decreases |cs|
  {
    if |cs| == 0 then []
    else
      var init := cs[..|cs| - 1];
      var c := cs[|cs| - 1];
      assert forall i :: 0 <= i < |cs| - 1 ==> init[i] == cs[i];
      var r0 := Classify(init, f);
      match TierOf(c, f)
      case Some(t) => r0 + [Tiered(c, t)]
      case None => r0
  }

  predicate IsLargeTier(t: Tiered) { t.tier == Large }

  predicate HasLarge(ts: seq<Tiered>) { exists t :: t in ts && IsLargeTier(t) }

  function Cands(ts: seq<Tiered>): (r: seq<Candidate>)
    ensures |r| == |ts| && forall i :: 0 <= i < |ts| ==> r[i] == ts[i].cand
  {
    seq(|ts|, i requires 0 <= i < |ts| => ts[i].cand)
  }

  function TieredBoxes(ts: seq<Tiered>): (r: seq<Box>)
    ensures |r| == |ts| && forall i :: 0 <= i < |ts| ==> r[i] == ts[i].cand.box
  {
    BoxesOf(Cands(ts))
  }

  /** The boxes of the large-tier candidates, in discovery order. */
  function LargeBoxes(ts: seq<Tiered>): (r: seq<Box>)
    ensures HasLarge(ts) ==> |r| > 0
    ensures forall i :: 0 <= i < |r| ==> exists t :: t in ts && IsLargeTier(t) && t.cand.box == r[i]
  {
    var ls := Filter(ts, IsLargeTier);
    assert forall i :: 0 <= i < |ls| ==> ls[i] in ts && IsLargeTier(ls[i]);
    TieredBoxes(ls)
  }

  /** The whole-set rule: the large boxes if there is any; otherwise, with
      at least eight tiered fragments, the one rectangle hulling them all;
      otherwise nothing. */
  function Decide(ts: seq<Tiered>): (r: seq<Box>)
    ensures HasLarge(ts) ==> |r| > 0 && forall i :: 0 <= i < |r| ==>
      exists t :: t in ts && IsLargeTier(t) && t.cand.box == r[i]
    ensures !HasLarge(ts) && |ts| >= FragmentQuorum ==>
      && |r| == 1
      && (forall i :: 0 <= i < |ts| ==> Contains(r[0], ts[i].cand.box))
      && (forall outer :: (forall i :: 0 <= i < |ts| ==> Contains(outer, ts[i].cand.box)) ==> Contains(outer, r[0]))
    ensures !HasLarge(ts) && |ts| < FragmentQuorum ==> r == []
    ensures |r| > 0 <==> HasLarge(ts) || |ts| >= FragmentQuorum
  {
    if HasLarge(ts) then LargeBoxes(ts)
    else if |ts| >= FragmentQuorum then
      var bs := TieredBoxes(ts);
      var h := Hull(bs);
      assert forall outer :: (forall i :: 0 <= i < |ts| ==> Contains(outer, ts[i].cand.box)) ==> Contains(outer, h) by {
        forall outer | forall i :: 0 <= i < |ts| ==> Contains(outer, ts[i].cand.box)
          ensures Contains(outer, h)
        {
          HullIsSmallest(bs, outer);
        }
      }
      [h]
    else []
  }

  /** The boxes `detect_gameover_color_enhanced` returns for the given
      orange contours in a frame of the given size. */
  function DetectGameOver(cs: seq<Candidate>, f: FrameSize): (r: seq<Box>)
    ensures |r| > 0 <==>
      (exists i :: 0 <= i < |cs| && IsLargeBanner(cs[i])) || |Filter(cs, HasTier(f))| >= FragmentQuorum
  {
    var ts := Classify(cs, f);
    ClassifyExact(cs, f);
    assert |ts| == |Cands(ts)|;
    assert HasLarge(ts) <==> exists i :: 0 <= i < |cs| && IsLargeBanner(cs[i]) by {
      if HasLarge(ts) {
        var t :| t in ts && IsLargeTier(t);
        var i :| 0 <= i < |cs| && cs[i] == t.cand;
        assert IsLargeBanner(cs[i]);
      }
      if i :| 0 <= i < |cs| && IsLargeBanner(cs[i]) {
        assert Tiered(cs[i], Large) in ts;
      }
    }
    Decide(ts)
  }

  lemma CandsSnoc(ts: seq<Tiered>, t: Tiered)
    ensures Cands(ts + [t]) == Cands(ts) + [t.cand]
  {
  }

  /** Classifying one more contour appends at most its own entry. */
  lemma ClassifySnoc(cs: seq<Candidate>, c: Candidate, f: FrameSize)
    ensures Classify(cs + [c], f) ==
      Classify(cs, f) + (if TierOf(c, f).Some? then [Tiered(c, TierOf(c, f).value)] else [])
  {
    assert (cs + [c])[..|cs|] == cs;
  }

  /** The classified candidates are exactly the contours that receive a
      tier, in input order and with repeats, each carrying its own tier;
      so the classification's length is the number of tiered contours. */
  lemma {:induction false} ClassifyExact(cs: seq<Candidate>, f: FrameSize)
    ensures Cands(Classify(cs, f)) == Filter(cs, HasTier(f))
    ensures forall i :: 0 <= i < |Classify(cs, f)| ==>
      TierOf(Classify(cs, f)[i].cand, f) == Some(Classify(cs, f)[i].tier)
    decreases |cs|
  {
    if |cs| > 0 {
      var init := cs[..|cs| - 1];
      var c := cs[|cs| - 1];
      assert cs == init + [c];
      ClassifyExact(init, f);
      ClassifySnoc(init, c, f);
      FilterSnoc(init, c, HasTier(f));
      var r0 := Classify(init, f);
      if TierOf(c, f).Some? {
        var t := Tiered(c, TierOf(c, f).value);
        assert Classify(cs, f) == r0 + [t];
        CandsSnoc(r0, t);
      } else {
        assert Classify(cs, f) == r0;
      }
    }
  }

  /** The large candidates of one more tiered entry. */
  lemma LargeCandsSnoc(ts: seq<Tiered>, t: Tiered)
    ensures Cands(Filter(ts + [t], IsLargeTier)) ==
      Cands(Filter(ts, IsLargeTier)) + (if IsLargeTier(t) then [t.cand] else [])
  {
    FilterSnoc(ts, t, IsLargeTier);
    if IsLargeTier(t) {
      CandsSnoc(Filter(ts, IsLargeTier), t);
    }
  }

  /** Picking the large tier out of the classification is the same as
      picking the large-banner contours out of the input, in order. */
  lemma {:induction false} LargeOfClassify(cs: seq<Candidate>, f: FrameSize)
    ensures Cands(Filter(Classify(cs, f), IsLargeTier)) == Filter(cs, IsLargeBanner)
    decreases |cs|
  {
    if |cs| > 0 {
      var init := cs[..|cs| - 1];
      var c := cs[|cs| - 1];
      assert cs == init + [c];
      LargeOfClassify(init, f);
      ClassifySnoc(init, c, f);
      FilterSnoc(init, c, IsLargeBanner);
      var r0 := Classify(init, f);
      if TierOf(c, f).Some? {
        var t := Tiered(c, TierOf(c, f).value);
        assert Classify(cs, f) == r0 + [t];
        LargeCandsSnoc(r0, t);
      } else {
        assert Classify(cs, f) == r0;
      }
    }
  }

  /** With at least one large banner contour, the detector returns exactly
      the large banner boxes in discovery order, whatever the medium and
      small fragments and the frame size are. */
  lemma LargeWins(cs: seq<Candidate>, f: FrameSize, i: nat)
    requires i < |cs| && IsLargeBanner(cs[i])
    ensures DetectGameOver(cs, f) == BoxesOf(Filter(cs, IsLargeBanner))
  {
    var ts := Classify(cs, f);
    assert Tiered(cs[i], Large) in ts;
    assert HasLarge(ts);
    LargeOfClassify(cs, f);
  }

  /** Without a large banner, fewer than eight tiered fragments give no
      detection and eight or more give the single hull of their boxes. */
  lemma FragmentsDecide(cs: seq<Candidate>, f: FrameSize)
    requires forall i :: 0 <= i < |cs| ==> !IsLargeBanner(cs[i])
    ensures var ts := Classify(cs, f);
      && (|ts| < FragmentQuorum ==> DetectGameOver(cs, f) == [])
      && (|ts| >= FragmentQuorum ==> DetectGameOver(cs, f) == [Hull(TieredBoxes(ts))])
  {
  }
}
