/** Pipe grouping and the per-group score line and gap from the main loop:
    boxes are clustered by first match on left edge, in insertion order,
    then each group yields a score line (its rightmost right edge) and a gap
    between its top-most and bottom-most member. */
module PipeGroups {
  import opened Options
  import opened Geometry
  import opened Selection

  /** A box joins a group whose key is strictly closer than this. */
  const GroupTolerance: nat := 20

  predicate Near(key: int, x: int) { Abs(key - x) < GroupTolerance }

  /** One entry of the grouping dictionary: the key is the left edge of the
      box that created the group; members are kept in arrival order. */
  datatype Group = Group(key: int, members: seq<Box>)

  /** The shape the grouping always has: groups are non-empty, the first
      member created the key, every member is near its key, and keys are
      pairwise at least the tolerance apart. */
  ghost predicate WellFormed(gs: seq<Group>) {
    && (forall i :: 0 <= i < |gs| ==> |gs[i].members| > 0 && gs[i].members[0].x == gs[i].key)
    && (forall i, m :: 0 <= i < |gs| && m in gs[i].members ==> Near(gs[i].key, m.x))
    && (forall i, j :: 0 <= i < j < |gs| ==> Abs(gs[i].key - gs[j].key) >= GroupTolerance)
  }

  /** All members of all groups, group by group. */
  function Flatten(gs: seq<Group>): seq<Box>
    decreases |gs|
  {
    if |gs| == 0 then [] else Flatten(gs[..|gs| - 1]) + gs[|gs| - 1].members
  }

  /** The first group, from position `from` on, whose key is near `x`. */
  function FirstNear(gs: seq<Group>, x: int, from: nat): (r: Option<nat>)
    requires from <= |gs|
    ensures r.Some? ==> from <= r.value < |gs| && Near(gs[r.value].key, x)
    ensures r.Some? ==> forall k :: from <= k < r.value ==> !Near(gs[k].key, x)
    ensures r.None? ==> forall k :: from <= k < |gs| ==> !Near(gs[k].key, x)
    decreases |gs| - from
  {
    if from == |gs| then None
    else if Near(gs[from].key, x) then Some(from)
    else FirstNear(gs, x, from + 1)
  }

  /** `r` is `gs` with `b` appended to group `j`, the first group near it. */
  ghost predicate JoinsAt(gs: seq<Group>, b: Box, j: int, r: seq<Group>) {
    && 0 <= j < |gs| == |r|
    && Near(gs[j].key, b.x)
    && (forall k :: 0 <= k < j ==> !Near(gs[k].key, b.x))
    && r[j] == Group(gs[j].key, gs[j].members + [b])
    && (forall k :: 0 <= k < |gs| && k != j ==> r[k] == gs[k])
  }

  lemma {:induction false} FlattenJoin(gs: seq<Group>, j: nat, b: Box)
    requires j < |gs|
    ensures multiset(Flatten(gs[j := Group(gs[j].key, gs[j].members + [b])]))
         == multiset(Flatten(gs)) + multiset{b}
    decreases |gs|
  {
    var g' := Group(gs[j].key, gs[j].members + [b]);
    var us := gs[j := g'];
    var n := |gs|;
    var front, last := gs[..n - 1], gs[n - 1];
    assert Flatten(gs) == Flatten(front) + last.members;
    if j == n - 1 {
      assert us == front + [g'];
      FlattenSnoc(front, g');
      assert Flatten(us) == Flatten(front) + (last.members + [b]);
    } else {
      var front' := front[j := g'];
      assert us == front' + [last];
      FlattenSnoc(front', last);
      FlattenJoin(front, j, b);
      assert multiset(Flatten(front')) == multiset(Flatten(front)) + multiset{b};
      assert Flatten(us) == Flatten(front') + last.members;
    }
  }

  lemma FlattenSnoc(gs: seq<Group>, g: Group)
    ensures Flatten(gs + [g]) == Flatten(gs) + g.members
  {
    assert (gs + [g])[..|gs|] == gs;
  }

  /** One iteration of the grouping loop: `b` joins the first group whose
      key is near its left edge, or opens a new group keyed by its left edge
      when no key is near. No existing key changes. */
  function AddPipe(gs: seq<Group>, b: Box): (r: seq<Group>)
    ensures |r| == |gs| || |r| == |gs| + 1
    ensures forall i :: 0 <= i < |gs| ==> r[i].key == gs[i].key
    ensures |r| == |gs| + 1 <==> forall i :: 0 <= i < |gs| ==> !Near(gs[i].key, b.x)
    ensures |r| == |gs| + 1 ==> r == gs + [Group(b.x, [b])]
    ensures |r| == |gs| ==> exists j :: JoinsAt(gs, b, j, r)
  {
    match FirstNear(gs, b.x, 0)
    case Some(j) =>
      var r := gs[j := Group(gs[j].key, gs[j].members + [b])];
      assert JoinsAt(gs, b, j, r);
      r
    case None =>
      gs + [Group(b.x, [b])]
  }

  /** No box is lost or duplicated by one grouping step. */
  lemma AddPipeKeepsBoxes(gs: seq<Group>, b: Box)
    ensures multiset(Flatten(AddPipe(gs, b))) == multiset(Flatten(gs)) + multiset{b}
  {
    var r := AddPipe(gs, b);
    if |r| == |gs| {
      var j :| JoinsAt(gs, b, j, r);
      assert r == gs[j := Group(gs[j].key, gs[j].members + [b])];
      FlattenJoin(gs, j, b);
    } else {
      FlattenSnoc(gs, Group(b.x, [b]));
    }
  }

  lemma JoinKeepsWellFormed(gs: seq<Group>, b: Box, j: int, r: seq<Group>)
    requires WellFormed(gs) && JoinsAt(gs, b, j, r)
    ensures WellFormed(r)
  {
    forall i | 0 <= i < |r|
      ensures |r[i].members| > 0 && r[i].members[0].x == r[i].key
    {
      if i == j {
        assert r[i].members[0] == gs[j].members[0];
      } else {
        assert r[i] == gs[i];
      }
    }
    forall i, m | 0 <= i < |r| && m in r[i].members
      ensures Near(r[i].key, m.x)
    {
      if i != j {
        assert r[i] == gs[i];
      } else if m != b {
        assert m in gs[j].members;
      }
    }
    forall i, k | 0 <= i < k < |r|
      ensures Abs(r[i].key - r[k].key) >= GroupTolerance
    {
      assert r[i].key == gs[i].key && r[k].key == gs[k].key;
    }
  }

  lemma OpenKeepsWellFormed(gs: seq<Group>, b: Box)
    requires WellFormed(gs)
    requires forall i :: 0 <= i < |gs| ==> !Near(gs[i].key, b.x)
    ensures WellFormed(gs + [Group(b.x, [b])])
  {
    var r := gs + [Group(b.x, [b])];
    forall i, k | 0 <= i < k < |r|
      ensures Abs(r[i].key - r[k].key) >= GroupTolerance
    {
      if k == |gs| {
        assert !Near(gs[i].key, b.x);
      } else {
        assert r[i] == gs[i] && r[k] == gs[k];
      }
    }
    forall i, m | 0 <= i < |r| && m in r[i].members
      ensures Near(r[i].key, m.x)
    {
      if i < |gs| {
        assert r[i] == gs[i];
      }
    }
  }

  lemma AddPipeKeepsWellFormed(gs: seq<Group>, b: Box)
    requires WellFormed(gs)
    ensures WellFormed(AddPipe(gs, b))
  {
    var r := AddPipe(gs, b);
    if |r| == |gs| {
      var j :| JoinsAt(gs, b, j, r);
      JoinKeepsWellFormed(gs, b, j, r);
    } else {
      OpenKeepsWellFormed(gs, b);
    }
  }

  /** The grouping loop over the pipe boxes in detection order. There are
      never more groups than boxes, and at least one when there is a box. */
  function GroupPipes(bs: seq<Box>): (gs: seq<Group>)
    ensures |gs| <= |bs|
    ensures |bs| > 0 ==> |gs| > 0
    decreases |bs|
  {
    if |bs| == 0 then [] else AddPipe(GroupPipes(bs[..|bs| - 1]), bs[|bs| - 1])
  }

  /** The grouping is always well formed, and every box lands in exactly
      one group: the flattened groups are a permutation of the input. */
  lemma {:induction false} GroupPipesInvariant(bs: seq<Box>)
    ensures WellFormed(GroupPipes(bs))
    ensures multiset(Flatten(GroupPipes(bs))) == multiset(bs)
    decreases |bs|
  {
    if |bs| > 0 {
      var init := bs[..|bs| - 1];
      var b := bs[|bs| - 1];
      assert bs == init + [b];
      GroupPipesInvariant(init);
      AddPipeKeepsWellFormed(GroupPipes(init), b);
      AddPipeKeepsBoxes(GroupPipes(init), b);
    }
  }

  /** Two boxes in the same group have left edges less than twice the
      tolerance apart. */
  lemma SameGroupClose(gs: seq<Group>, i: nat, m1: Box, m2: Box)
    requires WellFormed(gs) && i < |gs|
    requires m1 in gs[i].members && m2 in gs[i].members
    ensures Abs(m1.x - m2.x) < 2 * GroupTolerance
  {
  }

  /** A box near no key opens a new group at the end, keyed by its left
      edge. */
  lemma OpensGroup(gs: seq<Group>, b: Box)
    requires forall i :: 0 <= i < |gs| ==> !Near(gs[i].key, b.x)
    ensures AddPipe(gs, b) == gs + [Group(b.x, [b])]
  {
  }

  /** A box joins group `j` exactly when `j` is the first key near it,
      even if a later key is nearer. */
  lemma JoinsFirstNear(gs: seq<Group>, b: Box, j: nat)
    requires j < |gs| && Near(gs[j].key, b.x)
    requires forall k :: 0 <= k < j ==> !Near(gs[k].key, b.x)
    ensures AddPipe(gs, b) == gs[j := Group(gs[j].key, gs[j].members + [b])]
  {
    var r := AddPipe(gs, b);
    var j' :| JoinsAt(gs, b, j', r);
    assert j' == j;
  }

  lemma GroupPipesSnoc(bs: seq<Box>, b: Box)
    ensures GroupPipes(bs + [b]) == AddPipe(GroupPipes(bs), b)
  {
    assert (bs + [b])[..|bs|] == bs;
  }

  /** One more box near no key of the current grouping opens a group. */
  lemma GroupStepOpens(bs: seq<Box>, b: Box, gs: seq<Group>)
    requires GroupPipes(bs) == gs
    requires forall i :: 0 <= i < |gs| ==> !Near(gs[i].key, b.x)
    ensures GroupPipes(bs + [b]) == gs + [Group(b.x, [b])]
  {
    GroupPipesSnoc(bs, b);
    OpensGroup(gs, b);
  }

  /** One more box whose first near key is at `j` joins that group. */
  lemma GroupStepJoins(bs: seq<Box>, b: Box, gs: seq<Group>, j: nat)
    requires GroupPipes(bs) == gs
    requires j < |gs| && Near(gs[j].key, b.x)
    requires forall k :: 0 <= k < j ==> !Near(gs[k].key, b.x)
    ensures GroupPipes(bs + [b]) == gs[j := Group(gs[j].key, gs[j].members + [b])]
  {
    GroupPipesSnoc(bs, b);
    JoinsFirstNear(gs, b, j);
  }

  /** The first three boxes of the example below: 12 joins the group
      keyed 0, the first near key. */
  lemma ThreeBoxesTwoGroups(p0: Box, p25: Box, p12: Box)
    requires p0.x == 0 && p25.x == 25 && p12.x == 12
    ensures GroupPipes([p0, p25, p12]) == [Group(0, [p0, p12]), Group(25, [p25])]
  {
    var g1 := [Group(0, [p0])];
    var g2 := g1 + [Group(25, [p25])];
    GroupStepOpens([], p0, []);
    assert [] + [p0] == [p0];
    GroupStepOpens([p0], p25, g1);
    assert [p0] + [p25] == [p0, p25];
    GroupStepJoins([p0, p25], p12, g2, 0);
    assert [p0, p25] + [p12] == [p0, p25, p12];
    assert [p0] + [p12] == [p0, p12];
  }

  /** Boxes at left edges 0, 25, 12, 22 (any sizes), in that order: 12 and
      22 are only 10 apart, yet 12 joins the group keyed 0 and 22 joins the
      group keyed 25, so they land in different groups. */
  lemma NearbyBoxesMaySplit(p0: Box, p25: Box, p12: Box, p22: Box)
    requires p0.x == 0 && p25.x == 25 && p12.x == 12 && p22.x == 22
    ensures GroupPipes([p0, p25, p12, p22]) == [Group(0, [p0, p12]), Group(25, [p25, p22])]
  {
    var g3 := [Group(0, [p0, p12]), Group(25, [p25])];
    ThreeBoxesTwoGroups(p0, p25, p12);
    GroupStepJoins([p0, p25, p12], p22, g3, 1);
    assert [p0, p25, p12] + [p22] == [p0, p25, p12, p22];
    assert [p25] + [p22] == [p25, p22];
  }

  /** The first two boxes of the example below share the group keyed 12. */
  lemma TwoBoxesOneGroup(p12: Box, p0: Box)
    requires p0.x == 0 && p12.x == 12
    ensures GroupPipes([p12, p0]) == [Group(12, [p12, p0])]
  {
    var g1 := [Group(12, [p12])];
    GroupStepOpens([], p12, []);
    assert [] + [p12] == [p12];
    assert GroupPipes([p12]) == g1;
    GroupStepJoins([p12], p0, g1, 0);
    assert [p12] + [p0] == [p12, p0];
    assert g1[0 := Group(12, [p12] + [p0])] == [Group(12, [p12, p0])];
  }

  /** The same left edges found in the order 12, 0, 25, 22 form one group:
      the grouping depends on the order in which contours are found. */
  lemma GroupingDependsOnOrder(p0: Box, p25: Box, p12: Box, p22: Box)
    requires p0.x == 0 && p25.x == 25 && p12.x == 12 && p22.x == 22
    ensures GroupPipes([p12, p0, p25, p22]) == [Group(12, [p12, p0, p25, p22])]
  {
    TwoBoxesOneGroup(p12, p0);
    GroupStepJoins([p12, p0], p25, [Group(12, [p12, p0])], 0);
    assert [p12, p0] + [p25] == [p12, p0, p25];
    GroupStepJoins([p12, p0, p25], p22, [Group(12, [p12, p0, p25])], 0);
    assert [p12, p0, p25] + [p22] == [p12, p0, p25, p22];
  }

  // ------------------------------------------------------------ score lines

  /** `i` is the first member with the smallest top edge (Python's `min`
      with a key returns the first minimal element). */
  ghost predicate FirstTopmost(ms: seq<Box>, i: int) {
    && 0 <= i < |ms|
    && (forall k :: 0 <= k < |ms| ==> ms[i].y <= ms[k].y)
    && (forall k :: 0 <= k < i ==> ms[k].y > ms[i].y)
  }

  /** `i` is the first member with the largest top edge (Python's `max`
      with a key likewise returns the first maximal element). */
  ghost predicate FirstBottommost(ms: seq<Box>, i: int) {
    && 0 <= i < |ms|
    && (forall k :: 0 <= k < |ms| ==> ms[k].y <= ms[i].y)
    && (forall k :: 0 <= k < i ==> ms[k].y < ms[i].y)
  }

  function TopIndex(ms: seq<Box>): (i: nat)
    requires |ms| > 0
    ensures FirstTopmost(ms, i)
    decreases |ms|
  {
    if |ms| == 1 then 0
    else
      var init := ms[..|ms| - 1];
      assert forall k :: 0 <= k < |ms| - 1 ==> init[k] == ms[k];
      var i0 := TopIndex(init);
      if ms[|ms| - 1].y < ms[i0].y then |ms| - 1 else i0
  }

  function BottomIndex(ms: seq<Box>): (i: nat)
    requires |ms| > 0
    ensures FirstBottommost(ms, i)
    decreases |ms|
  {
    if |ms| == 1 then 0
    else
      var init := ms[..|ms| - 1];
      assert forall k :: 0 <= k < |ms| - 1 ==> init[k] == ms[k];
      var i0 := BottomIndex(init);
      if ms[|ms| - 1].y > ms[i0].y then |ms| - 1 else i0
  }

  /** What the main loop derives for one group: the score line (an x
      coordinate) and the gap from `gapStartY` down to `gapEndY`. */
  datatype Lane = Lane(scoreLineX: int, gapStartY: int, gapEndY: int)

  /** The score line of a non-empty group: the furthest right edge of any
      member. */
  function ScoreLine(g: Group): (x: int)
    requires |g.members| > 0
    ensures forall k :: 0 <= k < |g.members| ==> g.members[k].Right() <= x
    ensures exists k :: 0 <= k < |g.members| && g.members[k].Right() == x
  {
    Greatest(Rights(g.members))
  }

  /** The lane of a non-empty group. The score line is the furthest right
      edge of any member; the gap starts at the bottom of the first
      top-most member and ends at the top of the first bottom-most member.
      Nothing forces the start above the end. */
  function LaneOf(g: Group): (l: Lane)
    requires |g.members| > 0
    ensures forall k :: 0 <= k < |g.members| ==> g.members[k].Right() <= l.scoreLineX
    ensures exists k :: 0 <= k < |g.members| && g.members[k].Right() == l.scoreLineX
    ensures l.scoreLineX == ScoreLine(g)
    ensures exists k :: FirstTopmost(g.members, k) && l.gapStartY == g.members[k].Bottom()
    ensures exists k :: FirstBottommost(g.members, k) && l.gapEndY == g.members[k].y
  {
    var ms := g.members;
    var top := ms[TopIndex(ms)];
    var bottom := ms[BottomIndex(ms)];
    Lane(ScoreLine(g), top.Bottom(), bottom.y)
  }

  /** A group with a single box of positive height has a gap whose start
      lies below its end; the main loop still draws it. */
  lemma SingletonGapDegenerate(b: Box)
    requires b.h > 0
    ensures LaneOf(Group(b.x, [b])).gapStartY > LaneOf(Group(b.x, [b])).gapEndY
  {
  }

  ghost predicate NonEmptyGroups(gs: seq<Group>) {
    forall i :: 0 <= i < |gs| ==> |gs[i].members| > 0
  }

  /** The score line of every group, in creation order. */
  function ScoreLines(gs: seq<Group>): (r: seq<int>)
    requires NonEmptyGroups(gs)
    ensures |r| == |gs| && forall i :: 0 <= i < |gs| ==> r[i] == ScoreLine(gs[i])
  {
    seq(|gs|, i requires 0 <= i < |gs| => ScoreLine(gs[i]))
  }

  /** Whether an avatar whose left edge is `birdX` has passed `line`. */
  function Passed(birdX: int): int -> bool {
    line => line < birdX
  }

  /** How many of the lines lie strictly left of `birdX`, counted one
      loop iteration at a time. */
  function CountPassed(lines: seq<int>, birdX: int): (n: nat)
    ensures n <= |lines|
    ensures (forall i :: 0 <= i < |lines| ==> lines[i] < birdX) ==> n == |lines|
    ensures (forall i :: 0 <= i < |lines| ==> lines[i] >= birdX) ==> n == 0
    decreases |lines|
  {
    if |lines| == 0 then 0
    else
      var init := lines[..|lines| - 1];
      assert forall k :: 0 <= k < |lines| - 1 ==> init[k] == lines[k];
      CountPassed(init, birdX) + (if lines[|lines| - 1] < birdX then 1 else 0)
  }

  /** How many groups' score lines lie strictly left of `birdX`. */
  function Crossings(gs: seq<Group>, birdX: int): (n: nat)
    requires NonEmptyGroups(gs)
    ensures n <= |gs|
    ensures (forall i :: 0 <= i < |gs| ==> ScoreLine(gs[i]) < birdX) ==> n == |gs|
    ensures (forall i :: 0 <= i < |gs| ==> ScoreLine(gs[i]) >= birdX) ==> n == 0
  {
    CountPassed(ScoreLines(gs), birdX)
  }

  /** The running count equals the number of positions of passed lines, as
      listed independently by `Kept`. */
  lemma {:induction false} CountPassedIsKept(lines: seq<int>, birdX: int)
    ensures CountPassed(lines, birdX) == |Kept(lines, Passed(birdX))|
    decreases |lines|
  {
    if |lines| > 0 {
      CountPassedIsKept(lines[..|lines| - 1], birdX);
      KeptCountSnoc(lines, Passed(birdX));
    }
  }

  /** The crossing count is the number of positions whose score line lies
      strictly left of `birdX`, as listed independently by `Kept`. */
  lemma CrossingsCountsPassedLines(gs: seq<Group>, birdX: int)
    requires NonEmptyGroups(gs)
    ensures Crossings(gs, birdX) == |Kept(ScoreLines(gs), Passed(birdX))|
  {
    CountPassedIsKept(ScoreLines(gs), birdX);
  }

  /** An avatar further right has passed at least as many lines. */
  lemma {:induction false} CountPassedMonotone(lines: seq<int>, x1: int, x2: int)
    requires x1 <= x2
    ensures CountPassed(lines, x1) <= CountPassed(lines, x2)
    decreases |lines|
  {
    if |lines| > 0 {
      CountPassedMonotone(lines[..|lines| - 1], x1, x2);
    }
  }

  /** An avatar further right has crossed at least as many score lines. */
  lemma CrossingsMonotone(gs: seq<Group>, x1: int, x2: int)
    requires NonEmptyGroups(gs)
    requires x1 <= x2
    ensures Crossings(gs, x1) <= Crossings(gs, x2)
  {
    CountPassedMonotone(ScoreLines(gs), x1, x2);
  }
}
