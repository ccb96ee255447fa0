/** The per-frame bookkeeping of the main loop: the detectors run on one
    frame's contours, the game-over edge drives two counters, and, when an
    avatar and pipes are both seen, every group whose score line lies left
    of the first avatar adds one to the pipes counter. */
module Session {
  import opened Geometry
  import opened ShapeFilters
  import opened GameOver
  import opened PipeGroups
  import opened Selection

  /** The loop's three variables that live across frames. */
  datatype Counters = Counters(gamesPlayed: nat, pipesPassed: nat, lastGameOver: bool)

  /** The values before the first frame. */
  const Start: Counters := Counters(0, 0, false)

  /** What one frame offers the core: its size and, per detector, the
      contours already extracted from that detector's mask. */
  datatype FrameInput = FrameInput(
    size: FrameSize,
    avatarContours: seq<Candidate>,
    pipeContours: seq<Candidate>,
    gameOverContours: seq<Candidate>)

  /** Whether the frame shows the game-over banner. */
  predicate Detected(fi: FrameInput) {
    |DetectGameOver(fi.gameOverContours, fi.size)| > 0
  }

  /** The frame shows the banner iff some orange contour is a large banner
      blob or at least eight of them receive a tier. */
  lemma DetectedIff(fi: FrameInput)
    ensures Detected(fi) <==>
      || (exists i :: 0 <= i < |fi.gameOverContours| && IsLargeBanner(fi.gameOverContours[i]))
      || |Filter(fi.gameOverContours, HasTier(fi.size))| >= FragmentQuorum
  {
  }

  /** The edge-triggered part of a frame: a false-to-true edge of the
      game-over flag adds one game, a true-to-false edge zeroes the pipes
      counter, and the flag is remembered. */
  function Transition(s: Counters, over: bool): (r: Counters)
    ensures r.lastGameOver == over
    ensures r.gamesPlayed == s.gamesPlayed + 1 <==> over && !s.lastGameOver
    ensures r.gamesPlayed == s.gamesPlayed <==> !(over && !s.lastGameOver)
    ensures !over && s.lastGameOver ==> r.pipesPassed == 0
    ensures r.pipesPassed != s.pipesPassed ==> !over && s.lastGameOver
  {
    var games := if over && !s.lastGameOver then s.gamesPlayed + 1 else s.gamesPlayed;
    var pipes := if !over && s.lastGameOver then 0 else s.pipesPassed;
    Counters(games, pipes, over)
  }

  /** Groups crossed by the first avatar in this frame; zero unless both an
      avatar and a pipe were detected. Never more than the pipes seen. */
  function FrameCrossings(fi: FrameInput): (n: nat)
    ensures n <= |DetectPipes(fi.pipeContours)|
    ensures |DetectAvatar(fi.avatarContours)| == 0 ==> n == 0
    ensures |DetectPipes(fi.pipeContours)| == 0 ==> n == 0
  {
    var birds := DetectAvatar(fi.avatarContours);
    var pipes := DetectPipes(fi.pipeContours);
    if |birds| > 0 && |pipes| > 0 then
      GroupPipesInvariant(pipes);
      Crossings(GroupPipes(pipes), birds[0].x)
    else 0
  }

  /** With an avatar and pipes in the frame, the crossings are the pipe
      groups whose score line lies strictly left of the first avatar's
      left edge. */
  lemma FrameCrossingsCountsPassedGroups(fi: FrameInput)
    ensures var birds, pipes := DetectAvatar(fi.avatarContours), DetectPipes(fi.pipeContours);
      |birds| > 0 && |pipes| > 0 ==>
        && NonEmptyGroups(GroupPipes(pipes))
        && FrameCrossings(fi) == |Kept(ScoreLines(GroupPipes(pipes)), Passed(birds[0].x))|
  {
    var birds, pipes := DetectAvatar(fi.avatarContours), DetectPipes(fi.pipeContours);
    if |birds| > 0 && |pipes| > 0 {
      GroupPipesInvariant(pipes);
      CrossingsCountsPassedLines(GroupPipes(pipes), birds[0].x);
    }
  }

  /** One pass of the main loop. The pipes counter is zeroed on a
      true-to-false edge and then grows by the frame's crossings. */
  function Step(s: Counters, fi: FrameInput): (r: Counters)
    ensures r.pipesPassed == (if !Detected(fi) && s.lastGameOver then 0 else s.pipesPassed) + FrameCrossings(fi)
    ensures r.lastGameOver == Detected(fi)
    ensures r.gamesPlayed == s.gamesPlayed + 1 <==> Detected(fi) && !s.lastGameOver
    ensures r.gamesPlayed == s.gamesPlayed <==> !(Detected(fi) && !s.lastGameOver)
    ensures !(!Detected(fi) && s.lastGameOver) ==> s.pipesPassed <= r.pipesPassed
    ensures !Detected(fi) && s.lastGameOver ==> r.pipesPassed <= |DetectPipes(fi.pipeContours)|
    ensures r.pipesPassed <= s.pipesPassed + |DetectPipes(fi.pipeContours)|
  {
    var t := Transition(s, Detected(fi));
    t.(pipesPassed := t.pipesPassed + FrameCrossings(fi))
  }

  /** The counters after a sequence of frames, first frame first. */
  function Run(s: Counters, fs: seq<FrameInput>): (r: Counters)
    ensures s.gamesPlayed <= r.gamesPlayed <= s.gamesPlayed + |fs|
    decreases |fs|
  {
    if |fs| == 0 then s else Step(Run(s, fs[..|fs| - 1]), fs[|fs| - 1])
  }

  /** The game-over flag of every frame. */
  function Flags(fs: seq<FrameInput>): (r: seq<bool>)
    ensures |r| == |fs| && forall i :: 0 <= i < |fs| ==> r[i] == Detected(fs[i])
  {
    seq(|fs|, i requires 0 <= i < |fs| => Detected(fs[i]))
  }

  /** The last flag of the sequence, or `prev` if it is empty. */
  function LastFlag(prev: bool, flags: seq<bool>): bool {
    if |flags| == 0 then prev else flags[|flags| - 1]
  }

  /** Positions where the flag goes from false to true, counting from the
      flag `prev` that precedes the sequence. */
  function RisingEdges(prev: bool, flags: seq<bool>): nat
    decreases |flags|
  {
    if |flags| == 0 then 0
    else
      var init := flags[..|flags| - 1];
      RisingEdges(prev, init) + (if flags[|flags| - 1] && !LastFlag(prev, init) then 1 else 0)
  }

  /** The flags of one more frame: the last flag is that frame's, and it
      adds an edge exactly when it rises from the flag before it. */
  lemma FlagsSnoc(prev: bool, fs: seq<FrameInput>)
    requires |fs| > 0
    ensures var init, d := Flags(fs[..|fs| - 1]), Detected(fs[|fs| - 1]);
      && LastFlag(prev, Flags(fs)) == d
      && RisingEdges(prev, Flags(fs)) == RisingEdges(prev, init) + (if d && !LastFlag(prev, init) then 1 else 0)
  {
    assert Flags(fs)[..|fs| - 1] == Flags(fs[..|fs| - 1]);
  }

  /** Over any run, the games counter grows by exactly the number of
      false-to-true edges of the game-over flag, and the remembered flag is
      the last frame's. */
  lemma {:induction false} RunCountsRisingEdges(s: Counters, fs: seq<FrameInput>)
    ensures Run(s, fs).gamesPlayed == s.gamesPlayed + RisingEdges(s.lastGameOver, Flags(fs))
    ensures Run(s, fs).lastGameOver == LastFlag(s.lastGameOver, Flags(fs))
    decreases |fs|
  {
    if |fs| > 0 {
      var init := fs[..|fs| - 1];
      RunCountsRisingEdges(s, init);
      FlagsSnoc(s.lastGameOver, fs);
      assert Run(s, fs) == Step(Run(s, init), fs[|fs| - 1]);
    }
  }

  lemma RisingEdgesOfFourFlags()
    ensures RisingEdges(false, [false, true, true, false]) == 1
  {
    var flags := [false, true, true, false];
    assert flags[..3] == [false, true, true];
    assert flags[..3][..2] == [false, true];
    assert flags[..3][..2][..1] == [false];
    assert [false][..0] == [];
    assert RisingEdges(false, [false]) == 0;
    assert RisingEdges(false, [false, true]) == 1;
    assert RisingEdges(false, [false, true, true]) == 1;
  }

  /** On the frame where the banner disappears, the pipes counter restarts
      from zero and holds only that frame's crossings. */
  lemma ResetOnBannerGone(s: Counters, fi: FrameInput)
    requires s.lastGameOver && !Detected(fi)
    ensures Step(s, fi).pipesPassed == FrameCrossings(fi)
  {
  }

  /** A frame seen twice without a game-over edge adds its crossings twice:
      the pipes counter counts crossed groups per frame, not crossing
      events. */
  lemma RepeatedFrameCountsAgain(s: Counters, fi: FrameInput)
    requires s.lastGameOver == Detected(fi)
    ensures Step(Step(s, fi), fi).pipesPassed == s.pipesPassed + 2 * FrameCrossings(fi)
  {
  }

  lemma RunSnoc(s: Counters, fs: seq<FrameInput>)
    requires |fs| > 0
    ensures Run(s, fs) == Step(Run(s, fs[..|fs| - 1]), fs[|fs| - 1])
  {
  }

  /** Frames without, with, with, and without the banner, from the start:
      exactly one game is counted. */
  lemma OneGameOverFourFrames(fs: seq<FrameInput>)
    requires Flags(fs) == [false, true, true, false]
    ensures Run(Start, fs).gamesPlayed == 1
  {
    RunCountsRisingEdges(Start, fs);
    RisingEdgesOfFourFlags();
  }

  /** In the same four frames, the last frame's pipes counter holds only
      that frame's crossings: the earlier count was reset exactly there. */
  lemma ResetAfterFourFrames(fs: seq<FrameInput>)
    requires Flags(fs) == [false, true, true, false]
    ensures Run(Start, fs).pipesPassed == FrameCrossings(fs[3])
  {
    assert |fs| == 4;
    var pre := fs[..3];
    RunCountsRisingEdges(Start, pre);
    assert Flags(pre)[2] == Detected(fs[2]) == Flags(fs)[2];
    assert Run(Start, pre).lastGameOver;
    assert !Detected(fs[3]) by {
      assert Flags(fs)[3] == Detected(fs[3]);
    }
    RunSnoc(Start, fs);
    ResetOnBannerGone(Run(Start, pre), fs[3]);
  }
}
