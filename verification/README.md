# Flappy-bird frame analysis: geometric decision core

This project models, in Dafny, the decision logic of `flappy_bird_detector.py`
that runs after OpenCV has turned a captured frame into contours. Each
detector receives its contours as a plain sequence of candidates (bounding
box `x, y, w, h` plus the contour's measured `area`) and the model covers:

- the avatar filter of `detect_bird` and the pipe filter of `detect_pipes`
  (module `ShapeFilters`), on top of a generic order-preserving selection
  (module `Selection`);
- the three-tier game-over classifier and its whole-set decision rule of
  `detect_gameover_color_enhanced` (module `GameOver`, with the enclosing
  rectangle `Geometry.Hull`);
- the pipe grouping of `main`: first-match clustering on the left edge
  within 20 pixels, per-group score line and gap, and the crossing count
  against the first avatar (module `PipeGroups`);
- the session counters `games_played`, `pipes_passed` and
  `last_game_over_state`, threaded through a pure step function over a
  sequence of frames (module `Session`);
- the per-pixel colour tests behind the three masks, on one HSV triple
  (module `ColourMasks`).

Floating-point tests of the source (`area > 100`, `ratio < 2.5`,
`h / w > 0.3`, `0.15 * frame_width < x + w/2`, ...) are written with exact
Dafny `real`s; each detector's acceptance test also has an integer
restatement without division (`2 * max < 5 * min`, `10 * h > 3 * w`) that
is proved equivalent. Contour areas are `real` and are not tied to `w * h`.

Worth knowing about the code as written, each proved here:

- every large-tier game-over contour also meets the medium test, so only
  the order of the tests keeps the large tier reachable; the small tier
  (area below 500) never overlaps the other two, and the outer `area > 30`
  gate never changes a tier;
- pipe grouping is first match in creation order, not nearest key: boxes
  with left edges 12 and 22 can land in different groups
  (`NearbyBoxesMaySplit`), and reordering
  the same boxes can change the number of groups;
- a one-box pipe group has a gap whose start lies below its end; the loop
  still draws it and still counts its score line (`SingletonGapDegenerate`);
- the yellow avatar band lies inside the blue one, and the cyan avatar
  accent band lies inside the game-over orange band.

The only reset the loop performs is `pipes_passed = 0` on the frame where
the banner disappears; the games counter is never reset.

## Model

| member | source | states |
|---|---|---|
| `Selection.Filter` | flappy_bird_detector.py:42-51 | the kept elements are exactly the input elements passing the test; at most as many as the input |
| `Selection.Kept` | flappy_bird_detector.py:75-85 | the positions of the passing elements, strictly increasing, each passing, every passing position listed |
| `Selection.FilterIsKeptSubsequence` | flappy_bird_detector.py:42-51 | the selection is the subsequence at those positions, so input order is preserved |
| `ShapeFilters.AvatarAcceptsIff` | flappy_bird_detector.py:44-48 | the avatar test (100 < area < 2000, aspect below 2.5 with 0 for a zero side, w > 12, h > 12) equals its division-free form 2·max < 5·min |
| `ShapeFilters.DetectAvatar` | flappy_bird_detector.py:42-51 | every returned box has both sides above 12 and longer side under 2.5 times the shorter; no more boxes than contours |
| `ShapeFilters.DetectAvatarExact` | flappy_bird_detector.py:42-51 | the avatar boxes are exactly the boxes of the qualifying contours, in input order |
| `ShapeFilters.PipeAcceptsIff` | flappy_bird_detector.py:77-82 | the pipe test (area > 50, h/w > 0.3 with 0 for zero width, w > 5, h > 8) equals 10·h > 3·w with the same bounds; a zero-width box fails the ratio test |
| `ShapeFilters.DetectPipes` | flappy_bird_detector.py:75-85 | every returned pipe box has w > 5, h > 8 and 10·h > 3·w |
| `ShapeFilters.DetectPipesExact` | flappy_bird_detector.py:75-85 | the pipe boxes are an order-preserving subsequence: exactly the qualifying contours' boxes, in order |
| `GameOver.TierOf` | flappy_bird_detector.py:106-132 | a tier only with area > 30; large iff the large test holds; medium iff medium test and not large; small iff the small test holds (precedence never matters for it); none iff no test holds |
| `GameOver.LargeBannerIsMediumText` | flappy_bird_detector.py:117-121 | every large-banner contour also meets the medium test, and in a frame of any size it still gets the large tier |
| `GameOver.Classify` | flappy_bird_detector.py:103-132 | each tiered entry comes from an input contour with that contour's tier; every contour with a tier appears |
| `GameOver.ClassifyExact` | flappy_bird_detector.py:103-132 | the classified candidates are exactly the contours that receive a tier, in input order and with repeats, so the classification's length is the number of tiered contours the eight-fragment rule reads; each entry carries its own contour's tier |
| `GameOver.LargeBoxes` | flappy_bird_detector.py:135 | every returned box belongs to a large-tier candidate; non-empty when one exists |
| `GameOver.Decide` | flappy_bird_detector.py:134-144 | large boxes when any large exists; else with 8 or more tiered candidates one box covering all of them and covered by every covering box; else nothing; something is returned iff large or at least 8 |
| `GameOver.LargeOfClassify` | flappy_bird_detector.py:126-135 | the large tier of the classification is exactly the large-banner contours, in discovery order |
| `GameOver.LargeWins` | flappy_bird_detector.py:134-135 | with any large-banner contour the detector returns exactly the large-banner boxes in order, whatever the other contours and the frame size |
| `GameOver.FragmentsDecide` | flappy_bird_detector.py:136-144 | without a large banner: fewer than 8 tiered contours give nothing, 8 or more give the single hull |
| `GameOver.DetectGameOver` | flappy_bird_detector.py:90-144 | the detector reports something iff some orange contour is a large banner blob or at least eight contours receive a tier |
| `Geometry.Least` | flappy_bird_detector.py:138-139 | the minimum is at most every element and is one of them |
| `Geometry.Greatest` | flappy_bird_detector.py:140-141 | the maximum is at least every element and is one of them |
| `Geometry.Hull` | flappy_bird_detector.py:137-142 | the returned rectangle covers every box and each of its edges is some box's edge |
| `Geometry.HullIsSmallest` | flappy_bird_detector.py:137-142 | any rectangle covering all boxes covers the hull |
| `PipeGroups.FirstNear` | flappy_bird_detector.py:186-191 | the search returns the first key within 20 of the left edge, or none when no key is |
| `PipeGroups.AddPipe` | flappy_bird_detector.py:183-194 | a box opens a new group keyed by its left edge iff no key is within 20; otherwise it is appended to the first near group and nothing else changes; keys never change |
| `PipeGroups.AddPipeKeepsBoxes` | flappy_bird_detector.py:189-194 | one step adds exactly the new box to the grouped boxes |
| `PipeGroups.AddPipeKeepsWellFormed` | flappy_bird_detector.py:183-194 | groups stay non-empty, keyed by their first member, members within 20 of the key, keys at least 20 apart |
| `PipeGroups.OpensGroup` | flappy_bird_detector.py:193-194 | a box near no key yields a new last group holding only it |
| `PipeGroups.JoinsFirstNear` | flappy_bird_detector.py:187-191 | a box joins the first near key in creation order, even when a later key is nearer |
| `PipeGroups.GroupPipes` | flappy_bird_detector.py:182-194 | never more groups than boxes, and at least one group when there is a box |
| `PipeGroups.GroupPipesInvariant` | flappy_bird_detector.py:182-194 | the grouping is well formed and the grouped boxes are a permutation of the input: each box in exactly one group |
| `PipeGroups.SameGroupClose` | flappy_bird_detector.py:188 | two members of one group have left edges less than 40 apart |
| `PipeGroups.NearbyBoxesMaySplit` | flappy_bird_detector.py:183-194 | boxes at left edges 0, 25, 12, 22 form groups {0, 12} and {25, 22}: 10 pixels apart yet split |
| `PipeGroups.GroupingDependsOnOrder` | flappy_bird_detector.py:183-194 | the same left edges in the order 12, 0, 25, 22 form a single group |
| `PipeGroups.TopIndex` | flappy_bird_detector.py:200 | the first member with the smallest top edge |
| `PipeGroups.BottomIndex` | flappy_bird_detector.py:201 | the first member with the largest top edge |
| `PipeGroups.LaneOf` | flappy_bird_detector.py:196-204 | the score line is at least every member's right edge and equals one; the gap starts at the bottom of the first top-most member and ends at the top of the first bottom-most member |
| `PipeGroups.SingletonGapDegenerate` | flappy_bird_detector.py:200-206 | a one-box group of positive height has its gap start below its gap end |
| `PipeGroups.Crossings` | flappy_bird_detector.py:196-211 | the crossing count is at most the number of groups, all of them when every score line is left of the avatar, none when none is |
| `PipeGroups.CrossingsCountsPassedLines` | flappy_bird_detector.py:196-211 | the crossing count equals the number of groups whose score line lies strictly left of the avatar's left edge, counted as the positions an independent selection lists |
| `PipeGroups.CrossingsMonotone` | flappy_bird_detector.py:208-211 | an avatar further right has crossed at least as many score lines |
| `Session.Transition` | flappy_bird_detector.py:167-175 | games rise by one exactly on a false-to-true edge and are otherwise unchanged; the pipes counter changes only on a true-to-false edge, where it becomes 0; the flag becomes the detection |
| `Session.DetectedIff` | flappy_bird_detector.py:165-167 | a frame counts as game over iff its orange contours hold a large banner blob or at least eight tiered contours |
| `Session.FrameCrossings` | flappy_bird_detector.py:177-211 | crossings are zero without an avatar or without pipes, and never exceed the number of pipe boxes |
| `Session.FrameCrossingsCountsPassedGroups` | flappy_bird_detector.py:177-211 | with an avatar and pipes in the frame, the crossings are the number of pipe groups whose score line lies strictly left of the first avatar's left edge |
| `Session.Step` | flappy_bird_detector.py:163-211 | one frame: the flag becomes this frame's detection; games rise by one exactly on a rising edge; the pipes counter is zeroed on a falling edge and then grows by exactly the frame's crossings |
| `Session.RepeatedFrameCountsAgain` | flappy_bird_detector.py:208-211 | a frame repeated without a game-over edge adds its crossings again: counting is per crossed group per frame, not per crossing event |
| `Session.Run` | flappy_bird_detector.py:157-211 | over n frames the games counter grows by at most n and never drops |
| `Session.RunCountsRisingEdges` | flappy_bird_detector.py:167-175 | over any run the games counter grows by exactly the number of false-to-true edges of the per-frame detection |
| `Session.ResetOnBannerGone` | flappy_bird_detector.py:172-173 | on the frame where the banner disappears the pipes counter holds only that frame's crossings |
| `Session.OneGameOverFourFrames` | flappy_bird_detector.py:167-170 | detections no, yes, yes, no from the start count exactly one game |
| `Session.ResetAfterFourFrames` | flappy_bird_detector.py:172-175 | in that run the last frame's pipes counter holds only its own crossings |
| `ColourMasks.AvatarYellowRedundant` | flappy_bird_detector.py:16-34 | the yellow band lies inside the blue band; the avatar mask is the union of blue, red and cyan |
| `ColourMasks.PipePixelIff` | flappy_bird_detector.py:56-64 | a pipe pixel is green with hue below 60, saturation above 157, or value outside 200..252 |
| `ColourMasks.AvatarAccentsLookLikeBanner` | flappy_bird_detector.py:28-30 | cyan accent pixels and red accent pixels with hue from 10 are banner-orange; blue body pixels never are |
| `ColourMasks.BannerIsNeverPipe` | flappy_bird_detector.py:94-96 | a banner pixel has hue 10..25, saturation and value 100..255, and is never a pipe-green pixel |

## Left out

- Screen capture (`capture_screen_region`, `sct.grab`) and the BGRA to BGR conversion: I/O.
- Colour conversion to HSV, `inRange` over whole images, the morphology passes (`getStructuringElement`, `morphologyEx`), `findContours`, `contourArea` and `boundingRect`: foreign library calls. Their output is the given candidate sequence; only the per-pixel band tests are modelled.
- Drawing and display (`cv2.line`, `rectangle`, `putText`, `imshow`): user interface.
- The keypress stop, wall-clock timing and the 60 frames-per-second sleep: I/O and floating-point time.
- IEEE double rounding: the source's float comparisons (area thresholds, ratios, `0.15 * frame_width` and the other centring bounds, `w/2`) are modelled as exact real arithmetic.
- Score-digit recognition: this file has no such code, so there is nothing of it to model.
- `detect_gameover` simply forwards to the enhanced detector; `GameOver.DetectGameOver` stands for both.
- The dead `if gameover_candidates:` check inside the eight-fragment branch is always true there and is not modelled separately.
