# BlueEmojiTracker — a Dafny model of its per-frame decision logic

BlueEmojiTracker is a macOS bot that watches part of the screen for a blue
object, typically a ball in a paddle game, and drives the mouse towards it.
The repository holds several near-duplicate versions of the tracker. This
project models the numeric logic that runs on each frame in the five files
that carry it, and proves properties of that model. Screen capture, event
posting and the UI are left out.

One module per concern, one file per module:

| file | module | models |
|---|---|---|
| `common.dfy` | `Common` | points, `CGRect` geometry with standardized width and height, min/max/clamp, a measured velocity and the exponential blend used for smoothing |
| `ball_history.dfy` | `BallHistory` | `BallTracker`: a FIFO of at most 10 time-stamped samples, the first-difference velocity and the linear extrapolator (`BlueEmojiTracker/BlueEmojiTracker.swift`) |
| `bounce.dfy` | `Bounce` | the wall-collision times, the event-driven reflection loop `predictBallPositionWithBounce`, and the X-only loop `calculateLandingPoint`, each proved equal to a closed-form "folded" free flight and proved to terminate |
| `interception.dfy` | `Interception` | the speed regimes at 300 and 800, the target chosen by `calculateOptimalInterceptionPoint`, and the press/release machine of `checkMouseClickTiming` over runs of frames |
| `ball_controller.dfy` | `BallController` | the game controller object: the debug trajectory of `updateDebugData`, the cursor gate of `moveCursorToPosition`, the click timing, and `processBallPosition`, which ties them together |
| `cursor_filter.dfy` | `CursorFilter` | `moveCursorTo` of `BlueEmojiTracker/main.swift`: target area, dead zone, adaptive sensitivity, history of 5, velocity, the capped (and unused) predictive lead, the movement gate and the jump-or-ease choice |
| `blue_scan.dfy` | `BlueScan` | the pixel classification, bounding-box scan, point selection and screen mapping of `findBlueObject` in `BlueEmojiTracker/main.swift` |
| `area_selection.dfy` | `AreaSelection` | the rectangle `AreaSelectionWindow.handleMouseUp` hands on after a drag |
| `gravity_tracker.dfy` | `GravityTracker` | the frame loop of `BlueEmojiTracker/Sources/BlueEmojiTracker.swift`: the BGRA bounding-box scan, the history of centres (bound 31), the smoothed velocity and the fixed-step gravity simulation with restitution 0.8 |
| `smoothing_tracker.dfy` | `SmoothingTracker` | the variant in `Sources/BlueEmojiTracker/App/BlueEmojiTracker.swift`: the strided scan and mean, the sensitivity from the pixel count, the image-to-screen mapping and the smoothed cursor update |
| `settings.dfy` | `SettingsValidation` | `Config.validateSettings`, `applyAndValidateSettings` and the shipped defaults |

Modelling conventions:
- `CGFloat` and `Double` become `real`. A `UInt8` becomes `Byte`, the integers 0 to 255.
- `sqrt` and `hypot` become a function parameter `hypot`. `IsHypot(hypot)`, the non-negative root of the sum of squares, is required only where a proof needs that value; there comparisons against a length are proved as comparisons of squares. Elsewhere, as in the movement-threshold tests of `GravityTracker.Tracker` and `SmoothingTracker.CursorTracker`, the contract states the test on the parameter itself, so it holds for any `hypot`.
- Clocks (`Date()`), the mouse location (`NSEvent.mouseLocation`) and captured images are parameters. A posted mouse-move event or click is a method result.
- State the source mutates lives in classes: `BallTracker`, `Controller` and the two `CursorTracker`s and the `Tracker`. Their methods state the whole new state. Loops are `while` loops proved against recursive specification functions (`RowFrom`/`Fold` for the scans, `Flight` for the gravity simulation, `DebugPath` for the debug trajectory, `FoldedFlight` for the bounce loops).

Behaviour of the code worth noting:
- the predictive lead of `moveCursorTo` is computed but never reaches the posted position (`CursorFilter.Placement`);
- the debug trajectory of `updateDebugData` flips velocities but does not clamp positions, so its points may leave the field;
- `updatePositionHistory` of the `Sources` tracker drops the oldest entry before appending and only when more than 30 are held, so the history reaches 31 entries, although its comment at `BlueEmojiTracker/Sources/BlueEmojiTracker.swift:235` announces at most 30 (`GravityTracker.HistoryBound`);
- the collision-time helpers return −1 at zero speed; a ball past the wall it heads for gets a negative time, which may itself be −1 (width 100, radius 10, x 95, vx 5) and is then handled like no motion on that axis;
- the `App` variant divides the coordinate sums as `CGFloat`, so its result is the real mean of the matched coordinates;
- the velocity is reset only by the missed-frame counters the model keeps; no other code path lowers it when detection stops.

## Model

| member | source | states |
|---|---|---|
| Common.Clamp | BlueEmojiTracker/BlueEmojiTracker.swift:318 | the clamped value is at least the lower bound, at most the upper one when the range is non-empty, and unchanged when already in range; below the range it is the lower bound, above a non-empty range the upper bound, and for an empty range the lower bound |
| Common.Width | BlueEmojiTracker/Config.swift:220 | a rectangle's width is non-negative and is the distance between its min and max x, whatever sign is stored |
| Common.Height | BlueEmojiTracker/Config.swift:220 | the same for the height |
| Common.Measured | BlueEmojiTracker/Sources/BlueEmojiTracker.swift:267-268 | the measured velocity times the elapsed time is the displacement |
| Common.Blend | BlueEmojiTracker/Sources/BlueEmojiTracker.swift:271-275 | smoothing factor 0 gives the measured velocity, 1 keeps the old one, and a factor in [0, 1] gives a velocity between the two on each axis |
| BallHistory.Recorded | BlueEmojiTracker/BlueEmojiTracker.swift:952-958 | the new sample is last, the length is one more up to the bound of 10, and the rest is the old history minus the evicted oldest sample, in order |
| BallHistory.BallTracker.constructor | BlueEmojiTracker/BlueEmojiTracker.swift:949-950 | the history starts empty |
| BallHistory.BallTracker.AddPosition | BlueEmojiTracker/BlueEmojiTracker.swift:952-958 | the history becomes `Recorded(old history, sample)` and keeps its bound of 10 |
| BallHistory.VelocityOf | BlueEmojiTracker/BlueEmojiTracker.swift:960-973 | none exactly when there are fewer than two samples or the last time difference is not positive; otherwise velocity times time difference equals displacement on each axis |
| BallHistory.PredictPositionOf | BlueEmojiTracker/BlueEmojiTracker.swift:975-985 | none exactly when the velocity is none; otherwise the offset from the latest sample is the velocity times `afterMs / 1000` |
| BallHistory.PredictionRepeatsLastStep | BlueEmojiTracker/BlueEmojiTracker.swift:960-985 | predicting one sampling interval ahead repeats the last displacement |
| BallHistory.TwoRecordingsGiveVelocity | BlueEmojiTracker/BlueEmojiTracker.swift:952-973 | after recording two samples with increasing times, the velocity is their difference quotient, whatever the history held before |
| Bounce.TimeToWall | BlueEmojiTracker/BlueEmojiTracker.swift:495-520 | −1 at zero speed; otherwise moving for the returned time reaches the wall ahead (offset by the radius), and the time is non-negative exactly when the ball has not passed that wall |
| Bounce.PastWallGivesSentinel | BlueEmojiTracker/BlueEmojiTracker.swift:495-520 | a ball one time unit past the wall it heads for gets −1, the same value as a ball at rest, on either side |
| Bounce.WallAfterAdvance | BlueEmojiTracker/BlueEmojiTracker.swift:457-461 | after moving for time t without a bounce, the time to the same wall is t less |
| Bounce.WallAfterBounce | BlueEmojiTracker/BlueEmojiTracker.swift:459-464 | after a bounce, the next wall on that axis is the width between the walls away, divided by the speed |
| Bounce.StayOnAxis | BlueEmojiTracker/BlueEmojiTracker.swift:465-469 | moving no further than the next wall keeps the ball between the walls |
| Bounce.NarrowFieldBouncesInPlace | BlueEmojiTracker/BlueEmojiTracker.swift:442-488 | when the field is exactly two radii wide, both directions give collision time 0, so each iteration of the loop advances no time |
| Bounce.Fold | BlueEmojiTracker/BlueEmojiTracker.swift:442-488 | folding a free-flight coordinate back into the span between the walls gives a point inside it |
| Bounce.FoldFixes | BlueEmojiTracker/BlueEmojiTracker.swift:448-453 | a point already between the walls is its own fold |
| Bounce.FoldMirrorLow | BlueEmojiTracker/BlueEmojiTracker.swift:480 | points mirrored in the low wall fold to the same place |
| Bounce.FoldMirrorHigh | BlueEmojiTracker/BlueEmojiTracker.swift:464 | points mirrored in the high wall fold to the same place |
| Bounce.FoldPeriodic | BlueEmojiTracker/BlueEmojiTracker.swift:442-488 | folding is periodic with twice the span |
| Bounce.FoldedFlight | BlueEmojiTracker/BlueEmojiTracker.swift:442-488 | the folded free flight stays between the walls |
| Bounce.UnfoldIsFold | BlueEmojiTracker/BlueEmojiTracker.swift:442-488 | any state reached by advancing and reflecting, when between the walls, is the folded free flight at the elapsed time |
| Bounce.CountBounce | BlueEmojiTracker/BlueEmojiTracker.swift:473-480 | each bounce keeps the bounce count within what the elapsed time allows |
| Bounce.NextGap | BlueEmojiTracker/BlueEmojiTracker.swift:459-464 | after n bounces at least n gaps of time have passed, so the count stays below the bound that makes the loop terminate |
| Bounce.PredictWithBounce | BlueEmojiTracker/BlueEmojiTracker.swift:424-492 | none exactly when there is no velocity; the loop terminates when the field is wider and taller than two radii; the simulated time is within 1 ms of 150 ms; from inside the field the result is the folded free flight on both axes |
| Bounce.LandingPoint | BlueEmojiTracker/BlueEmojiTracker.swift:523-564 | a result exactly when the ball moves down; at or below the bottom line it is the current x; otherwise, from between the side walls, it is the folded flight at the time to the bottom, so it stays in [radius, width − radius] |
| Interception.SpeedMagnitude | BlueEmojiTracker/BlueEmojiTracker.swift:324-327 | the speed is non-negative and its square is vx² + vy², 0 without a velocity |
| Interception.RegimeBySquaredSpeed | BlueEmojiTracker/BlueEmojiTracker.swift:281-301 | slow exactly when vx² + vy² < 90000, medium in [90000, 640000), high from 640000 on, so 300 and 800 themselves go to the faster regime |
| Interception.Direction | BlueEmojiTracker/BlueEmojiTracker.swift:293 | the direction factor is +1 exactly when vx > 0, else −1 |
| Interception.RawTargetX | BlueEmojiTracker/BlueEmojiTracker.swift:281-315 | the unclamped target leads the anchor point in the direction of vx, and is the anchor itself when vx is 0 |
| Interception.LeadFollowsMotion | BlueEmojiTracker/BlueEmojiTracker.swift:284-313 | in every regime the lead has the sign of vx, and is 0 when vx is 0 |
| Interception.InterceptionTarget | BlueEmojiTracker/BlueEmojiTracker.swift:266-321 | y is always height − paddleHeight/2; without velocity x is the current x, unclamped; with velocity x is at least paddleWidth/2, at most width − paddleWidth/2 when the field is wide enough, equals the raw target when that is in range, the lower bound paddleWidth/2 when the raw target is below it or the field is narrower than a paddle, and the upper bound when the raw target is above it |
| Interception.ClickStep | BlueEmojiTracker/BlueEmojiTracker.swift:330-364 | press exactly when moving down, not pressed, arriving within 0.1 s and over the paddle; release exactly when moving up or level with the button down; otherwise nothing changes; press sets both flags, release clears both |
| Interception.SoonMeansUnderATenth | BlueEmojiTracker/BlueEmojiTracker.swift:337-341 | for a downward speed, a time to the paddle under 0.1 s means a distance under a tenth of the speed |
| Interception.NoDoublePress | BlueEmojiTracker/BlueEmojiTracker.swift:330-364 | over any run of frames the clicks alternate press and release, starting from the initial button state and ending in the final one |
| Interception.ClickExtends | BlueEmojiTracker/BlueEmojiTracker.swift:350-361 | an alternating click sequence stays alternating when a press is added with the button up or a release with it down |
| BallController.DebugStep | BlueEmojiTracker/BlueEmojiTracker.swift:209-219 | a debug step only flips velocity signs, so both speeds are kept |
| BallController.After | BlueEmojiTracker/BlueEmojiTracker.swift:207-223 | any number of debug steps keeps both speeds |
| BallController.DebugPath | BlueEmojiTracker/BlueEmojiTracker.swift:207-223 | the path has one point per step, the i-th being the position after i + 1 steps |
| BallController.DebugAdvance | BlueEmojiTracker/BlueEmojiTracker.swift:209-219 | one loop iteration computes exactly `DebugStep` |
| BallController.SimulateDebugSteps | BlueEmojiTracker/BlueEmojiTracker.swift:196-223 | the loop appends exactly 10 points, those of `DebugPath` |
| BallController.FarEnoughToMove | BlueEmojiTracker/BlueEmojiTracker.swift:369-372 | the distance exceeds 5 exactly when the squared distance exceeds 25 |
| BallController.Controller.constructor | BlueEmojiTracker/BlueEmojiTracker.swift:77-89 | the field takes the capture size with radius 10, the paddle starts in the middle, the history and debug data are empty and the button is up |
| BallController.Controller.ToggleDebugVisualization | BlueEmojiTracker/BlueEmojiTracker.swift:64-74 | the debug flag flips and nothing else changes |
| BallController.Controller.UpdateDebugData | BlueEmojiTracker/BlueEmojiTracker.swift:186-233 | nothing changes with debugging off; without velocity only the trajectory changes, to empty; with velocity it is the 10-point debug path from the latest sample, the landing point is the value `calculateLandingPoint` gives (present exactly when the ball moves down, the current x at the bottom line, the folded flight to the bottom from between the side walls) and the predicted position is a bounce prediction (the folded flight on both axes at a time within 1 ms of 150 ms from inside the field); the other fields keep their values |
| BallController.Controller.MoveCursorToPosition | BlueEmojiTracker/BlueEmojiTracker.swift:367-386 | the cursor moves exactly when the target is more than 5 away or the platform is in place, and then the last cursor position is the target; nothing else changes |
| BallController.Controller.CheckMouseClickTiming | BlueEmojiTracker/BlueEmojiTracker.swift:330-364 | the button and platform flags and the click follow `ClickStep` |
| BallController.Controller.OptimalInterceptionPoint | BlueEmojiTracker/BlueEmojiTracker.swift:266-321 | the target is `InterceptionTarget` of the current history's velocity, length and speed, with a bounce prediction and the landing point of that history as its bounce and landing inputs; nothing changes |
| BallController.Controller.ProcessBallPosition | BlueEmojiTracker/BlueEmojiTracker.swift:236-263 | the sample is recorded; the debug fields change as `updateDebugData` changes them on the new history; the target is `InterceptionTarget` of the ball, the new history's velocity, its length and speed, the bounce prediction and the landing point of that history, so it has the paddle's y, is clamped when a velocity exists and is the ball's x otherwise; the cursor gate and click machine run on it; the last position is the ball; the debug switch and paddle position keep their values |
| CursorFilter.TargetArea | BlueEmojiTracker/main.swift:667-681 | the window bounds in window mode when known, else the selected screen's frame, else none |
| CursorFilter.Remembered | BlueEmojiTracker/main.swift:719-722 | the point is last, at most 5 are kept, and the rest is the old history minus its oldest entry when full |
| CursorFilter.AdaptiveSensitivity | BlueEmojiTracker/main.swift:713 | the sensitivity lies in [0.5, 1.5], is below 1 for any distance of at least 3, and is 1 − distance/200 up to distance 100 |
| CursorFilter.SmoothingFactor | BlueEmojiTracker/main.swift:775-780 | the adapted smoothing factor lies in [0.3, 0.9] |
| CursorFilter.SmoothingEasesWithSpeed | BlueEmojiTracker/main.swift:775-780 | a faster target never gets a larger smoothing factor |
| CursorFilter.LeadPoint | BlueEmojiTracker/main.swift:731-755 | no lead with fewer than 3 points or little motion; otherwise the lead is at most 50 long |
| CursorFilter.CappedLead | BlueEmojiTracker/main.swift:743-752 | a lead up to 50 is kept; a longer one is scaled so its length is at most 50 |
| CursorFilter.ScaledLead | BlueEmojiTracker/main.swift:747-751 | scaling by 50/distance gives a lead of length exactly 50 |
| CursorFilter.LeadWithinCap | BlueEmojiTracker/main.swift:745 | a lead no longer than 50 has squared length at most 2500 |
| CursorFilter.NewPosition | BlueEmojiTracker/main.swift:761-787 | a direct move goes to the point itself and an eased one to the mouse moved towards the point by the factor: the predicted point never matters |
| CursorFilter.Placement | BlueEmojiTracker/main.swift:758-787 | a position is chosen exactly when the gate passes or nothing was posted yet; it is the point when the mouse is over 50 away or the distances differ by over 20, else the eased point |
| CursorFilter.EasedOnSegment | BlueEmojiTracker/main.swift:783-785 | an eased position lies between the mouse and the target on both axes |
| CursorFilter.VelocityAfter | BlueEmojiTracker/main.swift:725-728 | with time elapsed and an earlier position the velocity times the elapsed time is the displacement; otherwise it is unchanged |
| CursorFilter.CursorTracker.constructor | BlueEmojiTracker/main.swift:282-291 | the initial state: no position, no velocity, no history, sensitivity 1, no misses |
| CursorFilter.CursorTracker.StartTracking | BlueEmojiTracker/main.swift:885-889 | the position, history, velocity and miss counter are reset; the rest is kept |
| CursorFilter.CursorTracker.ObjectMissed | BlueEmojiTracker/main.swift:920-926 | the miss counter grows by one and the velocity is zeroed from the eleventh miss on |
| CursorFilter.CursorTracker.RecordMove | BlueEmojiTracker/main.swift:705-728 | the counter resets, the time and sensitivity are set, the point is remembered and the velocity re-measured; the sensitivity is below 1 |
| CursorFilter.CursorTracker.MoveCursorTo | BlueEmojiTracker/main.swift:664-804 | outside the area nothing changes; in the dead zone only the miss counter grows; otherwise the bookkeeping happens and the posted position is `Placement`, which becomes the last position |
| CursorFilter.CursorTracker.Follow | BlueEmojiTracker/main.swift:705-803 | the part of `moveCursorTo` past the dead zone: the bookkeeping and the gated move |
| BlueScan.AddBytes | BlueEmojiTracker/main.swift:565-566 | a byte sum that does not overflow is the integer sum |
| BlueScan.Cell | BlueEmojiTracker/main.swift:551-584 | a pixel yields at most one match, at its own position, with blue above 50 |
| BlueScan.RowBounds | BlueEmojiTracker/main.swift:549-586 | every match of a row lies in that row and in the image, with blue above 50 |
| BlueScan.ScanBounds | BlueEmojiTracker/main.swift:548-587 | every match of the scan lies in the image, with blue above 50 |
| BlueScan.FoldCount | BlueEmojiTracker/main.swift:572 | the count is the number of matches |
| BlueScan.FoldCovers | BlueEmojiTracker/main.swift:574-584 | the box contains every match and the maximum blue is at least every match's blue |
| BlueScan.FoldAttained | BlueEmojiTracker/main.swift:574-584 | each box edge and the maximum blue come from an actual match, and the maximum blue is above 50 |
| BlueScan.ImagePointInBox | BlueEmojiTracker/main.swift:594-612 | the chosen point is the box centre for a box of positive size, else the bluest pixel, and lies in the box; the centre-of-mass branch is never taken |
| BlueScan.ScanPointInBox | BlueEmojiTracker/main.swift:594-612 | the same for the scan's own matches, and the point lies inside the image |
| BlueScan.ScreenPoint | BlueEmojiTracker/main.swift:617-652 | in window mode with bounds, the offset from the window origin times the scale is the image point; otherwise the point is shifted by the capture origin |
| BlueScan.RowFoldIsFold | BlueEmojiTracker/main.swift:549-586 | the row loop's accumulation equals folding the row's matches |
| BlueScan.ScanFoldIsFold | BlueEmojiTracker/main.swift:548-587 | the nested loops' accumulation equals folding all matches |
| BlueScan.ScanRow | BlueEmojiTracker/main.swift:549-586 | the inner loop computes the row fold |
| BlueScan.Scan | BlueEmojiTracker/main.swift:548-587 | the nested loops compute the fold of all matches |
| BlueScan.FindBlueObject | BlueEmojiTracker/main.swift:498-661 | a point exactly when there are at least `minBluePixels` matches, and then it is the selected image point mapped to the screen |
| AreaSelection.SelectedArea | BlueEmojiTracker/main.swift:1866-1886 | a rectangle exactly when a drag started and both sides exceed 10; it spans min to max of the two points and contains both |
| AreaSelection.DragDirectionIrrelevant | BlueEmojiTracker/main.swift:1873-1876 | swapping start and end selects the same rectangle |
| GravityTracker.Hit | BlueEmojiTracker/Sources/BlueEmojiTracker.swift:207-215 | at most one pixel, at its own position |
| GravityTracker.RowExactly | BlueEmojiTracker/Sources/BlueEmojiTracker.swift:206-223 | a row's hits are exactly the blue pixels of that row |
| GravityTracker.ScanExactly | BlueEmojiTracker/Sources/BlueEmojiTracker.swift:205-224 | the scan's hits are exactly the blue pixels of the image |
| GravityTracker.FoldCount | BlueEmojiTracker/Sources/BlueEmojiTracker.swift:221 | the count is the number of hits |
| GravityTracker.FoldCovers | BlueEmojiTracker/Sources/BlueEmojiTracker.swift:217-220 | the box contains every hit |
| GravityTracker.FoldAttained | BlueEmojiTracker/Sources/BlueEmojiTracker.swift:217-220 | each box edge comes from an actual hit |
| GravityTracker.Detect | BlueEmojiTracker/Sources/BlueEmojiTracker.swift:180-231 | the size is never negative, and a detection needs strictly more than `minBluePixels` hits |
| GravityTracker.DetectionCoversBlue | BlueEmojiTracker/Sources/BlueEmojiTracker.swift:205-230 | no hits means no detection; a detection contains every blue pixel |
| GravityTracker.BoxIsTight | BlueEmojiTracker/Sources/BlueEmojiTracker.swift:227-230 | every edge of the reported box touches a blue pixel, and the box lies in the image |
| GravityTracker.DetectionIsBox | BlueEmojiTracker/Sources/BlueEmojiTracker.swift:227-230 | with enough hits the detection is the bounding box |
| GravityTracker.RowFoldIsFold | BlueEmojiTracker/Sources/BlueEmojiTracker.swift:206-223 | the row loop's accumulation equals folding the row's hits |
| GravityTracker.ScanFoldIsFold | BlueEmojiTracker/Sources/BlueEmojiTracker.swift:205-224 | the nested loops' accumulation equals folding all hits |
| GravityTracker.ScanRow | BlueEmojiTracker/Sources/BlueEmojiTracker.swift:206-223 | the inner loop computes the row fold |
| GravityTracker.ScanImage | BlueEmojiTracker/Sources/BlueEmojiTracker.swift:205-224 | the nested loops compute the box of all hits |
| GravityTracker.Appended | BlueEmojiTracker/Sources/BlueEmojiTracker.swift:234-242 | the oldest entry goes only beyond 30, the new one is last, the rest keeps its order |
| GravityTracker.HistoryBound | BlueEmojiTracker/Sources/BlueEmojiTracker.swift:234-242 | the history stays within 31 and does reach 31 from 30 |
| GravityTracker.Step | BlueEmojiTracker/Sources/BlueEmojiTracker.swift:307-330 | after a step x lies between the side walls and y below the top; vx is kept or reversed and damped by 0.8, so it never grows; vy gains gravity and is possibly reversed and damped |
| GravityTracker.FlightInside | BlueEmojiTracker/Sources/BlueEmojiTracker.swift:306-341 | at most one point per step, each within the side walls and below the top |
| GravityTracker.FlightStopsAtBottom | BlueEmojiTracker/Sources/BlueEmojiTracker.swift:335-340 | only the last point may be past the bottom |
| GravityTracker.LandingIsLast | BlueEmojiTracker/Sources/BlueEmojiTracker.swift:333-340 | a landing point is the last trajectory point and lies past the bottom; without one all steps ran and no point is past the bottom |
| GravityTracker.SideSpeedNeverGrows | BlueEmojiTracker/Sources/BlueEmojiTracker.swift:314-324 | the horizontal speed never grows over the simulation |
| GravityTracker.SimulationLands | BlueEmojiTracker/Sources/BlueEmojiTracker.swift:333-340 | a step past the bottom completes the trajectory and is the landing point |
| GravityTracker.SimulationContinues | BlueEmojiTracker/Sources/BlueEmojiTracker.swift:306-341 | a step not past the bottom keeps the loop invariant |
| GravityTracker.Advance | BlueEmojiTracker/Sources/BlueEmojiTracker.swift:307-330 | one loop iteration computes exactly `Step` |
| GravityTracker.Simulate | BlueEmojiTracker/Sources/BlueEmojiTracker.swift:294-341 | the trajectory is the start followed by the flight, and the landing point is the flight's landing |
| GravityTracker.Tracker.constructor | BlueEmojiTracker/Sources/BlueEmojiTracker.swift:7-22 | everything starts empty or zero |
| GravityTracker.Tracker.StartTracking | BlueEmojiTracker/Sources/BlueEmojiTracker.swift:35-38 | the history, velocity and last frame time are reset; the rest is kept |
| GravityTracker.Tracker.DetectBlueObject | BlueEmojiTracker/Sources/BlueEmojiTracker.swift:180-231 | the position and size become those of `Detect`; nothing else changes |
| GravityTracker.Tracker.UpdatePositionHistory | BlueEmojiTracker/Sources/BlueEmojiTracker.swift:234-242 | the history becomes `Appended`; nothing else changes |
| GravityTracker.Tracker.CalculateVelocity | BlueEmojiTracker/Sources/BlueEmojiTracker.swift:245-276 | zero with fewer than two samples or a short move; otherwise the old velocity blended with the measured one by the smoothing factor |
| GravityTracker.Tracker.PredictTrajectory | BlueEmojiTracker/Sources/BlueEmojiTracker.swift:279-342 | empty and no landing with fewer than 3 samples or a slow ball; otherwise the simulated trajectory from the newest sample, at most 101 points, and its landing |
| GravityTracker.Tracker.FollowObject | BlueEmojiTracker/Sources/BlueEmojiTracker.swift:112-126 | the centre is recorded; the velocity changes only with a previous frame time; the prediction runs only in game mode with prediction on |
| GravityTracker.Tracker.ProcessFrame | BlueEmojiTracker/Sources/BlueEmojiTracker.swift:89-141 | without an image nothing changes; otherwise the detection is stored, the object followed when its box has positive size, and the frame time noted |
| SmoothingTracker.OffsetInside | Sources/BlueEmojiTracker/App/BlueEmojiTracker.swift:196 | the offset of any pixel, plus 2, lies inside the rendered buffer |
| SmoothingTracker.Cell | Sources/BlueEmojiTracker/App/BlueEmojiTracker.swift:196-210 | at most one sample, at its own position |
| SmoothingTracker.RowExactly | Sources/BlueEmojiTracker/App/BlueEmojiTracker.swift:195-211 | a row yields a sample for a pixel exactly when the pixel lies in that row, on the scan-step grid from the start column on, and passes the colour test |
| SmoothingTracker.ScanExactly | Sources/BlueEmojiTracker/App/BlueEmojiTracker.swift:194-212 | the rows from `y` on yield a sample for a pixel exactly when it lies on the scan-step grid of both axes in those rows and passes the colour test |
| SmoothingTracker.SamplesExactly | Sources/BlueEmojiTracker/App/BlueEmojiTracker.swift:194-212 | every sample lies in the image, and a pixel gives a sample exactly when both its coordinates are multiples of the scan step and it passes the colour test |
| SmoothingTracker.FoldCount | Sources/BlueEmojiTracker/App/BlueEmojiTracker.swift:209 | the count is the number of samples |
| SmoothingTracker.FoldSums | Sources/BlueEmojiTracker/App/BlueEmojiTracker.swift:206-209 | the coordinate sums are non-negative and at most count times the largest coordinate |
| SmoothingTracker.Sensitivity | Sources/BlueEmojiTracker/App/BlueEmojiTracker.swift:221 | the sensitivity lies in [0.1, 1.0], is 0.1 up to 10 matches, count/100 from 10 to 100 and 1 from 100 on |
| SmoothingTracker.Located | Sources/BlueEmojiTracker/App/BlueEmojiTracker.swift:170-227 | a point exactly when the buffer exists and there are at least `minBluePixels` samples |
| SmoothingTracker.MeanBetween | Sources/BlueEmojiTracker/App/BlueEmojiTracker.swift:217-218 | the mean of values within a bound stays within it |
| SmoothingTracker.LocatedInsideFrame | Sources/BlueEmojiTracker/App/BlueEmojiTracker.swift:215-223 | the located point lies inside the image |
| SmoothingTracker.RowFoldIsFold | Sources/BlueEmojiTracker/App/BlueEmojiTracker.swift:195-211 | the row loop's accumulation equals folding the row's samples |
| SmoothingTracker.ScanFoldIsFold | Sources/BlueEmojiTracker/App/BlueEmojiTracker.swift:194-212 | the nested loops' accumulation equals folding all samples |
| SmoothingTracker.ScanRow | Sources/BlueEmojiTracker/App/BlueEmojiTracker.swift:195-211 | the inner loop computes the row fold |
| SmoothingTracker.ScanFrame | Sources/BlueEmojiTracker/App/BlueEmojiTracker.swift:194-212 | the nested loops compute the fold of all samples |
| SmoothingTracker.ImageToScreen | Sources/BlueEmojiTracker/App/BlueEmojiTracker.swift:258-284 | window mode without bounds returns the point; with bounds the offset from the origin times the scale (default 1) is the point; area mode shifts by the capture origin |
| SmoothingTracker.ScreenRoundTrip | Sources/BlueEmojiTracker/App/BlueEmojiTracker.swift:258-284 | mapping back from the screen recovers the image point |
| SmoothingTracker.Kept | Sources/BlueEmojiTracker/App/BlueEmojiTracker.swift:355-358 | the point is last, at most 5 are kept, the rest in order |
| SmoothingTracker.Eased | Sources/BlueEmojiTracker/App/BlueEmojiTracker.swift:340-341 | with a combined factor in [0, 1] the eased position lies between the mouse and the target |
| SmoothingTracker.EasedNeverOvershoots | Sources/BlueEmojiTracker/App/BlueEmojiTracker.swift:340-341 | with a smoothing factor in [0, 1] and a sensitivity from the scan the cursor never overshoots |
| SmoothingTracker.Final | Sources/BlueEmojiTracker/App/BlueEmojiTracker.swift:344-352 | without the lead it is the eased position; with it, a tenth of the velocity further |
| SmoothingTracker.CursorTracker.constructor | Sources/BlueEmojiTracker/App/BlueEmojiTracker.swift:8-17 | the initial state: no position, velocity or history, sensitivity 1, no misses |
| SmoothingTracker.CursorTracker.FindBlueObject | Sources/BlueEmojiTracker/App/BlueEmojiTracker.swift:170-228 | the result is `Located`; the sensitivity is set from the count only on success |
| SmoothingTracker.CursorTracker.UpdateCursorPosition | Sources/BlueEmojiTracker/App/BlueEmojiTracker.swift:287-365 | with no point only the miss counter grows and the velocity is zeroed past 5 misses; a point resets the counter; a move under the threshold changes nothing else; otherwise the velocity is blended 0.7/0.3 when time elapsed and the final point is posted, remembered and becomes the last position |
| SmoothingTracker.CursorTracker.Move | Sources/BlueEmojiTracker/App/BlueEmojiTracker.swift:324-364 | the velocity update and the posted final point |
| SmoothingTracker.CursorTracker.Update | Sources/BlueEmojiTracker/App/BlueEmojiTracker.swift:405-417 | without a capture nothing changes; otherwise the counter resets exactly when the scan finds a point, and a move is posted only then |
| SettingsValidation.ValidateSettings | BlueEmojiTracker/Config.swift:199-223 | passes exactly when the movement settings and the rectangle are acceptable; the colour guards never throw; a movement error exactly when the movement settings are bad, with the message of the first failing guard; a rectangle error exactly when only the rectangle is bad |
| SettingsValidation.ApplyAndValidateSettings | BlueEmojiTracker/Config.swift:225-236 | true exactly when validation passes |
| SettingsValidation.DefaultsNeedCaptureRect | BlueEmojiTracker/Config.swift:5-26 | the version is 3.5 and the defaults are the ones the unit test expects, fail only on the empty capture rectangle, and pass with any rectangle of positive size |

## Left out

- Screen and window capture, `CGContext` drawing and the data providers: the image arrives as a byte sequence with its layout. The byte order is modelled as each scan reads it: RGBA in `main.swift`, BGRA in the `Sources` tracker, and blue at offset 0 in the `App` variant even though its context is RGBA.
- Posting `CGEvent`s and reading `NSEvent.mouseLocation`: the posted position or click is a result and the mouse location a parameter. Event creation is taken to succeed.
- Timers, dispatch queues, `startTracking`/`stopTracking` scheduling and the availability checks: only the per-frame sequential step is modelled.
- `findBlueObjectUsingSimd`, `processBlueObjectResults` and `createOptimizedContext` of `BlueEmojiTracker/BlueEmojiTracker.swift`: the SIMD detector uses `Float` vectors; the ball radius is a given constant.
- `convertToScreenCoordinates`, `performMouseClick`, `setupCaptureRect` and `captureWindow`'s bounds lookup: OS calls or code that does not compile as written.
- `detectPlatform` of the `Sources` tracker: a scan of one image row for bright pixels that sets `platformPosition` and `platformWidth`, which nothing in the modelled step reads (only the accessor `getPaddleInfo` returns them).
- `moveCursorToBlueObject`, `moveCursorToInterceptBall` and `moveCursorTo` of the `Sources` tracker: they only post a mouse event at a shifted point, so `GravityTracker.Tracker.FollowObject` stops before them.
- Persistence (`saveSettings`, `loadSettings`), logging, the UI, `WindowManager` and `Logger`.
- IEEE floating-point rounding, NaN and infinities: all geometry is over `real`.
- `Bounce.PredictWithBounce`: requires width and height greater than two radii, which excludes fields the source accepts and finishes on: on an axis narrower than two radii, after the first bounce the time to the far wall is negative, so the other axis or the time-left exit takes the step. Only the termination proof needs the requirement, since its bounce counters are bounded by the gap between the walls. On an axis exactly two radii wide every iteration advances no time (`Bounce.NarrowFieldBouncesInPlace`). Its simulated time is a ghost out-parameter, and its closed-form result is stated only for a ball starting inside the field.
- `Bounce.LandingPoint`: requires width greater than two radii, which excludes narrower fields the source accepts and finishes on; only the termination proof needs it, as for `PredictWithBounce`; the closed form is stated only for a ball starting between the side walls.
- `BallController.Controller.constructor`: requires the capture area to be wider and taller than 20 (two ball radii), which the source does not demand: `setupGameField` accepts any capture area, including the zero-size default rectangle (`BlueEmojiTracker/Config.swift:20`). Only the termination proofs of the bounce loops need it.
- `BallController.Controller.UpdateDebugData`: states the stored predicted position as a result `PredictWithBounce` may give for some simulated time, not as the one its own call gave; the model does not know that two calls on the same history agree.
- `BallController.Controller.OptimalInterceptionPoint`: the bounce and landing inputs of the target are returned alongside it and stated by the outcomes of `PredictWithBounce` and `LandingPoint`; the bounce is stated for some simulated time, as in `UpdateDebugData`. The source runs the two predictions only in the strategies that use them; they change nothing, so running both always gives the same target.
- `BallController.Controller.ProcessBallPosition`: states the bounce input of the target and the stored debug prediction each as a result `PredictWithBounce` may give for some simulated time; it does not state that the two are the same value, as they are in the source, because the model does not know that two calls on the same history agree.
- `GravityTracker.Tracker.CalculateVelocity`: requires a non-zero time difference only on the path that divides by it (`BlueEmojiTracker/Sources/BlueEmojiTracker.swift:267-268`), where the source's `CGFloat` division by zero would give an infinity or NaN that `real` cannot hold.
- `GravityTracker.Tracker.FollowObject` and `GravityTracker.Tracker.ProcessFrame`: require the frame time to differ from the last one whenever one is known, which is wider than the division in `CalculateVelocity` needs: a frame with fewer than two samples or a move below the threshold never divides.
- `GravityTracker.Tracker.FollowObject`: does not state the velocity when a previous frame time exists, nor the trajectory in game mode; `CalculateVelocity` and `PredictTrajectory` state those.
- `GravityTracker.Tracker.ProcessFrame`: states the follow-up only as far as `FollowObject` does.
- `BlueScan.FindBlueObject`: requires `minBluePixels` of at least 1 (with a count of 0 the centre-of-mass branch is reached only when nothing matched, where the `CGFloat` division 0/0 gives NaN), red and green maxima of at most 205 (the `UInt8` sums `red + 50` and `green + 50` trap above that), and non-zero custom scales.
- `SmoothingTracker.CursorTracker.FindBlueObject`: requires a positive scan step and `minBluePixels` of at least 1; the sum of blue values is modelled (`Tally.blueSum`, accumulated by `ScanRow`) but nothing reads it, as in the source.
- `SmoothingTracker.CursorTracker.Update`: states which frames post a move, not the move itself; `UpdateCursorPosition` states that.
- `SmoothingTracker.ImageToScreen`: requires non-zero custom scales, since the source divides by them.
- `CursorFilter.LeadPoint`: the cap on the lead is stated only when `hypot` is the Euclidean length; the lead is computed as in the source and then dropped, as the source drops it.
