/** The per-frame controller of the standalone tracker (`BlueEmojiTracker`
    in `BlueEmojiTracker/BlueEmojiTracker.swift`): it records each detected
    ball position, refreshes the debug trajectory, sends the cursor to the
    interception point and presses or releases the mouse button.

    Posting mouse events is an output of the methods here (`moved`, `click`)
    and the length computed by Foundation's `hypot` is a parameter. */
module BallController {
  import opened Common
  import opened BallHistory
  import opened Bounce
  import opened Interception

  /** `distanceThreshold` of `moveCursorToPosition`. */
  const DistanceThreshold: real := 5.0

  /** The number of fixed steps of the debug trajectory. */
  const DebugSteps: nat := 10

  /** One fixed step of the debug trajectory: the 150 ms look-ahead split
      into `DebugSteps` (ten) parts. */
  const DebugTimeStep: real := PredictionTimeMs / 1000.0 / 10.0

  /** A simulated ball of the debug trajectory. */
  datatype Flight = Flight(x: real, y: real, vx: real, vy: real)

  /** One step of the debug trajectory: a velocity component is reversed
      whenever the centre is at or beyond the matching wall band (even when
      already moving away from it), then the centre moves on. */
  function DebugStep(f: Field, dt: real, s: Flight): (r: Flight)
    ensures Abs(r.vx) == Abs(s.vx) && Abs(r.vy) == Abs(s.vy)
  {
    var vx := if s.x <= f.radius || s.x >= f.width - f.radius then -s.vx else s.vx;
    var vy := if s.y <= f.radius || s.y >= f.height - f.radius then -s.vy else s.vy;
    Flight(s.x + vx * dt, s.y + vy * dt, vx, vy)
  }

  /** The simulated ball after `n` debug steps; its speed on each axis is
      that of the start. */
  function After(f: Field, dt: real, s: Flight, n: nat): (r: Flight)
    ensures Abs(r.vx) == Abs(s.vx) && Abs(r.vy) == Abs(s.vy)
    decreases n
  {
    if n == 0 then s else DebugStep(f, dt, After(f, dt, s, n - 1))
  }

  /** The first `n` points of the debug trajectory: the `i`-th is where the
      ball is after `i + 1` steps. */
  function DebugPath(f: Field, dt: real, s: Flight, n: nat): (r: seq<Point>)
    ensures |r| == n
    ensures forall i :: 0 <= i < n ==> r[i] == Point(After(f, dt, s, i + 1).x, After(f, dt, s, i + 1).y)
    decreases n
  {
    if n == 0 then []
    else
      var last := After(f, dt, s, n);
      DebugPath(f, dt, s, n - 1) + [Point(last.x, last.y)]
  }

  /** The body of the debug simulation loop: the velocity components
      flipped and the position moved, in place, as the source writes
      them. */
  method DebugAdvance(f: Field, dt: real, x: real, y: real, vx: real, vy: real)
    returns (x': real, y': real, vx': real, vy': real)
    ensures Flight(x', y', vx', vy') == DebugStep(f, dt, Flight(x, y, vx, vy))
  {
    x', y', vx', vy' := x, y, vx, vy;
    if x' <= f.radius || x' >= f.width - f.radius {
      vx' := -vx';
    }
    if y' <= f.radius || y' >= f.height - f.radius {
      vy' := -vy';
    }
    x' := x' + vx' * dt;
    y' := y' + vy' * dt;
  }

  /** The simulation loop of `updateDebugData`: `DebugSteps` fixed steps
      from `start`, each position appended as it is reached. */
  method SimulateDebugSteps(f: Field, start: Flight) returns (path: seq<Point>)
    ensures |path| == DebugSteps
    ensures path == DebugPath(f, DebugTimeStep, start, |path|)
  {
    path := [];
    var timeStep := DebugTimeStep;
    var x, y, vx, vy := start.x, start.y, start.vx, start.vy;
    var i := 0;
    while i < DebugSteps
      invariant 0 <= i <= DebugSteps
      invariant Flight(x, y, vx, vy) == After(f, timeStep, start, i)
      invariant path == DebugPath(f, timeStep, start, i)
    {
      x, y, vx, vy := DebugAdvance(f, timeStep, x, y, vx, vy);
      path := path + [Point(x, y)];
      i := i + 1;
    }
  }

  /** `to` lies more than `DistanceThreshold` from `from`, said without
      the square root: the sum of the squared offsets exceeds the squared
      threshold. */
  predicate FarApart(from: Point, to: Point)
  {
    var dx, dy := to.x - from.x, to.y - from.y;
    dx * dx + dy * dy > DistanceThreshold * DistanceThreshold
  }

  /** `hypot` exceeds the cursor threshold exactly when the sum of squares
      exceeds its square. */
  lemma FarEnoughToMove(hypot: (real, real) -> real, from: Point, to: Point)
    requires IsHypot(hypot)
    ensures hypot(to.x - from.x, to.y - from.y) > DistanceThreshold <==> FarApart(from, to)
  {
    var dx, dy := to.x - from.x, to.y - from.y;
    var d, s := hypot(dx, dy), dx * dx + dy * dy;
    RootBelow(d, s, DistanceThreshold);
    if s == DistanceThreshold * DistanceThreshold {
      SquareInjective(d, DistanceThreshold);
    }
  }

  /** The debug display state: `predictedTrajectory`, `landingPoint` and
      `lastPredictedPosition`. */
  datatype Debug = Debug(trajectory: seq<Point>, landing: Option<real>, predicted: Option<Point>)

  /** What `updateDebugData` makes of the debug state `before` for the
      history `history`: nothing changes when debugging is off; otherwise
      the trajectory is cleared and, given a velocity, becomes the
      `DebugSteps` points of the fixed-step simulation from the newest
      sample, the landing point is the result of `calculateLandingPoint()`
      and the predicted position a result of
      `predictBallPositionWithBounce()`. */
  ghost predicate Refreshed(f: Field, history: seq<Sample>, enabled: bool, before: Debug, after: Debug)
    requires f.width > 2.0 * f.radius && f.height > 2.0 * f.radius
  {
    if !enabled then after == before
    else if VelocityOf(history).None? then after == before.(trajectory := [])
    else
      var last, v := history[|history| - 1], VelocityOf(history).value;
      after.trajectory == DebugPath(f, DebugTimeStep, Flight(last.x, last.y, v.vx, v.vy), DebugSteps) &&
      LandingOutcome(f, history, after.landing) &&
      after.predicted.Some? && exists e :: BounceOutcome(f, history, after.predicted, e)
  }

  class Controller {
    /** `ballTracker`. */
    const tracker: BallTracker
    /** `gameFieldBounds` and `ballRadius`. */
    const field: Field
    /** `paddlePosition`: set once to the middle of the field, never read. */
    var paddlePosition: real
    var lastCursorPosition: Point
    var isMouseDown: bool
    var platformInOptimalPosition: bool
    var lastPosition: Point
    var enableDebugVisualization: bool
    var predictedTrajectory: seq<Point>
    var landingPoint: Option<real>
    var lastPredictedPosition: Option<Point>

    ghost predicate Valid()
      reads this, tracker
    {
      tracker.Valid() && field.width > 2.0 * field.radius && field.height > 2.0 * field.radius
    }

    /** The three debug fields together. */
    function DebugData(): Debug
      reads this
    {
      Debug(predictedTrajectory, landingPoint, lastPredictedPosition)
    }

    /** `init` after `setupGameField`: the field spans the capture area, the
        ball radius is 10 and the paddle starts in the middle. */
    constructor (width: real, height: real)
      requires width > 20.0 && height > 20.0
      ensures Valid() && fresh(tracker)
      ensures field == Field(width, height, 10.0) && paddlePosition == width / 2.0
      ensures tracker.positions == [] && predictedTrajectory == []
      ensures lastCursorPosition == Origin && lastPosition == Origin
      ensures !isMouseDown && !platformInOptimalPosition && !enableDebugVisualization
      ensures landingPoint.None? && lastPredictedPosition.None?
    {
      tracker := new BallTracker();
      field := Field(width, height, 10.0);
      paddlePosition := width / 2.0;
      lastCursorPosition := Origin;
      lastPosition := Origin;
      isMouseDown := false;
      platformInOptimalPosition := false;
      enableDebugVisualization := false;
      predictedTrajectory := [];
      landingPoint := None;
      lastPredictedPosition := None;
    }

    /** The keyboard monitor's handler for the `D` key. */
    method ToggleDebugVisualization()
      modifies this
      ensures enableDebugVisualization == !old(enableDebugVisualization)
      ensures predictedTrajectory == old(predictedTrajectory) && landingPoint == old(landingPoint)
      ensures lastPredictedPosition == old(lastPredictedPosition) && lastCursorPosition == old(lastCursorPosition)
      ensures isMouseDown == old(isMouseDown) && platformInOptimalPosition == old(platformInOptimalPosition)
      ensures lastPosition == old(lastPosition) && paddlePosition == old(paddlePosition)
    {
      enableDebugVisualization := !enableDebugVisualization;
    }

    /** `updateDebugData`: nothing when debugging is off; otherwise the
        trajectory is cleared and, given a velocity, refilled with the
        `DebugSteps` points of the fixed-step simulation, after which the
        bounce look-ahead (when it has a result) and the landing point are
        stored. */
    method UpdateDebugData()
      requires Valid()
      modifies this
      ensures Valid()
      ensures Refreshed(field, tracker.positions, old(enableDebugVisualization), old(DebugData()), DebugData())
      ensures enableDebugVisualization == old(enableDebugVisualization) && lastCursorPosition == old(lastCursorPosition)
      ensures isMouseDown == old(isMouseDown) && platformInOptimalPosition == old(platformInOptimalPosition)
      ensures lastPosition == old(lastPosition) && paddlePosition == old(paddlePosition)
    {
      if !enableDebugVisualization {
        return;
      }
      predictedTrajectory := [];
      var velocity := VelocityOf(tracker.positions);
      if velocity.Some? && |tracker.positions| >= 1 {
        var latest := tracker.positions[|tracker.positions| - 1];
        var path := SimulateDebugSteps(field, Flight(latest.x, latest.y, velocity.value.vx, velocity.value.vy));
        predictedTrajectory := predictedTrajectory + path;
        var predicted: Option<Point>;
        ghost var elapsed: real;
        predicted, elapsed := PredictWithBounce(field, tracker.positions);
        if predicted.Some? {
          lastPredictedPosition := predicted;
        }
        landingPoint := LandingPoint(field, tracker.positions);
      }
    }

    /** `moveCursorToPosition`: the cursor moves, and `lastCursorPosition`
        becomes `position`, when it is more than `DistanceThreshold` away
        from the last cursor position or the platform is in its optimal
        position; otherwise nothing changes. */
    method MoveCursorToPosition(hypot: (real, real) -> real, position: Point) returns (moved: bool)
      requires IsHypot(hypot)
      modifies this
      ensures moved <==> FarApart(old(lastCursorPosition), position) || old(platformInOptimalPosition)
      ensures lastCursorPosition == if moved then position else old(lastCursorPosition)
      ensures enableDebugVisualization == old(enableDebugVisualization) && predictedTrajectory == old(predictedTrajectory)
      ensures landingPoint == old(landingPoint) && lastPredictedPosition == old(lastPredictedPosition)
      ensures isMouseDown == old(isMouseDown) && platformInOptimalPosition == old(platformInOptimalPosition)
      ensures lastPosition == old(lastPosition) && paddlePosition == old(paddlePosition)
    {
      var distance := hypot(position.x - lastCursorPosition.x, position.y - lastCursorPosition.y);
      FarEnoughToMove(hypot, lastCursorPosition, position);
      moved := distance > DistanceThreshold || platformInOptimalPosition;
      if moved {
        lastCursorPosition := position;
      }
    }

    /** `checkMouseClickTiming`, whose decision is `ClickStep` on the
        velocity of the history. */
    method CheckMouseClickTiming(position: Point, optimalPosition: Point) returns (click: Option<Click>)
      requires Valid()
      modifies this
      ensures var step := ClickStep(ClickState(old(isMouseDown), old(platformInOptimalPosition)),
                                    VelocityOf(tracker.positions), position, optimalPosition, field.height);
        ClickState(isMouseDown, platformInOptimalPosition) == step.state && click == step.click
      ensures enableDebugVisualization == old(enableDebugVisualization) && predictedTrajectory == old(predictedTrajectory)
      ensures landingPoint == old(landingPoint) && lastPredictedPosition == old(lastPredictedPosition)
      ensures lastCursorPosition == old(lastCursorPosition)
      ensures lastPosition == old(lastPosition) && paddlePosition == old(paddlePosition)
    {
      click := None;
      var velocity := VelocityOf(tracker.positions);
      if velocity.None? {
        return;
      }
      var v := velocity.value;
      if v.vy > 0.0 {
        var distanceToPlatform := field.height - PaddleHeight - position.y;
        var timeToReachPlatform := distanceToPlatform / v.vy;
        if timeToReachPlatform < 0.1 && !isMouseDown {
          var expectedBallX := position.x + v.vx * timeToReachPlatform;
          var platformLeftEdge := optimalPosition.x - PaddleWidth / 2.0;
          var platformRightEdge := optimalPosition.x + PaddleWidth / 2.0;
          if expectedBallX >= platformLeftEdge && expectedBallX <= platformRightEdge {
            platformInOptimalPosition := true;
            click := Some(Press);
            isMouseDown := true;
          }
        }
      } else if isMouseDown {
        click := Some(Release);
        isMouseDown := false;
        platformInOptimalPosition := false;
      }
    }

    /** `calculateOptimalInterceptionPoint` on the speed of the current
        velocity, with `predictBallPositionWithBounce()` and
        `calculateLandingPoint()` run on the current history. Their results
        are returned as `bounce` and `landing`. */
    method OptimalInterceptionPoint(hypot: (real, real) -> real, position: Point)
      returns (target: Point, bounce: Option<Point>, landing: Option<real>)
      requires Valid() && IsHypot(hypot)
      ensures (exists e :: BounceOutcome(field, tracker.positions, bounce, e)) && LandingOutcome(field, tracker.positions, landing)
      ensures target == InterceptionTarget(field.width, field.height, position, VelocityOf(tracker.positions),
                                           |tracker.positions|, SpeedMagnitude(hypot, VelocityOf(tracker.positions)),
                                           bounce, landing)
    {
      var ballVelocity := VelocityOf(tracker.positions);
      var speedMagnitude := SpeedMagnitude(hypot, ballVelocity);
      var predicted: Option<Point>;
      ghost var elapsed: real;
      predicted, elapsed := PredictWithBounce(field, tracker.positions);
      var landingX := LandingPoint(field, tracker.positions);
      bounce, landing := predicted, landingX;
      target := InterceptionTarget(field.width, field.height, position, ballVelocity, |tracker.positions|,
                                   speedMagnitude, predicted, landingX);
    }

    /** `processBallPosition`: record the sample (taken at clock reading
        `now`), refresh the debug data, send the cursor to the interception
        point of the current speed and decide the click there. */
    method ProcessBallPosition(hypot: (real, real) -> real, position: Point, now: real)
      returns (target: Point, moved: bool, click: Option<Click>, bounce: Option<Point>, landing: Option<real>)
      requires Valid() && IsHypot(hypot)
      modifies this, tracker
      ensures Valid()
      ensures tracker.positions == Recorded(old(tracker.positions), Sample(position.x, position.y, now))
      ensures target.y == field.height - PaddleHeight / 2.0
      ensures VelocityOf(tracker.positions).None? ==> target.x == position.x
      ensures VelocityOf(tracker.positions).Some? ==>
        target.x >= PaddleWidth / 2.0 &&
        (field.width >= PaddleWidth ==> target.x <= field.width - PaddleWidth / 2.0)
      ensures (exists e :: BounceOutcome(field, tracker.positions, bounce, e)) && LandingOutcome(field, tracker.positions, landing)
      ensures target == InterceptionTarget(field.width, field.height, position, VelocityOf(tracker.positions),
                                           |tracker.positions|, SpeedMagnitude(hypot, VelocityOf(tracker.positions)),
                                           bounce, landing)
      ensures Refreshed(field, tracker.positions, old(enableDebugVisualization), old(DebugData()), DebugData())
      ensures enableDebugVisualization == old(enableDebugVisualization) && paddlePosition == old(paddlePosition)
      ensures moved <==> FarApart(old(lastCursorPosition), target) || old(platformInOptimalPosition)
      ensures lastCursorPosition == if moved then target else old(lastCursorPosition)
      ensures var step := ClickStep(ClickState(old(isMouseDown), old(platformInOptimalPosition)),
                                    VelocityOf(tracker.positions), position, target, field.height);
        ClickState(isMouseDown, platformInOptimalPosition) == step.state && click == step.click
      ensures lastPosition == position
    {
      tracker.AddPosition(position.x, position.y, now);
      ghost var history := tracker.positions;
      UpdateDebugData();
      ghost var debug := DebugData();
      assert Refreshed(field, history, old(enableDebugVisualization), old(DebugData()), debug);
      target, bounce, landing := OptimalInterceptionPoint(hypot, position);
      moved := MoveCursorToPosition(hypot, target);
      click := CheckMouseClickTiming(position, target);
      lastPosition := position;
      assert tracker.positions == history && DebugData() == debug;
    }
  }
}
