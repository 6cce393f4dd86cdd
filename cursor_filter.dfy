/** The cursor actuation filter of the screen-scanning `BlueEmojiTracker`
    (`moveCursorTo`): a dead zone, an adaptive sensitivity, a short history
    of targets, a first-difference velocity, a capped predictive lead that
    is computed but never used, and a choice between jumping straight to
    the target and easing towards it. The live mouse location and the
    clock are parameters; the posted mouse-move event is the method's
    result. */
module CursorFilter {
  import opened Common

  /** `positionsHistorySize`. */
  const PositionsHistorySize: nat := 5
  /** `minMeaningfulDistance`: closer targets are not worth a move. */
  const MinMeaningfulDistance: real := 3.0
  /** `maxPredictionDistance`: the longest lead the prediction may take. */
  const MaxPredictionDistance: real := 50.0
  /** `maxVelocity`: speeds above it ease no further. */
  const MaxVelocity: real := 1000.0

  /** The `Config` values `moveCursorTo` reads. `screenFrame` is the frame
      of `Config.selectedScreen`, absent when no screen is selected. */
  datatype Settings = Settings(
    useWindowMode: bool,
    windowBounds: Option<Rect>,
    screenFrame: Option<Rect>,
    movementThreshold: real,
    smoothingFactor: real,
    useMotionPrediction: bool)

  /** The area the cursor may be moved in: the tracked window's bounds in
      window mode when they are known, otherwise the selected screen's
      frame, otherwise none at all. */
  function TargetArea(s: Settings): (r: Option<Rect>)
    ensures s.useWindowMode && s.windowBounds.Some? ==> r == s.windowBounds
    ensures !(s.useWindowMode && s.windowBounds.Some?) ==> r == s.screenFrame
  {
    if s.useWindowMode && s.windowBounds.Some? then s.windowBounds else s.screenFrame
  }

  /** The target history after `p` is remembered: the oldest entry is
      dropped first when the history is already full, then `p` goes last. */
  function Remembered(history: seq<Point>, p: Point): (r: seq<Point>)
    requires |history| <= PositionsHistorySize
    ensures |r| == if |history| == PositionsHistorySize then PositionsHistorySize else |history| + 1
    ensures r[|r| - 1] == p
    ensures r[..|r| - 1] == history[|history| + 1 - |r|..]
  {
    var kept := if |history| >= PositionsHistorySize then history[1..] else history;
    kept + [p]
  }

  /** The sensitivity for a move of `distance`: one less a two-hundredth of
      the distance, kept within [0.5, 1.5]. */
  function AdaptiveSensitivity(distance: real): (s: real)
    ensures 0.5 <= s <= 1.5
    ensures distance >= MinMeaningfulDistance ==> s < 1.0
    ensures distance >= 100.0 ==> s == 0.5
    ensures 0.0 <= distance <= 100.0 ==> s + distance / 200.0 == 1.0
  {
    Min(Max(1.0 - distance / 200.0, 0.5), 1.5)
  }

  /** The smoothing factor at a given speed: the configured factor, eased
      by up to 40% as the speed approaches `MaxVelocity`, kept within
      [0.3, 0.9]. */
  function SmoothingFactor(smoothing: real, speed: real): (k: real)
    ensures 0.3 <= k <= 0.9
  {
    var velocityFactor := Min(speed, MaxVelocity) / 1000.0;
    Max(0.3, Min(0.9, smoothing * (1.0 - velocityFactor * 0.4)))
  }

  /** A faster target never gets a larger smoothing factor (for a
      non-negative configured factor): the cursor follows fast motion more
      cautiously, never more eagerly. */
  lemma SmoothingEasesWithSpeed(smoothing: real, slow: real, fast: real)
    requires smoothing >= 0.0 && slow <= fast
    ensures SmoothingFactor(smoothing, fast) <= SmoothingFactor(smoothing, slow)
  {
    var a, b := Min(slow, MaxVelocity) / 1000.0, Min(fast, MaxVelocity) / 1000.0;
    assert a <= b;
    var u, w := 1.0 - a * 0.4, 1.0 - b * 0.4;
    assert w <= u;
    ScaleMonotone(smoothing, w, u);
    assert SmoothingFactor(smoothing, fast) == Max(0.3, Min(0.9, smoothing * w));
    assert SmoothingFactor(smoothing, slow) == Max(0.3, Min(0.9, smoothing * u));
  }

  /** The predicted point: the target moved on by a tenth of a second at
      the current velocity, when at least three targets are remembered and
      the velocity's components sum to more than 10 in magnitude, with a
      lead longer than `MaxPredictionDistance` scaled back to exactly that.
      The cap holds when `hypot` is the Euclidean length. */
  function LeadPoint(hypot: (real, real) -> real, point: Point, vx: real, vy: real, historyCount: nat): (r: Point)
    ensures historyCount < 3 || Abs(vx) + Abs(vy) <= 10.0 ==> r == point
    ensures IsHypot(hypot) ==>
      var dx, dy := r.x - point.x, r.y - point.y;
      dx * dx + dy * dy <= MaxPredictionDistance * MaxPredictionDistance
  {
    if historyCount >= 3 && Abs(vx) + Abs(vy) > 10.0 then
      var dx, dy := vx * 0.1, vy * 0.1;
      var lead := CappedLead(dx, dy, hypot(dx, dy));
      Point(point.x + lead.x, point.y + lead.y)
    else point
  }

  /** The lead `(dx, dy)`, scaled back by `MaxPredictionDistance / distance`
      when its length `distance` is longer than `MaxPredictionDistance`. */
  function CappedLead(dx: real, dy: real, distance: real): (e: Point)
    ensures distance <= MaxPredictionDistance ==> e == Point(dx, dy)
    ensures distance >= 0.0 && distance * distance == dx * dx + dy * dy ==>
      e.x * e.x + e.y * e.y <= MaxPredictionDistance * MaxPredictionDistance
  {
    if distance > MaxPredictionDistance then
      var ratio := MaxPredictionDistance / distance;
      if distance * distance == dx * dx + dy * dy then
        ScaledLead(dx, dy, distance, ratio, dx * ratio, dy * ratio);
        Point(dx * ratio, dy * ratio)
      else
        Point(dx * ratio, dy * ratio)
    else
      if distance >= 0.0 && distance * distance == dx * dx + dy * dy then
        LeadWithinCap(dx, dy, distance);
        Point(dx, dy)
      else
        Point(dx, dy)
  }

  /** A lead of length `distance` scaled by `MaxPredictionDistance / distance`
      has length exactly `MaxPredictionDistance`. */
  lemma ScaledLead(dx: real, dy: real, distance: real, ratio: real, ex: real, ey: real)
    requires distance > 0.0 && distance * distance == dx * dx + dy * dy
    requires ratio == MaxPredictionDistance / distance
    requires ex == dx * ratio && ey == dy * ratio
    ensures ex * ex + ey * ey == MaxPredictionDistance * MaxPredictionDistance
  {
    var r2 := ratio * ratio;
    assert ex * ex == r2 * (dx * dx);
    assert ey * ey == r2 * (dy * dy);
    var d2 := distance * distance;
    assert ex * ex + ey * ey == r2 * d2;
    assert ratio * distance == MaxPredictionDistance;
  }

  /** A lead whose length is at most `MaxPredictionDistance` has a squared
      length at most its square. */
  lemma LeadWithinCap(dx: real, dy: real, distance: real)
    requires 0.0 <= distance <= MaxPredictionDistance
    requires distance * distance == dx * dx + dy * dy
    ensures dx * dx + dy * dy <= MaxPredictionDistance * MaxPredictionDistance
  {
    if distance < MaxPredictionDistance {
      SquareLess(distance, MaxPredictionDistance);
    }
  }

  /** The position the cursor is sent to once the move passes the
      threshold: with `direct` the motion target, which is the prediction
      only when prediction is on and the move is not direct; otherwise the
      mouse eased towards `point` by factor `k`. */
  function NewPosition(direct: bool, useMotionPrediction: bool, predicted: Point,
                       point: Point, mouse: Point, k: real): (r: Point)
    ensures direct ==> r == point
    ensures !direct ==> r == Lerp(mouse, point, k)
  {
    var target := if useMotionPrediction && !direct then predicted else point;
    if direct then target
    else Point(mouse.x + (point.x - mouse.x) * k, mouse.y + (point.y - mouse.y) * k)
  }

  /** The movement gate and the position chosen behind it: a move is
      posted when the target is further than the scaled threshold from the
      last posted position, or when nothing has been posted yet; it jumps
      straight to the target when the mouse is more than 50 away or the two
      distances disagree by more than 20, and otherwise eases the mouse
      towards the target by the speed-dependent smoothing factor. */
  function Placement(config: Settings, predicted: Point, point: Point, mouse: Point,
                     actual: real, calculated: real, sensitivity: real, firstMove: bool, speed: real): (r: Option<Point>)
    ensures r.Some? <==> calculated > config.movementThreshold * sensitivity || firstMove
    ensures r.Some? && (actual > 50.0 || Abs(calculated - actual) > 20.0) ==> r.value == point
    ensures r.Some? && !(actual > 50.0 || Abs(calculated - actual) > 20.0) ==>
      r.value == Lerp(mouse, point, SmoothingFactor(config.smoothingFactor, speed))
  {
    if calculated > config.movementThreshold * sensitivity || firstMove then
      var useDirect := actual > 50.0 || Abs(calculated - actual) > 20.0;
      var k := SmoothingFactor(config.smoothingFactor, speed);
      Some(NewPosition(useDirect, config.useMotionPrediction, predicted, point, mouse, k))
    else None
  }

  /** An eased position with a factor in [0.3, 0.9] lies on the segment
      from the mouse to the target, strictly past the mouse and short of
      the target unless the two coincide: each coordinate lies between
      the mouse's and the target's. */
  lemma EasedOnSegment(mouse: Point, point: Point, k: real)
    requires 0.3 <= k <= 0.9
    ensures var p := Lerp(mouse, point, k);
      Min(mouse.x, point.x) <= p.x <= Max(mouse.x, point.x) &&
      Min(mouse.y, point.y) <= p.y <= Max(mouse.y, point.y)
  {
    FractionBetween(mouse.x, point.x, k);
    FractionBetween(mouse.y, point.y, k);
  }

  /** The velocity after a move to `point`, `elapsed` seconds after the
      previous one from `last`: the displacement per second when time has
      passed and a position has been posted before, otherwise the velocity
      `v` as it was. */
  function VelocityAfter(v: Point, last: Point, point: Point, elapsed: real): (r: Point)
    ensures elapsed > 0.0 && last != Origin ==>
      r.x * elapsed == point.x - last.x && r.y * elapsed == point.y - last.y
    ensures !(elapsed > 0.0 && last != Origin) ==> r == v
  {
    if elapsed > 0.0 && last != Origin then
      Point((point.x - last.x) / elapsed, (point.y - last.y) / elapsed)
    else v
  }

  /** The tracking state `moveCursorTo` keeps between frames. */
  class CursorTracker {
    var lastPosition: Point
    var lastMoveTime: real
    var velocityX: real
    var velocityY: real
    var lastPositions: seq<Point>
    var adaptiveSensitivity: real
    var consecutiveNoMoveCount: nat

    ghost predicate Valid()
      reads this
    {
      |lastPositions| <= PositionsHistorySize && 0.5 <= adaptiveSensitivity <= 1.5
    }

    /** The initial state; `now` is the clock reading at creation. */
    constructor (now: real)
      ensures Valid()
      ensures lastPosition == Origin && lastMoveTime == now
      ensures velocityX == 0.0 && velocityY == 0.0 && lastPositions == []
      ensures adaptiveSensitivity == 1.0 && consecutiveNoMoveCount == 0
    {
      lastPosition := Origin;
      lastMoveTime := now;
      velocityX, velocityY := 0.0, 0.0;
      lastPositions := [];
      adaptiveSensitivity := 1.0;
      consecutiveNoMoveCount := 0;
    }

    /** The reset `startTracking` performs before its timer starts. */
    method StartTracking()
      requires Valid()
      modifies this
      ensures Valid()
      ensures lastPosition == Origin && lastPositions == []
      ensures velocityX == 0.0 && velocityY == 0.0 && consecutiveNoMoveCount == 0
      ensures lastMoveTime == old(lastMoveTime) && adaptiveSensitivity == old(adaptiveSensitivity)
    {
      lastPosition := Origin;
      lastPositions := [];
      velocityX := 0.0;
      velocityY := 0.0;
      consecutiveNoMoveCount := 0;
    }

    /** A frame in which no object was found: the miss is counted, and from
        the eleventh miss in a row on the velocity is dropped so that no
        stale motion carries over. */
    method ObjectMissed()
      requires Valid()
      modifies this
      ensures Valid()
      ensures consecutiveNoMoveCount == old(consecutiveNoMoveCount) + 1
      ensures consecutiveNoMoveCount > 10 ==> velocityX == 0.0 && velocityY == 0.0
      ensures consecutiveNoMoveCount <= 10 ==> velocityX == old(velocityX) && velocityY == old(velocityY)
      ensures lastPosition == old(lastPosition) && lastPositions == old(lastPositions)
      ensures lastMoveTime == old(lastMoveTime) && adaptiveSensitivity == old(adaptiveSensitivity)
    {
      consecutiveNoMoveCount := consecutiveNoMoveCount + 1;
      if consecutiveNoMoveCount > 10 {
        velocityX := 0.0;
        velocityY := 0.0;
      }
    }

    /** The bookkeeping of a move past the dead zone, `distance` away from
        the mouse: the miss counter is reset, the clock reading kept, the
        sensitivity adapted, the target remembered and the velocity
        re-measured; the last posted position is left for the gate. */
    method RecordMove(point: Point, now: real, distance: real)
      requires Valid() && distance >= MinMeaningfulDistance
      modifies this
      ensures Valid()
      ensures consecutiveNoMoveCount == 0 && lastMoveTime == now
      ensures adaptiveSensitivity == AdaptiveSensitivity(distance) && adaptiveSensitivity < 1.0
      ensures lastPositions == Remembered(old(lastPositions), point)
      ensures Point(velocityX, velocityY)
        == VelocityAfter(Point(old(velocityX), old(velocityY)), old(lastPosition), point, now - old(lastMoveTime))
      ensures lastPosition == old(lastPosition)
    {
      consecutiveNoMoveCount := 0;
      var elapsedTime := now - lastMoveTime;
      lastMoveTime := now;
      adaptiveSensitivity := AdaptiveSensitivity(distance);
      if |lastPositions| >= PositionsHistorySize {
        lastPositions := lastPositions[1..];
      }
      lastPositions := lastPositions + [point];
      var velocity := VelocityAfter(Point(velocityX, velocityY), lastPosition, point, elapsedTime);
      velocityX, velocityY := velocity.x, velocity.y;
    }

    /** `moveCursorTo(point:)` with the mouse at `mouse` and the clock at
        `now`; the result is the position of the posted mouse-move event,
        none when no event is posted. */
    method MoveCursorTo(hypot: (real, real) -> real, config: Settings, point: Point, mouse: Point, now: real)
      returns (posted: Option<Point>)
      requires Valid()
      modifies this
      ensures Valid()
      // no area, or a point outside it: nothing changes
      ensures TargetArea(config).None? || !Contains(TargetArea(config).value, point) ==>
        posted.None? &&
        lastPosition == old(lastPosition) && lastMoveTime == old(lastMoveTime) &&
        velocityX == old(velocityX) && velocityY == old(velocityY) &&
        lastPositions == old(lastPositions) && adaptiveSensitivity == old(adaptiveSensitivity) &&
        consecutiveNoMoveCount == old(consecutiveNoMoveCount)
      // inside the dead zone: only the miss counter moves
      ensures TargetArea(config).Some? && Contains(TargetArea(config).value, point) &&
              hypot(point.x - mouse.x, point.y - mouse.y) < MinMeaningfulDistance ==>
        posted.None? &&
        lastPosition == old(lastPosition) && lastMoveTime == old(lastMoveTime) &&
        velocityX == old(velocityX) && velocityY == old(velocityY) &&
        lastPositions == old(lastPositions) && adaptiveSensitivity == old(adaptiveSensitivity) &&
        consecutiveNoMoveCount == old(consecutiveNoMoveCount) + 1
      // a meaningful move
      ensures TargetArea(config).Some? && Contains(TargetArea(config).value, point) &&
              hypot(point.x - mouse.x, point.y - mouse.y) >= MinMeaningfulDistance ==>
        var actual := hypot(point.x - mouse.x, point.y - mouse.y);
        var calculated := hypot(point.x - old(lastPosition).x, point.y - old(lastPosition).y);
        consecutiveNoMoveCount == 0 && lastMoveTime == now &&
        adaptiveSensitivity == AdaptiveSensitivity(actual) && adaptiveSensitivity < 1.0 &&
        lastPositions == Remembered(old(lastPositions), point) &&
        Point(velocityX, velocityY)
          == VelocityAfter(Point(old(velocityX), old(velocityY)), old(lastPosition), point, now - old(lastMoveTime)) &&
        posted == Placement(config, LeadPoint(hypot, point, velocityX, velocityY, |lastPositions|), point, mouse,
                            actual, calculated, adaptiveSensitivity, old(lastPosition) == Origin, hypot(velocityX, velocityY))
      ensures lastPosition == if posted.Some? then posted.value else old(lastPosition)
    {
      posted := None;
      var area := TargetArea(config);
      if area.None? || !Contains(area.value, point) {
        return;
      }
      var actualDistance := hypot(point.x - mouse.x, point.y - mouse.y);
      if actualDistance < MinMeaningfulDistance {
        consecutiveNoMoveCount := consecutiveNoMoveCount + 1;
        return;
      }
      posted := Follow(hypot, config, point, mouse, now, actualDistance);
    }

    /** The rest of `moveCursorTo` once the target is in the area and
        `distance` away from the mouse, past the dead zone: the bookkeeping,
        the (unused) prediction and the movement gate. */
    method Follow(hypot: (real, real) -> real, config: Settings, point: Point, mouse: Point, now: real, distance: real)
      returns (posted: Option<Point>)
      requires Valid() && distance >= MinMeaningfulDistance
      modifies this
      ensures Valid()
      ensures
        var calculated := hypot(point.x - old(lastPosition).x, point.y - old(lastPosition).y);
        consecutiveNoMoveCount == 0 && lastMoveTime == now &&
        adaptiveSensitivity == AdaptiveSensitivity(distance) && adaptiveSensitivity < 1.0 &&
        lastPositions == Remembered(old(lastPositions), point) &&
        Point(velocityX, velocityY)
          == VelocityAfter(Point(old(velocityX), old(velocityY)), old(lastPosition), point, now - old(lastMoveTime)) &&
        posted == Placement(config, LeadPoint(hypot, point, velocityX, velocityY, |lastPositions|), point, mouse,
                            distance, calculated, adaptiveSensitivity, old(lastPosition) == Origin, hypot(velocityX, velocityY))
      ensures lastPosition == if posted.Some? then posted.value else old(lastPosition)
    {
      var calculatedDistance := hypot(point.x - lastPosition.x, point.y - lastPosition.y);
      RecordMove(point, now, distance);
      var predictedPoint := LeadPoint(hypot, point, velocityX, velocityY, |lastPositions|);
      posted := Placement(config, predictedPoint, point, mouse, distance, calculatedDistance,
                          adaptiveSensitivity, lastPosition == Origin, hypot(velocityX, velocityY));
      if posted.Some? {
        lastPosition := posted.value;
      }
    }
  }
}
