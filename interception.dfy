/** The interception policy of `BlueEmojiTracker`: the strategy the ball's
    speed selects, the point the paddle is sent to, and the press/release
    decisions for the mouse button. Everything here is a value computation;
    the controller in `BallController` holds the state it feeds. */
module Interception {
  import opened Common
  import opened BallHistory

  /** `slowVelocityThreshold` and `highVelocityThreshold`, in field units
      per second. */
  const SlowVelocityThreshold: real := 300.0
  const HighVelocityThreshold: real := 800.0

  /** `paddleWidth` and `paddleHeight`; the source never changes them. */
  const PaddleWidth: real := 60.0
  const PaddleHeight: real := 15.0

  // ---------------------------------------------------------------------
  // Speed and strategy

  /** The square of the speed, zero when there is no velocity. */
  function SpeedSquared(velocity: Option<Velocity>): real
  {
    match velocity
    case None => 0.0
    case Some(v) => v.vx * v.vx + v.vy * v.vy
  }

  /** `calculateSpeedMagnitude`: zero without a velocity, otherwise the
      square root of the sum of squares, taken by `hypot`. */
  function SpeedMagnitude(hypot: (real, real) -> real, velocity: Option<Velocity>): (s: real)
    requires IsHypot(hypot)
    ensures s >= 0.0 && s * s == SpeedSquared(velocity)
  {
    match velocity
    case None => 0.0
    case Some(v) => hypot(v.vx, v.vy)
  }

  datatype Regime = Slow | Medium | High

  /** The strategy `calculateOptimalInterceptionPoint` picks: slow below the
      first threshold, medium below the second, high otherwise. */
  function RegimeOf(speed: real): Regime
  {
    if speed < SlowVelocityThreshold then Slow
    else if speed < HighVelocityThreshold then Medium
    else High
  }

  /** The strategy read off the squared speed, with no square root: the
      values exactly on a threshold go to the faster strategy. */
  lemma RegimeBySquaredSpeed(hypot: (real, real) -> real, velocity: Option<Velocity>)
    requires IsHypot(hypot)
    ensures var r, q := RegimeOf(SpeedMagnitude(hypot, velocity)), SpeedSquared(velocity);
      (r == Slow <==> q < 90000.0) &&
      (r == Medium <==> 90000.0 <= q < 640000.0) &&
      (r == High <==> q >= 640000.0)
  {
    var s, q := SpeedMagnitude(hypot, velocity), SpeedSquared(velocity);
    RootBelow(s, q, SlowVelocityThreshold);
    RootBelow(s, q, HighVelocityThreshold);
  }

  // ---------------------------------------------------------------------
  // Target point

  /** The position each strategy leads from: the ball itself when slow;
      the bounce prediction when medium; the landing point, else the
      bounce prediction, when fast; the ball when the prediction it wants
      is missing. */
  function Anchor(regime: Regime, x: real, bounce: Option<Point>, landing: Option<real>): real
  {
    match regime
    case Slow => x
    case Medium => if bounce.Some? then bounce.value.x else x
    case High =>
      if landing.Some? then landing.value
      else if bounce.Some? then bounce.value.x
      else x
  }

  /** The sign `directionFactor` of the source: 1 for rightward motion,
      -1 otherwise. */
  function Direction(vx: real): (d: real)
    ensures d == 1.0 || d == -1.0
    ensures vx > 0.0 <==> d == 1.0
  {
    if vx > 0.0 then 1.0 else -1.0
  }

  /** The unclamped target X of each strategy, before `max`/`min`. */
  function RawTargetX(regime: Regime, x: real, v: Velocity, bounce: Option<Point>, landing: Option<real>): (r: real)
    ensures (r - Anchor(regime, x, bounce, landing)) * v.vx >= 0.0
    ensures v.vx == 0.0 ==> r == Anchor(regime, x, bounce, landing)
  {
    var lead := RawLead(regime, v.vx, bounce, landing);
    LeadFollowsMotion(regime, v.vx, bounce, landing);
    Anchor(regime, x, bounce, landing) + lead
  }

  /** How far each strategy leads its anchor. */
  function RawLead(regime: Regime, vx: real, bounce: Option<Point>, landing: Option<real>): real
  {
    match regime
    case Slow => vx * 0.1
    case Medium =>
      if bounce.Some? then (if Abs(vx) > 50.0 then Direction(vx) * PaddleWidth * 0.2 else 0.0)
      else vx * 0.2
    case High =>
      if landing.Some? then (if Abs(vx) > 100.0 then Direction(vx) * PaddleWidth * 0.3 else 0.0)
      else if bounce.Some? then vx * 0.3
      else vx * 0.4
  }

  /** Every lead points the way the ball moves horizontally, and there is
      none when it does not. */
  lemma LeadFollowsMotion(regime: Regime, vx: real, bounce: Option<Point>, landing: Option<real>)
    ensures RawLead(regime, vx, bounce, landing) * vx >= 0.0
    ensures vx == 0.0 ==> RawLead(regime, vx, bounce, landing) == 0.0
  {
    var lead := RawLead(regime, vx, bounce, landing);
    var sq := vx * vx;
    assert sq >= 0.0;
    if lead == Direction(vx) * PaddleWidth * 0.2 || lead == Direction(vx) * PaddleWidth * 0.3 {
      assert vx != 0.0;
      if vx > 0.0 {
        assert lead > 0.0;
      } else {
        assert lead < 0.0;
      }
    } else {
      assert lead == 0.0 || lead == vx * 0.1 || lead == vx * 0.2 || lead == vx * 0.3 || lead == vx * 0.4;
    }
  }

  /** `calculateOptimalInterceptionPoint`, with the results of
      `predictBallPositionWithBounce` (`bounce`) and `calculateLandingPoint`
      (`landing`) given as inputs: the paddle row of the field, and an X led
      by the chosen strategy and kept where the whole paddle fits. Without a
      velocity the ball's own X is used, unclamped. */
  function InterceptionTarget(fieldWidth: real, fieldHeight: real, current: Point, velocity: Option<Velocity>,
                              historyCount: nat, speed: real, bounce: Option<Point>, landing: Option<real>): (p: Point)
    ensures p.y == fieldHeight - PaddleHeight / 2.0
    ensures velocity.None? || historyCount < 1 ==> p.x == current.x
    ensures velocity.Some? && historyCount >= 1 ==>
      p.x >= PaddleWidth / 2.0 &&
      (fieldWidth >= PaddleWidth ==> p.x <= fieldWidth - PaddleWidth / 2.0)
    ensures velocity.Some? && historyCount >= 1 ==>
      var raw := RawTargetX(RegimeOf(speed), current.x, velocity.value, bounce, landing);
      (PaddleWidth / 2.0 <= raw <= fieldWidth - PaddleWidth / 2.0 ==> p.x == raw) &&
      (raw < PaddleWidth / 2.0 ==> p.x == PaddleWidth / 2.0) &&
      (raw > fieldWidth - PaddleWidth / 2.0 && fieldWidth >= PaddleWidth ==> p.x == fieldWidth - PaddleWidth / 2.0) &&
      (fieldWidth < PaddleWidth ==> p.x == PaddleWidth / 2.0)
  {
    var cursorY := fieldHeight - PaddleHeight / 2.0;
    if velocity.None? || historyCount < 1 then Point(current.x, cursorY)
    else
      var raw := RawTargetX(RegimeOf(speed), current.x, velocity.value, bounce, landing);
      Point(Clamp(raw, PaddleWidth / 2.0, fieldWidth - PaddleWidth / 2.0), cursorY)
  }

  // ---------------------------------------------------------------------
  // Mouse button

  /** `isMouseDown` and `platformInOptimalPosition`. */
  datatype ClickState = ClickState(mouseDown: bool, optimal: bool)

  datatype Click = Press | Release

  /** The new state and the click `performMouseClick` is asked for, if any. */
  datatype Step = Step(state: ClickState, click: Option<Click>)

  /** The ball reaches the paddle row within a tenth of a second, said
      without the division: the distance left is under a tenth of `vy`. */
  predicate ArrivesSoon(fieldHeight: real, y: real, vy: real)
  {
    fieldHeight - PaddleHeight - y < 0.1 * vy
  }

  /** `checkMouseClickTiming`: with the ball moving down, press when the
      button is up, the ball reaches the paddle row within 0.1 s and its X
      there is over the paddle; with the ball not moving down, release a
      pressed button; without a velocity, nothing. */
  function ClickStep(s: ClickState, velocity: Option<Velocity>, position: Point, target: Point,
                     fieldHeight: real): (r: Step)
    ensures r.click.None? ==> r.state == s
    ensures r.click == Some(Press) ==> !s.mouseDown && r.state == ClickState(true, true)
    ensures r.click == Some(Release) ==> s.mouseDown && r.state == ClickState(false, false)
    ensures r.click == Some(Press) <==>
      velocity.Some? && velocity.value.vy > 0.0 && !s.mouseDown &&
      ArrivesSoon(fieldHeight, position.y, velocity.value.vy) &&
      var ballX := position.x + velocity.value.vx * ((fieldHeight - PaddleHeight - position.y) / velocity.value.vy);
      target.x - PaddleWidth / 2.0 <= ballX <= target.x + PaddleWidth / 2.0
    ensures r.click == Some(Release) <==> velocity.Some? && velocity.value.vy <= 0.0 && s.mouseDown
  {
    match velocity
    case None => Step(s, None)
    case Some(v) =>
      if v.vy > 0.0 then
        var timeToReach := (fieldHeight - PaddleHeight - position.y) / v.vy;
        SoonMeansUnderATenth(fieldHeight - PaddleHeight - position.y, v.vy);
        if timeToReach < 0.1 && !s.mouseDown then
          var ballX := position.x + v.vx * timeToReach;
          if ballX >= target.x - PaddleWidth / 2.0 && ballX <= target.x + PaddleWidth / 2.0 then
            Step(ClickState(true, true), Some(Press))
          else Step(s, None)
        else Step(s, None)
      else if s.mouseDown then Step(ClickState(false, false), Some(Release))
      else Step(s, None)
  }

  lemma SoonMeansUnderATenth(d: real, vy: real)
    requires vy > 0.0
    ensures d / vy < 0.1 <==> d < 0.1 * vy
  {
    var q := d / vy;
    assert q * vy == d;
    if q < 0.1 {
      var a, b := q * vy, 0.1 * vy;
      assert a < b;
    } else {
      var a, b := q * vy, 0.1 * vy;
      assert a >= b;
    }
  }

  /** One frame's inputs to the click decision. */
  datatype Frame = Frame(velocity: Option<Velocity>, position: Point, target: Point, fieldHeight: real)

  /** The state and the clicks after a run of frames, in order. */
  datatype Trace = Trace(state: ClickState, clicks: seq<Click>)

  function Run(s: ClickState, frames: seq<Frame>): Trace
    decreases |frames|
  {
    if |frames| == 0 then Trace(s, [])
    else
      var before := Run(s, frames[..|frames| - 1]);
      var f := frames[|frames| - 1];
      var step := ClickStep(before.state, f.velocity, f.position, f.target, f.fieldHeight);
      Trace(step.state, before.clicks + (if step.click.Some? then [step.click.value] else []))
  }

  /** Clicks alternate, starting with the one the initial button state
      allows, and the final button state is the one the last click left. */
  predicate Alternating(startDown: bool, clicks: seq<Click>, endDown: bool)
  {
    (forall i :: 0 <= i < |clicks| ==> (clicks[i] == Press <==> (i % 2 == 0) == !startDown)) &&
    endDown == (if |clicks| % 2 == 0 then startDown else !startDown)
  }

  /** Over any run of frames the button is never pressed twice without a
      release in between, nor released twice without a press. */
  lemma {:induction false} NoDoublePress(s: ClickState, frames: seq<Frame>)
    ensures Alternating(s.mouseDown, Run(s, frames).clicks, Run(s, frames).state.mouseDown)
  {
    if |frames| > 0 {
      var before := Run(s, frames[..|frames| - 1]);
      NoDoublePress(s, frames[..|frames| - 1]);
      var f := frames[|frames| - 1];
      var step := ClickStep(before.state, f.velocity, f.position, f.target, f.fieldHeight);
      if step.click.Some? {
        ClickExtends(s.mouseDown, before.clicks, before.state.mouseDown, step.click.value, step.state.mouseDown);
      }
    }
  }

  /** A press from a released button, or a release from a pressed one,
      continues an alternating run. */
  lemma ClickExtends(startDown: bool, clicks: seq<Click>, midDown: bool, c: Click, endDown: bool)
    requires Alternating(startDown, clicks, midDown)
    requires c == Press ==> !midDown && endDown
    requires c == Release ==> midDown && !endDown
    ensures Alternating(startDown, clicks + [c], endDown)
  {
    var longer := clicks + [c];
    assert forall i :: 0 <= i < |clicks| ==> longer[i] == clicks[i];
  }
}
