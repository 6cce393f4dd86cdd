/** The ball's motion history (`BallTracker`): a first-in first-out list of
    at most ten time-stamped positions, the first-difference velocity of its
    last two samples and the straight-line extrapolation from the newest one. */
module BallHistory {
  import opened Common

  /** One observation: a position and the wall-clock time it was taken at. */
  datatype Sample = Sample(x: real, y: real, t: real)

  /** A velocity in field units per second. */
  datatype Velocity = Velocity(vx: real, vy: real)

  /** `maxPositions`. */
  const MaxPositions: nat := 10

  /** The history after `s` is recorded: appended last, and the oldest sample
      dropped once the count exceeds `MaxPositions`. */
  function Recorded(history: seq<Sample>, s: Sample): (r: seq<Sample>)
    requires |history| <= MaxPositions
    ensures |r| == if |history| == MaxPositions then MaxPositions else |history| + 1
    ensures r[|r| - 1] == s
    ensures r[..|r| - 1] == history[|history| + 1 - |r|..]
  {
    var appended := history + [s];
    if |appended| > MaxPositions then appended[1..] else appended
  }

  class BallTracker {
    var positions: seq<Sample>

    ghost predicate Valid()
      reads this
    {
      |positions| <= MaxPositions
    }

    constructor ()
      ensures Valid() && positions == []
    {
      positions := [];
    }

    /** `addPosition(x:y:)`; the clock reading `now` is a parameter. */
    method AddPosition(x: real, y: real, now: real)
      requires Valid()
      modifies this
      ensures Valid()
      ensures positions == Recorded(old(positions), Sample(x, y, now))
    {
      positions := positions + [Sample(x, y, now)];
      if |positions| > MaxPositions {
        positions := positions[1..];
      }
    }
  }

  /** `getVelocity()`: nothing with fewer than two samples or when the last
      two are not strictly increasing in time; otherwise the displacement
      between them divided by their time difference. */
  function VelocityOf(history: seq<Sample>): (r: Option<Velocity>)
    ensures r.None? <==> |history| < 2 || history[|history| - 1].t <= history[|history| - 2].t
    ensures r.Some? ==>
      var last, prev := history[|history| - 1], history[|history| - 2];
      r.value.vx * (last.t - prev.t) == last.x - prev.x &&
      r.value.vy * (last.t - prev.t) == last.y - prev.y
  {
    if |history| < 2 then None
    else
      var last, prev := history[|history| - 1], history[|history| - 2];
      var dt := last.t - prev.t;
      if dt <= 0.0 then None
      else Some(Velocity((last.x - prev.x) / dt, (last.y - prev.y) / dt))
  }

  /** `predictPosition(afterMs:)`: the newest position moved on by the
      current velocity for `afterMs` milliseconds, ignoring the walls. */
  function PredictPositionOf(history: seq<Sample>, afterMs: real): (r: Option<Point>)
    ensures r.None? <==> VelocityOf(history).None?
    ensures r.Some? ==>
      var last, v := history[|history| - 1], VelocityOf(history).value;
      r.value.x - last.x == v.vx * (afterMs / 1000.0) &&
      r.value.y - last.y == v.vy * (afterMs / 1000.0)
  {
    match VelocityOf(history)
    case None => None
    case Some(v) =>
      var last := history[|history| - 1];
      var seconds := afterMs / 1000.0;
      Some(Point(last.x + v.vx * seconds, last.y + v.vy * seconds))
  }

  /** Extrapolating by exactly the interval between the last two samples
      repeats their displacement once more: the prediction continues the
      observed motion. */
  lemma PredictionRepeatsLastStep(history: seq<Sample>)
    requires |history| >= 2
    requires history[|history| - 2].t < history[|history| - 1].t
    ensures
      var last, prev := history[|history| - 1], history[|history| - 2];
      PredictPositionOf(history, (last.t - prev.t) * 1000.0)
        == Some(Point(2.0 * last.x - prev.x, 2.0 * last.y - prev.y))
  {
    var last, prev := history[|history| - 1], history[|history| - 2];
    var dt := last.t - prev.t;
    var v := VelocityOf(history).value;
    assert (dt * 1000.0) / 1000.0 == dt;
    var ex, ey := v.vx * dt, v.vy * dt;
    assert ex == last.x - prev.x && ey == last.y - prev.y;
  }

  /** Recording a sample never loses the newest one and keeps the history
      within its bound, so after two recordings with increasing clock
      readings a velocity always exists. */
  lemma {:induction false} TwoRecordingsGiveVelocity(history: seq<Sample>, a: Sample, b: Sample)
    requires |history| <= MaxPositions
    requires a.t < b.t
    ensures VelocityOf(Recorded(Recorded(history, a), b)) == Some(Velocity((b.x - a.x) / (b.t - a.t), (b.y - a.y) / (b.t - a.t)))
  {
    var h1 := Recorded(history, a);
    var h2 := Recorded(h1, b);
    assert h1[|h1| - 1] == a;
    assert h2[..|h2| - 1] == h1[|h1| + 1 - |h2|..];
    assert h2[|h2| - 2] == h2[..|h2| - 1][|h2| - 2];
  }
}
