/** Wall bounces in the rectangular game field of the standalone tracker
    (`BlueEmojiTracker/BlueEmojiTracker.swift`): the time to the next wall on
    one axis, the 150 ms look-ahead that reflects the ball off all four
    walls, and the landing abscissa on the bottom edge that reflects it off
    the side walls only.

    Both simulations are proved against a closed form: on an axis where the
    centre may range over `[lo, lo + span]`, reflecting off the two ends is
    the same as flying straight on and folding the result back with the
    triangle wave `Fold`. */
module Bounce {
  import opened Common
  import opened BallHistory

  /** `gameFieldBounds` (whose origin is the field's own origin) together with
      `ballRadius`. */
  datatype Field = Field(width: real, height: real, radius: real)

  /** `predictionTimeMs`. */
  const PredictionTimeMs: real := 150.0

  /** The loop of the look-ahead stops once less than this many seconds are
      left to simulate. */
  const MinRemaining: real := 0.001

  /** The centre of a ball of the given radius fits on an axis of the given
      length. */
  predicate OnAxis(extent: real, radius: real, p: real)
  {
    radius <= p <= extent - radius
  }

  predicate InField(f: Field, p: Point)
  {
    OnAxis(f.width, f.radius, p.x) && OnAxis(f.height, f.radius, p.y)
  }

  /** `calculateTimeToXCollision` and `calculateTimeToYCollision`, which are
      the same computation on the two axes: the time until the centre,
      moving at `v`, reaches the wall it is heading for, or -1 when it does
      not move on this axis. The time is negative exactly when the centre is
      already past that wall. */
  function TimeToWall(extent: real, radius: real, p: real, v: real): (t: real)
    ensures v == 0.0 ==> t == -1.0
    ensures v != 0.0 ==> p + v * t == (if v > 0.0 then extent - radius else radius)
    ensures v != 0.0 ==> (t >= 0.0 <==> if v > 0.0 then p <= extent - radius else radius <= p)
  {
    if v > 0.0 then (extent - radius - p) / v
    else if v < 0.0 then (p - radius) / -v
    else -1.0
  }

  /** Moving on for `t` seconds brings the wall `t` seconds closer. */
  lemma WallAfterAdvance(extent: real, radius: real, p: real, v: real, t: real)
    requires v != 0.0
    ensures TimeToWall(extent, radius, p + v * t, v) == TimeToWall(extent, radius, p, v) - t
  {
    var t0, t1 := TimeToWall(extent, radius, p, v), TimeToWall(extent, radius, p + v * t, v);
    var a, b := v * t0, v * t1;
    assert v * (t1 - t0 + t) == b - a + v * t;
    assert v * (t1 - t0 + t) == 0.0;
  }

  /** Right after a bounce the opposite wall is one field width (less the
      ball's diameter) away. */
  lemma WallAfterBounce(extent: real, radius: real, p: real, v: real, tw: real, p1: real)
    requires v != 0.0 && tw == TimeToWall(extent, radius, p, v) && p1 == p + v * tw
    ensures TimeToWall(extent, radius, p1, -v) == (extent - 2.0 * radius) / Abs(v)
  {
  }

  /** A centre on the axis stays on it for as long as it does not pass the
      wall it is heading for. */
  lemma StayOnAxis(extent: real, radius: real, p: real, v: real, t: real)
    requires OnAxis(extent, radius, p) && t >= 0.0
    requires TimeToWall(extent, radius, p, v) < 0.0 || t <= TimeToWall(extent, radius, p, v)
    ensures OnAxis(extent, radius, p + v * t)
  {
    var tw := TimeToWall(extent, radius, p, v);
    if v != 0.0 {
      var a, b := v * t, v * tw;
      if v > 0.0 {
        assert a <= b;
      } else {
        assert b <= a;
      }
    }
  }

  /** The sentinel −1 is not reserved for a ball at rest: a ball one time
      unit past the wall it heads for gets −1 as well. */
  lemma PastWallGivesSentinel()
    ensures TimeToWall(100.0, 10.0, 95.0, 5.0) == -1.0
    ensures TimeToWall(100.0, 10.0, 5.0, -5.0) == -1.0
  {
  }

  /** On a field exactly one ball wide, a ball touching a side wall reaches
      the opposite "wall" at once in either direction: every bounce takes no
      time, so neither loop below would make progress. */
  lemma NarrowFieldBouncesInPlace(extent: real, radius: real, v: real)
    requires extent == 2.0 * radius && v != 0.0
    ensures TimeToWall(extent, radius, radius, v) == 0.0
    ensures TimeToWall(extent, radius, radius, -v) == 0.0
  {
  }

  // ---------------------------------------------------------------------
  // The closed form: free flight folded back onto the axis

  /** The triangle wave of period 2 that folds the real line onto `[0, 1]`. */
  function Tri(s: real): (t: real)
    ensures 0.0 <= t <= 1.0
  {
    var m := s - 2.0 * ((s / 2.0).Floor as real);
    if m <= 1.0 then m else 2.0 - m
  }

  lemma TriIdentity(s: real)
    requires 0.0 <= s <= 1.0
    ensures Tri(s) == s
  {
    assert (s / 2.0).Floor == 0;
  }

  /** Shifting by any whole number of periods. */
  lemma TriShift(s: real, m: int)
    ensures Tri(s + 2.0 * (m as real)) == Tri(s)
  {
    var k := 2.0 * (m as real);
    assert ((s + k) / 2.0).Floor == (s / 2.0).Floor + m;
  }

  lemma TriEven(s: real)
    ensures Tri(-s) == Tri(s)
  {
    var q := (s / 2.0).Floor;
    if s - 2.0 * (q as real) == 0.0 {
      assert (-s / 2.0).Floor == -q;
    } else {
      assert (-s / 2.0).Floor == -q - 1;
    }
  }

  lemma TriMirror(e: real)
    ensures Tri(1.0 + e) == Tri(1.0 - e)
  {
    TriEven(1.0 - e);
    TriShift(e - 1.0, 1);
    assert -(1.0 - e) == e - 1.0;
  }

  /** Where a centre that starts on `[lo, lo + span]` and would be at `p`
      in free flight actually is after reflecting off both ends. */
  function Fold(lo: real, span: real, p: real): (q: real)
    requires span > 0.0
    ensures lo <= q <= lo + span
  {
    var t := Tri((p - lo) / span);
    ScaleWithin(span, t);
    lo + span * t
  }

  lemma ScaleWithin(k: real, t: real)
    requires k > 0.0 && 0.0 <= t <= 1.0
    ensures 0.0 <= k * t <= k
  {
    var p, q := k * t, k * (1.0 - t);
    assert p >= 0.0 && q >= 0.0;
    assert p + q == k;
  }

  /** Folding leaves a point that is already on the axis where it is. */
  lemma FoldFixes(lo: real, span: real, p: real)
    requires span > 0.0 && lo <= p <= lo + span
    ensures Fold(lo, span, p) == p
  {
    var s := (p - lo) / span;
    assert 0.0 <= s <= 1.0;
    TriIdentity(s);
    assert span * s == p - lo;
  }

  /** Reflection in the low end. */
  lemma FoldMirrorLow(lo: real, span: real, d: real)
    requires span > 0.0
    ensures Fold(lo, span, lo + d) == Fold(lo, span, lo - d)
  {
    assert (lo + d - lo) / span == d / span;
    assert (lo - d - lo) / span == -(d / span);
    TriEven(d / span);
  }

  /** Reflection in the high end. */
  lemma FoldMirrorHigh(lo: real, span: real, d: real)
    requires span > 0.0
    ensures Fold(lo, span, lo + span + d) == Fold(lo, span, lo + span - d)
  {
    ShiftBySpan(span, d);
    ShiftBySpan(span, -d);
    assert lo + span + d - lo == span + d;
    assert lo + span - d - lo == span + -d;
    assert -d / span == -(d / span);
    TriMirror(d / span);
  }

  lemma ShiftBySpan(k: real, d: real)
    requires k > 0.0
    ensures (k + d) / k == 1.0 + d / k
  {
    var a, b := d / k, (k + d) / k;
    assert a * k == d;
    assert b * k == k + d;
    var c := b - 1.0 - a;
    assert c * k == b * k - k - a * k;
    assert c * k == 0.0;
  }

  /** Shifting by a whole number of round trips does not change the
      folded position. */
  lemma FoldPeriodic(lo: real, span: real, q: real, m: int)
    requires span > 0.0
    ensures Fold(lo, span, q + 2.0 * (m as real) * span) == Fold(lo, span, q)
  {
    var a, b := (q - lo) / span, (q + 2.0 * (m as real) * span - lo) / span;
    var k := 2.0 * (m as real);
    assert a * span == q - lo;
    assert b * span == q + k * span - lo;
    var c := b - a - k;
    assert c * span == b * span - a * span - k * span;
    assert c * span == 0.0;
    assert b == a + k;
    TriShift(a, m);
  }

  /** Where a centre that starts at `p0` on an axis of length `extent`
      and moves at `v0` is after `t` seconds of reflecting off both ends:
      its free flight, folded back onto the axis. */
  function FoldedFlight(extent: real, radius: real, p0: real, v0: real, t: real): (q: real)
    requires extent > 2.0 * radius
    ensures OnAxis(extent, radius, q)
  {
    Fold(radius, extent - 2.0 * radius, p0 + v0 * t)
  }

  /** How the simulated centre `p`, moving at `v`, relates to the free
      flight from `(p0, v0)` after `elapsed` seconds: either the same
      direction and an even number of spans away from it, or mirrored in the
      low end and moving the other way. */
  ghost predicate Unfolds(extent: real, radius: real, p0: real, v0: real, elapsed: real, p: real, v: real, m: int)
  {
    var lo, span, u := radius, extent - 2.0 * radius, p0 + v0 * elapsed;
    (v == v0 && p == u + 2.0 * (m as real) * span) ||
    (v == -v0 && p == 2.0 * lo - u + 2.0 * (m as real) * span)
  }

  lemma UnfoldStart(extent: real, radius: real, p0: real, v0: real)
    ensures Unfolds(extent, radius, p0, v0, 0.0, p0, v0, 0)
  {
  }

  /** Moving on for `t` seconds, to `p1` at time `e1`, keeps the relation. */
  lemma UnfoldAdvance(extent: real, radius: real, p0: real, v0: real, elapsed: real, p: real, v: real, m: int,
                      t: real, p1: real, e1: real)
    requires Unfolds(extent, radius, p0, v0, elapsed, p, v, m)
    requires p1 == p + v * t && e1 == elapsed + t
    ensures Unfolds(extent, radius, p0, v0, e1, p1, v, m)
  {
    var u, u1 := p0 + v0 * elapsed, p0 + v0 * e1;
    assert u1 == u + v0 * t;
  }

  /** Moving up to the wall ahead, reaching it at `p1` at time `e1`, and
      reversing keeps the relation, with a new number `m'` of round trips. */
  lemma UnfoldBounce(extent: real, radius: real, p0: real, v0: real, elapsed: real, p: real, v: real, m: int,
                     t: real, p1: real, e1: real)
    returns (m': int)
    requires Unfolds(extent, radius, p0, v0, elapsed, p, v, m)
    requires t == TimeToWall(extent, radius, p, v) && t >= 0.0
    requires p1 == p + v * t && e1 == elapsed + t
    ensures Unfolds(extent, radius, p0, v0, e1, p1, -v, m')
  {
    var lo, span, u, u1 := radius, extent - 2.0 * radius, p0 + v0 * elapsed, p0 + v0 * e1;
    assert u1 == u + v0 * t;
    var k := m as real;
    if v > 0.0 {
      m' := 1 - m;
    } else {
      m' := -m;
    }
    assert 2.0 * (m' as real) * span == (if v > 0.0 then 2.0 * span - 2.0 * k * span else -2.0 * k * span);
  }

  /** A centre that is on the axis is at the folded free-flight position. */
  lemma UnfoldIsFold(extent: real, radius: real, p0: real, v0: real, elapsed: real, p: real, v: real, m: int)
    requires extent > 2.0 * radius && OnAxis(extent, radius, p)
    requires Unfolds(extent, radius, p0, v0, elapsed, p, v, m)
    ensures p == FoldedFlight(extent, radius, p0, v0, elapsed)
  {
    var lo, span, u := radius, extent - 2.0 * radius, p0 + v0 * elapsed;
    var shift := 2.0 * (m as real) * span;
    FoldFixes(lo, span, p);
    assert Fold(lo, span, u) == FoldedFlight(extent, radius, p0, v0, elapsed);
    if v == v0 && p == u + shift {
      FoldPeriodic(lo, span, u, m);
    } else {
      var q := 2.0 * lo - u;
      assert p == q + shift;
      FoldPeriodic(lo, span, q, m);
      FoldMirrorLow(lo, span, lo - u);
      assert lo + (lo - u) == q && lo - (lo - u) == u;
    }
  }

  // ---------------------------------------------------------------------
  // Termination: how many bounces fit in a finite time

  /** The time between two bounces on one axis at speed `|v0|`. */
  ghost function Gap(extent: real, radius: real, v0: real): real
    requires v0 != 0.0
  {
    (extent - 2.0 * radius) / Abs(v0)
  }

  /** An upper bound on the bounces that fit in `horizon` seconds. */
  ghost function Bound(extent: real, radius: real, v0: real, horizon: real): int
  {
    if v0 == 0.0 || extent <= 2.0 * radius || horizon < 0.0 then 0
    else (horizon / Gap(extent, radius, v0)).Floor + 1
  }

  /** `n` bounces have happened on this axis by `elapsed`, the speed is still
      `|v0|`, and the next bounce cannot come before `n` whole gaps. */
  ghost predicate Counted(extent: real, radius: real, v0: real, p: real, v: real, elapsed: real, n: nat, horizon: real)
  {
    extent > 2.0 * radius && (v == v0 || v == -v0) && (v0 == 0.0 ==> n == 0) &&
    n <= Bound(extent, radius, v0, horizon) &&
    (v0 != 0.0 && n > 0 ==> elapsed + TimeToWall(extent, radius, p, v) >= n as real * Gap(extent, radius, v0))
  }

  lemma CountAdvance(extent: real, radius: real, v0: real, p: real, v: real, elapsed: real, n: nat, horizon: real,
                     t: real, p1: real, e1: real)
    requires Counted(extent, radius, v0, p, v, elapsed, n, horizon)
    requires p1 == p + v * t && e1 == elapsed + t
    ensures Counted(extent, radius, v0, p1, v, e1, n, horizon)
  {
    if v0 != 0.0 {
      WallAfterAdvance(extent, radius, p, v, t);
    }
  }

  lemma CountBounce(extent: real, radius: real, v0: real, p: real, v: real, elapsed: real, n: nat, horizon: real,
                    tw: real, p1: real, e1: real)
    requires Counted(extent, radius, v0, p, v, elapsed, n, horizon)
    requires tw == TimeToWall(extent, radius, p, v) && tw >= 0.0
    requires p1 == p + v * tw && e1 == elapsed + tw
    requires elapsed >= 0.0 && e1 <= horizon
    ensures Counted(extent, radius, v0, p1, -v, e1, n + 1, horizon)
  {
    WallAfterBounce(extent, radius, p, v, tw, p1);
    NextGap(extent, radius, v0, v, n, e1, horizon, TimeToWall(extent, radius, p1, -v));
  }

  /** After `n` whole gaps, a bounce within the horizon still fits the bound,
      and the wall after it is one more gap away. */
  lemma NextGap(extent: real, radius: real, v0: real, v: real, n: nat, e1: real, horizon: real, next: real)
    requires extent > 2.0 * radius && v != 0.0 && (v == v0 || v == -v0)
    requires n as real * Gap(extent, radius, v0) <= e1 <= horizon
    requires next == (extent - 2.0 * radius) / Abs(v)
    ensures n + 1 <= Bound(extent, radius, v0, horizon)
    ensures e1 + next >= (n + 1) as real * Gap(extent, radius, v0)
  {
    var g := Gap(extent, radius, v0);
    assert Abs(v) == Abs(v0);
    CountWithinBound(n, g, horizon);
    var ng := n as real * g;
    assert (n + 1) as real * g == ng + g;
  }

  /** `n` gaps of length `g` fit in `horizon` only if `n` is at most the
      whole number of them that do. */
  lemma CountWithinBound(n: nat, g: real, horizon: real)
    requires g > 0.0 && n as real * g <= horizon
    ensures n <= (horizon / g).Floor
  {
    var q := horizon / g;
    assert q * g == horizon;
    assert n as real <= q;
    var fl := q.Floor;
    assert n < fl + 1;
  }

  // ---------------------------------------------------------------------
  // The two simulations

  /** Everything the simulation keeps about one axis: the unfolding into
      free flight, the bounce count, and (for a start inside the field) the
      centre staying between the walls. */
  ghost predicate Tracked(extent: real, radius: real, p0: real, v0: real, horizon: real, inside: bool,
                          elapsed: real, p: real, v: real, m: int, n: nat)
  {
    Unfolds(extent, radius, p0, v0, elapsed, p, v, m) &&
    Counted(extent, radius, v0, p, v, elapsed, n, horizon) &&
    (inside ==> OnAxis(extent, radius, p))
  }

  /** A flight of `t` seconds on one axis that ends on that axis's wall:
      the unfolding, the bounce count and (for a start inside the field)
      the stay between the walls all carry over, with the velocity reversed. */
  lemma BounceAxis(extent: real, radius: real, p0: real, v0: real, horizon: real, inside: bool,
                   elapsed: real, p: real, v: real, m: int, n: nat,
                   t: real, p1: real, e1: real)
    returns (m': int)
    requires Tracked(extent, radius, p0, v0, horizon, inside, elapsed, p, v, m, n)
    requires t == TimeToWall(extent, radius, p, v) && t >= 0.0
    requires p1 == p + v * t && e1 == elapsed + t
    requires elapsed >= 0.0 && e1 <= horizon
    ensures Tracked(extent, radius, p0, v0, horizon, inside, e1, p1, -v, m', n + 1)
  {
    CountBounce(extent, radius, v0, p, v, elapsed, n, horizon, t, p1, e1);
    if inside {
      StayOnAxis(extent, radius, p, v, t);
    }
    m' := UnfoldBounce(extent, radius, p0, v0, elapsed, p, v, m, t, p1, e1);
  }

  /** A flight of `t` seconds on one axis that does not pass that axis's
      wall: the same carry-over, with the velocity unchanged. */
  lemma AdvanceAxis(extent: real, radius: real, p0: real, v0: real, horizon: real, inside: bool,
                    elapsed: real, p: real, v: real, m: int, n: nat,
                    t: real, p1: real, e1: real)
    requires Tracked(extent, radius, p0, v0, horizon, inside, elapsed, p, v, m, n)
    requires t >= 0.0
    requires TimeToWall(extent, radius, p, v) < 0.0 || t <= TimeToWall(extent, radius, p, v)
    requires p1 == p + v * t && e1 == elapsed + t
    ensures Tracked(extent, radius, p0, v0, horizon, inside, e1, p1, v, m, n)
  {
    CountAdvance(extent, radius, v0, p, v, elapsed, n, horizon, t, p1, e1);
    if inside {
      StayOnAxis(extent, radius, p, v, t);
    }
    UnfoldAdvance(extent, radius, p0, v0, elapsed, p, v, m, t, p1, e1);
  }

  /** The result `r` of `predictBallPositionWithBounce()` after simulating
      `elapsed` seconds: none exactly when there is no velocity; otherwise
      `elapsed` falls within a millisecond of the 150 ms look-ahead and, for
      a ball that starts inside the field, `r` is the folded free-flight
      position at that time. */
  predicate BounceOutcome(f: Field, history: seq<Sample>, r: Option<Point>, elapsed: real)
    requires f.width > 2.0 * f.radius && f.height > 2.0 * f.radius
  {
    (r.None? <==> VelocityOf(history).None?) &&
    (r.Some? ==> PredictionTimeMs / 1000.0 - MinRemaining <= elapsed <= PredictionTimeMs / 1000.0) &&
    (r.Some? && InField(f, Point(history[|history| - 1].x, history[|history| - 1].y)) ==>
      var last, v := history[|history| - 1], VelocityOf(history).value;
      r.value == Point(FoldedFlight(f.width, f.radius, last.x, v.vx, elapsed),
                       FoldedFlight(f.height, f.radius, last.y, v.vy, elapsed)))
  }

  /** `predictBallPositionWithBounce()`: from the newest sample, run the ball
      for 150 ms, each time up to whichever wall comes first (the top or
      bottom one on a tie), reversing the velocity component on impact, and
      stop as soon as no wall is reached in the time left or less than a
      millisecond is left. The ghost result `elapsed` is the time actually
      simulated; for a ball that starts inside the field the result is the
      folded free-flight position at that time. */
  method PredictWithBounce(f: Field, history: seq<Sample>) returns (r: Option<Point>, ghost elapsed: real)
    requires f.width > 2.0 * f.radius && f.height > 2.0 * f.radius
    ensures r.None? <==> VelocityOf(history).None?
    ensures BounceOutcome(f, history, r, elapsed)
  {
    elapsed := 0.0;
    var velocity := VelocityOf(history);
    if velocity.None? {
      return None, elapsed;
    }
    var v := velocity.value;
    var last := history[|history| - 1];
    var x, y, vx, vy := last.x, last.y, v.vx, v.vy;
    var remaining := PredictionTimeMs / 1000.0;
    ghost var horizon := remaining;
    ghost var inside := InField(f, Point(last.x, last.y));
    ghost var mx, my := 0, 0;
    ghost var nX: nat, nY: nat := 0, 0;
    UnfoldStart(f.width, f.radius, last.x, v.vx);
    UnfoldStart(f.height, f.radius, last.y, v.vy);
    while remaining > MinRemaining
      invariant 0.0 <= remaining && elapsed >= 0.0 && elapsed + remaining == horizon
      invariant Tracked(f.width, f.radius, last.x, v.vx, horizon, inside, elapsed, x, vx, mx, nX)
      invariant Tracked(f.height, f.radius, last.y, v.vy, horizon, inside, elapsed, y, vy, my, nY)
      decreases Bound(f.width, f.radius, v.vx, horizon) - nX + Bound(f.height, f.radius, v.vy, horizon) - nY
    {
      var tX := TimeToWall(f.width, f.radius, x, vx);
      var tY := TimeToWall(f.height, f.radius, y, vy);
      if tX < 0.0 && tY < 0.0 {
        FlyOut(f, last, v, x, y, vx, vy, mx, my, elapsed, remaining, inside);
        x := x + vx * remaining;
        y := y + vy * remaining;
        elapsed := elapsed + remaining;
        return Some(Point(x, y)), elapsed;
      }
      if (tX >= 0.0 && tX < tY) || tY < 0.0 {
        if tX <= remaining {
          mx := BounceAxis(f.width, f.radius, last.x, v.vx, horizon, inside, elapsed, x, vx, mx, nX, tX, x + vx * tX, elapsed + tX);
          AdvanceAxis(f.height, f.radius, last.y, v.vy, horizon, inside, elapsed, y, vy, my, nY, tX, y + vy * tX, elapsed + tX);
          x := x + vx * tX;
          y := y + vy * tX;
          remaining := remaining - tX;
          vx := -vx;
          nX, elapsed := nX + 1, elapsed + tX;
        } else {
          FlyOut(f, last, v, x, y, vx, vy, mx, my, elapsed, remaining, inside);
          x := x + vx * remaining;
          y := y + vy * remaining;
          elapsed := elapsed + remaining;
          return Some(Point(x, y)), elapsed;
        }
      } else {
        if tY <= remaining {
          AdvanceAxis(f.width, f.radius, last.x, v.vx, horizon, inside, elapsed, x, vx, mx, nX, tY, x + vx * tY, elapsed + tY);
          my := BounceAxis(f.height, f.radius, last.y, v.vy, horizon, inside, elapsed, y, vy, my, nY, tY, y + vy * tY, elapsed + tY);
          x := x + vx * tY;
          y := y + vy * tY;
          remaining := remaining - tY;
          vy := -vy;
          nY, elapsed := nY + 1, elapsed + tY;
        } else {
          FlyOut(f, last, v, x, y, vx, vy, mx, my, elapsed, remaining, inside);
          x := x + vx * remaining;
          y := y + vy * remaining;
          elapsed := elapsed + remaining;
          return Some(Point(x, y)), elapsed;
        }
      }
    }
    if inside {
      UnfoldIsFold(f.width, f.radius, last.x, v.vx, elapsed, x, vx, mx);
      UnfoldIsFold(f.height, f.radius, last.y, v.vy, elapsed, y, vy, my);
    }
    return Some(Point(x, y)), elapsed;
  }

  /** Flying out the last `t` seconds without reaching a wall ends a
      simulation that started inside the field at the folded free-flight
      position. */
  lemma FlyOut(f: Field, last: Sample, v: Velocity, x: real, y: real, vx: real, vy: real,
               mx: int, my: int, elapsed: real, t: real, inside: bool)
    requires f.width > 2.0 * f.radius && f.height > 2.0 * f.radius && t >= 0.0
    requires Unfolds(f.width, f.radius, last.x, v.vx, elapsed, x, vx, mx)
    requires Unfolds(f.height, f.radius, last.y, v.vy, elapsed, y, vy, my)
    requires inside ==> InField(f, Point(x, y))
    requires TimeToWall(f.width, f.radius, x, vx) < 0.0 || t <= TimeToWall(f.width, f.radius, x, vx)
    requires TimeToWall(f.height, f.radius, y, vy) < 0.0 || t <= TimeToWall(f.height, f.radius, y, vy)
    ensures inside ==>
      x + vx * t == FoldedFlight(f.width, f.radius, last.x, v.vx, elapsed + t) &&
      y + vy * t == FoldedFlight(f.height, f.radius, last.y, v.vy, elapsed + t)
  {
    if inside {
      StayOnAxis(f.width, f.radius, x, vx, t);
      StayOnAxis(f.height, f.radius, y, vy, t);
      UnfoldAdvance(f.width, f.radius, last.x, v.vx, elapsed, x, vx, mx, t, x + vx * t, elapsed + t);
      UnfoldAdvance(f.height, f.radius, last.y, v.vy, elapsed, y, vy, my, t, y + vy * t, elapsed + t);
      UnfoldIsFold(f.width, f.radius, last.x, v.vx, elapsed + t, x + vx * t, vx, mx);
      UnfoldIsFold(f.height, f.radius, last.y, v.vy, elapsed + t, y + vy * t, vy, my);
    }
  }

  /** The result `r` of `calculateLandingPoint()`: some exactly when the
      ball moves down; then the current abscissa when the ball is at or
      below the bottom band, and otherwise, for a ball between the side
      walls, the folded free-flight abscissa at the moment of landing. */
  predicate LandingOutcome(f: Field, history: seq<Sample>, r: Option<real>)
    requires f.width > 2.0 * f.radius
  {
    (r.Some? <==> VelocityOf(history).Some? && VelocityOf(history).value.vy > 0.0) &&
    (r.Some? ==>
      var last, v := history[|history| - 1], VelocityOf(history).value;
      if last.y >= f.height - f.radius then r.value == last.x
      else OnAxis(f.width, f.radius, last.x) ==>
        r.value == FoldedFlight(f.width, f.radius, last.x, v.vx, (f.height - f.radius - last.y) / v.vy))
  }

  /** `calculateLandingPoint()`: for a ball moving down, the abscissa at
      which it reaches the bottom edge, reflecting off the side walls on the
      way; the current abscissa when it is already at or below that edge.
      For a ball that starts between the side walls this is the folded
      free-flight abscissa at the moment of landing. */
  method LandingPoint(f: Field, history: seq<Sample>) returns (r: Option<real>)
    requires f.width > 2.0 * f.radius
    ensures LandingOutcome(f, history, r)
  {
    var velocity := VelocityOf(history);
    if velocity.None? || velocity.value.vy <= 0.0 {
      return None;
    }
    var v := velocity.value;
    var last := history[|history| - 1];
    if last.y >= f.height - f.radius {
      return Some(last.x);
    }
    var timeToBottom := (f.height - f.radius - last.y) / v.vy;
    var x, vx := last.x, v.vx;
    var remaining := timeToBottom;
    ghost var inside := OnAxis(f.width, f.radius, last.x);
    ghost var m, elapsed := 0, 0.0;
    ghost var nX: nat := 0;
    UnfoldStart(f.width, f.radius, last.x, v.vx);
    while remaining > 0.0
      invariant 0.0 <= remaining && elapsed >= 0.0 && elapsed + remaining == timeToBottom
      invariant Tracked(f.width, f.radius, last.x, v.vx, timeToBottom, inside, elapsed, x, vx, m, nX)
      decreases Bound(f.width, f.radius, v.vx, timeToBottom) - nX
    {
      var tX := TimeToWall(f.width, f.radius, x, vx);
      if tX < 0.0 || tX > remaining {
        if inside {
          StayOnAxis(f.width, f.radius, x, vx, remaining);
          UnfoldAdvance(f.width, f.radius, last.x, v.vx, elapsed, x, vx, m, remaining, x + vx * remaining, timeToBottom);
          UnfoldIsFold(f.width, f.radius, last.x, v.vx, timeToBottom, x + vx * remaining, vx, m);
        }
        x := x + vx * remaining;
        return Some(x);
      }
      m := BounceAxis(f.width, f.radius, last.x, v.vx, timeToBottom, inside, elapsed, x, vx, m, nX, tX, x + vx * tX, elapsed + tX);
      x := x + vx * tX;
      remaining := remaining - tX;
      vx := -vx;
      nX, elapsed := nX + 1, elapsed + tX;
    }
    if inside {
      assert elapsed == timeToBottom;
      UnfoldIsFold(f.width, f.radius, last.x, v.vx, elapsed, x, vx, m);
    }
    return Some(x);
  }
}
