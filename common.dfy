/** Values shared by every part of the tracker: optional results, points,
    rectangles in the CoreGraphics sense, and the real-number helpers that
    stand in for `abs`, `min`, `max` and `hypot`. */
module Common {

  datatype Option<T> = None | Some(value: T)

  /** An 8-bit colour component of a pixel buffer. */
  type Byte = b: int | 0 <= b < 256

  /** A `CGPoint` or a `CGVector`. */
  datatype Point = Point(x: real, y: real)

  const Origin := Point(0.0, 0.0)

  /** A `CGRect`: an origin and a size whose components may be negative. */
  datatype Rect = Rect(x: real, y: real, width: real, height: real)

  function Abs(r: real): (a: real)
    ensures a >= 0.0 && (a == r || a == -r)
  {
    if r < 0.0 then -r else r
  }

  function Min(a: real, b: real): (m: real)
    ensures m <= a && m <= b && (m == a || m == b)
  {
    if a <= b then a else b
  }

  function Max(a: real, b: real): (m: real)
    ensures m >= a && m >= b && (m == a || m == b)
  {
    if a >= b then a else b
  }

  /** `max(lo, min(hi, v))`, the clamp the source writes out by hand. When
      `lo > hi` the lower bound wins, as it does in the source. */
  function Clamp(v: real, lo: real, hi: real): (c: real)
    ensures c >= lo
    ensures lo <= hi ==> c <= hi
    ensures lo <= v <= hi ==> c == v
    ensures v < lo ==> c == lo
    ensures lo <= hi && v > hi ==> c == hi
    ensures lo > hi ==> c == lo
  {
    Max(lo, Min(hi, v))
  }

  /** The smallest and largest X and Y of a rectangle, which CoreGraphics
      computes on the standardized rectangle. */
  function MinX(r: Rect): real { Min(r.x, r.x + r.width) }
  function MaxX(r: Rect): real { Max(r.x, r.x + r.width) }
  function MinY(r: Rect): real { Min(r.y, r.y + r.height) }
  function MaxY(r: Rect): real { Max(r.y, r.y + r.height) }

  /** `CGRect.width` and `CGRect.height` report the standardized (absolute)
      size whatever sign is stored. */
  function Width(r: Rect): (w: real)
    ensures w >= 0.0 && w == MaxX(r) - MinX(r)
  {
    Abs(r.width)
  }

  function Height(r: Rect): (h: real)
    ensures h >= 0.0 && h == MaxY(r) - MinY(r)
  {
    Abs(r.height)
  }

  /** `CGRect.contains(_:)`: the minimum edges are inside, the maximum
      edges are not, so an empty rectangle contains nothing. */
  predicate Contains(r: Rect, p: Point)
  {
    MinX(r) <= p.x < MaxX(r) && MinY(r) <= p.y < MaxY(r)
  }

  /** The point a fraction `k` of the way from `a` to `b`. */
  function Lerp(a: Point, b: Point, k: real): Point
  {
    Point(a.x + (b.x - a.x) * k, a.y + (b.y - a.y) * k)
  }

  /** What the model knows of Foundation's `hypot`: it is the non-negative
      square root of the sum of squares. */
  ghost predicate IsHypot(hypot: (real, real) -> real)
  {
    forall a: real, b: real {:trigger hypot(a, b)} ::
      hypot(a, b) >= 0.0 && hypot(a, b) * hypot(a, b) == a * a + b * b
  }

  /** A non-negative root `d` of `s` is below `c` exactly when `c` is
      positive and `s` is below `c` squared: the form in which the model
      states every `sqrt(...) < c` of the source. */
  lemma RootBelow(d: real, s: real, c: real)
    requires d >= 0.0 && d * d == s
    ensures d < c <==> c > 0.0 && s < c * c
  {
    if d < c {
      SquareLess(d, c);
    } else if c > 0.0 && c < d {
      SquareLess(c, d);
    }
  }

  /** Squaring is strictly increasing on the non-negative reals. */
  lemma SquareLess(a: real, b: real)
    requires 0.0 <= a < b
    ensures a * a < b * b
  {
    // naming the products keeps the solver on linear reasoning
    var p, q, r := a * a, a * b, b * b;
    assert p <= q;
    assert q < r;
  }

  /** Two non-negative numbers with the same square are equal. */
  lemma SquareInjective(a: real, b: real)
    requires a >= 0.0 && b >= 0.0 && a * a == b * b
    ensures a == b
  {
    if a < b {
      SquareLess(a, b);
    } else if b < a {
      SquareLess(b, a);
    }
  }

  /** Multiplying by a non-negative factor keeps the order. */
  lemma ScaleMonotone(c: real, a: real, b: real)
    requires c >= 0.0 && a <= b
    ensures c * a <= c * b
  {
    var d := b - a;
    assert c * d >= 0.0;
    assert c * b == c * a + c * d;
  }

  /** A point a fraction `k` in [0, 1] of the way from `a` to `b` lies
      between them. */
  lemma FractionBetween(a: real, b: real, k: real)
    requires 0.0 <= k <= 1.0
    ensures Min(a, b) <= a + (b - a) * k <= Max(a, b)
  {
    var d, j := b - a, 1.0 - k;
    var dk, dj := d * k, d * j;
    assert dk + dj == d;
    if d >= 0.0 {
      assert dk >= 0.0 && dj >= 0.0;
    } else {
      var e := -d;
      assert e * k >= 0.0 && e * j >= 0.0;
      assert dk == -(e * k) && dj == -(e * j);
    }
  }

  /** The displacement over `dt` seconds as a velocity. */
  function Measured(dx: real, dy: real, dt: real): (v: Point)
    requires dt != 0.0
    ensures v.x * dt == dx && v.y * dt == dy
  {
    Point(dx / dt, dy / dt)
  }

  /** Exponential smoothing: a share `s` of the velocity kept so far and
      `1 - s` of the measured one. */
  function Blend(kept: Point, measured: Point, s: real): (v: Point)
    ensures s == 0.0 ==> v == measured
    ensures s == 1.0 ==> v == kept
    ensures 0.0 <= s <= 1.0 ==>
      Min(kept.x, measured.x) <= v.x <= Max(kept.x, measured.x) &&
      Min(kept.y, measured.y) <= v.y <= Max(kept.y, measured.y)
  {
    var v := Point(kept.x * s + measured.x * (1.0 - s), kept.y * s + measured.y * (1.0 - s));
    assert v.x == measured.x + (kept.x - measured.x) * s;
    assert v.y == measured.y + (kept.y - measured.y) * s;
    if 0.0 <= s <= 1.0 then
      FractionBetween(measured.x, kept.x, s);
      FractionBetween(measured.y, kept.y, s);
      v
    else v
  }
}
