/** The cursor-following tracker of the application variant of
    `BlueEmojiTracker`: a strided scan of the captured frame for blue
    pixels whose mean position becomes the target, a mapping of that
    target to the screen, and a cursor that eases towards it with an
    exponentially smoothed velocity and a short history. */
module SmoothingTracker {
  import opened Common

  /** The `Config` values this variant reads. */
  datatype Settings = Settings(
    blueMin: int, redMax: int, greenMax: int, minBluePixels: int, scanStep: nat,
    smoothingFactor: real, movementThreshold: real, useMotionPrediction: bool,
    useWindowMode: bool, currentWindowBounds: Option<Rect>,
    customScaleX: Option<real>, customScaleY: Option<real>, captureRect: Rect)

  /** A captured image drawn into a bitmap context of `width` by `height`
      pixels, four bytes each, rows packed; none when the context could
      not be created. */
  datatype Frame = Frame(data: Option<seq<Byte>>, width: nat, height: nat)

  /** The context's buffer holds exactly four bytes per pixel. */
  predicate Rendered(f: Frame)
  {
    f.data.Some? ==> |f.data.value| == f.width * f.height * 4
  }

  // ---------------------------------------------------------------------
  // The scan

  /** The offset of pixel `(x, y)` with rows of `width * 4` bytes. */
  function Offset(width: nat, x: nat, y: nat): nat
  {
    y * (width * 4) + x * 4
  }

  /** The three bytes the scan reads at a pixel of the image lie inside
      the buffer. */
  lemma OffsetInside(width: nat, height: nat, x: nat, y: nat)
    requires x < width && y < height
    ensures Offset(width, x, y) + 2 < width * height * 4
  {
    var row := width * 4;
    var last := (height - 1) * row;
    assert y * row <= last by {
      var gap := (height - 1 - y) * row;
      assert gap >= 0;
      assert last == y * row + gap;
    }
    assert x * 4 + 2 < row;
    assert height * row == last + row;
    assert width * height * 4 == height * row;
  }

  /** A matched pixel: its position and the byte the scan treats as blue. */
  datatype Sample = Sample(x: nat, y: nat, blue: Byte)

  /** The test the scan applies. It takes byte 0 as blue, byte 1 as green
      and byte 2 as red, the BGRA order, although the context it reads is
      laid out RGBA; the bounds are inclusive. */
  predicate Matches(s: Settings, blue: Byte, green: Byte, red: Byte)
  {
    blue >= s.blueMin && red <= s.redMax && green <= s.greenMax
  }

  /** The pixel at `(x, y)` passes the scan's test. */
  predicate Blue(f: Frame, s: Settings, x: nat, y: nat)
    requires Rendered(f) && f.data.Some? && x < f.width && y < f.height
  {
    OffsetInside(f.width, f.height, x, y);
    var bytes, offset := f.data.value, Offset(f.width, x, y);
    Matches(s, bytes[offset], bytes[offset + 1], bytes[offset + 2])
  }

  /** The sample at `(x, y)` if it matches. */
  function Cell(f: Frame, s: Settings, x: nat, y: nat): (r: seq<Sample>)
    requires Rendered(f) && f.data.Some? && x < f.width && y < f.height
    ensures |r| <= 1
    ensures r != [] ==> r[0].x == x && r[0].y == y
  {
    OffsetInside(f.width, f.height, x, y);
    if Blue(f, s, x, y) then [Sample(x, y, f.data.value[Offset(f.width, x, y)])] else []
  }

  /** The samples of row `y` from column `x` on, every `scanStep`-th. */
  function RowFrom(f: Frame, s: Settings, y: nat, x: nat): seq<Sample>
    requires Rendered(f) && f.data.Some? && y < f.height && s.scanStep > 0
    decreases f.width - x
  {
    if x >= f.width then [] else Cell(f, s, x, y) + RowFrom(f, s, y, x + s.scanStep)
  }

  /** The samples of every `scanStep`-th row from `y` on. */
  function ScanFrom(f: Frame, s: Settings, y: nat): seq<Sample>
    requires Rendered(f) && f.data.Some? && s.scanStep > 0
    decreases f.height - y
  {
    if y >= f.height then [] else RowFrom(f, s, y, 0) + ScanFrom(f, s, y + s.scanStep)
  }

  /** Every matching sample of the frame, in scan order. */
  function Samples(f: Frame, s: Settings): seq<Sample>
    requires Rendered(f) && f.data.Some? && s.scanStep > 0
  {
    ScanFrom(f, s, 0)
  }

  /** Scaling by a positive step keeps a gap of at least one step. */
  lemma MulLess(step: nat, a: int, b: int)
    requires step > 0 && a < b
    ensures step * a + step <= step * b
  {
    var d := b - a;
    assert step * b == step * a + step * d;
    assert step * d >= step by {
      assert d >= 1;
      assert step * d == step + step * (d - 1);
      assert step * (d - 1) >= 0;
    }
  }

  /** A multiple of `step` lies on its grid. */
  lemma MultipleOnGrid(step: nat, k: int)
    requires step > 0
    ensures (step * k) % step == 0
  {
    var q, r := (step * k) / step, (step * k) % step;
    assert r == step * (k - q);
    if k - q >= 1 {
      MulLess(step, 0, k - q);
    } else if k - q <= -1 {
      MulLess(step, k - q, 0);
    }
  }

  /** One step from a point of the grid of `step` stays on it. */
  lemma StepOnGrid(step: nat, x: nat)
    requires step > 0 && x % step == 0
    ensures (x + step) % step == 0
  {
    var qx := x / step;
    assert x + step == step * (qx + 1);
    MultipleOnGrid(step, qx + 1);
  }

  /** The next point of the grid of `step` after its point `x` is
      `x + step`. */
  lemma NextOnGrid(step: nat, x: nat, i: nat)
    requires step > 0 && x % step == 0 && i % step == 0 && x < i
    ensures x + step <= i
  {
    var qx, qi := x / step, i / step;
    assert x == step * qx;
    assert i == step * qi;
    if qi <= qx {
      if qi < qx {
        MulLess(step, qi, qx);
      }
      assert false;
    }
    MulLess(step, qx, qi);
  }

  /** A row yields exactly the matching pixels of that row on the
      `scanStep` grid from column `x` on. */
  lemma {:induction false} RowExactly(f: Frame, s: Settings, y: nat, x: nat)
    requires Rendered(f) && f.data.Some? && y < f.height && s.scanStep > 0 && x % s.scanStep == 0
    ensures forall m :: m in RowFrom(f, s, y, x) ==>
      x <= m.x < f.width && m.x % s.scanStep == 0 && m.y == y && Blue(f, s, m.x, m.y)
    ensures forall i: nat :: x <= i < f.width && i % s.scanStep == 0 && Blue(f, s, i, y) ==>
      exists m :: m in RowFrom(f, s, y, x) && m.x == i && m.y == y
    decreases f.width - x
  {
    if x < f.width {
      var next := x + s.scanStep;
      assert next % s.scanStep == 0 by {
        StepOnGrid(s.scanStep, x);
      }
      RowExactly(f, s, y, next);
      var cell, rest := Cell(f, s, x, y), RowFrom(f, s, y, next);
      assert RowFrom(f, s, y, x) == cell + rest;
      forall i: nat | x <= i < f.width && i % s.scanStep == 0 && Blue(f, s, i, y)
        ensures exists m :: m in RowFrom(f, s, y, x) && m.x == i && m.y == y
      {
        if i == x {
          assert cell[0] in cell + rest;
        } else {
          NextOnGrid(s.scanStep, x, i);
          var m :| m in rest && m.x == i && m.y == y;
          assert m in cell + rest;
        }
      }
    }
  }

  /** The scan from row `y` on yields exactly the matching pixels on the
      `scanStep` grid of those rows. */
  lemma {:induction false} ScanExactly(f: Frame, s: Settings, y: nat)
    requires Rendered(f) && f.data.Some? && s.scanStep > 0 && y % s.scanStep == 0
    ensures forall m :: m in ScanFrom(f, s, y) ==>
      m.x < f.width && y <= m.y < f.height && m.x % s.scanStep == 0 && m.y % s.scanStep == 0 && Blue(f, s, m.x, m.y)
    ensures forall i: nat, j: nat ::
      (i < f.width && y <= j < f.height && i % s.scanStep == 0 && j % s.scanStep == 0 && Blue(f, s, i, j)) ==>
      exists m :: m in ScanFrom(f, s, y) && m.x == i && m.y == j
    decreases f.height - y
  {
    if y < f.height {
      var next := y + s.scanStep;
      assert next % s.scanStep == 0 by {
        StepOnGrid(s.scanStep, y);
      }
      RowExactly(f, s, y, 0);
      ScanExactly(f, s, next);
      var row, rest := RowFrom(f, s, y, 0), ScanFrom(f, s, next);
      assert ScanFrom(f, s, y) == row + rest;
      forall i: nat, j: nat | i < f.width && y <= j < f.height && i % s.scanStep == 0 && j % s.scanStep == 0 && Blue(f, s, i, j)
        ensures exists m :: m in ScanFrom(f, s, y) && m.x == i && m.y == j
      {
        if j == y {
          var m :| m in row && m.x == i && m.y == j;
          assert m in row + rest;
        } else {
          NextOnGrid(s.scanStep, y, j);
          var m :| m in rest && m.x == i && m.y == j;
          assert m in row + rest;
        }
      }
    }
  }

  /** A pixel of the frame gives a sample exactly when it lies on the
      `scanStep` grid of both axes and passes the test; every sample lies
      inside the frame. */
  lemma SamplesExactly(f: Frame, s: Settings)
    requires Rendered(f) && f.data.Some? && s.scanStep > 0
    ensures forall m :: m in Samples(f, s) ==> m.x < f.width && m.y < f.height
    ensures forall x: nat, y: nat :: x < f.width && y < f.height ==>
      ((x % s.scanStep == 0 && y % s.scanStep == 0 && Blue(f, s, x, y)) <==>
       exists m :: m in Samples(f, s) && m.x == x && m.y == y)
  {
    ScanExactly(f, s, 0);
  }

  // ---------------------------------------------------------------------
  // Accumulation

  /** The scan's accumulators. `blueSum` is accumulated but never read. */
  datatype Tally = Tally(count: nat, xSum: int, ySum: int, blueSum: int)

  const Empty := Tally(0, 0, 0, 0)

  function Add(t: Tally, m: Sample): Tally
  {
    Tally(t.count + 1, t.xSum + m.x, t.ySum + m.y, t.blueSum + m.blue)
  }

  /** The accumulators after the samples `ms`, in order, from `t`. */
  function Fold(t: Tally, ms: seq<Sample>): Tally
    decreases |ms|
  {
    if ms == [] then t else Add(Fold(t, ms[..|ms| - 1]), ms[|ms| - 1])
  }

  // FoldAppend, FoldOne and FoldCount mirror the lemmas of the same names in
  // BlueScan and GravityTracker, here over `Sample` and the `Tally` of sums.

  lemma {:induction false} FoldAppend(t: Tally, u: seq<Sample>, v: seq<Sample>)
    ensures Fold(t, u + v) == Fold(Fold(t, u), v)
    decreases |v|
  {
    if v == [] {
      assert u + v == u;
    } else {
      var v' := v[..|v| - 1];
      assert (u + v)[..|u + v| - 1] == u + v';
      FoldAppend(t, u, v');
    }
  }

  lemma FoldOne(t: Tally, cell: seq<Sample>)
    requires |cell| <= 1
    ensures Fold(t, cell) == if cell == [] then t else Add(t, cell[0])
  {
    if cell != [] {
      assert cell[..0] == [];
    }
  }

  /** Each sample adds one to the count. */
  lemma {:induction false} FoldCount(t: Tally, ms: seq<Sample>)
    ensures Fold(t, ms).count == t.count + |ms|
    decreases |ms|
  {
    if ms != [] {
      FoldCount(t, ms[..|ms| - 1]);
    }
  }

  /** A sum of `n` values of at most `k` grows by one more such value. */
  lemma SumGrows(n: nat, k: nat, sum: int, v: nat)
    requires 0 <= sum <= n * k && v <= k
    ensures 0 <= sum + v <= (n + 1) * k
  {
    assert (n + 1) * k == n * k + k;
  }

  /** The count is the number of samples, and the coordinate sums stay
      within the count times the largest coordinate. */
  lemma {:induction false} FoldSums(ms: seq<Sample>, xMax: nat, yMax: nat)
    requires forall m :: m in ms ==> m.x <= xMax && m.y <= yMax
    ensures var t := Fold(Empty, ms);
      t.count == |ms| && 0 <= t.xSum <= t.count * xMax && 0 <= t.ySum <= t.count * yMax
    decreases |ms|
  {
    if ms != [] {
      var rest, m := ms[..|ms| - 1], ms[|ms| - 1];
      assert ms == rest + [m];
      assert m in ms;
      FoldSums(rest, xMax, yMax);
      var before := Fold(Empty, rest);
      assert Fold(Empty, ms) == Add(before, m);
      SumGrows(before.count, xMax, before.xSum, m.x);
      SumGrows(before.count, yMax, before.ySum, m.y);
    }
  }

  /** The sensitivity a scan of `count` matches sets: a hundredth of the
      count, clamped to [0.1, 1.0]. */
  function Sensitivity(count: nat): (k: real)
    ensures 0.1 <= k <= 1.0
    ensures 10 <= count <= 100 ==> k * 100.0 == count as real
    ensures count >= 100 ==> k == 1.0
    ensures count <= 10 ==> k == 0.1
  {
    Min(1.0, Max(0.1, count as real / 100.0))
  }

  /** The mean position of the matches when there are at least
      `minBluePixels` of them; none when the frame has no buffer. */
  function Located(f: Frame, s: Settings): (r: Option<Point>)
    requires Rendered(f) && s.scanStep > 0 && s.minBluePixels >= 1
    ensures r.Some? <==> f.data.Some? && |Samples(f, s)| >= s.minBluePixels
  {
    if f.data.None? then None
    else
      var ms := Samples(f, s);
      var t := Fold(Empty, ms);
      FoldCount(Empty, ms);
      if t.count >= s.minBluePixels then Some(Point(t.xSum as real / t.count as real, t.ySum as real / t.count as real))
      else None
  }

  /** A mean of `count` values between 0 and `bound` lies between 0 and
      `bound`. */
  lemma MeanBetween(sum: int, count: nat, bound: nat)
    requires count > 0 && 0 <= sum <= count * bound
    ensures 0.0 <= sum as real / count as real <= bound as real
  {
    var q, n, b := sum as real / count as real, count as real, bound as real;
    assert (count * bound) as real == b * n;
    assert q * n == sum as real;
  }

  /** The located point is the mean of pixel positions of the frame, so it
      lies inside the frame: within [0, width - 1] by [0, height - 1]. */
  lemma LocatedInsideFrame(f: Frame, s: Settings)
    requires Rendered(f) && s.scanStep > 0 && s.minBluePixels >= 1
    requires Located(f, s).Some?
    ensures var p := Located(f, s).value;
      0.0 <= p.x <= (f.width - 1) as real && 0.0 <= p.y <= (f.height - 1) as real
  {
    var ms := Samples(f, s);
    SamplesExactly(f, s);
    FoldSums(ms, f.width - 1, f.height - 1);
    var t := Fold(Empty, ms);
    MeanBetween(t.xSum, t.count, f.width - 1);
    MeanBetween(t.ySum, t.count, f.height - 1);
  }

  /** The row loop's accumulators from column `x` on. */
  function RowFold(f: Frame, s: Settings, y: nat, x: nat, t: Tally): Tally
    requires Rendered(f) && f.data.Some? && y < f.height && s.scanStep > 0
    decreases f.width - x
  {
    if x >= f.width then t else RowFold(f, s, y, x + s.scanStep, Fold(t, Cell(f, s, x, y)))
  }

  /** The outer loop's accumulators from row `y` on. */
  function ScanFold(f: Frame, s: Settings, y: nat, t: Tally): Tally
    requires Rendered(f) && f.data.Some? && s.scanStep > 0
    decreases f.height - y
  {
    if y >= f.height then t else ScanFold(f, s, y + s.scanStep, RowFold(f, s, y, 0, t))
  }

  lemma {:induction false} RowFoldIsFold(f: Frame, s: Settings, y: nat, x: nat, t: Tally)
    requires Rendered(f) && f.data.Some? && y < f.height && s.scanStep > 0
    ensures RowFold(f, s, y, x, t) == Fold(t, RowFrom(f, s, y, x))
    decreases f.width - x
  {
    if x < f.width {
      var next := x + s.scanStep;
      var cell, rest := Cell(f, s, x, y), RowFrom(f, s, y, next);
      var t1 := Fold(t, cell);
      calc {
        RowFold(f, s, y, x, t);
        ==
        RowFold(f, s, y, next, t1);
        == { RowFoldIsFold(f, s, y, next, t1); }
        Fold(t1, rest);
        == { FoldAppend(t, cell, rest); }
        Fold(t, cell + rest);
        ==
        Fold(t, RowFrom(f, s, y, x));
      }
    }
  }

  lemma {:induction false} ScanFoldIsFold(f: Frame, s: Settings, y: nat, t: Tally)
    requires Rendered(f) && f.data.Some? && s.scanStep > 0
    ensures ScanFold(f, s, y, t) == Fold(t, ScanFrom(f, s, y))
    decreases f.height - y
  {
    if y < f.height {
      var next := y + s.scanStep;
      var row, rest := RowFrom(f, s, y, 0), ScanFrom(f, s, next);
      var t1 := Fold(t, row);
      calc {
        ScanFold(f, s, y, t);
        ==
        ScanFold(f, s, next, RowFold(f, s, y, 0, t));
        == { RowFoldIsFold(f, s, y, 0, t); }
        ScanFold(f, s, next, t1);
        == { ScanFoldIsFold(f, s, next, t1); }
        Fold(t1, rest);
        == { FoldAppend(t, row, rest); }
        Fold(t, row + rest);
        ==
        Fold(t, ScanFrom(f, s, y));
      }
    }
  }

  /** The inner `stride` loop over one row. */
  method ScanRow(f: Frame, s: Settings, y: nat, start: Tally) returns (t: Tally)
    requires Rendered(f) && f.data.Some? && y < f.height && s.scanStep > 0
    ensures t == RowFold(f, s, y, 0, start)
  {
    var buffer := f.data.value;
    var bytesPerRow, bytesPerPixel := f.width * 4, 4;
    t := start;
    var x: nat := 0;
    while x < f.width
      invariant RowFold(f, s, y, 0, start) == RowFold(f, s, y, x, t)
      decreases f.width - x
    {
      ghost var cell := Cell(f, s, x, y);
      FoldOne(t, cell);
      OffsetInside(f.width, f.height, x, y);
      var offset := y * bytesPerRow + x * bytesPerPixel;
      var blue, green, red := buffer[offset], buffer[offset + 1], buffer[offset + 2];
      if blue >= s.blueMin && red <= s.redMax && green <= s.greenMax {
        t := Tally(t.count + 1, t.xSum + x, t.ySum + y, t.blueSum + blue);
      }
      x := x + s.scanStep;
    }
  }

  /** The outer `stride` loop over the rows. */
  method ScanFrame(f: Frame, s: Settings) returns (t: Tally)
    requires Rendered(f) && f.data.Some? && s.scanStep > 0
    ensures t == Fold(Empty, Samples(f, s))
  {
    t := Empty;
    var y: nat := 0;
    while y < f.height
      invariant ScanFold(f, s, 0, Empty) == ScanFold(f, s, y, t)
      decreases f.height - y
    {
      t := ScanRow(f, s, y, t);
      y := y + s.scanStep;
    }
    ScanFoldIsFold(f, s, 0, Empty);
  }

  // ---------------------------------------------------------------------
  // Coordinates

  /** `imageToScreenCoordinates`: in window mode, the point itself when
      the window's bounds are unknown, else the point divided by the custom
      scale (1 when unset) and offset by the window's origin; in area mode,
      the point offset by the capture area's origin. */
  function ImageToScreen(s: Settings, p: Point): (r: Point)
    requires s.customScaleX.Some? ==> s.customScaleX.value != 0.0
    requires s.customScaleY.Some? ==> s.customScaleY.value != 0.0
    ensures s.useWindowMode && s.currentWindowBounds.None? ==> r == p
    ensures s.useWindowMode && s.currentWindowBounds.Some? ==>
      var o, sx, sy := s.currentWindowBounds.value, ScaleOf(s.customScaleX), ScaleOf(s.customScaleY);
      (r.x - o.x) * sx == p.x && (r.y - o.y) * sy == p.y
    ensures !s.useWindowMode ==> r.x - s.captureRect.x == p.x && r.y - s.captureRect.y == p.y
  {
    if s.useWindowMode then
      match s.currentWindowBounds
      case None => p
      case Some(windowBounds) =>
        var scaleX, scaleY := ScaleOf(s.customScaleX), ScaleOf(s.customScaleY);
        Point(windowBounds.x + p.x / scaleX, windowBounds.y + p.y / scaleY)
    else
      Point(s.captureRect.x + p.x, s.captureRect.y + p.y)
  }

  /** A custom scale, 1 when unset. */
  function ScaleOf(scale: Option<real>): real
  {
    if scale.Some? then scale.value else 1.0
  }

  /** The inverse mapping, from the screen back to the image. */
  function ScreenToImage(s: Settings, q: Point): Point
  {
    if s.useWindowMode then
      match s.currentWindowBounds
      case None => q
      case Some(o) => Point((q.x - o.x) * ScaleOf(s.customScaleX), (q.y - o.y) * ScaleOf(s.customScaleY))
    else
      Point(q.x - s.captureRect.x, q.y - s.captureRect.y)
  }

  /** Mapping an image point to the screen loses nothing: mapping back
      gives the point again. */
  lemma ScreenRoundTrip(s: Settings, p: Point)
    requires s.customScaleX.Some? ==> s.customScaleX.value != 0.0
    requires s.customScaleY.Some? ==> s.customScaleY.value != 0.0
    ensures ScreenToImage(s, ImageToScreen(s, p)) == p
  {
  }

  // ---------------------------------------------------------------------
  // Cursor movement

  /** `positionsHistorySize`. */
  const HistorySize: nat := 5

  /** The history after a move: the point appended, then the oldest entry
      dropped when more than five are held. */
  function Kept(history: seq<Point>, p: Point): (r: seq<Point>)
    ensures |r| == if |history| + 1 > HistorySize then |history| else |history| + 1
    ensures r[|r| - 1] == p
    ensures r[..|r| - 1] == history[|history| - |r| + 1..]
  {
    var appended := history + [p];
    if |appended| > HistorySize then appended[1..] else appended
  }

  /** The point a share `smoothing * sensitivity` of the way from the
      cursor to the target. */
  function Eased(mouse: Point, target: Point, smoothing: real, sensitivity: real): (r: Point)
    ensures 0.0 <= smoothing * sensitivity <= 1.0 ==>
      Min(mouse.x, target.x) <= r.x <= Max(mouse.x, target.x) &&
      Min(mouse.y, target.y) <= r.y <= Max(mouse.y, target.y)
  {
    var dx, dy := target.x - mouse.x, target.y - mouse.y;
    var r := Point(mouse.x + dx * smoothing * sensitivity, mouse.y + dy * smoothing * sensitivity);
    var k := smoothing * sensitivity;
    assert r.x == mouse.x + (target.x - mouse.x) * k;
    assert r.y == mouse.y + (target.y - mouse.y) * k;
    if 0.0 <= k <= 1.0 then
      FractionBetween(mouse.x, target.x, k);
      FractionBetween(mouse.y, target.y, k);
      r
    else r
  }

  /** With the smoothing factor and the sensitivity in their ranges the
      eased point never passes the target. */
  lemma EasedNeverOvershoots(mouse: Point, target: Point, smoothing: real, sensitivity: real)
    requires 0.0 <= smoothing <= 1.0 && 0.1 <= sensitivity <= 1.0
    ensures var r := Eased(mouse, target, smoothing, sensitivity);
      Min(mouse.x, target.x) <= r.x <= Max(mouse.x, target.x) &&
      Min(mouse.y, target.y) <= r.y <= Max(mouse.y, target.y)
  {
    var k, a := smoothing * sensitivity, 1.0 - smoothing;
    var rest := a * sensitivity;
    ScaleMonotone(smoothing, 0.0, sensitivity);
    ScaleMonotone(sensitivity, 0.0, a);
    assert sensitivity - k == rest;
  }

  /** The point the cursor is sent to: the eased point, led by a tenth of
      a second of velocity when prediction is on and time has passed. */
  function Final(eased: Point, lead: bool, v: Point): (r: Point)
    ensures !lead ==> r == eased
    ensures lead ==> r.x - eased.x == v.x * 0.1 && r.y - eased.y == v.y * 0.1
  {
    if lead then Point(eased.x + v.x * 0.1, eased.y + v.y * 0.1) else eased
  }

  /** The cursor-following state of the tracker. */
  class CursorTracker {
    var lastPosition: Point
    var lastMoveTime: real
    var velocityX: real
    var velocityY: real
    var lastPositions: seq<Point>
    var adaptiveSensitivity: real
    var consecutiveNoMoveCount: nat

    /** The history holds at most five points and the sensitivity stays
        in the range the scan clamps it to (starting from 1). */
    predicate Valid()
      reads this
    {
      |lastPositions| <= HistorySize && 0.1 <= adaptiveSensitivity <= 1.0
    }

    constructor(now: real)
      ensures Valid()
      ensures lastPosition == Origin && lastMoveTime == now && velocityX == 0.0 && velocityY == 0.0
      ensures lastPositions == [] && adaptiveSensitivity == 1.0 && consecutiveNoMoveCount == 0
    {
      lastPosition, lastMoveTime := Origin, now;
      velocityX, velocityY := 0.0, 0.0;
      lastPositions, adaptiveSensitivity, consecutiveNoMoveCount := [], 1.0, 0;
    }

    /** `findBlueObject`: the mean of the matching samples when there are
        enough of them, which also sets the sensitivity. */
    method FindBlueObject(f: Frame, s: Settings) returns (r: Option<Point>)
      requires Valid()
      requires Rendered(f) && s.scanStep > 0 && s.minBluePixels >= 1
      modifies this
      ensures Valid()
      ensures r == Located(f, s)
      ensures adaptiveSensitivity == if r.Some? then Sensitivity(|Samples(f, s)|) else old(adaptiveSensitivity)
      ensures lastPosition == old(lastPosition) && lastMoveTime == old(lastMoveTime)
      ensures velocityX == old(velocityX) && velocityY == old(velocityY)
      ensures lastPositions == old(lastPositions) && consecutiveNoMoveCount == old(consecutiveNoMoveCount)
    {
      if f.data.None? {
        return None;
      }
      var t := ScanFrame(f, s);
      FoldCount(Empty, Samples(f, s));
      if t.count >= s.minBluePixels {
        var avgX, avgY := t.xSum as real / t.count as real, t.ySum as real / t.count as real;
        adaptiveSensitivity := Min(1.0, Max(0.1, t.count as real / 100.0));
        r := Some(Point(avgX, avgY));
      } else {
        r := None;
      }
    }

    /** `updateCursorPosition`: count a missed frame, or ease the cursor
        towards the mapped target, with the velocity, time, history and
        last position updated. The cursor event posted is returned. */
    method UpdateCursorPosition(point: Option<Point>, mouse: Point, now: real, s: Settings,
                                hypot: (real, real) -> real) returns (posted: Option<Point>)
      requires Valid()
      requires s.customScaleX.Some? ==> s.customScaleX.value != 0.0
      requires s.customScaleY.Some? ==> s.customScaleY.value != 0.0
      modifies this
      ensures Valid()
      ensures adaptiveSensitivity == old(adaptiveSensitivity)
      ensures point.None? ==>
        posted.None? && consecutiveNoMoveCount == old(consecutiveNoMoveCount) + 1 &&
        (if consecutiveNoMoveCount > 5 then velocityX == 0.0 && velocityY == 0.0
         else velocityX == old(velocityX) && velocityY == old(velocityY)) &&
        lastPosition == old(lastPosition) && lastMoveTime == old(lastMoveTime) && lastPositions == old(lastPositions)
      ensures point.Some? ==> consecutiveNoMoveCount == 0
      ensures point.Some? ==>
        var target := ImageToScreen(s, point.value);
        var dx, dy := target.x - mouse.x, target.y - mouse.y;
        if hypot(dx, dy) < s.movementThreshold then
          posted.None? &&
          velocityX == old(velocityX) && velocityY == old(velocityY) &&
          lastPosition == old(lastPosition) && lastMoveTime == old(lastMoveTime) && lastPositions == old(lastPositions)
        else
          var elapsed := now - old(lastMoveTime);
          var v := if elapsed > 0.0 then Blend(Point(old(velocityX), old(velocityY)), Measured(dx, dy, elapsed), 0.7)
                   else Point(old(velocityX), old(velocityY));
          var p := Final(Eased(mouse, target, s.smoothingFactor, adaptiveSensitivity), s.useMotionPrediction && elapsed > 0.0, v);
          velocityX == v.x && velocityY == v.y && lastMoveTime == now &&
          posted == Some(p) && lastPosition == p && lastPositions == Kept(old(lastPositions), p)
    {
      if point.None? {
        consecutiveNoMoveCount := consecutiveNoMoveCount + 1;
        if consecutiveNoMoveCount > 5 {
          velocityX := 0.0;
          velocityY := 0.0;
        }
        return None;
      }
      var targetPoint := point.value;
      consecutiveNoMoveCount := 0;
      var currentPosition := mouse;
      var smoothingFactor, movementThreshold := s.smoothingFactor, s.movementThreshold;
      var screenPoint := ImageToScreen(s, targetPoint);
      var deltaX, deltaY := screenPoint.x - currentPosition.x, screenPoint.y - currentPosition.y;
      var distance := hypot(deltaX, deltaY);
      if distance < movementThreshold {
        return None;
      }
      posted := Move(currentPosition, screenPoint, now, s);
    }

    /** The part of `updateCursorPosition` after the movement threshold is
        passed. */
    method Move(mouse: Point, target: Point, now: real, s: Settings) returns (posted: Option<Point>)
      requires Valid()
      modifies this
      ensures Valid()
      ensures adaptiveSensitivity == old(adaptiveSensitivity) && consecutiveNoMoveCount == old(consecutiveNoMoveCount)
      ensures var dx, dy := target.x - mouse.x, target.y - mouse.y;
        var elapsed := now - old(lastMoveTime);
        var v := if elapsed > 0.0 then Blend(Point(old(velocityX), old(velocityY)), Measured(dx, dy, elapsed), 0.7)
                 else Point(old(velocityX), old(velocityY));
        var p := Final(Eased(mouse, target, s.smoothingFactor, adaptiveSensitivity), s.useMotionPrediction && elapsed > 0.0, v);
        velocityX == v.x && velocityY == v.y && lastMoveTime == now
      ensures var dx, dy := target.x - mouse.x, target.y - mouse.y;
        var elapsed := now - old(lastMoveTime);
        var v := Point(velocityX, velocityY);
        var p := Final(Eased(mouse, target, s.smoothingFactor, adaptiveSensitivity), s.useMotionPrediction && elapsed > 0.0, v);
        posted == Some(p) && lastPosition == p
      ensures lastPositions == Kept(old(lastPositions), lastPosition)
    {
      var deltaX, deltaY := target.x - mouse.x, target.y - mouse.y;
      var elapsed := now - lastMoveTime;
      if elapsed > 0.0 {
        var measured := Measured(deltaX, deltaY, elapsed);
        velocityX := velocityX * 0.7 + measured.x * (1.0 - 0.7);
        velocityY := velocityY * 0.7 + measured.y * (1.0 - 0.7);
      }
      lastMoveTime := now;
      var eased := Eased(mouse, target, s.smoothingFactor, adaptiveSensitivity);
      var finalX, finalY := eased.x, eased.y;
      assert Point(finalX, finalY) == eased;
      if s.useMotionPrediction && elapsed > 0.0 {
        var predictionFactor := 0.1;
        finalX := finalX + velocityX * predictionFactor;
        finalY := finalY + velocityY * predictionFactor;
      }
      assert Point(finalX, finalY) == Final(eased, s.useMotionPrediction && elapsed > 0.0, Point(velocityX, velocityY));
      lastPositions := lastPositions + [Point(finalX, finalY)];
      if |lastPositions| > HistorySize {
        lastPositions := lastPositions[1..];
      }
      posted := Some(Point(finalX, finalY));
      lastPosition := Point(finalX, finalY);
    }

    /** `update`: nothing happens when the capture fails; otherwise the
        frame is scanned and the cursor updated with what was found. */
    method Update(captured: Option<Frame>, mouse: Point, now: real, s: Settings,
                  hypot: (real, real) -> real) returns (posted: Option<Point>)
      requires Valid()
      requires captured.Some? ==> Rendered(captured.value)
      requires s.scanStep > 0 && s.minBluePixels >= 1
      requires s.customScaleX.Some? ==> s.customScaleX.value != 0.0
      requires s.customScaleY.Some? ==> s.customScaleY.value != 0.0
      modifies this
      ensures Valid()
      ensures captured.None? ==>
        posted.None? && lastPosition == old(lastPosition) && lastMoveTime == old(lastMoveTime) &&
        velocityX == old(velocityX) && velocityY == old(velocityY) && lastPositions == old(lastPositions) &&
        adaptiveSensitivity == old(adaptiveSensitivity) && consecutiveNoMoveCount == old(consecutiveNoMoveCount)
      ensures captured.Some? ==>
        var found := Located(captured.value, s);
        consecutiveNoMoveCount == (if found.Some? then 0 else old(consecutiveNoMoveCount) + 1) &&
        (posted.Some? ==> found.Some?)
    {
      if captured.None? {
        return None;
      }
      var blueObjectPosition := FindBlueObject(captured.value, s);
      posted := UpdateCursorPosition(blueObjectPosition, mouse, now, s, hypot);
    }
  }
}
