/** The frame-by-frame tracker of the game-oriented `BlueEmojiTracker`
    (the `Sources` variant): a bounding-box scan of a BGRA capture for
    blue pixels, a history of the box centres, a smoothed velocity, and a
    fixed-step simulation of the ball under gravity that bounces off the
    side and top walls of the game area with a restitution of 0.8. */
module GravityTracker {
  import opened Common

  // ---------------------------------------------------------------------
  // The capture and its blue pixels

  /** A captured `CGImage`: its bytes (none when the data provider yields
      no buffer), its size in pixels and its layout. */
  datatype Image = Image(data: Option<seq<Byte>>, width: nat, height: nat, bytesPerRow: nat, bytesPerPixel: nat)

  /** `Config.blueMinValue`, `Config.redMaxValue`, `Config.greenMaxValue`. */
  datatype Thresholds = Thresholds(blueMin: int, redMax: int, greenMax: int)

  /** A pixel position in the image. */
  datatype Pixel = Pixel(x: nat, y: nat)

  /** The offset of the pixel at `(x, y)`: its row start plus its column
      times the pixel size. */
  function Offset(img: Image, x: nat, y: nat): nat
  {
    y * img.bytesPerRow + x * img.bytesPerPixel
  }

  /** The buffer holds the blue, green and red byte of every pixel. */
  predicate Readable(img: Image)
  {
    img.data.Some? ==>
      forall x: nat, y: nat {:trigger Offset(img, x, y)} ::
        x < img.width && y < img.height ==> Offset(img, x, y) + 2 < |img.data.value|
  }

  /** A BGRA pixel counts as blue when blue is strictly above its minimum
      and red and green are strictly below their maxima. */
  predicate IsBlue(t: Thresholds, blue: Byte, green: Byte, red: Byte)
  {
    blue > t.blueMin && red < t.redMax && green < t.greenMax
  }

  /** The pixel at `(x, y)` if it is blue. */
  function Hit(img: Image, t: Thresholds, x: nat, y: nat): (r: seq<Pixel>)
    requires Readable(img) && img.data.Some?
    requires x < img.width && y < img.height
    ensures |r| <= 1
    ensures r != [] ==> r[0] == Pixel(x, y)
  {
    var bytes, offset := img.data.value, Offset(img, x, y);
    if IsBlue(t, bytes[offset], bytes[offset + 1], bytes[offset + 2]) then [Pixel(x, y)] else []
  }

  /** The blue pixels of row `y` from column `x` on, in scan order. */
  function RowFrom(img: Image, t: Thresholds, y: nat, x: nat): seq<Pixel>
    requires Readable(img) && img.data.Some? && y < img.height
    decreases img.width - x
  {
    if x >= img.width then [] else Hit(img, t, x, y) + RowFrom(img, t, y, x + 1)
  }

  /** The blue pixels of the rows from `y` on, in scan order. */
  function ScanFrom(img: Image, t: Thresholds, y: nat): seq<Pixel>
    requires Readable(img) && img.data.Some?
    decreases img.height - y
  {
    if y >= img.height then [] else RowFrom(img, t, y, 0) + ScanFrom(img, t, y + 1)
  }

  /** Every blue pixel of the image, row by row. */
  function BluePixels(img: Image, t: Thresholds): seq<Pixel>
    requires Readable(img) && img.data.Some?
  {
    ScanFrom(img, t, 0)
  }

  /** The blue pixels of a row from column `x` on are exactly the blue
      pixels of that row at or right of `x`. */
  lemma {:induction false} RowExactly(img: Image, t: Thresholds, y: nat, x: nat)
    requires Readable(img) && img.data.Some? && y < img.height
    ensures forall p :: p in RowFrom(img, t, y, x) ==> x <= p.x < img.width && p.y == y && Hit(img, t, p.x, p.y) != []
    ensures forall i: nat :: x <= i < img.width && Hit(img, t, i, y) != [] ==> Pixel(i, y) in RowFrom(img, t, y, x)
    decreases img.width - x
  {
    if x < img.width {
      RowExactly(img, t, y, x + 1);
    }
  }

  /** The pixels the scan collects from row `y` on are exactly the blue
      pixels of those rows. */
  lemma {:induction false} ScanExactly(img: Image, t: Thresholds, y: nat)
    requires Readable(img) && img.data.Some?
    ensures forall p :: p in ScanFrom(img, t, y) ==>
      p.x < img.width && y <= p.y < img.height && Hit(img, t, p.x, p.y) != []
    ensures forall i: nat, j: nat :: i < img.width && y <= j < img.height && Hit(img, t, i, j) != [] ==>
      Pixel(i, j) in ScanFrom(img, t, y)
    decreases img.height - y
  {
    if y < img.height {
      RowExactly(img, t, y, 0);
      ScanExactly(img, t, y + 1);
    }
  }

  // ---------------------------------------------------------------------
  // The bounding box

  /** The scan's accumulators: the number of blue pixels and their box. */
  datatype Box = Box(count: nat, minX: int, minY: int, maxX: int, maxY: int)

  /** Before the scan the box is inverted: the minima start at the image
      size and the maxima at zero. */
  function Start(width: nat, height: nat): Box
  {
    Box(0, width, height, 0, 0)
  }

  /** One more blue pixel counted and taken into the box. */
  function Include(b: Box, p: Pixel): Box
  {
    Box(b.count + 1,
        if p.x < b.minX then p.x else b.minX, if p.y < b.minY then p.y else b.minY,
        if p.x > b.maxX then p.x else b.maxX, if p.y > b.maxY then p.y else b.maxY)
  }

  /** The accumulators after the pixels `ps`, in order, from `b`. */
  function Fold(b: Box, ps: seq<Pixel>): Box
    decreases |ps|
  {
    if ps == [] then b else Include(Fold(b, ps[..|ps| - 1]), ps[|ps| - 1])
  }

  // FoldAppend, FoldOne and FoldCount mirror the lemmas of the same names in
  // BlueScan and SmoothingTracker, here over `Pixel` and the bounding `Box`.

  lemma {:induction false} FoldAppend(b: Box, u: seq<Pixel>, v: seq<Pixel>)
    ensures Fold(b, u + v) == Fold(Fold(b, u), v)
    decreases |v|
  {
    if v == [] {
      assert u + v == u;
    } else {
      var v' := v[..|v| - 1];
      assert (u + v)[..|u + v| - 1] == u + v';
      FoldAppend(b, u, v');
    }
  }

  lemma FoldOne(b: Box, cell: seq<Pixel>)
    requires |cell| <= 1
    ensures Fold(b, cell) == if cell == [] then b else Include(b, cell[0])
  {
    if cell != [] {
      assert cell[..0] == [];
    }
  }

  /** Each pixel adds one to the count. */
  lemma {:induction false} FoldCount(b: Box, ps: seq<Pixel>)
    ensures Fold(b, ps).count == b.count + |ps|
    decreases |ps|
  {
    if ps != [] {
      FoldCount(b, ps[..|ps| - 1]);
    }
  }

  /** From the inverted start, the box contains every pixel folded in. */
  lemma {:induction false} FoldCovers(width: nat, height: nat, ps: seq<Pixel>)
    ensures var b := Fold(Start(width, height), ps);
      forall p :: p in ps ==> b.minX <= p.x <= b.maxX && b.minY <= p.y <= b.maxY
    decreases |ps|
  {
    if ps != [] {
      var rest := ps[..|ps| - 1];
      assert ps == rest + [ps[|ps| - 1]];
      FoldCovers(width, height, rest);
    }
  }

  /** From the inverted start, with pixels inside a `width` by `height`
      image, each edge of the box is attained by one of the pixels. */
  lemma {:induction false} FoldAttained(width: nat, height: nat, ps: seq<Pixel>)
    requires forall p :: p in ps ==> p.x < width && p.y < height
    requires ps != []
    ensures var b := Fold(Start(width, height), ps);
      (exists p :: p in ps && p.x == b.minX) && (exists p :: p in ps && p.x == b.maxX) &&
      (exists p :: p in ps && p.y == b.minY) && (exists p :: p in ps && p.y == b.maxY)
    decreases |ps|
  {
    var rest, q := ps[..|ps| - 1], ps[|ps| - 1];
    assert ps == rest + [q];
    var before := Fold(Start(width, height), rest);
    var b := Include(before, q);
    assert Fold(Start(width, height), ps) == b;
    assert q in ps;
    if rest != [] {
      FoldAttained(width, height, rest);
      if q.x >= before.minX { var z :| z in rest && z.x == before.minX; assert z in ps && z.x == b.minX; }
      if q.x <= before.maxX { var z :| z in rest && z.x == before.maxX; assert z in ps && z.x == b.maxX; }
      if q.y >= before.minY { var z :| z in rest && z.y == before.minY; assert z in ps && z.y == b.minY; }
      if q.y <= before.maxY { var z :| z in rest && z.y == before.maxY; assert z in ps && z.y == b.maxY; }
    }
  }

  // ---------------------------------------------------------------------
  // The detection

  /** A `CGSize`. */
  datatype Size = Size(width: real, height: real)

  /** What `detectBlueObject` leaves in `bluePosition` and `blueSize`. */
  datatype Detection = Detection(position: Point, size: Size)

  const NoDetection := Detection(Origin, Size(0.0, 0.0))

  /** The detection the box gives: its top-left corner and its extent. */
  function BoxDetection(b: Box): Detection
  {
    Detection(Point(b.minX as real, b.minY as real), Size((b.maxX - b.minX) as real, (b.maxY - b.minY) as real))
  }

  /** Both fields reset to zero, then set from the box when more than
      `minBluePixels` pixels are blue and the box is not inverted; nothing
      when the image has no readable buffer. */
  function Detect(img: Image, t: Thresholds, minBluePixels: int): (d: Detection)
    requires Readable(img)
    ensures d.size.width >= 0.0 && d.size.height >= 0.0
    ensures d != NoDetection ==> img.data.Some? && |BluePixels(img, t)| > minBluePixels
  {
    if img.data.None? then NoDetection
    else
      var ps := BluePixels(img, t);
      var b := Fold(Start(img.width, img.height), ps);
      FoldCount(Start(img.width, img.height), ps);
      if b.count > minBluePixels && b.maxX >= b.minX && b.maxY >= b.minY then BoxDetection(b) else NoDetection
  }

  /** With no blue pixel nothing is detected; when more than
      `minBluePixels` pixels are blue, every blue pixel of the image lies in
      the detected box (edges included). */
  lemma DetectionCoversBlue(img: Image, t: Thresholds, minBluePixels: int)
    requires Readable(img) && img.data.Some?
    ensures BluePixels(img, t) == [] ==> Detect(img, t, minBluePixels) == NoDetection
    ensures var ps, d := BluePixels(img, t), Detect(img, t, minBluePixels);
      |ps| > minBluePixels && ps != [] ==>
        forall i: nat, j: nat :: i < img.width && j < img.height && Hit(img, t, i, j) != [] ==>
          d.position.x <= i as real <= d.position.x + d.size.width &&
          d.position.y <= j as real <= d.position.y + d.size.height
  {
    var ps := BluePixels(img, t);
    var b := Fold(Start(img.width, img.height), ps);
    FoldCount(Start(img.width, img.height), ps);
    ScanExactly(img, t, 0);
    if ps != [] {
      FoldCovers(img.width, img.height, ps);
      var p :| p in ps;
      assert b.minX <= p.x <= b.maxX && b.minY <= p.y <= b.maxY;
    }
  }

  /** The box of some pixels of a `width` by `height` image is the
      tightest one around them: each edge passes through one of the pixels,
      and it lies inside the image. */
  lemma BoxIsTight(width: nat, height: nat, ps: seq<Pixel>)
    requires forall p :: p in ps ==> p.x < width && p.y < height
    requires ps != []
    ensures var d := BoxDetection(Fold(Start(width, height), ps));
      var x0, y0, x1, y1 := d.position.x, d.position.y, d.position.x + d.size.width, d.position.y + d.size.height;
      (exists p :: p in ps && p.x as real == x0) && (exists p :: p in ps && p.x as real == x1) &&
      (exists p :: p in ps && p.y as real == y0) && (exists p :: p in ps && p.y as real == y1) &&
      0.0 <= x0 && x1 < width as real && 0.0 <= y0 && y1 < height as real
  {
    var b := Fold(Start(width, height), ps);
    FoldAttained(width, height, ps);
    var x0 :| x0 in ps && x0.x == b.minX;
    var x1 :| x1 in ps && x1.x == b.maxX;
    var y0 :| y0 in ps && y0.y == b.minY;
    var y1 :| y1 in ps && y1.y == b.maxY;
    assert x1.x as real == b.minX as real + (b.maxX - b.minX) as real;
    assert y1.y as real == b.minY as real + (b.maxY - b.minY) as real;
  }

  /** When more than `minBluePixels` pixels are blue (and at least one
      is), the detection is the box of the blue pixels. */
  lemma DetectionIsBox(img: Image, t: Thresholds, minBluePixels: int)
    requires Readable(img) && img.data.Some?
    ensures var ps := BluePixels(img, t);
      |ps| > minBluePixels && ps != [] ==>
        Detect(img, t, minBluePixels) == BoxDetection(Fold(Start(img.width, img.height), ps))
  {
    var ps := BluePixels(img, t);
    if |ps| > minBluePixels && ps != [] {
      FoldCount(Start(img.width, img.height), ps);
      FoldCovers(img.width, img.height, ps);
    }
  }

  /** The row loop's accumulators from column `x` on. */
  function RowFold(img: Image, t: Thresholds, y: nat, x: nat, b: Box): Box
    requires Readable(img) && img.data.Some? && y < img.height
    decreases img.width - x
  {
    if x >= img.width then b else RowFold(img, t, y, x + 1, Fold(b, Hit(img, t, x, y)))
  }

  /** The outer loop's accumulators from row `y` on. */
  function ScanFold(img: Image, t: Thresholds, y: nat, b: Box): Box
    requires Readable(img) && img.data.Some?
    decreases img.height - y
  {
    if y >= img.height then b else ScanFold(img, t, y + 1, RowFold(img, t, y, 0, b))
  }

  lemma {:induction false} RowFoldIsFold(img: Image, t: Thresholds, y: nat, x: nat, b: Box)
    requires Readable(img) && img.data.Some? && y < img.height
    ensures RowFold(img, t, y, x, b) == Fold(b, RowFrom(img, t, y, x))
    decreases img.width - x
  {
    if x < img.width {
      var next := x + 1;
      var cell, rest := Hit(img, t, x, y), RowFrom(img, t, y, next);
      var b1 := Fold(b, cell);
      calc {
        RowFold(img, t, y, x, b);
        ==
        RowFold(img, t, y, next, b1);
        == { RowFoldIsFold(img, t, y, next, b1); }
        Fold(b1, rest);
        == { FoldAppend(b, cell, rest); }
        Fold(b, cell + rest);
        ==
        Fold(b, RowFrom(img, t, y, x));
      }
    }
  }

  lemma {:induction false} ScanFoldIsFold(img: Image, t: Thresholds, y: nat, b: Box)
    requires Readable(img) && img.data.Some?
    ensures ScanFold(img, t, y, b) == Fold(b, ScanFrom(img, t, y))
    decreases img.height - y
  {
    if y < img.height {
      var next := y + 1;
      var row, rest := RowFrom(img, t, y, 0), ScanFrom(img, t, next);
      var b1 := Fold(b, row);
      calc {
        ScanFold(img, t, y, b);
        ==
        ScanFold(img, t, next, RowFold(img, t, y, 0, b));
        == { RowFoldIsFold(img, t, y, 0, b); }
        ScanFold(img, t, next, b1);
        == { ScanFoldIsFold(img, t, next, b1); }
        Fold(b1, rest);
        == { FoldAppend(b, row, rest); }
        Fold(b, row + rest);
        ==
        Fold(b, ScanFrom(img, t, y));
      }
    }
  }

  /** The inner `for x in 0..<width` loop over one row. */
  method ScanRow(img: Image, t: Thresholds, y: nat, start: Box) returns (b: Box)
    requires Readable(img) && img.data.Some? && y < img.height
    ensures b == RowFold(img, t, y, 0, start)
  {
    var bytes := img.data.value;
    b := start;
    var x: nat := 0;
    while x < img.width
      invariant RowFold(img, t, y, 0, start) == RowFold(img, t, y, x, b)
      decreases img.width - x
    {
      ghost var cell := Hit(img, t, x, y);
      FoldOne(b, cell);
      var offset := Offset(img, x, y);
      var blue, green, red := bytes[offset], bytes[offset + 1], bytes[offset + 2];
      if blue > t.blueMin && red < t.redMax && green < t.greenMax {
        b := Include(b, Pixel(x, y));
      }
      x := x + 1;
    }
  }

  /** The outer `for y in 0..<height` loop. */
  method ScanImage(img: Image, t: Thresholds) returns (b: Box)
    requires Readable(img) && img.data.Some?
    ensures b == Fold(Start(img.width, img.height), BluePixels(img, t))
  {
    b := Start(img.width, img.height);
    var y: nat := 0;
    while y < img.height
      invariant ScanFold(img, t, 0, Start(img.width, img.height)) == ScanFold(img, t, y, b)
      decreases img.height - y
    {
      b := ScanRow(img, t, y, b);
      y := y + 1;
    }
    ScanFoldIsFold(img, t, 0, Start(img.width, img.height));
  }

  // ---------------------------------------------------------------------
  // History and velocity

  /** The history after `updatePositionHistory`: the oldest sample goes
      only when more than 30 are held, then the new one is appended, so a
      history of 30 grows to 31 and stays there. */
  function Appended(history: seq<Point>, p: Point): (r: seq<Point>)
    ensures |r| == if |history| > 30 then |history| else |history| + 1
    ensures r[|r| - 1] == p
    ensures r[..|r| - 1] == history[|history| - |r| + 1..]
  {
    if |history| > 30 then history[1..] + [p] else history + [p]
  }

  /** From a history of at most 31 samples the history stays within 31. */
  lemma HistoryBound(history: seq<Point>, p: Point)
    requires |history| <= 31
    ensures |Appended(history, p)| <= 31
    ensures |history| == 30 ==> |Appended(history, p)| == 31
  {
  }

  // ---------------------------------------------------------------------
  // The trajectory simulation

  /** `9.8 * 60` pixels per second squared. */
  const Gravity: real := 9.8 * 60.0

  /** A thirtieth of a second. */
  const TimeStep: real := 1.0 / 30.0

  /** `maxSimulationSteps`. */
  const MaxSteps: nat := 100

  /** The share of the speed kept by a bounce. */
  const Restitution: real := 0.8

  /** The simulated ball: where it is and how fast it moves. */
  datatype Ball = Ball(pos: Point, vel: Point)

  /** One step of the simulation: move by the velocity over a time step,
      add gravity to the vertical speed, then reflect and damp off a side
      wall (clamping onto it) and off the top wall (clamping onto it). */
  function Step(b: Ball, bounds: Rect): (r: Ball)
    ensures MinX(bounds) <= r.pos.x <= MaxX(bounds) && r.pos.y >= MinY(bounds)
    ensures Abs(r.vel.x) <= Abs(b.vel.x)
    ensures r.vel.x == b.vel.x || r.vel.x == -b.vel.x * Restitution
    ensures var fall := b.vel.y + Gravity * TimeStep;
      r.vel.y == fall || r.vel.y == -fall * Restitution
  {
    var x, y := b.pos.x + b.vel.x * TimeStep, b.pos.y + b.vel.y * TimeStep;
    var vy := b.vel.y + Gravity * TimeStep;
    var side := x < MinX(bounds) || x > MaxX(bounds);
    var vx := if side then -b.vel.x * Restitution else b.vel.x;
    var x' := if x < MinX(bounds) then MinX(bounds) else if x > MaxX(bounds) then MaxX(bounds) else x;
    var top := y < MinY(bounds);
    Ball(Point(x', if top then MinY(bounds) else y), Point(vx, if top then -vy * Restitution else vy))
  }

  /** The points the simulation appends in at most `steps` steps: one per
      step, ending with the first one below the bottom of the game area. */
  function Flight(b: Ball, bounds: Rect, steps: nat): seq<Point>
    decreases steps
  {
    if steps == 0 then []
    else
      var n := Step(b, bounds);
      if n.pos.y > MaxY(bounds) then [n.pos] else [n.pos] + Flight(n, bounds, steps - 1)
  }

  /** Where the simulation leaves the bottom of the game area within
      `steps` steps, if it does. */
  function Landing(b: Ball, bounds: Rect, steps: nat): Option<Point>
    decreases steps
  {
    if steps == 0 then None
    else
      var n := Step(b, bounds);
      if n.pos.y > MaxY(bounds) then Some(n.pos) else Landing(n, bounds, steps - 1)
  }

  /** The simulated points number at most `steps`, and each lies between
      the side walls and below the top wall. */
  lemma {:induction false} FlightInside(b: Ball, bounds: Rect, steps: nat)
    ensures var f := Flight(b, bounds, steps);
      |f| <= steps && forall p :: p in f ==> MinX(bounds) <= p.x <= MaxX(bounds) && p.y >= MinY(bounds)
    decreases steps
  {
    if steps > 0 {
      var n := Step(b, bounds);
      if n.pos.y <= MaxY(bounds) {
        FlightInside(n, bounds, steps - 1);
        assert Flight(b, bounds, steps) == [n.pos] + Flight(n, bounds, steps - 1);
      }
    }
  }

  /** Only the last simulated point may lie past the bottom of the game
      area. */
  lemma {:induction false} FlightStopsAtBottom(b: Ball, bounds: Rect, steps: nat)
    ensures forall i :: 0 <= i < |Flight(b, bounds, steps)| - 1 ==> Flight(b, bounds, steps)[i].y <= MaxY(bounds)
    decreases steps
  {
    if steps > 0 {
      var n := Step(b, bounds);
      if n.pos.y <= MaxY(bounds) {
        FlightStopsAtBottom(n, bounds, steps - 1);
        var f, g := Flight(b, bounds, steps), Flight(n, bounds, steps - 1);
        assert f == [n.pos] + g;
        forall i | 0 <= i < |f| - 1
          ensures f[i].y <= MaxY(bounds)
        {
          if i == 0 {
            assert f[i] == n.pos;
          } else {
            assert f[i] == g[i - 1];
          }
        }
      }
    }
  }

  /** A landing point is the last simulated point and lies past the
      bottom; without one every step was simulated and no point is past
      the bottom. */
  lemma {:induction false} LandingIsLast(b: Ball, bounds: Rect, steps: nat)
    ensures var f, l := Flight(b, bounds, steps), Landing(b, bounds, steps);
      (l.Some? ==> f != [] && l.value == f[|f| - 1] && l.value.y > MaxY(bounds)) &&
      (l.None? ==> |f| == steps && forall p :: p in f ==> p.y <= MaxY(bounds))
    decreases steps
  {
    if steps > 0 {
      var n := Step(b, bounds);
      if n.pos.y <= MaxY(bounds) {
        LandingIsLast(n, bounds, steps - 1);
        assert Flight(b, bounds, steps) == [n.pos] + Flight(n, bounds, steps - 1);
      }
    }
  }

  /** The simulated ball when the simulation of at most `steps` steps
      ends. */
  function FinalBall(b: Ball, bounds: Rect, steps: nat): (r: Ball)
    decreases steps
  {
    if steps == 0 then b
    else
      var n := Step(b, bounds);
      if n.pos.y > MaxY(bounds) then n else FinalBall(n, bounds, steps - 1)
  }

  /** The horizontal speed never grows over a whole simulated flight. */
  lemma {:induction false} SideSpeedNeverGrows(b: Ball, bounds: Rect, steps: nat)
    ensures Abs(FinalBall(b, bounds, steps).vel.x) <= Abs(b.vel.x)
    decreases steps
  {
    if steps > 0 {
      var n := Step(b, bounds);
      if n.pos.y <= MaxY(bounds) {
        SideSpeedNeverGrows(n, bounds, steps - 1);
      }
    }
  }

  /** The simulation loop's invariant: the points appended so far
      followed by the rest of the flight from the current ball make up the
      whole trajectory from `start`, and the landing point is still ahead. */
  ghost predicate Simulating(trajectory: seq<Point>, b: Ball, remaining: nat, start: Ball, bounds: Rect, steps: nat)
  {
    trajectory + Flight(b, bounds, remaining) == [start.pos] + Flight(start, bounds, steps) &&
    Landing(b, bounds, remaining) == Landing(start, bounds, steps)
  }

  /** A turn of the simulation loop whose new point is past the bottom
      completes the trajectory and finds the landing point. */
  lemma SimulationLands(trajectory: seq<Point>, b: Ball, remaining: nat, start: Ball, bounds: Rect, steps: nat)
    requires remaining > 0 && Simulating(trajectory, b, remaining, start, bounds, steps)
    requires Step(b, bounds).pos.y > MaxY(bounds)
    ensures trajectory + [Step(b, bounds).pos] == [start.pos] + Flight(start, bounds, steps)
    ensures Landing(start, bounds, steps) == Some(Step(b, bounds).pos)
  {
  }

  /** Any other turn of the simulation loop keeps its invariant. */
  lemma SimulationContinues(trajectory: seq<Point>, b: Ball, remaining: nat, start: Ball, bounds: Rect, steps: nat)
    requires remaining > 0 && Simulating(trajectory, b, remaining, start, bounds, steps)
    requires Step(b, bounds).pos.y <= MaxY(bounds)
    ensures Simulating(trajectory + [Step(b, bounds).pos], Step(b, bounds), remaining - 1, start, bounds, steps)
  {
    var n := Step(b, bounds);
    assert trajectory + Flight(b, bounds, remaining) == (trajectory + [n.pos]) + Flight(n, bounds, remaining - 1);
  }

  /** The body of the simulation loop: the position and velocity
      updated in place, as the source writes them out. */
  method Advance(position: Point, velocity: Point, bounds: Rect) returns (p: Point, v: Point)
    ensures Ball(p, v) == Step(Ball(position, velocity), bounds)
  {
    p := Point(position.x + velocity.x * TimeStep, position.y + velocity.y * TimeStep);
    v := Point(velocity.x, velocity.y + Gravity * TimeStep);
    if p.x < MinX(bounds) || p.x > MaxX(bounds) {
      v := Point(-v.x * Restitution, v.y);
      if p.x < MinX(bounds) {
        p := Point(MinX(bounds), p.y);
      } else {
        p := Point(MaxX(bounds), p.y);
      }
    }
    if p.y < MinY(bounds) {
      v := Point(v.x, -v.y * Restitution);
      p := Point(p.x, MinY(bounds));
    }
  }

  /** The simulation loop of `predictTrajectory`: from the start
      position, up to `steps` turns of `Advance`, each appending the new
      position, stopping at the first one past the bottom of the game
      area, which becomes the landing point. */
  method Simulate(start: Ball, bounds: Rect, steps: nat) returns (trajectory: seq<Point>, landing: Option<Point>)
    ensures trajectory == [start.pos] + Flight(start, bounds, steps)
    ensures landing == Landing(start, bounds, steps)
  {
    var position, velocity := start.pos, start.vel;
    trajectory, landing := [position], None;
    var step := 0;
    while step < steps
      invariant 0 <= step <= steps
      invariant landing.None?
      invariant Simulating(trajectory, Ball(position, velocity), steps - step, start, bounds, steps)
      decreases steps - step
    {
      ghost var current := Ball(position, velocity);
      position, velocity := Advance(position, velocity, bounds);
      if position.y > MaxY(bounds) {
        SimulationLands(trajectory, current, steps - step, start, bounds, steps);
        trajectory := trajectory + [position];
        landing := Some(position);
        return;
      }
      SimulationContinues(trajectory, current, steps - step, start, bounds, steps);
      trajectory := trajectory + [position];
      step := step + 1;
    }
  }

  /** The centre of a detected box, which the history records. */
  function Center(d: Detection): Point
  {
    Point(d.position.x + d.size.width / 2.0, d.position.y + d.size.height / 2.0)
  }

  // ---------------------------------------------------------------------
  // The tracker

  /** The game-oriented settings the frame loop reads from `Config`. */
  datatype Settings = Settings(
    thresholds: Thresholds, minBluePixels: int,
    movementThreshold: real, smoothingFactor: real,
    isGameModeEnabled: bool, useMotionPrediction: bool, gameBounds: Rect)

  class Tracker {
    var windowImage: Option<Image>
    var bluePosition: Point
    var blueSize: Size
    var positionHistory: seq<Point>
    var velocityVector: Point
    var lastFrameTime: Option<real>
    var predictedLandingPoint: Option<Point>
    var predictedTrajectory: seq<Point>

    /** The history never holds more than 31 samples, and any image kept
        from an earlier capture has a readable layout. */
    predicate Valid()
      reads this
    {
      |positionHistory| <= 31 && (windowImage.Some? ==> Readable(windowImage.value))
    }

    constructor()
      ensures Valid()
      ensures windowImage.None? && bluePosition == Origin && blueSize == Size(0.0, 0.0)
      ensures positionHistory == [] && velocityVector == Origin && lastFrameTime.None?
      ensures predictedLandingPoint.None? && predictedTrajectory == []
    {
      windowImage := None;
      bluePosition, blueSize := Origin, Size(0.0, 0.0);
      positionHistory, velocityVector, lastFrameTime := [], Origin, None;
      predictedLandingPoint, predictedTrajectory := None, [];
    }

    /** The reset `startTracking` performs before starting the timer. */
    method StartTracking()
      requires Valid()
      modifies this
      ensures Valid()
      ensures positionHistory == [] && velocityVector == Origin && lastFrameTime.None?
      ensures windowImage == old(windowImage) && bluePosition == old(bluePosition) && blueSize == old(blueSize)
      ensures predictedLandingPoint == old(predictedLandingPoint) && predictedTrajectory == old(predictedTrajectory)
    {
      positionHistory := [];
      velocityVector := Origin;
      lastFrameTime := None;
    }

    /** `detectBlueObject`: the scan of the whole image and the box it
        reports. */
    method DetectBlueObject(img: Image, t: Thresholds, minBluePixels: int)
      requires Readable(img)
      modifies this
      ensures var d := Detect(img, t, minBluePixels); bluePosition == d.position && blueSize == d.size
      ensures windowImage == old(windowImage) && positionHistory == old(positionHistory)
      ensures velocityVector == old(velocityVector) && lastFrameTime == old(lastFrameTime)
      ensures predictedLandingPoint == old(predictedLandingPoint) && predictedTrajectory == old(predictedTrajectory)
    {
      bluePosition := Origin;
      blueSize := Size(0.0, 0.0);
      if img.data.None? {
        return;
      }
      var b := ScanImage(img, t);
      FoldCount(Start(img.width, img.height), BluePixels(img, t));
      if b.count > minBluePixels && b.maxX >= b.minX && b.maxY >= b.minY {
        bluePosition := Point(b.minX as real, b.minY as real);
        blueSize := Size((b.maxX - b.minX) as real, (b.maxY - b.minY) as real);
      }
    }

    /** `updatePositionHistory`. */
    method UpdatePositionHistory(position: Point)
      requires Valid()
      modifies this
      ensures Valid()
      ensures positionHistory == Appended(old(positionHistory), position)
      ensures windowImage == old(windowImage) && bluePosition == old(bluePosition) && blueSize == old(blueSize)
      ensures velocityVector == old(velocityVector) && lastFrameTime == old(lastFrameTime)
      ensures predictedLandingPoint == old(predictedLandingPoint) && predictedTrajectory == old(predictedTrajectory)
    {
      if |positionHistory| > 30 {
        positionHistory := positionHistory[1..];
      }
      positionHistory := positionHistory + [position];
    }

    /** `calculateVelocity`: zero with fewer than two samples or a move
        shorter than the threshold, else the smoothed measured velocity
        from the sample before the newest one. */
    method CalculateVelocity(current: Point, deltaTime: real, s: Settings, hypot: (real, real) -> real)
      requires (|positionHistory| >= 2 &&
                hypot(current.x - positionHistory[|positionHistory| - 2].x,
                      current.y - positionHistory[|positionHistory| - 2].y) >= s.movementThreshold) ==>
               deltaTime != 0.0
      modifies this
      ensures positionHistory == old(positionHistory) && lastFrameTime == old(lastFrameTime)
      ensures |positionHistory| < 2 ==> velocityVector == Origin
      ensures |positionHistory| >= 2 ==>
        var previous := positionHistory[|positionHistory| - 2];
        var dx, dy := current.x - previous.x, current.y - previous.y;
        velocityVector ==
          if hypot(dx, dy) < s.movementThreshold then Origin
          else Blend(old(velocityVector), Measured(dx, dy, deltaTime), s.smoothingFactor)
      ensures windowImage == old(windowImage) && bluePosition == old(bluePosition) && blueSize == old(blueSize)
      ensures predictedLandingPoint == old(predictedLandingPoint) && predictedTrajectory == old(predictedTrajectory)
    {
      if |positionHistory| < 2 {
        velocityVector := Origin;
        return;
      }
      var previous := positionHistory[|positionHistory| - 2];
      var dx, dy := current.x - previous.x, current.y - previous.y;
      var distance := hypot(dx, dy);
      if distance < s.movementThreshold {
        velocityVector := Origin;
        return;
      }
      var vx, vy := dx / deltaTime, dy / deltaTime;
      var smoothFactor := s.smoothingFactor;
      velocityVector := Point(velocityVector.x * smoothFactor + vx * (1.0 - smoothFactor),
                              velocityVector.y * smoothFactor + vy * (1.0 - smoothFactor));
    }

    /** `predictTrajectory`: the simulation from the newest sample at the
        current velocity, kept only when there are at least three samples
        and the ball moves faster than 0.1 along some axis. */
    method PredictTrajectory(bounds: Rect)
      modifies this`predictedTrajectory, this`predictedLandingPoint
      ensures var h, v := old(positionHistory), old(velocityVector);
        |h| < 3 || (Abs(v.x) <= 0.1 && Abs(v.y) <= 0.1) ==>
        predictedTrajectory == [] && predictedLandingPoint.None?
      ensures var h, v := old(positionHistory), old(velocityVector);
        |h| >= 3 && (Abs(v.x) > 0.1 || Abs(v.y) > 0.1) ==>
        var b := Ball(h[|h| - 1], v);
        predictedTrajectory == [b.pos] + Flight(b, bounds, MaxSteps) &&
        predictedLandingPoint == Landing(b, bounds, MaxSteps)
      ensures windowImage == old(windowImage) && bluePosition == old(bluePosition) && blueSize == old(blueSize)
      ensures positionHistory == old(positionHistory) && velocityVector == old(velocityVector)
      ensures lastFrameTime == old(lastFrameTime)
    {
      if |positionHistory| >= 3 && (Abs(velocityVector.x) > 0.1 || Abs(velocityVector.y) > 0.1) {
        var currentPosition := positionHistory[|positionHistory| - 1];
        var trajectory, landing := Simulate(Ball(currentPosition, velocityVector), bounds, MaxSteps);
        predictedTrajectory, predictedLandingPoint := trajectory, landing;
      } else {
        predictedTrajectory, predictedLandingPoint := [], None;
      }
    }

    /** The part of `processFrame` run for a detected object: record its
        centre, update the velocity when an earlier frame time is known,
        and in game mode with prediction on simulate the trajectory. */
    method FollowObject(objectCenter: Point, now: real, s: Settings, hypot: (real, real) -> real)
      requires Valid()
      requires lastFrameTime.Some? ==> now != lastFrameTime.value
      modifies this
      ensures Valid()
      ensures positionHistory == Appended(old(positionHistory), objectCenter)
      ensures old(lastFrameTime).None? ==> velocityVector == old(velocityVector)
      ensures !(s.isGameModeEnabled && s.useMotionPrediction) ==>
        predictedLandingPoint == old(predictedLandingPoint) && predictedTrajectory == old(predictedTrajectory)
      ensures windowImage == old(windowImage) && bluePosition == old(bluePosition) && blueSize == old(blueSize)
      ensures lastFrameTime == old(lastFrameTime)
    {
      UpdatePositionHistory(objectCenter);
      if lastFrameTime.Some? {
        var deltaTime := now - lastFrameTime.value;
        CalculateVelocity(objectCenter, deltaTime, s, hypot);
      }
      if s.isGameModeEnabled && s.useMotionPrediction {
        PredictTrajectory(s.gameBounds);
      }
    }

    /** `processFrame`: keep a successful capture, scan the latest image,
        follow the object when its box has a positive size, then note the
        frame time. */
    method ProcessFrame(captured: Option<Image>, now: real, s: Settings, hypot: (real, real) -> real)
      requires Valid()
      requires captured.Some? ==> Readable(captured.value)
      requires lastFrameTime.Some? ==> now != lastFrameTime.value
      modifies this
      ensures Valid()
      ensures windowImage == if captured.Some? then captured else old(windowImage)
      ensures windowImage.None? ==>
        bluePosition == old(bluePosition) && blueSize == old(blueSize) &&
        positionHistory == old(positionHistory) && velocityVector == old(velocityVector) &&
        lastFrameTime == old(lastFrameTime) &&
        predictedLandingPoint == old(predictedLandingPoint) && predictedTrajectory == old(predictedTrajectory)
      ensures windowImage.Some? ==>
        var d := Detect(windowImage.value, s.thresholds, s.minBluePixels);
        bluePosition == d.position && blueSize == d.size && lastFrameTime == Some(now) &&
        if d.size.width > 0.0 && d.size.height > 0.0 then
          positionHistory == Appended(old(positionHistory), Center(d)) &&
          (old(lastFrameTime).None? ==> velocityVector == old(velocityVector)) &&
          (!(s.isGameModeEnabled && s.useMotionPrediction) ==>
             predictedLandingPoint == old(predictedLandingPoint) && predictedTrajectory == old(predictedTrajectory))
        else
          positionHistory == old(positionHistory) && velocityVector == old(velocityVector) &&
          predictedLandingPoint == old(predictedLandingPoint) && predictedTrajectory == old(predictedTrajectory)
    {
      if captured.Some? {
        windowImage := captured;
      }
      if windowImage.None? {
        return;
      }
      var currentTime := now;
      DetectBlueObject(windowImage.value, s.thresholds, s.minBluePixels);
      if blueSize.width > 0.0 && blueSize.height > 0.0 {
        var objectCenter := Center(Detection(bluePosition, blueSize));
        FollowObject(objectCenter, currentTime, s, hypot);
      }
      lastFrameTime := Some(currentTime);
    }
  }
}
