/** The colour scan of the screen-scanning `BlueEmojiTracker`
    (`findBlueObject`): every fourth pixel of every fourth row of an RGBA
    buffer is classified as blue or not, the blue ones are counted and
    bounded, and a point is picked from the bounding box (or the bluest
    pixel) and mapped to screen coordinates. */
module BlueScan {
  import opened Common

  /** `Config.scanStep`. */
  const ScanStep: nat := 4

  /** `Config.blueMinValue`, `Config.redMaxValue`, `Config.greenMaxValue`. */
  datatype Thresholds = Thresholds(blueMin: Byte, redMax: Byte, greenMax: Byte)

  /** The `Config` values the mapping to screen coordinates reads. */
  datatype Mapping = Mapping(
    useWindowMode: bool,
    windowBounds: Option<Rect>,
    scaleX: Option<real>,
    scaleY: Option<real>,
    captureRect: Rect)

  /** A blue pixel: its position and its blue component. */
  datatype Match = Match(x: int, y: int, blue: Byte)

  /** A pixel counts as blue when its blue component reaches the minimum,
      red and green stay under their maxima, and blue exceeds each of them
      by more than 50. */
  predicate IsBlue(t: Thresholds, red: Byte, green: Byte, blue: Byte)
  {
    blue >= t.blueMin && red <= t.redMax && green <= t.greenMax &&
    blue > red + 50 && blue > green + 50
  }

  /** `UInt8` addition, which traps rather than wrap: defined only when the
      sum fits in a byte. */
  function AddBytes(a: Byte, b: Byte): (r: Byte)
    requires a + b < 256
    ensures r == a + b
  {
    a + b
  }

  /** The offset of the pixel at `(x, y)` in a buffer of `width`-pixel rows
      of four bytes each. */
  function PixelIndex(width: nat, x: nat, y: nat): (i: nat)
  {
    (y * width + x) * 4
  }

  /** The match, if any, at `(x, y)`: nothing when the pixel's blue byte
      would lie outside the buffer or the pixel is not blue. */
  function Cell(pixels: seq<Byte>, width: nat, height: nat, t: Thresholds, x: nat, y: nat): (r: seq<Match>)
    requires |pixels| == width * height * 4
    ensures |r| <= 1
    ensures r != [] ==> r[0].x == x && r[0].y == y && r[0].blue > 50
  {
    var i := PixelIndex(width, x, y);
    if i + 2 < width * height * 4 then
      var red, green, blue := pixels[i], pixels[i + 1], pixels[i + 2];
      if IsBlue(t, red, green, blue) then [Match(x, y, blue)] else []
    else []
  }

  /** The matches of row `y` from column `x` on, in scan order. */
  function RowFrom(pixels: seq<Byte>, width: nat, height: nat, t: Thresholds, y: nat, x: nat): (r: seq<Match>)
    requires |pixels| == width * height * 4
    decreases width - x
  {
    if x >= width then []
    else Cell(pixels, width, height, t, x, y) + RowFrom(pixels, width, height, t, y, x + ScanStep)
  }

  /** The matches of the rows from `y` on, in scan order. */
  function ScanFrom(pixels: seq<Byte>, width: nat, height: nat, t: Thresholds, y: nat): (r: seq<Match>)
    requires |pixels| == width * height * 4
    decreases height - y
  {
    if y >= height then []
    else RowFrom(pixels, width, height, t, y, 0) + ScanFrom(pixels, width, height, t, y + ScanStep)
  }

  /** Every match of a row lies in that row, at or right of `x` and
      left of `width`, and is bluer than 50. */
  lemma {:induction false} RowBounds(pixels: seq<Byte>, width: nat, height: nat, t: Thresholds, y: nat, x: nat)
    requires |pixels| == width * height * 4
    ensures forall m :: m in RowFrom(pixels, width, height, t, y, x) ==> x <= m.x < width && m.y == y && m.blue > 50
    decreases width - x
  {
    if x < width {
      RowBounds(pixels, width, height, t, y, x + ScanStep);
    }
  }

  /** Every match of the rows from `y` on lies inside the image, at or
      below row `y`, and is bluer than 50. */
  lemma {:induction false} ScanBounds(pixels: seq<Byte>, width: nat, height: nat, t: Thresholds, y: nat)
    requires |pixels| == width * height * 4
    ensures forall m :: m in ScanFrom(pixels, width, height, t, y) ==> 0 <= m.x < width && y <= m.y < height && m.blue > 50
    decreases height - y
  {
    if y < height {
      RowBounds(pixels, width, height, t, y, 0);
      ScanBounds(pixels, width, height, t, y + ScanStep);
    }
  }

  /** All blue pixels the scan visits, in scan order. */
  function Matches(pixels: seq<Byte>, width: nat, height: nat, t: Thresholds): seq<Match>
    requires |pixels| == width * height * 4
  {
    ScanFrom(pixels, width, height, t, 0)
  }

  // ---------------------------------------------------------------------
  // Accumulation

  /** The scan's accumulators: the count and coordinate totals, the
      bounding box, and the bluest value with where it was first seen. */
  datatype Summary = Summary(
    count: nat, totalX: int, totalY: int,
    minX: int, minY: int, maxX: int, maxY: int,
    maxBlue: Byte, maxBlueX: int, maxBlueY: int)

  /** The accumulators before the scan: the box starts inverted, at the
      image's size for the minima and zero for the maxima. */
  function Initial(width: nat, height: nat): Summary
  {
    Summary(0, 0, 0, width, height, 0, 0, 0, 0, 0)
  }

  /** One blue pixel accounted for; the bluest position moves only on a
      strictly larger value, so the first of equal maxima is kept. */
  function Add(s: Summary, m: Match): Summary
  {
    var s' := s.(count := s.count + 1, totalX := s.totalX + m.x, totalY := s.totalY + m.y,
                 minX := if m.x < s.minX then m.x else s.minX,
                 minY := if m.y < s.minY then m.y else s.minY,
                 maxX := if m.x > s.maxX then m.x else s.maxX,
                 maxY := if m.y > s.maxY then m.y else s.maxY);
    if m.blue > s.maxBlue then s'.(maxBlue := m.blue, maxBlueX := m.x, maxBlueY := m.y) else s'
  }

  /** The accumulators after the matches `ms`, in order, starting from `s`. */
  function Fold(s: Summary, ms: seq<Match>): Summary
    decreases |ms|
  {
    if ms == [] then s else Add(Fold(s, ms[..|ms| - 1]), ms[|ms| - 1])
  }

  // FoldAppend, FoldOne and FoldCount have counterparts of the same names in
  // GravityTracker and SmoothingTracker, over those modules' own types.

  /** Accumulating two stretches one after the other is accumulating their
      concatenation. */
  lemma {:induction false} FoldAppend(s: Summary, a: seq<Match>, b: seq<Match>)
    ensures Fold(s, a + b) == Fold(Fold(s, a), b)
    decreases |b|
  {
    if b == [] {
      assert a + b == a;
    } else {
      var b' := b[..|b| - 1];
      assert (a + b)[..|a + b| - 1] == a + b';
      FoldAppend(s, a, b');
    }
  }

  /** Accumulating at most one match. */
  lemma FoldOne(s: Summary, cell: seq<Match>)
    requires |cell| <= 1
    ensures Fold(s, cell) == if cell == [] then s else Add(s, cell[0])
  {
    if cell != [] {
      assert cell[..0] == [];
    }
  }

  /** Each match adds one to the count. */
  lemma {:induction false} FoldCount(s: Summary, ms: seq<Match>)
    ensures Fold(s, ms).count == s.count + |ms|
    decreases |ms|
  {
    if ms != [] {
      FoldCount(s, ms[..|ms| - 1]);
    }
  }

  /** After the matches `ms`, starting from an empty box, the box contains
      every match and no match is bluer than the recorded maximum. */
  lemma {:induction false} FoldCovers(width: nat, height: nat, ms: seq<Match>)
    ensures var s := Fold(Initial(width, height), ms);
      forall m :: m in ms ==> s.minX <= m.x <= s.maxX && s.minY <= m.y <= s.maxY && m.blue <= s.maxBlue
    decreases |ms|
  {
    if ms != [] {
      var rest := ms[..|ms| - 1];
      assert ms == rest + [ms[|ms| - 1]];
      FoldCovers(width, height, rest);
    }
  }

  /** Once a match of a `width` by `height` image has been seen, the box's
      edges are attained by matches, and the recorded bluest value is above
      50 and belongs to a match at the recorded position. */
  lemma {:induction false} FoldAttained(width: nat, height: nat, ms: seq<Match>)
    requires forall m :: m in ms ==> 0 <= m.x < width && 0 <= m.y < height && m.blue > 50
    requires ms != []
    ensures var s := Fold(Initial(width, height), ms);
      s.maxBlue > 50 &&
      (exists m :: m in ms && m.x == s.minX) &&
      (exists m :: m in ms && m.x == s.maxX) &&
      (exists m :: m in ms && m.y == s.minY) &&
      (exists m :: m in ms && m.y == s.maxY) &&
      Match(s.maxBlueX, s.maxBlueY, s.maxBlue) in ms
    decreases |ms|
  {
    var rest, m := ms[..|ms| - 1], ms[|ms| - 1];
    assert ms == rest + [m];
    var before := Fold(Initial(width, height), rest);
    var s := Add(before, m);
    assert Fold(Initial(width, height), ms) == s;
    assert m in ms;
    if rest != [] {
      FoldAttained(width, height, rest);
      if m.x >= before.minX { var z :| z in rest && z.x == before.minX; assert z in ms && z.x == s.minX; }
      if m.x <= before.maxX { var z :| z in rest && z.x == before.maxX; assert z in ms && z.x == s.maxX; }
      if m.y >= before.minY { var z :| z in rest && z.y == before.minY; assert z in ms && z.y == s.minY; }
      if m.y <= before.maxY { var z :| z in rest && z.y == before.maxY; assert z in ms && z.y == s.maxY; }
      if m.blue <= before.maxBlue { assert Match(s.maxBlueX, s.maxBlueY, s.maxBlue) in rest; }
    }
  }

  // ---------------------------------------------------------------------
  // Point selection

  /** The point picked inside the image: the centre of the bounding box
      (halved in integers) when the box has positive width and height,
      else the bluest pixel when its value is positive, else the centre of
      mass. */
  function ImagePoint(s: Summary): Point
    requires s.count > 0
  {
    if s.minX < s.maxX && s.minY < s.maxY then
      Point(((s.minX + s.maxX) / 2) as real, ((s.minY + s.maxY) / 2) as real)
    else if s.maxBlue > 0 then
      Point(s.maxBlueX as real, s.maxBlueY as real)
    else
      Point(s.totalX as real / s.count as real, s.totalY as real / s.count as real)
  }

  /** Once anything matched, the centre of mass is never picked: the point
      is the box centre or the bluest pixel, and it lies inside the box of
      the matches. */
  lemma ImagePointInBox(width: nat, height: nat, ms: seq<Match>)
    requires forall m :: m in ms ==> 0 <= m.x < width && 0 <= m.y < height && m.blue > 50
    requires ms != []
    ensures var s := Fold(Initial(width, height), ms);
      var p := ImagePoint(s);
      (if s.minX < s.maxX && s.minY < s.maxY
       then p == Point(((s.minX + s.maxX) / 2) as real, ((s.minY + s.maxY) / 2) as real)
       else p == Point(s.maxBlueX as real, s.maxBlueY as real)) &&
      s.minX as real <= p.x <= s.maxX as real && s.minY as real <= p.y <= s.maxY as real
  {
    FoldCovers(width, height, ms);
    FoldAttained(width, height, ms);
  }

  /** For the scan of an image: whenever a point is reported, it is the
      centre of the blue pixels' box or the bluest of them, inside the box
      and inside the image. */
  lemma ScanPointInBox(pixels: seq<Byte>, width: nat, height: nat, t: Thresholds)
    requires |pixels| == width * height * 4
    requires Matches(pixels, width, height, t) != []
    ensures var s := Fold(Initial(width, height), Matches(pixels, width, height, t));
      var p := ImagePoint(s);
      (if s.minX < s.maxX && s.minY < s.maxY
       then p == Point(((s.minX + s.maxX) / 2) as real, ((s.minY + s.maxY) / 2) as real)
       else p == Point(s.maxBlueX as real, s.maxBlueY as real)) &&
      0.0 <= s.minX as real <= p.x <= s.maxX as real < width as real &&
      0.0 <= s.minY as real <= p.y <= s.maxY as real < height as real
  {
    var ms := Matches(pixels, width, height, t);
    ScanBounds(pixels, width, height, t, 0);
    ImagePointInBox(width, height, ms);
    FoldAttained(width, height, ms);
  }

  /** The image point in screen coordinates: in window mode with known
      bounds, divided by the custom scale (1 when unset) and offset by the
      window's origin; otherwise offset by the capture area's origin. */
  function ScreenPoint(c: Mapping, p: Point): (r: Point)
    requires c.scaleX.Some? ==> c.scaleX.value != 0.0
    requires c.scaleY.Some? ==> c.scaleY.value != 0.0
    ensures c.useWindowMode && c.windowBounds.Some? && c.scaleX.None? && c.scaleY.None? ==>
      r == Point(c.windowBounds.value.x + p.x, c.windowBounds.value.y + p.y)
    ensures c.useWindowMode && c.windowBounds.Some? && c.scaleX.Some? ==>
      (r.x - c.windowBounds.value.x) * c.scaleX.value == p.x
    ensures c.useWindowMode && c.windowBounds.Some? && c.scaleY.Some? ==>
      (r.y - c.windowBounds.value.y) * c.scaleY.value == p.y
    ensures !(c.useWindowMode && c.windowBounds.Some?) ==>
      r == Point(c.captureRect.x + p.x, c.captureRect.y + p.y)
  {
    if c.useWindowMode && c.windowBounds.Some? then
      var scaleX := if c.scaleX.Some? then c.scaleX.value else 1.0;
      var scaleY := if c.scaleY.Some? then c.scaleY.value else 1.0;
      Point(c.windowBounds.value.x + p.x / scaleX, c.windowBounds.value.y + p.y / scaleY)
    else
      Point(c.captureRect.x + p.x, c.captureRect.y + p.y)
  }

  // ---------------------------------------------------------------------
  // The scan

  /** The accumulators after the cells of row `y` from column `x` on,
      taken in scan order from `s`: what the inner loop computes. */
  function RowFold(pixels: seq<Byte>, width: nat, height: nat, t: Thresholds, y: nat, x: nat, s: Summary): Summary
    requires |pixels| == width * height * 4
    decreases width - x
  {
    if x >= width then s
    else RowFold(pixels, width, height, t, y, x + ScanStep, Fold(s, Cell(pixels, width, height, t, x, y)))
  }

  /** The accumulators after the rows from `y` on: what the outer loop
      computes. */
  function ScanFold(pixels: seq<Byte>, width: nat, height: nat, t: Thresholds, y: nat, s: Summary): Summary
    requires |pixels| == width * height * 4
    decreases height - y
  {
    if y >= height then s
    else ScanFold(pixels, width, height, t, y + ScanStep, RowFold(pixels, width, height, t, y, 0, s))
  }

  /** The row loop's accumulators are the fold of the row's matches. */
  lemma {:induction false} RowFoldIsFold(pixels: seq<Byte>, width: nat, height: nat, t: Thresholds, y: nat, x: nat, s: Summary)
    requires |pixels| == width * height * 4
    ensures RowFold(pixels, width, height, t, y, x, s) == Fold(s, RowFrom(pixels, width, height, t, y, x))
    decreases width - x
  {
    if x < width {
      var next := x + ScanStep;
      var cell, rest := Cell(pixels, width, height, t, x, y), RowFrom(pixels, width, height, t, y, next);
      var s1 := Fold(s, cell);
      calc {
        RowFold(pixels, width, height, t, y, x, s);
        ==
        RowFold(pixels, width, height, t, y, next, s1);
        == { RowFoldIsFold(pixels, width, height, t, y, next, s1); }
        Fold(s1, rest);
        == { FoldAppend(s, cell, rest); }
        Fold(s, cell + rest);
        ==
        Fold(s, RowFrom(pixels, width, height, t, y, x));
      }
    }
  }

  /** The scan's accumulators are the fold of all its matches. */
  lemma {:induction false} ScanFoldIsFold(pixels: seq<Byte>, width: nat, height: nat, t: Thresholds, y: nat, s: Summary)
    requires |pixels| == width * height * 4
    ensures ScanFold(pixels, width, height, t, y, s) == Fold(s, ScanFrom(pixels, width, height, t, y))
    decreases height - y
  {
    if y < height {
      var next := y + ScanStep;
      var row, rest := RowFrom(pixels, width, height, t, y, 0), ScanFrom(pixels, width, height, t, next);
      var s1 := Fold(s, row);
      calc {
        ScanFold(pixels, width, height, t, y, s);
        ==
        ScanFold(pixels, width, height, t, next, RowFold(pixels, width, height, t, y, 0, s));
        == { RowFoldIsFold(pixels, width, height, t, y, 0, s); }
        ScanFold(pixels, width, height, t, next, s1);
        == { ScanFoldIsFold(pixels, width, height, t, next, s1); }
        Fold(s1, rest);
        == { FoldAppend(s, row, rest); }
        Fold(s, row + rest);
        ==
        Fold(s, ScanFrom(pixels, width, height, t, y));
      }
    }
  }

  /** The accumulation over one row: the inner `stride` loop. */
  method ScanRow(pixels: seq<Byte>, width: nat, height: nat, t: Thresholds, y: nat, start: Summary)
    returns (s: Summary)
    requires |pixels| == width * height * 4
    requires t.redMax <= 205 && t.greenMax <= 205
    ensures s == RowFold(pixels, width, height, t, y, 0, start)
  {
    var size := width * height * 4;
    s := start;
    var x: nat := 0;
    while x < width
      invariant RowFold(pixels, width, height, t, y, 0, start) == RowFold(pixels, width, height, t, y, x, s)
      decreases width - x
    {
      ghost var cell := Cell(pixels, width, height, t, x, y);
      ghost var next := Fold(s, cell);
      FoldOne(s, cell);
      var pixelIndex := PixelIndex(width, x, y);
      if pixelIndex + 2 < size {
        var red, green, blue := pixels[pixelIndex], pixels[pixelIndex + 1], pixels[pixelIndex + 2];
        if blue >= t.blueMin && red <= t.redMax && green <= t.greenMax &&
           blue > AddBytes(red, 50) && blue > AddBytes(green, 50) {
          s := Add(s, Match(x, y, blue));
        }
      }
      assert s == next;
      x := x + ScanStep;
    }
  }

  /** The outer `stride` loop over the rows. */
  method Scan(pixels: seq<Byte>, width: nat, height: nat, t: Thresholds) returns (s: Summary)
    requires |pixels| == width * height * 4
    requires t.redMax <= 205 && t.greenMax <= 205
    ensures s == Fold(Initial(width, height), Matches(pixels, width, height, t))
  {
    s := Initial(width, height);
    var y: nat := 0;
    while y < height
      invariant ScanFold(pixels, width, height, t, 0, Initial(width, height)) == ScanFold(pixels, width, height, t, y, s)
      decreases height - y
    {
      s := ScanRow(pixels, width, height, t, y, s);
      y := y + ScanStep;
    }
    ScanFoldIsFold(pixels, width, height, t, 0, Initial(width, height));
  }

  /** `findBlueObject(in:)` on the drawn RGBA buffer: a point when at least
      `minBluePixels` blue pixels were seen, mapped to the screen. */
  method FindBlueObject(pixels: seq<Byte>, width: nat, height: nat, t: Thresholds, minBluePixels: int, c: Mapping)
    returns (r: Option<Point>)
    requires |pixels| == width * height * 4
    requires t.redMax <= 205 && t.greenMax <= 205
    requires minBluePixels >= 1
    requires c.scaleX.Some? ==> c.scaleX.value != 0.0
    requires c.scaleY.Some? ==> c.scaleY.value != 0.0
    ensures var ms := Matches(pixels, width, height, t);
      (r.Some? <==> |ms| >= minBluePixels) &&
      (r.Some? ==> r.value == ScreenPoint(c, ImagePoint(Fold(Initial(width, height), ms))))
  {
    var s := Scan(pixels, width, height, t);
    FoldCount(Initial(width, height), Matches(pixels, width, height, t));
    if s.count >= minBluePixels {
      var pointInImage: Point;
      if s.minX < s.maxX && s.minY < s.maxY {
        pointInImage := Point(((s.minX + s.maxX) / 2) as real, ((s.minY + s.maxY) / 2) as real);
      } else if s.maxBlue > 0 {
        pointInImage := Point(s.maxBlueX as real, s.maxBlueY as real);
      } else {
        pointInImage := Point(s.totalX as real / s.count as real, s.totalY as real / s.count as real);
      }
      r := Some(ScreenPoint(c, pointInImage));
    } else {
      r := None;
    }
  }
}
