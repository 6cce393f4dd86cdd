/** The rectangle a drag in the area-selection window produces
    (`AreaSelectionWindow.handleMouseUp`): the box spanned by the point
    where the drag started and the point where it ended, passed on only
    when it is more than 10 points wide and high. */
module AreaSelection {
  import opened Common

  /** A side of the selection must be longer than this to count. */
  const MinimumSide: real := 10.0

  /** `p` lies in the closed box `r` (edges included). */
  predicate Covers(r: Rect, p: Point)
  {
    MinX(r) <= p.x <= MaxX(r) && MinY(r) <= p.y <= MaxY(r)
  }

  /** The area handed to the completion when the mouse is released at
      `point`; none when no drag started (`initialPoint` is nil) or the box
      is too thin in either direction. */
  function SelectedArea(initial: Option<Point>, point: Point): (r: Option<Rect>)
    ensures r.Some? <==>
      initial.Some? && Abs(initial.value.x - point.x) > MinimumSide && Abs(initial.value.y - point.y) > MinimumSide
    ensures r.Some? ==>
      var a := initial.value;
      r.value.width > MinimumSide && r.value.height > MinimumSide &&
      Covers(r.value, a) && Covers(r.value, point) &&
      MinX(r.value) == Min(a.x, point.x) && MaxX(r.value) == Max(a.x, point.x) &&
      MinY(r.value) == Min(a.y, point.y) && MaxY(r.value) == Max(a.y, point.y)
  {
    match initial
    case None => None
    case Some(a) =>
      var minX, minY := Min(a.x, point.x), Min(a.y, point.y);
      var width, height := Abs(a.x - point.x), Abs(a.y - point.y);
      if width > MinimumSide && height > MinimumSide then Some(Rect(minX, minY, width, height))
      else None
  }

  /** The area does not depend on the direction of the drag: swapping the
      start and end points selects the same rectangle. */
  lemma {:induction false} DragDirectionIrrelevant(a: Point, b: Point)
    ensures SelectedArea(Some(a), b) == SelectedArea(Some(b), a)
  {
    assert Abs(a.x - b.x) == Abs(b.x - a.x) && Abs(a.y - b.y) == Abs(b.y - a.y);
    assert Min(a.x, b.x) == Min(b.x, a.x) && Min(a.y, b.y) == Min(b.y, a.y);
  }
}
