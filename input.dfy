/** The two pieces of input handling with content of their own: the zoom
    step applied on a mouse-wheel event, and the test for whether the
    cursor is over the sphere, which decides if a press starts a drag. */
module Input {
  import opened Numeric
  import opened Lod

  /** Where the sphere is drawn: the centre of the 600 x 600 window. */
  const SphereX := 300.0
  const SphereY := 300.0

  /** The zoom at start-up. */
  const InitialScale := 50.0
  /** The floor a wheel event never takes the zoom below. */
  const MinScale := 10.0

  /** The zoom after one frame's wheel movement: each unit of vertical
      scroll adds 10, and a change never leaves the zoom below 10. A frame
      without vertical scroll keeps the zoom as it was. */
  function ScrollScale(scale: real, scrollY: real): (s: real)
    ensures scrollY == 0.0 ==> s == scale
    ensures scrollY != 0.0 ==> MinScale <= s && (s == scale + scrollY * 10.0 || s == MinScale)
    ensures scrollY != 0.0 && MinScale <= scale + scrollY * 10.0 ==> s == scale + scrollY * 10.0
  {
    if scrollY != 0.0 then
      var raised := scale + scrollY * 10.0;
      if raised < MinScale then MinScale else raised
    else scale
  }

  /** The zoom after a run of frames, one wheel reading per frame. */
  function ScaleAfter(scale: real, scrolls: seq<real>): real
    decreases |scrolls|
  {
    if scrolls == [] then scale else ScaleAfter(ScrollScale(scale, scrolls[0]), scrolls[1..])
  }

  /** Starting from any zoom of at least 10, no sequence of wheel events
      brings the zoom below 10. */
  lemma {:induction false} ScaleStaysAtLeastMin(scale: real, scrolls: seq<real>)
    requires MinScale <= scale
    ensures MinScale <= ScaleAfter(scale, scrolls)
    decreases |scrolls|
  {
    if scrolls != [] {
      ScaleStaysAtLeastMin(ScrollScale(scale, scrolls[0]), scrolls[1..]);
    }
  }

  /** From the start-up zoom of 50, the zoom never drops below 10. */
  lemma InitialScaleStaysAtLeastMin(scrolls: seq<real>)
    ensures MinScale <= ScaleAfter(InitialScale, scrolls)
  {
    ScaleStaysAtLeastMin(InitialScale, scrolls);
  }

  /** Scrolling up never lowers the zoom, and so never lowers the level of
      detail. */
  lemma ZoomInKeepsDetail(scale: real, scrollY: real)
    requires MinScale <= scale && 0.0 <= scrollY
    ensures scale <= ScrollScale(scale, scrollY)
    ensures GetLOD(scale) <= GetLOD(ScrollScale(scale, scrollY))
  {
    GetLODMonotone(scale, ScrollScale(scale, scrollY));
  }

  lemma SquareMonotone(a: nat, b: nat)
    requires a <= b
    ensures a * a <= b * b
  {
  }

  lemma SquareOfAbs(x: int)
    ensures IntAbs(x) * IntAbs(x) == x * x && 0 <= x * x
  {
  }

  /** A point of the integer disc of radius r is within |r| of the centre
      along each axis. */
  lemma DiscAxisBound(dx: int, dy: int, r: int)
    ensures dx * dx + dy * dy <= r * r ==> IntAbs(dx) <= IntAbs(r) && IntAbs(dy) <= IntAbs(r)
  {
    SquareOfAbs(dx);
    SquareOfAbs(dy);
    SquareOfAbs(r);
    if IntAbs(r) < IntAbs(dx) {
      SquareMonotone(IntAbs(r) + 1, IntAbs(dx));
    }
    if IntAbs(r) < IntAbs(dy) {
      SquareMonotone(IntAbs(r) + 1, IntAbs(dy));
    }
  }

  /** A point whose axis distances add up to at most |r| lies in the integer
      disc of radius r. */
  lemma DiamondInDisc(dx: int, dy: int, r: int)
    ensures IntAbs(dx) + IntAbs(dy) <= IntAbs(r) ==> dx * dx + dy * dy <= r * r
  {
    var a, b := IntAbs(dx), IntAbs(dy);
    if a + b <= IntAbs(r) {
      SquareOfAbs(dx);
      SquareOfAbs(dy);
      SquareOfAbs(r);
      SquareMonotone(a + b, IntAbs(r));
      SumOfSquares(a, b);
    }
  }

  lemma SumOfSquares(a: nat, b: nat)
    ensures a * a + b * b <= (a + b) * (a + b)
  {
    assert (a + b) * (a + b) == a * a + 2 * (a * b) + b * b;
    assert 0 <= a * b;
  }

  /** Whether the cursor at (mx, my) lies in the disc of radius int(scale)
      around the truncated sphere centre, in integer arithmetic. A cursor
      over the sphere is within the radius of (300, 300) along each axis,
      and every cursor whose axis distances add up to at most the radius is
      over it: the disc lies between the diamond and the square. */
  function IsCursorOverSphere(mx: int, my: int, scale: real): (over: bool)
    ensures over ==> IntAbs(mx - 300) <= IntAbs(Trunc(scale)) && IntAbs(my - 300) <= IntAbs(Trunc(scale))
    ensures IntAbs(mx - 300) + IntAbs(my - 300) <= IntAbs(Trunc(scale)) ==> over
  {
    var radius := Trunc(scale);
    var dx, dy := mx - Trunc(SphereX), my - Trunc(SphereY);
    TruncOfInt(300);
    DiscAxisBound(dx, dy, radius);
    DiamondInDisc(dx, dy, radius);
    dx * dx + dy * dy <= radius * radius
  }

  /** Zooming in never takes the sphere out from under the cursor. */
  lemma CursorOverSphereMonotone(mx: int, my: int, s1: real, s2: real)
    requires 0.0 <= s1 <= s2 && IsCursorOverSphere(mx, my, s1)
    ensures IsCursorOverSphere(mx, my, s2)
  {
    TruncMonotone(s1, s2);
    SquareMonotone(Trunc(s1), Trunc(s2));
  }
}
