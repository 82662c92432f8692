/** The polygon fill behind every face: each pixel row between the clamped
    vertical extent of the first three points is cut by the polygon's edges,
    and a row cut exactly twice is painted between the two cut points; the
    outline is then drawn over the fill in white. */
module Scanline {
  import opened Numeric
  import opened Canvas
  import opened Line

  /** The row at height y cuts the edge from p to q: one end lies on or
      above the row, the other strictly below it. */
  predicate Crosses(p: Vec2, q: Vec2, y: real): (c: bool)
    ensures c <==> AtOrAbove(p, y) != AtOrAbove(q, y)
  {
    (p.y <= y && q.y > y) || (q.y <= y && p.y > y)
  }

  /** The point p lies on or above the row at height y. */
  predicate AtOrAbove(p: Vec2, y: real)
  {
    p.y <= y
  }

  /** Where the row at height y cuts the edge from p to q, by linear
      interpolation along the edge: the point (x, y) lies on the line
      through p and q. */
  function CrossX(p: Vec2, q: Vec2, y: real): (x: real)
    requires Crosses(p, q, y)
    ensures (x - p.x) * (q.y - p.y) == (y - p.y) * (q.x - p.x)
  {
    var d := q.y - p.y;
    var x := p.x + (y - p.y) * (q.x - p.x) / d;
    assert (x - p.x) * d == (y - p.y) * (q.x - p.x);
    x
  }

  /** The cut points of the row at height y with the first k edges, in edge
      order; edge i runs from point i to point (i + 1) mod |points|, so the
      last edge closes the polygon. */
  function Crossings(points: seq<Vec2>, y: real, k: nat): (xs: seq<real>)
    requires 0 < |points| && k <= |points|
    ensures |xs| <= k
  {
    if k == 0 then []
    else
      var p, q := points[k - 1], points[k % |points|];
      Crossings(points, y, k - 1) + (if Crosses(p, q, y) then [CrossX(p, q, y)] else [])
  }

  /** The extent of the first three points along each axis. */
  function MinX3(points: seq<Vec2>): real
    requires 3 <= |points|
  {
    Min(points[0].x, Min(points[1].x, points[2].x))
  }

  function MaxX3(points: seq<Vec2>): real
    requires 3 <= |points|
  {
    Max(points[0].x, Max(points[1].x, points[2].x))
  }

  function MinY3(points: seq<Vec2>): real
    requires 3 <= |points|
  {
    Min(points[0].y, Min(points[1].y, points[2].y))
  }

  function MaxY3(points: seq<Vec2>): real
    requires 3 <= |points|
  {
    Max(points[0].y, Max(points[1].y, points[2].y))
  }

  /** The drawing box of a face: the truncated extent of its first three
      points, clamped to the image. */
  datatype Box = Box(minX: int, minY: int, maxX: int, maxY: int)

  /** v lies in the closed integer range lo..hi. */
  predicate Within(lo: int, hi: int, v: int)
  {
    lo <= v <= hi
  }

  /** The box covers exactly the columns and rows that are on the image and
      within the truncated extent of the first three points. */
  function ClampedBox(points: seq<Vec2>): (box: Box)
    requires 3 <= |points|
    ensures 0 <= box.minX && 0 <= box.minY && box.maxX < Width && box.maxY < Height
    ensures forall x :: Within(box.minX, box.maxX, x) <==>
              0 <= x < Width && Within(Trunc(MinX3(points)), Trunc(MaxX3(points)), x)
    ensures forall y :: Within(box.minY, box.maxY, y) <==>
              0 <= y < Height && Within(Trunc(MinY3(points)), Trunc(MaxY3(points)), y)
  {
    var minX := Trunc(MinX3(points));
    var minY := Trunc(MinY3(points));
    var maxX := Trunc(MaxX3(points));
    var maxY := Trunc(MaxY3(points));
    Box(if minX < 0 then 0 else minX, if minY < 0 then 0 else minY,
        if maxX >= Width then Width - 1 else maxX, if maxY >= Height then Height - 1 else maxY)
  }

  /** The pixel (x, y) is painted by the fill: its row lies in the clamped
      box, the row has exactly two cut points, x lies between their
      truncations, and x is on the image. */
  predicate FillCovers(points: seq<Vec2>, x: int, y: int)
    requires 3 <= |points|
  {
    var box := ClampedBox(points);
    var xs := Crossings(points, y as real, |points|);
    && box.minY <= y <= box.maxY
    && |xs| == 2
    && Trunc(Min(xs[0], xs[1])) <= x <= Trunc(Max(xs[0], xs[1]))
    && 0 <= x < Width
  }

  /** The pixel (x, y) lies on one of the three outline segments. */
  predicate OnOutline(points: seq<Vec2>, x: int, y: int)
    requires 3 <= |points|
  {
    || (x, y) in LinePoints(points[0].x, points[0].y, points[1].x, points[1].y)
    || (x, y) in LinePoints(points[1].x, points[1].y, points[2].x, points[2].y)
    || (x, y) in LinePoints(points[2].x, points[2].y, points[0].x, points[0].y)
  }

  /** The cut points of the row at height y with every edge, in edge order. */
  method Intersections(points: seq<Vec2>, y: int) returns (xs: seq<real>)
    requires 0 < |points|
    ensures xs == Crossings(points, y as real, |points|)
  {
    xs := [];
    var i := 0;
    while i < |points|
      invariant 0 <= i <= |points|
      invariant xs == Crossings(points, y as real, i)
    {
      var j := (i + 1) % |points|;
      if (points[i].y <= y as real && points[j].y > y as real)
         || (points[j].y <= y as real && points[i].y > y as real)
      {
        var x := CrossX(points[i], points[j], y as real);
        xs := xs + [x];
      }
      i := i + 1;
    }
  }

  /** Paints, row by row, exactly the pixels FillCovers names. */
  method Fill(screen: array2<RGBA>, points: seq<Vec2>, col: RGBA)
    requires IsScreen(screen) && 3 <= |points|
    modifies screen
    ensures forall a, b :: InBounds(a, b) ==>
              screen[a, b] == if FillCovers(points, a, b) then col else old(screen[a, b])
  {
    var box := ClampedBox(points);
    var y := box.minY;
    while y <= box.maxY
      invariant box.minY <= y && (y <= box.maxY + 1 || y == box.minY)
      invariant forall a, b :: InBounds(a, b) ==>
                  screen[a, b] == if b < y && FillCovers(points, a, b) then col else old(screen[a, b])
    {
      var xs := Intersections(points, y);
      if |xs| == 2 {
        var lo, hi := xs[0], xs[1];
        if lo > hi {
          lo, hi := hi, lo;
        }
        assert lo == Min(xs[0], xs[1]) && hi == Max(xs[0], xs[1]);
        TruncMonotone(lo, hi);
        var x := Trunc(lo);
        while x <= Trunc(hi)
          invariant Trunc(lo) <= x <= Trunc(hi) + 1
          invariant forall a, b :: InBounds(a, b) ==>
                      screen[a, b] == if (b < y && FillCovers(points, a, b)) || (b == y && Trunc(lo) <= a < x)
                                      then col else old(screen[a, b])
        {
          if x >= 0 && x < Width {
            SetPixel(screen, x, y, col);
          }
          x := x + 1;
        }
      }
      y := y + 1;
    }
  }

  /** A face: its fill, then its three edges in white on top. */
  method DrawOptimizedTriangle(screen: array2<RGBA>, points: seq<Vec2>, col: RGBA)
    requires IsScreen(screen) && 3 <= |points|
    modifies screen
    ensures forall a, b :: InBounds(a, b) ==>
              screen[a, b] == if OnOutline(points, a, b) then White
                              else if FillCovers(points, a, b) then col
                              else old(screen[a, b])
  {
    Fill(screen, points, col);
    DrawLine(screen, points[0].x, points[0].y, points[1].x, points[1].y, White);
    DrawLine(screen, points[1].x, points[1].y, points[2].x, points[2].y, White);
    DrawLine(screen, points[2].x, points[2].y, points[0].x, points[0].y, White);
  }

  /** Around a closed polygon the side changes come in pairs: after the
      first k edges the number of cut points is odd exactly when point k
      (point 0 again once k = |points|) lies on the other side from point 0. */
  lemma {:induction false} CrossingsParity(points: seq<Vec2>, y: real, k: nat)
    requires 0 < |points| && k <= |points|
    ensures |Crossings(points, y, k)| % 2 == if AtOrAbove(points[0], y) == AtOrAbove(points[k % |points|], y) then 0 else 1
  {
    if k > 0 {
      CrossingsParity(points, y, k - 1);
      var n := |points|;
      NextIndex(k - 1, n);
      if k - 1 > 0 {
        NextIndex(k - 2, n);
      } else {
        NextIndex(n - 1, n);
      }
      var p, q := points[k - 1], points[k % n];
      var prev := Crossings(points, y, k - 1);
      var added := if Crosses(p, q, y) then 1 else 0;
      assert |Crossings(points, y, k)| == |prev| + added;
    }
  }

  /** Every row cuts a closed polygon an even number of times. */
  lemma CrossingsEven(points: seq<Vec2>, y: real)
    requires 0 < |points|
    ensures |Crossings(points, y, |points|)| % 2 == 0
  {
    CrossingsParity(points, y, |points|);
  }

  /** A row cuts a triangle in two points exactly when it cuts one of its
      edges at all; it never cuts it once or three times. */
  lemma TriangleCrossings(points: seq<Vec2>, y: real)
    requires |points| == 3
    ensures var n := |Crossings(points, y, 3)|; n == 0 || n == 2
    ensures |Crossings(points, y, 3)| == 2 <==>
              Crosses(points[0], points[1], y) || Crosses(points[1], points[2], y) || Crosses(points[2], points[0], y)
  {
    CrossingsEven(points, y);
  }

  /** A cut point lies between the x coordinates of its edge's two ends. */
  lemma CrossXBetween(p: Vec2, q: Vec2, y: real)
    requires Crosses(p, q, y)
    ensures Min(p.x, q.x) <= CrossX(p, q, y) <= Max(p.x, q.x)
  {
    var a, c := y - p.y, q.y - p.y;
    FractionInUnit(a, c);
    MulDivComm(a, q.x - p.x, c);
    assert CrossX(p, q, y) == p.x + a / c * (q.x - p.x);
    InterpolateBetween(p.x, q.x, a / c);
  }

  /** Every cut point of a triangle lies within its horizontal extent. */
  lemma {:induction false} CrossingsInXRange(points: seq<Vec2>, y: real, k: nat)
    requires |points| == 3 && k <= 3
    ensures forall i :: 0 <= i < |Crossings(points, y, k)| ==>
              MinX3(points) <= Crossings(points, y, k)[i] <= MaxX3(points)
  {
    if k > 0 {
      CrossingsInXRange(points, y, k - 1);
      var p, q := points[k - 1], points[k % 3];
      if Crosses(p, q, y) {
        CrossXBetween(p, q, y);
      }
    }
  }

  /** The fill of a triangle never leaves its clamped drawing box, so the
      horizontal clamp the source computes but never reads would not change
      the picture. */
  lemma FillInsideBox(points: seq<Vec2>, x: int, y: int)
    requires |points| == 3 && FillCovers(points, x, y)
    ensures var box := ClampedBox(points);
            box.minX <= x <= box.maxX && box.minY <= y <= box.maxY
  {
    var xs := Crossings(points, y as real, 3);
    CrossingsInXRange(points, y as real, 3);
    TruncMonotone(MinX3(points), Min(xs[0], xs[1]));
    TruncMonotone(Max(xs[0], xs[1]), MaxX3(points));
  }

  /** The right triangle with corners (0, 0), (4, 0) and (0, 4): rows 0 to 3
      are filled from x = 0 to x = 4 - y; row 4, which only touches the
      corner (0, 4), is not. */
  lemma ExampleTriangleFill(x: int, y: int)
    ensures FillCovers([Vec2(0.0, 0.0), Vec2(4.0, 0.0), Vec2(0.0, 4.0)], x, y)
            <==> 0 <= y <= 3 && 0 <= x <= 4 - y
  {
    var pts := [Vec2(0.0, 0.0), Vec2(4.0, 0.0), Vec2(0.0, 4.0)];
    var yr := y as real;
    assert ClampedBox(pts) == Box(0, 0, 4, 4);
    if 0 <= y <= 3 {
      assert Crossings(pts, yr, 1) == [];
      assert CrossX(pts[1], pts[2], yr) == 4.0 - yr;
      assert Crossings(pts, yr, 2) == [4.0 - yr];
      assert CrossX(pts[2], pts[0], yr) == 0.0;
      assert Crossings(pts, yr, 3) == [4.0 - yr, 0.0];
      TruncOfInt(4 - y);
      TruncOfInt(0);
    } else if y == 4 {
      assert Crossings(pts, yr, 3) == [];
    }
  }
}
