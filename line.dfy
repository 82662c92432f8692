/** Line drawing by uniform sampling: the longer axis is walked in unit
    steps, the shorter one by a proportional fraction, and every sample is
    truncated toward zero to a pixel. */
module Line {
  import opened Numeric
  import opened Canvas

  /** The number of unit steps: the larger of the two axis distances. */
  function Steps(x1: real, y1: real, x2: real, y2: real): (s: real)
    ensures Abs(x2 - x1) <= s && Abs(y2 - y1) <= s
    ensures s == Abs(x2 - x1) || s == Abs(y2 - y1)
  {
    Max(Abs(x2 - x1), Abs(y2 - y1))
  }

  /** The coordinate reached after i increments of `inc` from `from`. */
  function Walk(from: real, inc: real, i: int): real
  {
    from + inc * (i as real)
  }

  /** Each sample is one increment past the previous one. */
  lemma WalkNext(from: real, inc: real, i: int)
    ensures Walk(from, inc, i + 1) == Walk(from, inc, i) + inc
  {
  }

  /** The pixel of sample i on a line of non-zero length. */
  function Sample(x1: real, y1: real, x2: real, y2: real, i: int): (int, int)
    requires Steps(x1, y1, x2, y2) != 0.0
  {
    var s := Steps(x1, y1, x2, y2);
    (Trunc(Walk(x1, (x2 - x1) / s, i)), Trunc(Walk(y1, (y2 - y1) / s, i)))
  }

  /** The pixels a line plots, in drawing order: a single pixel for a line of
      length zero, otherwise one sample per step and one more for the start,
      the first at the truncated start point. */
  function LinePoints(x1: real, y1: real, x2: real, y2: real): (pts: seq<(int, int)>)
    ensures 1 <= |pts| && pts[0] == (Trunc(x1), Trunc(y1))
    ensures Steps(x1, y1, x2, y2) == 0.0 ==> |pts| == 1
    ensures Steps(x1, y1, x2, y2) != 0.0 ==> |pts| == Trunc(Steps(x1, y1, x2, y2)) + 1
  {
    var s := Steps(x1, y1, x2, y2);
    if s == 0.0 then [(Trunc(x1), Trunc(y1))]
    else seq(Trunc(s) + 1, i requires 0 <= i => Sample(x1, y1, x2, y2, i))
  }

  /** Plots exactly the pixels of LinePoints that lie on the image; every
      other pixel is unchanged. */
  method DrawLine(screen: array2<RGBA>, x1: real, y1: real, x2: real, y2: real, col: RGBA)
    requires IsScreen(screen)
    modifies screen
    ensures forall a, b :: InBounds(a, b) ==>
              screen[a, b] == if (a, b) in LinePoints(x1, y1, x2, y2) then col else old(screen[a, b])
  {
    var dx := x2 - x1;
    var dy := y2 - y1;
    var steps := Max(Abs(dx), Abs(dy));
    if steps == 0.0 {
      SetPixel(screen, Trunc(x1), Trunc(y1), col);
      return;
    }
    var xIncrement := dx / steps;
    var yIncrement := dy / steps;
    ghost var pts := LinePoints(x1, y1, x2, y2);
    var i := 0;
    while i <= Trunc(steps)
      invariant 0 <= i <= Trunc(steps) + 1
      invariant forall a, b :: InBounds(a, b) ==>
                  screen[a, b] == if (a, b) in pts[..i] then col else old(screen[a, b])
    {
      var x := Walk(x1, xIncrement, i);
      var y := Walk(y1, yIncrement, i);
      assert steps == Steps(x1, y1, x2, y2);
      assert pts[i] == Sample(x1, y1, x2, y2, i);
      assert pts[..i + 1] == pts[..i] + [pts[i]];
      SetPixel(screen, Trunc(x), Trunc(y), col);
      i := i + 1;
    }
    assert pts[..i] == pts;
  }

  /** A per-step increment never exceeds one pixel. */
  lemma IncrementBound(d: real, s: real)
    requires 0.0 < s && Abs(d) <= s
    ensures -1.0 <= d / s <= 1.0
  {
    assert d / s * s == d;
  }

  /** Walking a whole number n of increments of (to - from) / n arrives at
      `to`. */
  lemma WalkArrives(from: real, to: real, n: int)
    requires n != 0
    ensures Walk(from, (to - from) / (n as real), n) == to
  {
    var s := n as real;
    assert (to - from) / s * s == to - from;
  }

  /** When the step count is whole, the last sample lands on the truncated
      end point. */
  lemma LineReachesEnd(x1: real, y1: real, x2: real, y2: real)
    requires Steps(x1, y1, x2, y2) == Trunc(Steps(x1, y1, x2, y2)) as real
    ensures var pts := LinePoints(x1, y1, x2, y2);
            pts[|pts| - 1] == (Trunc(x2), Trunc(y2))
  {
    var s := Steps(x1, y1, x2, y2);
    var pts := LinePoints(x1, y1, x2, y2);
    if s != 0.0 {
      var n := Trunc(s);
      WalkArrives(x1, x2, n);
      WalkArrives(y1, y2, n);
      assert pts[n] == Sample(x1, y1, x2, y2, n);
    }
  }

  /** Consecutive samples are neighbours: neither coordinate moves by more
      than one pixel, so the plotted line has no gaps. */
  lemma LineConnected(x1: real, y1: real, x2: real, y2: real, i: int)
    requires var pts := LinePoints(x1, y1, x2, y2); 0 <= i < |pts| - 1
    ensures var pts := LinePoints(x1, y1, x2, y2);
            IntAbs(pts[i + 1].0 - pts[i].0) <= 1 && IntAbs(pts[i + 1].1 - pts[i].1) <= 1
  {
    var s := Steps(x1, y1, x2, y2);
    var dxs, dys := (x2 - x1) / s, (y2 - y1) / s;
    IncrementBound(x2 - x1, s);
    IncrementBound(y2 - y1, s);
    WalkNext(x1, dxs, i);
    WalkNext(y1, dys, i);
    AdjacentTrunc(Walk(x1, dxs, i), dxs);
    AdjacentTrunc(Walk(y1, dys, i), dys);
  }

  /** Moving a value by at most one moves its truncation by at most one. */
  lemma AdjacentTrunc(v: real, d: real)
    requires -1.0 <= d <= 1.0
    ensures IntAbs(Trunc(v + d) - Trunc(v)) <= 1
  {
    if 0.0 <= d {
      TruncStep(v, v + d);
    } else {
      TruncStep(v + d, v);
    }
  }

  /** A horizontal line three pixels long plots its four pixels in order. */
  lemma HorizontalLineExample()
    ensures LinePoints(0.0, 0.0, 3.0, 0.0) == [(0, 0), (1, 0), (2, 0), (3, 0)]
  {
    var pts := LinePoints(0.0, 0.0, 3.0, 0.0);
    assert Steps(0.0, 0.0, 3.0, 0.0) == 3.0;
    assert Trunc(3.0) == 3;
    assert Trunc(1.0) == 1 && Trunc(2.0) == 2 && Trunc(0.0) == 0;
    assert pts[1] == Sample(0.0, 0.0, 3.0, 0.0, 1);
    assert pts[2] == Sample(0.0, 0.0, 3.0, 0.0, 2);
    assert pts[3] == Sample(0.0, 0.0, 3.0, 0.0, 3);
  }

  /** Without a whole step count the walk can stop short of the end: from
      x = 0.5 to x = 3 the samples are 0.5, 1.5 and 2.5, so pixel 3, the
      truncated end point, is never plotted. */
  lemma LineStopsShortExample()
    ensures var pts := LinePoints(0.5, 0.0, 3.0, 0.0);
            pts == [(0, 0), (1, 0), (2, 0)] && (Trunc(3.0), Trunc(0.0)) !in pts
  {
    var pts := LinePoints(0.5, 0.0, 3.0, 0.0);
    assert Steps(0.5, 0.0, 3.0, 0.0) == 2.5;
    assert Trunc(2.5) == 2;
    assert Trunc(3.0) == 3 && Trunc(0.0) == 0;
    assert pts[1] == Sample(0.5, 0.0, 3.0, 0.0, 1);
    assert pts[2] == Sample(0.5, 0.0, 3.0, 0.0, 2);
    assert Trunc(1.5) == 1;
  }
}
