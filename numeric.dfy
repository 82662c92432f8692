/** Real-number helpers shared by the renderer: Go's math.Min, math.Max,
    math.Abs, and the float-to-int conversion `int(x)`, which truncates
    toward zero (it is not a floor for negative values). */
module Numeric {

  function Min(a: real, b: real): (m: real)
    ensures m <= a && m <= b && (m == a || m == b)
  {
    if a < b then a else b
  }

  function Max(a: real, b: real): (m: real)
    ensures a <= m && b <= m && (m == a || m == b)
  {
    if a < b then b else a
  }

  function Abs(a: real): (m: real)
    ensures 0.0 <= m && (m == a || m == -a)
  {
    if a < 0.0 then -a else a
  }

  function IntAbs(a: int): (m: nat)
    ensures m == a || m == -a
  {
    if a < 0 then -a else a
  }

  /** Go's `int(x)` for a float64 x in range: the integer part, rounded toward zero. */
  function Trunc(x: real): (n: int)
    ensures 0.0 <= x ==> 0 <= n && n as real <= x < n as real + 1.0
    ensures x < 0.0 ==> n <= 0 && n as real - 1.0 < x <= n as real
  {
    if x >= 0.0 then x.Floor else -((-x).Floor)
  }

  /** Truncation never reverses the order of two values. */
  lemma TruncMonotone(a: real, b: real)
    requires a <= b
    ensures Trunc(a) <= Trunc(b)
  {
  }

  /** An integer value is its own truncation. */
  lemma TruncOfInt(n: int)
    ensures Trunc(n as real) == n
  {
  }

  /** Two values at most 1 apart truncate to integers at most 1 apart: the
      reason a unit-step sample walk leaves no gap. */
  lemma TruncStep(a: real, b: real)
    requires a <= b <= a + 1.0
    ensures Trunc(a) <= Trunc(b) <= Trunc(a) + 1
  {
    TruncMonotone(a, b);
    if 0.0 <= a {
    } else if b < 0.0 {
    } else {
      assert Trunc(b) == 0;
    }
  }

  /** The successor of an index in a cycle of length n: the next index, or 0
      after the last one. */
  lemma NextIndex(i: int, n: int)
    requires 0 <= i < n
    ensures (i + 1) % n == if i + 1 == n then 0 else i + 1
  {
    if i + 1 < n {
      assert (i + 1) / n == 0;
    } else {
      assert (i + 1) / n == 1;
    }
  }

  /** t = a / c lies in [0, 1] when a lies between 0 and c. */
  lemma FractionInUnit(a: real, c: real)
    requires (0.0 <= a < c) || (c <= a < 0.0)
    ensures 0.0 <= a / c <= 1.0
  {
    assert a / c * c == a;
  }

  /** Moving from px toward qx by a fraction t in [0, 1] stays between them. */
  lemma InterpolateBetween(px: real, qx: real, t: real)
    requires 0.0 <= t <= 1.0
    ensures Min(px, qx) <= px + t * (qx - px) <= Max(px, qx)
  {
    var d, e := qx - px, px - qx;
    if 0.0 <= d {
      MulNonneg(t, d);
      MulNonneg(1.0 - t, d);
      assert t * d + (1.0 - t) * d == d;
    } else {
      MulNonneg(t, e);
      MulNonneg(1.0 - t, e);
      assert t * e + (1.0 - t) * e == e;
      assert t * d == -(t * e);
    }
  }

  lemma MulNonneg(x: real, y: real)
    requires 0.0 <= x && 0.0 <= y
    ensures 0.0 <= x * y
  {
  }

  /** Dividing a product by c is scaling by the quotient of one factor. */
  lemma MulDivComm(a: real, b: real, c: real)
    requires c != 0.0
    ensures a * b / c == a / c * b
  {
    var t := a / c;
    assert t * c == a;
    assert a * b == (t * b) * c;
  }
}
