/** Face colours: a linear blend of two opaque colours, channel by channel,
    converted back to bytes by truncation. */
module Colour {
  import opened Numeric
  import opened Canvas

  /** The two colours a face's tint is blended between. */
  const RoyalBlue := RGBA(65, 105, 225, 255)
  const MediumPurple := RGBA(147, 112, 219, 255)

  /** One channel of the blend: a * (1 - t) + b * t, truncated to a byte.
      The result stays between the two channel values, and equals a at
      t = 0 and b at t = 1. */
  function LerpChannel(a: Byte, b: Byte, t: real): (c: Byte)
    requires 0.0 <= t <= 1.0
    ensures a <= c <= b || b <= c <= a
    ensures t == 0.0 ==> c == a
    ensures t == 1.0 ==> c == b
  {
    var v := (a as real) * (1.0 - t) + (b as real) * t;
    assert v == (a as real) + t * ((b as real) - (a as real));
    InterpolateBetween(a as real, b as real, t);
    TruncMonotone(Min(a as real, b as real), v);
    TruncMonotone(v, Max(a as real, b as real));
    TruncOfInt(a);
    TruncOfInt(b);
    Trunc(v)
  }

  /** The blend of two colours at t in [0, 1], always fully opaque. */
  function LerpColor(c1: RGBA, c2: RGBA, t: real): (c: RGBA)
    requires 0.0 <= t <= 1.0
    ensures c.a == 255
    ensures t == 0.0 ==> c == RGBA(c1.r, c1.g, c1.b, 255)
    ensures t == 1.0 ==> c == RGBA(c2.r, c2.g, c2.b, 255)
    ensures c1.r <= c.r <= c2.r || c2.r <= c.r <= c1.r
    ensures c1.g <= c.g <= c2.g || c2.g <= c.g <= c1.g
    ensures c1.b <= c.b <= c2.b || c2.b <= c.b <= c1.b
  {
    RGBA(LerpChannel(c1.r, c2.r, t), LerpChannel(c1.g, c2.g, t), LerpChannel(c1.b, c2.b, t), 255)
  }

  /** Moving t toward 1 moves a channel toward b and never back. */
  lemma LerpChannelMonotone(a: Byte, b: Byte, t1: real, t2: real)
    requires 0.0 <= t1 <= t2 <= 1.0
    ensures a <= b ==> LerpChannel(a, b, t1) <= LerpChannel(a, b, t2)
    ensures b <= a ==> LerpChannel(a, b, t2) <= LerpChannel(a, b, t1)
  {
    var d := (b as real) - (a as real);
    var v1 := (a as real) * (1.0 - t1) + (b as real) * t1;
    var v2 := (a as real) * (1.0 - t2) + (b as real) * t2;
    var e := (a as real) - (b as real);
    assert v2 - v1 == (t2 - t1) * d;
    assert v1 - v2 == (t2 - t1) * e;
    if a <= b {
      MulNonneg(t2 - t1, d);
      TruncMonotone(v1, v2);
    }
    if b <= a {
      MulNonneg(t2 - t1, e);
      TruncMonotone(v2, v1);
    }
  }

  /** Every face tint lies between royal blue and medium purple, channel by
      channel. */
  lemma FaceTintBounds(t: real)
    requires 0.0 <= t <= 1.0
    ensures var c := LerpColor(RoyalBlue, MediumPurple, t);
            65 <= c.r <= 147 && 105 <= c.g <= 112 && 219 <= c.b <= 225 && c.a == 255
  {
  }
}
