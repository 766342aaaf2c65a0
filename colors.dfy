/**
 * The RGBA colour of src/color.rs. Every f64 is a real; `Color::new` clamps the red,
 * green and blue channels into [0, 1] and stores alpha as given.
 */
module Colors {

  datatype Color = Color(r: real, g: real, b: real, a: real)

  /** One channel of Color::new: below 0 becomes 0, above 1 becomes 1. */
  function ClampChannel(x: real): (c: real)
    ensures 0.0 <= c <= 1.0
    ensures 0.0 <= x <= 1.0 ==> c == x
    ensures x < 0.0 ==> c == 0.0
    ensures x > 1.0 ==> c == 1.0
  {
    if x < 0.0 then 0.0 else if x > 1.0 then 1.0 else x
  }

  /** Color::new: r, g and b clamped into [0, 1] channel by channel, alpha unclamped. */
  function New(r: real, g: real, b: real, a: real): (c: Color)
    ensures 0.0 <= c.r <= 1.0 && 0.0 <= c.g <= 1.0 && 0.0 <= c.b <= 1.0
    ensures c.r == ClampChannel(r) && c.g == ClampChannel(g) && c.b == ClampChannel(b)
    ensures c.a == a
  {
    Color(ClampChannel(r), ClampChannel(g), ClampChannel(b), a)
  }

  /** A colour whose channels already lie in [0, 1] comes back unchanged. */
  lemma NewKeepsInRange(r: real, g: real, b: real, a: real)
    requires 0.0 <= r <= 1.0 && 0.0 <= g <= 1.0 && 0.0 <= b <= 1.0
    ensures New(r, g, b, a) == Color(r, g, b, a)
  {
  }

  /** Clamping twice is clamping once. */
  lemma NewIdempotent(r: real, g: real, b: real, a: real)
    ensures var c := New(r, g, b, a);
            New(c.r, c.g, c.b, c.a) == c
  {
    var c := New(r, g, b, a);
    NewKeepsInRange(c.r, c.g, c.b, c.a);
  }

  /** The unit test's first case: opaque black is stored as given. */
  lemma NewOpaqueBlack()
    ensures New(0.0, 0.0, 0.0, 1.0) == Color(0.0, 0.0, 0.0, 1.0)
  {
  }

  /** The unit test's second case: -1 rises to 0, 0.4 is kept, 2 falls to 1. */
  lemma NewClampsBothWays()
    ensures New(-1.0, 0.4, 2.0, 1.0) == Color(0.0, 0.4, 1.0, 1.0)
  {
  }
}
