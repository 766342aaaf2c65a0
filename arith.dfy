/** Facts about products of reals that the solver does not find unaided. */
module Arith {
  /** A real square is non-negative, and positive away from zero. */
  lemma SquareSign(u: real)
    ensures 0.0 <= u * u
    ensures u != 0.0 ==> u * u > 0.0
  {
    if u < 0.0 {
      assert (-u) * (-u) > 0.0;
    } else if u > 0.0 {
      assert u * u > 0.0;
    }
  }

  lemma ZeroFactor(x: real, y: real)
    ensures x == 0.0 ==> x * y == 0.0
    ensures y == 0.0 ==> x * y == 0.0
  {
  }

  /** The sign of a product follows from the signs of its factors. */
  lemma MulSign(x: real, y: real)
    ensures x > 0.0 && y > 0.0 ==> x * y > 0.0
    ensures x > 0.0 && y < 0.0 ==> x * y < 0.0
    ensures x < 0.0 && y > 0.0 ==> x * y < 0.0
    ensures x < 0.0 && y < 0.0 ==> x * y > 0.0
  {
    if x > 0.0 && y < 0.0 {
      assert x * (-y) > 0.0;
    }
    if x < 0.0 && y > 0.0 {
      assert (-x) * y > 0.0;
    }
    if x < 0.0 && y < 0.0 {
      assert (-x) * (-y) > 0.0;
    }
  }

  lemma ProductZero(x: real, y: real)
    requires x * y == 0.0
    ensures x == 0.0 || y == 0.0
  {
    MulSign(x, y);
  }

  /** Multiplying by a positive factor preserves order, so the factor can be cancelled. */
  lemma CancelPositive(a: real, x: real, y: real)
    requires a > 0.0 && a * x >= a * y
    ensures x >= y
  {
    MulSign(a, y - x);
    assert a * (y - x) == a * y - a * x;
  }

  // The quadratic a t^2 + 2 hb t + c with a > 0 and `root` a square root of its
  // quarter-discriminant hb^2 - a c.

  /** `(-hb - root) / a` is a root of the quadratic. */
  lemma SmallerRootSolves(a: real, hb: real, c: real, root: real)
    requires a > 0.0 && root * root == hb * hb - a * c
    ensures var x := (-hb - root) / a; a * x * x + 2.0 * hb * x + c == 0.0
  {
    var x := (-hb - root) / a;
    var u := a * x;
    assert u == -hb - root;
    var q := a * x * x + 2.0 * hb * x + c;
    assert a * q == u * u + 2.0 * hb * u + a * c;
    assert u * u + 2.0 * hb * u == root * root - hb * hb;
    ProductZero(a, q);
  }

  /** When root is non-negative, every root of the quadratic is at least `(-hb - root) / a`. */
  lemma SmallerRootLeast(a: real, hb: real, c: real, root: real, t: real)
    requires a > 0.0 && root >= 0.0 && root * root == hb * hb - a * c
    requires a * t * t + 2.0 * hb * t + c == 0.0
    ensures (-hb - root) / a <= t
  {
    var w := a * t + hb;
    assert w * w == a * (a * t * t + 2.0 * hb * t + c) + hb * hb - a * c;
    assert (w - root) * (w + root) == 0.0;
    ProductZero(w - root, w + root);
    var x := (-hb - root) / a;
    assert a * x == -hb - root;
    CancelPositive(a, t, x);
  }

  /** Scaling by the inverse square undoes the square. */
  lemma InverseSquare(r: real)
    requires r != 0.0
    ensures (1.0 / r) * (1.0 / r) * (r * r) == 1.0
  {
    assert (1.0 / r) * r == 1.0;
    assert (1.0 / r) * (1.0 / r) * (r * r) == ((1.0 / r) * r) * ((1.0 / r) * r);
  }

  /** Non-negative reals with equal squares are equal. */
  lemma SquareRootUnique(x: real, y: real)
    requires x >= 0.0 && y >= 0.0 && x * x == y * y
    ensures x == y
  {
    assert (x - y) * (x + y) == 0.0;
    ProductZero(x - y, x + y);
  }

  lemma NonNegProduct(x: real, y: real)
    requires x >= 0.0 && y >= 0.0
    ensures x * y >= 0.0
  {
    MulSign(x, y);
    ZeroFactor(x, y);
  }

  /** The product of two numbers in [0, 1] is in [0, 1]. */
  lemma UnitProduct(x: real, y: real)
    requires 0.0 <= x <= 1.0 && 0.0 <= y <= 1.0
    ensures 0.0 <= x * y <= 1.0
  {
    NonNegProduct(x, y);
    NonNegProduct(1.0 - x, y);
    assert (1.0 - x) * y == y - x * y;
  }

  /** A number whose square is at most one lies in [-1, 1]. */
  lemma SquareAtMostOne(d: real)
    requires d * d <= 1.0
    ensures -1.0 <= d <= 1.0
  {
    MulSign(d - 1.0, d + 1.0);
    assert (d - 1.0) * (d + 1.0) == d * d - 1.0;
  }

  /** Multiplying by a natural number is monotone. */
  lemma MulMonotone(a: nat, b: nat, c: nat)
    requires a <= b
    ensures a * c <= b * c
  {
    assert b * c == a * c + (b - a) * c;
  }
}
