/** Straight-line length. `math.Hypot` is a parameter: any non-negative function whose square is
    x*x + y*y. Everything the router needs of it follows from that. */
module Metric {
  ghost predicate IsHypot(h: (real, real) -> real) {
    forall x: real, y: real :: HypotAt(h, x, y)
  }

  ghost predicate HypotAt(h: (real, real) -> real, x: real, y: real) {
    h(x, y) >= 0.0 && h(x, y) * h(x, y) == x * x + y * y
  }

  lemma SquareGrows(b: real, a: real)
    requires 0.0 <= b < a
    ensures b * b < a * a
  {
    var ab := a * b;
    assert b * b <= ab && ab < a * a;
  }

  lemma SquareOrder(a: real, b: real)
    requires 0.0 <= a && 0.0 <= b && a * a <= b * b
    ensures a <= b
  {
    if b < a { SquareGrows(b, a); }
  }

  /** Length does not depend on the direction of travel. */
  lemma Even(h: (real, real) -> real, x: real, y: real)
    requires IsHypot(h)
    ensures h(-x, -y) == h(x, y)
  {
    var p, q := h(x, y), h(-x, -y);
    assert HypotAt(h, x, y) && HypotAt(h, -x, -y);
    assert p * p == q * q by { assert (-x) * (-x) == x * x && (-y) * (-y) == y * y; }
    SquareOrder(p, q);
    SquareOrder(q, p);
  }

  /** Cauchy-Schwarz in the plane. */
  lemma DotBound(h: (real, real) -> real, x1: real, y1: real, x2: real, y2: real)
    requires IsHypot(h)
    ensures x1 * x2 + y1 * y2 <= h(x1, y1) * h(x2, y2)
  {
    assert HypotAt(h, x1, y1) && HypotAt(h, x2, y2);
    var dot, p, q := x1 * x2 + y1 * y2, h(x1, y1), h(x2, y2);
    var cross := x1 * y2 - x2 * y1;
    assert cross * cross >= 0.0;
    assert (p * q) * (p * q) == (x1 * x1 + y1 * y1) * (x2 * x2 + y2 * y2) by {
      assert (p * q) * (p * q) == (p * p) * (q * q);
    }
    assert (x1 * x1 + y1 * y1) * (x2 * x2 + y2 * y2) == dot * dot + cross * cross;
    assert p * q >= 0.0;
    if dot > 0.0 { SquareOrder(dot, p * q); }
  }

  lemma {:induction false} Triangle(h: (real, real) -> real, x1: real, y1: real, x2: real, y2: real)
    requires IsHypot(h)
    ensures h(x1 + x2, y1 + y2) <= h(x1, y1) + h(x2, y2)
  {
    var p, q, s := h(x1, y1), h(x2, y2), h(x1 + x2, y1 + y2);
    assert HypotAt(h, x1, y1) && HypotAt(h, x2, y2) && HypotAt(h, x1 + x2, y1 + y2);
    DotBound(h, x1, y1, x2, y2);
    assert s * s == (x1 * x1 + y1 * y1) + (x2 * x2 + y2 * y2) + 2.0 * (x1 * x2 + y1 * y2) by {
      assert s * s == (x1 + x2) * (x1 + x2) + (y1 + y2) * (y1 + y2);
    }
    assert (p + q) * (p + q) == p * p + q * q + 2.0 * (p * q);
    SquareOrder(s, p + q);
  }
}
