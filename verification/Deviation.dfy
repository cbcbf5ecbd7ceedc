/** What `deviationM` measures (render/autoroute_search.go): the distance from a waypoint to the line through
    its neighbours. */
module Deviations {
  import opened Common
  import opened Metric
  import opened Charts
  import opened CellWalk
  import opened Shorten

  /** From the origin along (dx, dy), the point at fraction t lies this far from (ex, ey). */
  function Reach(h: (real, real) -> real, dx: real, dy: real, ex: real, ey: real, t: real): real {
    h(ex - t * dx, ey - t * dy)
  }

  function Cross(dx: real, dy: real, ex: real, ey: real): real { dy * ex - dx * ey }

  /** The cross product is the same for every point of the line. */
  lemma CrossOfPoint(dx: real, dy: real, ex: real, ey: real, t: real)
    ensures Cross(dx, dy, ex - t * dx, ey - t * dy) == Cross(dx, dy, ex, ey)
  {
    var x, y := t * dx, t * dy;
    assert dy * (ex - x) == dy * ex - dy * x && dx * (ey - y) == dx * ey - dx * y;
    assert dy * x == t * (dx * dy) && dx * y == t * (dx * dy);
  }

  lemma CrossBound(h: (real, real) -> real, dx: real, dy: real, p: real, q: real)
    requires IsHypot(h)
    ensures RealAbs(Cross(dx, dy, p, q)) <= h(dx, dy) * h(p, q)
  {
    DotBound(h, dy, -dx, p, q);
    DotBound(h, -dy, dx, p, q);
    Turned(h, dx, dy);
    assert -dx * q == -(dx * q) && -dy * p == -(dy * p);
  }

  lemma Turned(h: (real, real) -> real, dx: real, dy: real)
    requires IsHypot(h)
    ensures h(dy, -dx) == h(dx, dy) == h(-dy, dx)
  {
    assert HypotAt(h, dx, dy) && HypotAt(h, dy, -dx) && HypotAt(h, -dy, dx);
    assert -dx * -dx == dx * dx && -dy * -dy == dy * dy;
    SameLength(h(dy, -dx), h(dx, dy));
    SameLength(h(-dy, dx), h(dx, dy));
  }

  lemma SameLength(a: real, b: real)
    requires a >= 0.0 && b >= 0.0 && a * a == b * b
    ensures a == b
  {
    SquareOrder(a, b);
    SquareOrder(b, a);
  }

  lemma NoNearer(h: (real, real) -> real, dx: real, dy: real, ex: real, ey: real, t: real)
    requires IsHypot(h) && h(dx, dy) > 0.0
    ensures RealAbs(Cross(dx, dy, ex, ey)) / h(dx, dy) <= Reach(h, dx, dy, ex, ey, t)
  {
    CrossOfPoint(dx, dy, ex, ey, t);
    CrossBound(h, dx, dy, ex - t * dx, ey - t * dy);
    hide Cross, IsHypot;
    Divided(RealAbs(Cross(dx, dy, ex, ey)), h(dx, dy), Reach(h, dx, dy, ex, ey, t));
  }

  lemma Divided(x: real, d: real, y: real)
    requires d > 0.0
    ensures x <= d * y <==> x / d <= y
  {
    var q := x / d;
    assert q * d == x;
    SignOf(y - q, d);
    assert (y - q) * d == d * y - x;
  }

  /** The foot of the perpendicular. */
  function Foot(h: (real, real) -> real, dx: real, dy: real, ex: real, ey: real): real
    requires h(dx, dy) > 0.0
  {
    (ex * dx + ey * dy) / (h(dx, dy) * h(dx, dy))
  }

  lemma ToFoot(dx: real, dy: real, ex: real, ey: real, t: real, k: real, dd: real)
    requires dd == dx * dx + dy * dy && dd > 0.0 && t * dd == ex * dx + ey * dy && k * dd == Cross(dx, dy, ex, ey)
    ensures ex - t * dx == dy * k && ey - t * dy == -(dx * k)
  {
    assert (ex - t * dx) * dd == ex * dd - dx * (t * dd);
    assert (dy * k) * dd == dy * (k * dd);
    FootAlong(dx, dy, ex, ey);
    CancelFactor(ex - t * dx, dy * k, dd);
    assert (ey - t * dy) * dd == ey * dd - dy * (t * dd);
    assert (-(dx * k)) * dd == -(dx * (k * dd));
    CancelFactor(ey - t * dy, -(dx * k), dd);
  }

  lemma FootAlong(dx: real, dy: real, ex: real, ey: real)
    ensures ex * (dx * dx + dy * dy) - dx * (ex * dx + ey * dy) == dy * Cross(dx, dy, ex, ey)
    ensures ey * (dx * dx + dy * dy) - dy * (ex * dx + ey * dy) == -(dx * Cross(dx, dy, ex, ey))
  {
    var xx, yy, xy := dx * dx, dy * dy, dx * dy;
    assert ex * (xx + yy) == ex * xx + ex * yy && ey * (xx + yy) == ey * xx + ey * yy;
    assert dx * (ex * dx + ey * dy) == ex * xx + ey * xy && dy * (ex * dx + ey * dy) == ex * xy + ey * yy;
    assert dy * (dy * ex - dx * ey) == ex * yy - ey * xy && dx * (dy * ex - dx * ey) == ex * xy - ey * xx;
  }

  lemma Reached(h: (real, real) -> real, dx: real, dy: real, ex: real, ey: real)
    requires IsHypot(h) && h(dx, dy) > 0.0
    ensures Reach(h, dx, dy, ex, ey, Foot(h, dx, dy, ex, ey)) == RealAbs(Cross(dx, dy, ex, ey)) / h(dx, dy)
  {
    var den, cross, t := h(dx, dy), Cross(dx, dy, ex, ey), Foot(h, dx, dy, ex, ey);
    var dd := den * den;
    assert HypotAt(h, dx, dy);
    SquareGrows(0.0, den);
    var k := cross / dd;
    assert t * dd == ex * dx + ey * dy && k * dd == cross;
    ToFoot(dx, dy, ex, ey, t, k, dd);
    var p, q := ex - t * dx, ey - t * dy;
    assert HypotAt(h, p, q);
    hide Cross, IsHypot, Foot;
    AtFoot(dx, dy, k, den, cross, h(p, q), p, q);
  }

  lemma AtFoot(dx: real, dy: real, k: real, den: real, cross: real, reach: real, p: real, q: real)
    requires den > 0.0 && den * den == dx * dx + dy * dy && k * (den * den) == cross
    requires reach >= 0.0 && reach * reach == p * p + q * q && p == dy * k && q == -(dx * k)
    ensures reach == RealAbs(cross) / den
  {
    var off := RealAbs(k) * den;
    OffSquared(dx, dy, k, den);
    Product(RealAbs(k), den);
    SameLength(reach, off);
    AbsScales(k, den * den);
    assert off * den == RealAbs(k) * (den * den);
    CancelFactor(RealAbs(cross) / den, off, den);
  }

  lemma OffSquared(dx: real, dy: real, k: real, den: real)
    requires den * den == dx * dx + dy * dy
    ensures (dy * k) * (dy * k) + (dx * k) * (dx * k) == (RealAbs(k) * den) * (RealAbs(k) * den)
    ensures -(dx * k) * -(dx * k) == (dx * k) * (dx * k)
  {
    var kk, n := k * k, RealAbs(k);
    assert n * n == kk;
    Regroup(dy, k);
    Regroup(dx, k);
    Regroup(n, den);
    assert (den * den) * kk == (dx * dx) * kk + (dy * dy) * kk;
  }

  lemma Regroup(x: real, y: real)
    ensures (x * y) * (x * y) == (x * x) * (y * y)
  {}

  lemma AbsScales(k: real, d: real)
    requires d >= 0.0
    ensures RealAbs(k * d) == RealAbs(k) * d
  {
    if k >= 0.0 { Product(k, d); } else { Product(-k, d); assert -k * d == -(k * d); }
  }

  // ---- On the grid --------------------------------------------------------------------------

  /** How far cell m is from the point at fraction t of the way from a to b. */
  function FromPoint(c: Chart, a: int, m: int, b: int, t: real): real
    requires c.nx > 0
  {
    Reach(c.hypot, c.East(a, b), c.North(a, b), c.East(a, m), c.North(a, m), t)
  }

  lemma NoWay(h: (real, real) -> real, dx: real, dy: real, ex: real, ey: real, t: real)
    requires IsHypot(h) && h(dx, dy) == 0.0
    ensures Reach(h, dx, dy, ex, ey, t) == h(ex, ey)
  {
    assert HypotAt(h, dx, dy);
    assert dx * dx >= 0.0 && dy * dy >= 0.0;
    OnlyZero(dx);
    OnlyZero(dy);
    assert t * 0.0 == 0.0;
  }

  lemma OnlyZero(x: real)
    requires x * x <= 0.0
    ensures x == 0.0
  {
    if x > 0.0 { SquareGrows(0.0, x); } else if x < 0.0 { SquareGrows(0.0, -x); }
  }

  /** The deviation is the least distance from m to a point of the line through a and b, or to the one point
      that they are ... */
  lemma DeviationIsLeast(c: Chart, a: int, m: int, b: int, t: real)
    requires c.Valid()
    ensures Deviation(c, a, m, b) <= FromPoint(c, a, m, b, t)
  {
    hide Cross;
    var dx, dy, ex, ey := c.East(a, b), c.North(a, b), c.East(a, m), c.North(a, m);
    DeviationBy(c, a, m, b);
    assert HypotAt(c.hypot, dx, dy);
    hide Chart.East, Chart.North, Deviation, IsHypot;
    if c.hypot(dx, dy) == 0.0 { NoWay(c.hypot, dx, dy, ex, ey, t); } else { NoNearer(c.hypot, dx, dy, ex, ey, t); }
  }

  lemma DeviationBy(c: Chart, a: int, m: int, b: int)
    requires c.nx > 0
    ensures var dx, dy, ex, ey := c.East(a, b), c.North(a, b), c.East(a, m), c.North(a, m); var den := c.hypot(dx, dy);
      Deviation(c, a, m, b) == if den == 0.0 then c.hypot(ex, ey) else RealAbs(Cross(dx, dy, ex, ey)) / den
  {
    hide Chart.East, Chart.North;
  }

  /** ... and it is reached. */
  lemma DeviationIsReached(c: Chart, a: int, m: int, b: int) returns (t: real)
    requires c.Valid()
    ensures Deviation(c, a, m, b) == FromPoint(c, a, m, b, t)
  {
    hide Cross;
    var dx, dy, ex, ey := c.East(a, b), c.North(a, b), c.East(a, m), c.North(a, m);
    DeviationBy(c, a, m, b);
    assert HypotAt(c.hypot, dx, dy);
    hide Chart.East, Chart.North, Deviation, IsHypot;
    if c.hypot(dx, dy) == 0.0 {
      t := 0.0;
      NoWay(c.hypot, dx, dy, ex, ey, t);
    } else {
      t := Foot(c.hypot, dx, dy, ex, ey);
      Reached(c.hypot, dx, dy, ex, ey);
    }
  }

  /** Cell m lies at fraction t of the way from a to b. */
  predicate LiesAt(c: Chart, a: int, m: int, b: int, t: real)
    requires c.nx > 0
  {
    c.East(a, m) == t * c.East(a, b) && c.North(a, m) == t * c.North(a, b)
  }

  lemma NoDistance(c: Chart, a: int, m: int, b: int, t: real)
    requires c.Valid()
    ensures FromPoint(c, a, m, b, t) >= 0.0 && (FromPoint(c, a, m, b, t) == 0.0 <==> LiesAt(c, a, m, b, t))
  {
    hide Chart.East, Chart.North, IsHypot, Reach;
    NothingReached(c.hypot, c.East(a, b), c.North(a, b), c.East(a, m), c.North(a, m), t);
  }

  lemma NothingReached(h: (real, real) -> real, dx: real, dy: real, ex: real, ey: real, t: real)
    requires IsHypot(h)
    ensures var d := Reach(h, dx, dy, ex, ey, t); d >= 0.0 && (d == 0.0 <==> ex == t * dx && ey == t * dy)
  {
    var x, y := ex - t * dx, ey - t * dy;
    assert HypotAt(h, x, y);
    var d := h(x, y);
    hide IsHypot;
    if d == 0.0 { BothZero(x, y); }
    if x == 0.0 && y == 0.0 { OnlyZero(d); }
  }

  /** So it is nothing exactly when m lies on that line. */
  lemma OnTheLine(c: Chart, a: int, m: int, b: int)
    requires c.Valid()
    ensures Deviation(c, a, m, b) == 0.0 <==> exists t :: LiesAt(c, a, m, b, t)
  {
    hide LiesAt, Deviation, FromPoint, Chart.Valid;
    var t := DeviationIsReached(c, a, m, b);
    NoDistance(c, a, m, b, t);
    if s :| LiesAt(c, a, m, b, s) {
      DeviationIsLeast(c, a, m, b, s);
      NoDistance(c, a, m, b, s);
    }
  }

  lemma BothZero(x: real, y: real)
    requires x * x + y * y == 0.0
    ensures x == 0.0 && y == 0.0
  {
    assert x * x >= 0.0 && y * y >= 0.0;
    OnlyZero(x);
    OnlyZero(y);
  }
}
