/** Snapping a position onto navigable water (render/autoroute_search.go, `nearestPassable`): ring by
    ring outwards, and within a ring by straight-line distance. */
module Snaps {
  import opened Common
  import opened Charts
  import opened CellWalk
  import opened Metric

  function Ceil(x: real): int { -((-x).Floor) }

  /** How many rings a radius in metres covers. */
  function Rings(c: Chart, radius: real): int
    requires c.mx > 0.0 && c.my > 0.0
  {
    Ceil(radius / RealMin(c.mx, c.my))
  }

  /** No fewer than reach the radius, counted by the smaller side of a cell, and no more. */
  lemma RingsReach(c: Chart, radius: real)
    requires c.mx > 0.0 && c.my > 0.0
    ensures var m, r := RealMin(c.mx, c.my), Rings(c, radius); (r - 1) as real * m < radius <= r as real * m
  {
    var m, r := RealMin(c.mx, c.my), Rings(c, radius);
    hide RealMin;
    Stretched((r - 1) as real, r as real, radius, m);
  }

  lemma Stretched(lo: real, hi: real, x: real, m: real)
    requires m > 0.0 && lo < x / m <= hi
    ensures lo * m < x <= hi * m
  {
    var q := x / m;
    assert q * m == x;
    SignOf(hi - q, m);
    SignOf(lo - q, m);
    assert (hi - q) * m == hi * m - x && (lo - q) * m == lo * m - x;
  }

  /** Cell j is found before cell k from i: on a nearer ring, or closer on the same ring, or scanned
      earlier when as close. */
  ghost predicate FoundFirst(c: Chart, i: int, j: int, k: int)
    requires c.nx > 0
  {
    || Steps(c.nx, i, j) < Steps(c.nx, i, k)
    || (Steps(c.nx, i, j) == Steps(c.nx, i, k) && NoFarther(c, i, j, k))
  }

  ghost predicate NoFarther(c: Chart, i: int, j: int, k: int)
    requires c.nx > 0
  {
    c.Length(i, j) < c.Length(i, k) || (c.Length(i, j) == c.Length(i, k) && j <= k)
  }

  /** The passable cell that is found first from i. */
  ghost predicate NearestByRing(c: Chart, i: int, j: int)
    requires c.nx > 0
  {
    c.Passable(j) && forall k :: c.Passable(k) ==> FoundFirst(c, i, j, k)
  }

  /** A cell snaps to one cell only. */
  lemma SnapIsUnique(c: Chart, i: int, a: int, b: int)
    requires c.nx > 0 && NearestByRing(c, i, a) && NearestByRing(c, i, b)
    ensures a == b
  {
    hide Chart.Length, Steps;
    assert FoundFirst(c, i, a, b) && FoundFirst(c, i, b, a);
  }

  /** No cell is found before the one stood on. */
  lemma StandsNearest(c: Chart, i: int, k: int)
    requires c.Valid() && c.InGrid(i) && c.InGrid(k)
    ensures FoundFirst(c, i, i, k)
  {
    if k != i {
      CellOf(c.nx, c.ny, i);
      CellOf(c.nx, c.ny, k);
      assert Steps(c.nx, i, k) > 0;
    }
  }

  lemma HomeIsNearest(c: Chart, home: int)
    requires c.Valid() && c.Passable(home)
    ensures NearestByRing(c, home, home)
  {
    hide Chart.Length;
    forall k | c.Passable(k) ensures FoundFirst(c, home, home, k) { StandsNearest(c, home, k); }
  }

  // ---- Nearest by ring and nearest in a straight line ---------------------------------------

  /** No passable cell is closer to i than j is. */
  ghost predicate IsClosest(c: Chart, i: int, j: int)
    requires c.nx > 0
  {
    forall k :: c.Passable(k) ==> c.Length(i, j) <= c.Length(i, k)
  }

  lemma FartherRing(near: real, far: real, r: int, s: int, m: real)
    requires near <= (r + 1) as real * m && s as real * m <= far && r + 1 <= s && m > 0.0
    ensures near <= far
  {
    var d := (s - (r + 1)) as real;
    assert s as real == (r + 1) as real + d;
    assert ((r + 1) as real + d) * m == (r + 1) as real * m + d * m && d * m >= 0.0;
  }

  /** What is no farther than the next ring is the closest there is. */
  lemma ClosestWithinNextRing(c: Chart, i: int, j: int)
    requires c.Valid() && NearestByRing(c, i, j)
    requires c.Length(i, j) <= (Steps(c.nx, i, j) + 1) as real * RealMin(c.mx, c.my)
    ensures IsClosest(c, i, j)
  {
    forall k | c.Passable(k) ensures c.Length(i, j) <= c.Length(i, k) {
      assert FoundFirst(c, i, j, k);
      hide Chart.Length, Chart.Passable, Steps, RealMin, FoundFirst;
      FirstIsCloser(c, i, j, k);
    }
  }

  lemma FirstIsCloser(c: Chart, i: int, j: int, k: int)
    requires c.Valid() && FoundFirst(c, i, j, k)
    requires c.Length(i, j) <= (Steps(c.nx, i, j) + 1) as real * RealMin(c.mx, c.my)
    ensures c.Length(i, j) <= c.Length(i, k)
  {
    hide Chart.Length, Steps;
    if Steps(c.nx, i, k) > Steps(c.nx, i, j) {
      StepsSpanLength(c, i, k);
      FartherRing(c.Length(i, j), c.Length(i, k), Steps(c.nx, i, j), Steps(c.nx, i, k), RealMin(c.mx, c.my));
    }
  }

  /** On square cells, a cell r steps away is no farther than the corner of its ring. */
  lemma RingCorner(h: real, dx: int, dy: int, m: real, r: nat)
    requires m > 0.0 && h >= 0.0 && Abs(dx) <= r && Abs(dy) <= r <= 2
    requires h * h == (dx as real * m) * (dx as real * m) + (dy as real * m) * (dy as real * m)
    ensures h <= (r + 1) as real * m
  {
    var mm, next := m * m, (r + 1) as real * m;
    SquareGrows(0.0, m);
    SquaredOffset(dx, m);
    SquaredOffset(dy, m);
    SquareWithin(dx, r);
    SquareWithin(dy, r);
    assert next * next == ((r + 1) * (r + 1)) as real * mm by { SquaredOffset(r + 1, m); }
    assert dx * dx + dy * dy <= (r + 1) * (r + 1) by {
      assert r == 0 ==> r * r == 0;
      assert r == 1 ==> r * r == 1;
      assert r == 2 ==> r * r == 4;
    }
    ScaledOrder(dx * dx + dy * dy, (r + 1) * (r + 1), mm);
    SquareOrder(h, next);
  }

  lemma SquaredOffset(d: int, m: real)
    ensures (d as real * m) * (d as real * m) == (d * d) as real * (m * m)
  {
    var x := d as real;
    assert (x * m) * (x * m) == (x * x) * (m * m);
    assert (d * d) as real == x * x;
  }

  lemma SquareWithin(d: int, r: nat)
    requires Abs(d) <= r
    ensures d * d <= r * r
  {
    var n := Abs(d);
    assert d * d == n * n && n * n <= n * r && n * r <= r * r;
  }

  lemma ScaledOrder(p: int, q: int, s: real)
    requires s >= 0.0
    ensures p <= q ==> p as real * s <= q as real * s
    ensures p < q && s > 0.0 ==> p as real * s < q as real * s
  {}

  /** On square cells, whatever is found within two rings is the closest there is. */
  lemma ClosestWithinTwoRings(c: Chart, i: int, j: int)
    requires c.Valid() && c.mx == c.my && NearestByRing(c, i, j)
    requires exists k :: c.Passable(k) && Steps(c.nx, i, k) <= 2
    ensures IsClosest(c, i, j)
  {
    hide Steps, Chart.Length, Chart.Passable, IsClosest;
    var k :| c.Passable(k) && Steps(c.nx, i, k) <= 2;
    assert FoundFirst(c, i, j, k);
    hide NearestByRing, FoundFirst;
    WithinCorner(c, i, j);
    ClosestWithinNextRing(c, i, j);
  }

  lemma WithinCorner(c: Chart, i: int, j: int)
    requires c.Valid() && c.mx == c.my && Steps(c.nx, i, j) <= 2
    ensures c.Length(i, j) <= (Steps(c.nx, i, j) + 1) as real * RealMin(c.mx, c.my)
  {
    hide Chart.Length, Col, Row;
    var dx, dy := Col(c.nx, j) - Col(c.nx, i), Row(c.nx, j) - Row(c.nx, i);
    SquaredLength(c, i, j);
    RingCorner(c.Length(i, j), dx, dy, c.mx, Steps(c.nx, i, j));
    assert RealMin(c.mx, c.my) == c.mx;
  }

  /** Beyond two rings it need not be: water r cells off diagonally is found before water r + 1 cells
      off straight ahead, which is closer. */
  lemma DiagonalBeforeCloser(c: Chart, i: int, j: int, k: int, r: nat)
    requires c.Valid() && c.mx == c.my && c.InGrid(i) && r >= 3 && forall w :: c.Passable(w) <==> w == j || w == k
    requires Col(c.nx, j) == Col(c.nx, i) + r && Row(c.nx, j) == Row(c.nx, i) + r
    requires Col(c.nx, k) == Col(c.nx, i) + r + 1 && Row(c.nx, k) == Row(c.nx, i)
    ensures NearestByRing(c, i, j) && Steps(c.nx, i, j) == r && c.Length(i, k) < c.Length(i, j)
  {
    var m := c.mx;
    SquaredLength(c, i, j);
    SquaredLength(c, i, k);
    assert Steps(c.nx, i, j) == r && Steps(c.nx, i, k) == r + 1;
    hide Col, Row, Steps, Chart.Length;
    AcrossIsLonger(c.Length(i, j), c.Length(i, k), r, m);
  }

  lemma SquaresOrdered(a: real, b: real)
    requires a >= 0.0 && b >= 0.0 && a * a < b * b
    ensures a < b
  {
    SquareOrder(a, b);
  }

  lemma AcrossIsLonger(diagonal: real, straight: real, r: nat, m: real)
    requires m > 0.0 && diagonal >= 0.0 && straight >= 0.0 && r >= 3
    requires diagonal * diagonal == (r as real * m) * (r as real * m) + (r as real * m) * (r as real * m)
    requires straight * straight == ((r + 1) as real * m) * ((r + 1) as real * m) + (0.0 * m) * (0.0 * m)
    ensures straight < diagonal
  {
    var mm, rr, next := m * m, r * r, (r + 1) * (r + 1);
    SquareGrows(0.0, m);
    SquaredOffset(r, m);
    SquaredOffset(r + 1, m);
    NextSquare(r);
    ScaledOrder(next, 2 * rr, mm);
    Doubled(rr, mm);
    var p, q := rr as real * mm, next as real * mm;
    assert q < p + p;
    assert diagonal * diagonal == p + p;
    assert straight * straight == q + (0.0 * m) * (0.0 * m) && 0.0 * m == 0.0;
    SquaresOrdered(straight, diagonal);
  }

  lemma NextSquare(r: nat)
    requires r >= 3
    ensures (r + 1) * (r + 1) < 2 * (r * r)
  {
    var p := r - 3;
    assert r * r == 3 * r + p * r && p * r >= 0;
    assert (r + 1) * (r + 1) == r * r + 2 * r + 1;
  }

  lemma Doubled(n: int, s: real)
    ensures (2 * n) as real * s == n as real * s + n as real * s
  {
    var x := n as real;
    assert (2 * n) as real == x + x;
    assert (x + x) * s == x * s + x * s;
  }

  /** From cell i of a chart, ring r is the one on which water is found. */
  ghost predicate SnapsOntoRing(c: Chart, i: int, j: int, r: nat)
    requires c.nx > 0
  {
    c.Valid() && c.InGrid(i) && NearestByRing(c, i, j) && Steps(c.nx, i, j) == r
  }

  /** On every chart of square cells of size m, what is found on ring r is the closest there is. */
  ghost predicate RingIsSafe(h: (real, real) -> real, m: real, r: nat) {
    forall nx: int, ny: int, cost: seq<Extended>, i: int, j: int ::
      nx > 0 && SnapsOntoRing(Chart(nx, ny, m, m, h, cost), i, j, r) ==> IsClosest(Chart(nx, ny, m, m, h, cost), i, j)
  }

  /** A chart whose only water is r cells off diagonally and r + 1 cells off straight ahead of cell 0. */
  function TwoWaters(h: (real, real) -> real, m: real, r: nat): Chart {
    var j, k := Index(r + 2, r, r), r + 1;
    Chart(r + 2, r + 1, m, m, h, seq((r + 2) * (r + 1), w => if w == j || w == k then Fin(1.0) else PosInf))
  }

  lemma TwoWatersSnap(h: (real, real) -> real, m: real, r: nat)
    requires IsHypot(h) && m > 0.0 && r >= 3
    ensures var c, j := TwoWaters(h, m, r), Index(r + 2, r, r);
      SnapsOntoRing(c, 0, j, r) && !IsClosest(c, 0, j)
  {
    var c, j, k := TwoWaters(h, m, r), Index(r + 2, r, r), r + 1;
    IndexOf(r + 2, r + 1, r, r);
    IndexOf(r + 2, r + 1, r + 1, 0);
    IndexOf(r + 2, r + 1, 0, 0);
    assert Index(r + 2, r + 1, 0) == k && Index(r + 2, 0, 0) == 0;
    hide Index, Col, Row;
    assert |c.cost| == c.nx * c.ny;
    DiagonalBeforeCloser(c, 0, j, k, r);
    assert c.Passable(k);
  }

  /** Snapping finds the closest water on every chart of square cells exactly when it finds some within
      two rings. */
  lemma SafeRings(h: (real, real) -> real, m: real, r: nat)
    requires IsHypot(h) && m > 0.0
    ensures RingIsSafe(h, m, r) <==> r <= 2
  {
    if r <= 2 {
      forall nx: int, ny: int, cost: seq<Extended>, i: int, j: int
        | nx > 0 && SnapsOntoRing(Chart(nx, ny, m, m, h, cost), i, j, r)
        ensures IsClosest(Chart(nx, ny, m, m, h, cost), i, j)
      {
        ClosestWithinTwoRings(Chart(nx, ny, m, m, h, cost), i, j);
      }
    } else {
      TwoWatersSnap(h, m, r);
      var c := TwoWaters(h, m, r);
      assert c == Chart(c.nx, c.ny, m, m, h, c.cost);
    }
  }

  // ---- The scan -----------------------------------------------------------------------------

  ghost predicate NoWaterWithin(c: Chart, i: int, rings: int)
    requires c.nx > 0
  {
    forall k :: c.Passable(k) ==> Steps(c.nx, i, k) > rings
  }

  predicate OnRing(c: Chart, i: int, r: int, x: int, y: int)
    requires c.nx > 0
  {
    && 0 <= x < c.nx && 0 <= y < c.ny && Max(Abs(x - Col(c.nx, i)), Abs(y - Row(c.nx, i))) == r
    && c.Passable(Index(c.nx, x, y))
  }

  lemma RingCell(c: Chart, i: int, k: int)
    requires c.Valid() && c.InGrid(i) && c.Passable(k)
    ensures OnRing(c, i, Steps(c.nx, i, k), Col(c.nx, k), Row(c.nx, k))
    ensures Index(c.nx, Col(c.nx, k), Row(c.nx, k)) == k
  {
    CellOf(c.nx, c.ny, k);
  }

  lemma RingSteps(c: Chart, i: int, r: int, x: int, y: int)
    requires c.Valid() && c.InGrid(i) && OnRing(c, i, r, x, y)
    ensures c.Passable(Index(c.nx, x, y)) && Steps(c.nx, i, Index(c.nx, x, y)) == r
  {
    IndexOf(c.nx, c.ny, x, y);
  }

  /** The best cell found so far on ring r, among the coordinates scanned before (x, y). */
  ghost predicate Scanned(c: Chart, i: int, r: int, x: int, y: int, best: Option<int>)
    requires c.nx > 0
  {
    && (best.Some? ==> c.Passable(best.value) && Steps(c.nx, i, best.value) == r && ScannedBefore(c.nx, best.value, x, y))
    && (forall p, q :: OnRing(c, i, r, p, q) && (q < y || (q == y && p < x)) ==>
          best.Some? && NoFarther(c, i, best.value, Index(c.nx, p, q)))
  }

  predicate ScannedBefore(nx: int, cell: int, x: int, y: int)
    requires nx > 0
  {
    Row(nx, cell) < y || (Row(nx, cell) == y && Col(nx, cell) < x)
  }

  /** Cells are scanned in the order of their numbers. */
  lemma RowMajor(c: Chart, cell: int, x: int, y: int)
    requires c.Valid() && c.InGrid(cell) && 0 <= x < c.nx && 0 <= y < c.ny && ScannedBefore(c.nx, cell, x, y)
    ensures cell < Index(c.nx, x, y)
  {
    CellOf(c.nx, c.ny, cell);
    var p, q := Col(c.nx, cell), Row(c.nx, cell);
    hide Col, Row;
    if q < y { LaterRow(c.nx, q, y); }
  }

  lemma ScanNext(c: Chart, i: int, r: int, x: int, y: int, best: Option<int>, next: Option<int>)
    requires c.Valid() && c.InGrid(i) && Scanned(c, i, r, x, y, best)
    requires if OnRing(c, i, r, x, y)
             then next == if best.Some? && c.Length(i, best.value) <= c.Length(i, Index(c.nx, x, y)) then best
                          else Some(Index(c.nx, x, y))
             else next == best
    ensures Scanned(c, i, r, x + 1, y, next)
  {
    if OnRing(c, i, r, x, y) {
      RingSteps(c, i, r, x, y);
      IndexOf(c.nx, c.ny, x, y);
      if best.Some? { RowMajor(c, best.value, x, y); }
    }
    hide Index, Chart.Length, Steps, OnRing, Col, Row;
  }

  lemma ScanNextRow(c: Chart, i: int, r: int, y: int, best: Option<int>)
    requires c.Valid() && Scanned(c, i, r, Col(c.nx, i) + r + 1, y, best)
    ensures Scanned(c, i, r, Col(c.nx, i) - r, y + 1, best)
  {
    hide Index, Chart.Length, Steps;
    forall p, q | OnRing(c, i, r, p, q) ensures Col(c.nx, i) - r <= p <= Col(c.nx, i) + r {}
  }

  lemma ScanDone(c: Chart, i: int, r: int, best: Option<int>)
    requires c.Valid() && c.InGrid(i) && Scanned(c, i, r, Col(c.nx, i) - r, Row(c.nx, i) + r + 1, best)
    ensures forall k :: c.Passable(k) && Steps(c.nx, i, k) == r ==> best.Some? && NoFarther(c, i, best.value, k)
  {
    hide Index, NoFarther, Steps, Col, Row;
    forall k | c.Passable(k) && Steps(c.nx, i, k) == r
      ensures best.Some? && NoFarther(c, i, best.value, k)
    {
      RingCell(c, i, k);
      assert OnRing(c, i, r, Col(c.nx, k), Row(c.nx, k));
    }
  }

  /** One ring of `nearestPassable`. */
  method ScanRing(c: Chart, i: int, r: int) returns (best: Option<int>)
    requires c.Valid() && c.InGrid(i) && 0 < r
    ensures best.Some? ==> c.Passable(best.value) && Steps(c.nx, i, best.value) == r
    ensures forall k :: c.Passable(k) && Steps(c.nx, i, k) == r ==> best.Some? && NoFarther(c, i, best.value, k)
  {
    var cx, cy := Col(c.nx, i), Row(c.nx, i);
    best := None;
    var y := cy - r;
    while y <= cy + r
      invariant cy - r <= y <= cy + r + 1 && Scanned(c, i, r, cx - r, y, best)
    {
      var x := cx - r;
      while x <= cx + r
        invariant cx - r <= x <= cx + r + 1 && Scanned(c, i, r, x, y, best)
      {
        hide Scanned, Index, Chart.Length, Steps;
        ghost var was := best;
        if (Abs(x - cx) == r || Abs(y - cy) == r) && !(x < 0 || y < 0 || x >= c.nx || y >= c.ny) {
          var j := Index(c.nx, x, y);
          if c.Passable(j) && (best.None? || c.Length(i, j) < c.Length(i, best.value)) { best := Some(j); }
        }
        ScanNext(c, i, r, x, y, was, best);
        x := x + 1;
      }
      ScanNextRow(c, i, r, y, best);
      y := y + 1;
    }
    ScanDone(c, i, r, best);
  }

  /** `nearestPassable`: the cell itself when passable, else the best of the nearest ring. */
  method NearestPassable(c: Chart, i: int, radius: real) returns (j: Option<int>)
    requires c.Valid() && c.InGrid(i)
    ensures j.Some? ==> NearestByRing(c, i, j.value) && (c.Passable(i) ==> j == Some(i))
    ensures j.Some? ==> c.Passable(i) || Steps(c.nx, i, j.value) <= Rings(c, radius)
    ensures j.None? ==> NoWaterWithin(c, i, Rings(c, radius))
  {
    if c.Passable(i) {
      Itself(c, i);
      return Some(i);
    }
    NoRingZero(c, i);
    hide NoFarther, Steps, Rings, Chart.Valid;
    var maxR := Rings(c, radius);
    var r := 1;
    while r <= maxR
      invariant 1 <= r && NoWaterWithin(c, i, r - 1)
    {
      j := ScanRing(c, i, r);
      if j.Some? { return; }
      r := r + 1;
    }
    j := None;
  }

  lemma Itself(c: Chart, i: int)
    requires c.Valid() && c.Passable(i)
    ensures NearestByRing(c, i, i)
  {
    hide Chart.Valid, Chart.Length;
    forall k | c.Passable(k) && Steps(c.nx, i, k) == 0 ensures k == i { NoStepsSame(c, i, k); }
  }

  lemma NoStepsSame(c: Chart, i: int, k: int)
    requires c.Valid() && c.InGrid(i) && c.InGrid(k) && Steps(c.nx, i, k) == 0
    ensures k == i
  {
    NoStepsSameCell(c.nx, c.ny, i, k);
  }

  lemma NoRingZero(c: Chart, i: int)
    requires c.Valid() && c.InGrid(i) && !c.Passable(i)
    ensures NoWaterWithin(c, i, 0)
  {
    hide Chart.Valid;
    forall k | c.Passable(k) ensures Steps(c.nx, i, k) > 0 {
      if Steps(c.nx, i, k) == 0 { NoStepsSame(c, i, k); }
    }
  }
}
