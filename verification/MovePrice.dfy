/** What moves and routes cost (render/autoroute_search.go, `moveCost`), told by the multipliers of the
    cells they cross. */
module MovePrices {
  import opened Common
  import opened Charts
  import opened CellWalk
  import opened Search

  // ---- One move -----------------------------------------------------------------------------

  predicate CostsWithin(c: Chart, cells: seq<int>, lo: real, hi: real) {
    forall i :: 0 <= i < |cells| ==> c.Passable(cells[i]) && lo <= c.cost[cells[i]].val <= hi
  }

  lemma {:induction false} SumWithin(c: Chart, cells: seq<int>, lo: real, hi: real)
    requires Clear(c, cells, None) && CostsWithin(c, cells, lo, hi)
    ensures lo * |cells| as real <= Sum(c, cells) <= hi * |cells| as real
  {
    if cells == [] {
    } else {
      var n := |cells| - 1;
      SumWithin(c, cells[..n], lo, hi);
      OneMore(lo, n);
      OneMore(hi, n);
      assert Fit(c, cells[n], None);
    }
  }

  lemma OneMore(x: real, n: nat)
    ensures x * (n + 1) as real == x * n as real + x
  {
    var m := n as real;
    assert (n + 1) as real == m + 1.0;
    assert x * (m + 1.0) == x * m + x;
  }

  lemma MeanWithin(length: real, sum: real, n: real, lo: real, hi: real)
    requires length >= 0.0 && n > 0.0 && lo * n <= sum <= hi * n
    ensures lo * length <= length * (sum / n) <= hi * length
  {
    var mean := sum / n;
    assert mean * n == sum;
    Cancel(lo, mean, n);
    Cancel(mean, hi, n);
    assert (mean - lo) * length >= 0.0 && (hi - mean) * length >= 0.0;
  }

  lemma Cancel(x: real, y: real, n: real)
    requires n > 0.0 && x * n <= y * n
    ensures x <= y
  {
    SignOf(y - x, n);
    assert (y - x) * n == y * n - x * n;
  }

  /** A move over cells that cost between `lo` and `hi` costs that much a metre. */
  lemma MoveWithin(c: Chart, a: int, b: int, lo: real, hi: real)
    requires c.Valid() && LegClear(c, a, b, None) && CostsWithin(c, Line(c.nx, a, b), lo, hi)
    ensures lo * c.Length(a, b) <= MoveCost(c, a, b) <= hi * c.Length(a, b)
  {
    hide Line, Chart.Length, MoveCost, Chart.Valid;
    var line := Line(c.nx, a, b);
    LengthNatural(c, a, b);
    SumWithin(c, line, lo, hi);
    PriceIs(c, a, b);
    hide LegClear, CostsWithin, Sum;
    MeanWithin(c.Length(a, b), Sum(c, line), |line| as real, lo, hi);
  }

  lemma PriceIs(c: Chart, a: int, b: int)
    requires c.nx > 0 && LegClear(c, a, b, None)
    ensures MoveCost(c, a, b) == c.Length(a, b) * (Sum(c, Line(c.nx, a, b)) / |Line(c.nx, a, b)| as real)
  {
    hide Line, Chart.Length, Sum;
  }

  lemma LengthNatural(c: Chart, a: int, b: int)
    requires c.Valid()
    ensures c.Length(a, b) >= 0.0
  {
    SquaredLength(c, a, b);
  }

  /** Where every cell costs m, a move costs m times its length. */
  lemma UniformMove(c: Chart, a: int, b: int, m: real)
    requires c.Valid() && LegClear(c, a, b, None) && CostsWithin(c, Line(c.nx, a, b), m, m)
    ensures MoveCost(c, a, b) == m * c.Length(a, b)
  {
    hide LegClear, Line, MoveCost, Chart.Length;
    MoveWithin(c, a, b, m, m);
  }

  /** The chart with one cell dearer by d. */
  function Raised(c: Chart, x: int, d: real): Chart
    requires c.Passable(x)
  {
    c.(cost := c.cost[x := Fin(c.cost[x].val + d)])
  }

  lemma {:induction false} SumElsewhere(c: Chart, cells: seq<int>, x: int, d: real)
    requires Clear(c, cells, None) && c.Passable(x) && x !in cells
    ensures Clear(Raised(c, x, d), cells, None) && Sum(Raised(c, x, d), cells) == Sum(c, cells)
  {
    if cells == [] {
    } else {
      var n := |cells| - 1;
      assert Fit(c, cells[n], None);
      forall i | 0 <= i < |cells| ensures Fit(Raised(c, x, d), cells[i], None) { assert Fit(c, cells[i], None); }
      SumElsewhere(c, cells[..n], x, d);
    }
  }

  lemma {:induction false} SumRaised(c: Chart, cells: seq<int>, k: nat, d: real)
    requires Clear(c, cells, None) && k < |cells| && forall i, j :: 0 <= i < j < |cells| ==> cells[i] != cells[j]
    ensures c.Passable(cells[k]) && Clear(Raised(c, cells[k], d), cells, None)
    ensures Sum(Raised(c, cells[k], d), cells) == Sum(c, cells) + d
  {
    var n := |cells| - 1;
    assert Fit(c, cells[k], None) && Fit(c, cells[n], None);
    var r := Raised(c, cells[k], d);
    forall i | 0 <= i < |cells| ensures Fit(r, cells[i], None) { assert Fit(c, cells[i], None); }
    if k == n {
      SumElsewhere(c, cells[..n], cells[n], d);
    } else {
      SumRaised(c, cells[..n], k, d);
    }
  }

  /** Making the k-th cell of its line dearer by d makes a move dearer by its length times d over the
      number of cells of the line. */
  lemma RaisedMove(c: Chart, a: int, b: int, k: nat, d: real)
    requires c.Valid() && c.InGrid(a) && c.InGrid(b) && LegClear(c, a, b, None) && k < |Line(c.nx, a, b)|
    ensures var line := Line(c.nx, a, b);
      && c.Passable(line[k]) && LegClear(Raised(c, line[k], d), a, b, None)
      && MoveCost(Raised(c, line[k], d), a, b) == MoveCost(c, a, b) + c.Length(a, b) * d / |line| as real
  {
    hide Line, Chart.Length, MoveCost, Sum, Chart.Valid, Mean, LegClear, Raised, Chart.Passable;
    LineRaised(c, a, b, k, d);
    DearerMove(c, Raised(c, Line(c.nx, a, b)[k], d), a, b, d);
  }

  lemma LineRaised(c: Chart, a: int, b: int, k: nat, d: real)
    requires c.Valid() && c.InGrid(a) && c.InGrid(b) && LegClear(c, a, b, None) && k < |Line(c.nx, a, b)|
    ensures Clear(c, Line(c.nx, a, b), None) && c.Passable(Line(c.nx, a, b)[k])
    ensures Raised(c, Line(c.nx, a, b)[k], d).nx == c.nx
    ensures var line := Line(c.nx, a, b); var r := Raised(c, line[k], d);
      && r.Length(a, b) == c.Length(a, b) && LegClear(r, a, b, None)
      && Clear(r, line, None) && Sum(r, line) == Sum(c, line) + d
  {
    hide Line, Sum, Chart.Length, LegClear, Raised, Clear, Steps;
    var line := Line(c.nx, a, b);
    ClearWay(c, a, b);
    forall i, j | 0 <= i < j < |line| ensures line[i] != line[j] { LineVisitsOnce(c.nx, c.ny, a, b, i, j); }
    SumRaised(c, line, k, d);
    SameWay(c, line[k], d, a, b);
    ClearWay(Raised(c, line[k], d), a, b);
  }

  lemma ClearWay(c: Chart, a: int, b: int)
    requires c.nx > 0
    ensures LegClear(c, a, b, None) <==> Clear(c, Line(c.nx, a, b), None)
  {
    hide Line;
  }

  lemma SameWay(c: Chart, x: int, d: real, a: int, b: int)
    requires c.nx > 0 && c.Passable(x)
    ensures Raised(c, x, d).nx == c.nx && Raised(c, x, d).Length(a, b) == c.Length(a, b)
  {
    var r := Raised(c, x, d);
    assert r.East(a, b) == c.East(a, b) && r.North(a, b) == c.North(a, b);
  }

  lemma DearerMove(c: Chart, r: Chart, a: int, b: int, d: real)
    requires c.nx > 0 && r.nx == c.nx && LegClear(c, a, b, None) && LegClear(r, a, b, None) && r.Length(a, b) == c.Length(a, b)
    requires Clear(c, Line(c.nx, a, b), None) && Clear(r, Line(c.nx, a, b), None)
    requires Sum(r, Line(c.nx, a, b)) == Sum(c, Line(c.nx, a, b)) + d
    ensures MoveCost(r, a, b) == MoveCost(c, a, b) + c.Length(a, b) * d / |Line(c.nx, a, b)| as real
  {
    hide Line, Chart.Length, MoveCost, Sum, Mean, LegClear, Clear;
    PriceIs(c, a, b);
    PriceIs(r, a, b);
    Share(c.Length(a, b), Sum(c, Line(c.nx, a, b)), d, |Line(c.nx, a, b)| as real);
  }

  lemma Share(length: real, sum: real, d: real, n: real)
    requires n > 0.0
    ensures length * ((sum + d) / n) == length * (sum / n) + length * d / n
  {
    var p, q, r := sum / n, (sum + d) / n, length * d / n;
    assert p * n == sum && q * n == sum + d && r * n == length * d;
    assert (length * q - length * p - r) * n == length * (q * n) - length * (p * n) - r * n;
    CancelFactor(length * q, length * p + r, n);
  }

  // ---- A whole route ------------------------------------------------------------------------

  function RouteLength(c: Chart, p: seq<int>): real
    requires c.nx > 0
  {
    if |p| <= 1 then 0.0 else RouteLength(c, p[..|p| - 1]) + c.Length(p[|p| - 2], p[|p| - 1])
  }

  /** Every passable cell costs between `lo` and `hi`. */
  ghost predicate ChartWithin(c: Chart, lo: real, hi: real) { forall i :: c.Passable(i) ==> lo <= c.cost[i].val <= hi }

  lemma {:induction false} RouteWithin(c: Chart, p: seq<int>, lo: real, hi: real)
    requires c.Valid() && IsRoute(c, p) && ChartWithin(c, lo, hi)
    ensures lo * RouteLength(c, p) <= RouteCost(c, p) <= hi * RouteLength(c, p)
  {
    hide MoveCost, CanMove, Line, Chart.Length, Chart.Valid;
    if |p| == 1 {
    } else {
      var n := |p| - 1;
      LastMove(c, p);
      RouteWithin(c, p[..n], lo, hi);
      ChartWithinLine(c, p[n - 1], p[n], lo, hi);
      MoveWithin(c, p[n - 1], p[n], lo, hi);
      Distributes(lo, RouteLength(c, p[..n]), c.Length(p[n - 1], p[n]));
      Distributes(hi, RouteLength(c, p[..n]), c.Length(p[n - 1], p[n]));
    }
  }

  lemma ChartWithinLine(c: Chart, a: int, b: int, lo: real, hi: real)
    requires c.nx > 0 && LegClear(c, a, b, None) && ChartWithin(c, lo, hi)
    ensures CostsWithin(c, Line(c.nx, a, b), lo, hi)
  {
    hide Line;
    var line := Line(c.nx, a, b);
    forall i | 0 <= i < |line| ensures c.Passable(line[i]) && lo <= c.cost[line[i]].val <= hi { assert Fit(c, line[i], None); }
  }

  lemma Distributes(x: real, p: real, q: real)
    ensures x * (p + q) == x * p + x * q
  {}

  /** Where every cell costs m, a route costs m times its length ... */
  lemma UniformRoute(c: Chart, p: seq<int>, m: real)
    requires c.Valid() && IsRoute(c, p) && ChartWithin(c, m, m)
    ensures RouteCost(c, p) == m * RouteLength(c, p)
  {
    hide RouteCost, RouteLength, IsRoute;
    RouteWithin(c, p, m, m);
  }

  /** ... so there the cheapest route is the shortest. */
  lemma CheaperIsShorter(c: Chart, p: seq<int>, q: seq<int>, m: real)
    requires c.Valid() && IsRoute(c, p) && IsRoute(c, q) && ChartWithin(c, m, m) && m > 0.0
    ensures RouteCost(c, p) <= RouteCost(c, q) <==> RouteLength(c, p) <= RouteLength(c, q)
  {
    hide RouteCost, RouteLength, IsRoute;
    UniformRoute(c, p, m);
    UniformRoute(c, q, m);
    SignOf(RouteLength(c, q) - RouteLength(c, p), m);
    Distributes(m, RouteLength(c, q), -RouteLength(c, p));
    assert m * -RouteLength(c, p) == -(m * RouteLength(c, p));
    assert (RouteLength(c, q) - RouteLength(c, p)) * m == m * (RouteLength(c, q) + -RouteLength(c, p));
  }
}
