/** A route whose legs do not meet (render/autoroute.go, `planRouteOnGrid`): a row of six cells of a
    hundred metres. Cell 0 is in a channel, cell 1 is land, and the clearance is three and a half
    cells, so that with it the only water is at the two ends. */
module MovedJoins {
  import opened Common
  import opened CellFacts
  import opened Charts
  import opened CellWalk
  import opened Chamfer
  import opened CostGrid
  import opened Metric
  import opened NavGrids
  import opened Search
  import opened Shorten
  import opened Simplify
  import opened Snaps
  import opened Routes
  import opened Legs
  import opened Plans

  const FACTS: seq<Cell> := [
    Cell(None, NO_SCALE, {Channel}, NO_SCALE), Cell(None, NO_SCALE, {Land}, 1), BLANK, BLANK, BLANK, BLANK]

  const COST := GridCost(0.0, 0.0, 350.0, 350.0, 0.0, 0.0, 0.0, 0.0, 0.0, 0.0, 0.0, 0.0)

  /** Fifths of a cell from the land. */
  const CLEAR: seq<int> := [5, 0, 5, 10, 15, 20]

  function Prices(water: set<int>): seq<Extended> { seq(6, i => if i in water then Fin(1.0) else PosInf) }

  function RowSea(h: (real, real) -> real, f: Frame, water: set<int>): Sea {
    Sea(f, Chart(6, 1, 100.0, 100.0, h, Prices(water)))
  }

  ghost predicate IsRow(h: (real, real) -> real, f: Frame) { IsHypot(h) && f.Valid() && f.nx == 6 && f.ny == 1 }

  lemma RowIsValid(h: (real, real) -> real, f: Frame, water: set<int>)
    requires IsRow(h, f)
    ensures var s := RowSea(h, f, water); s.Valid() && s.chart.CostsAtLeastOne()
    ensures forall i :: RowSea(h, f, water).chart.Passable(i) <==> 0 <= i < 6 && i in water
    ensures forall i :: RowSea(h, f, water).chart.Passable(i) ==> RowSea(h, f, water).chart.cost[i] == Fin(1.0)
  {}

  lemma InRow(i: int)
    requires 0 <= i < 6
    ensures Col(6, i) == i && Row(6, i) == 0
  {}

  // ---- The two pricings ---------------------------------------------------------------------

  lemma OnlyLandIsBlocked(cost: GridCost, i: int)
    requires 0 <= i < 6
    ensures HardBlocked(FACTS[i], cost) <==> i == 1
  {}

  lemma FromLand(i: int)
    requires 0 <= i < 6
    ensures Distance(6, 1, i) == CLEAR[i]
  {
    InRow(i);
    InRow(1);
  }

  lemma ClearIsNearest(cost: GridCost, i: int)
    requires 0 <= i < 6
    ensures IsNearest(6, BlockedMap(FACTS, cost), i, CLEAR[i])
  {
    var blocked := BlockedMap(FACTS, cost);
    FromLand(i);
    hide Distance, HardBlocked, BlockedMap;
    forall j | 0 <= j < 6 ensures blocked[j] <==> j == 1 { OnlyLandIsBlocked(cost, j); }
    assert IsSource(blocked, 1);
  }

  predicate FreeOfCharge(c: GridCost) {
    && c.depthPenalty == c.shorePenalty == c.unknownPenalty == 0.0
    && c.unsurveyedPenalty == c.restrictedPenalty == c.markerPenalty == c.offChannelPenalty == 0.0
  }

  lemma FreePrice(f: Cell, clear: int, c: GridCost)
    requires FreeOfCharge(c)
    ensures Price(f, clear, 100.0, c) ==
      if HardBlocked(f, c) || (20.0 * clear as real < c.hardClearance && Channel !in f.flags) then PosInf else Fin(1.0)
  {
    var distM := Metres(clear, 100.0);
    assert distM == 20.0 * clear as real;
    assert DepthCharge(f, distM, c) == 0.0 && ShoreCharge(distM, c) == 0.0;
    hide HardBlocked, DepthCharge, ShoreCharge, Metres;
  }

  /** With the clearance the ends of the row are open, and without it everything but the land. */
  lemma PriceIs(i: int)
    requires 0 <= i < 6
    ensures Price(FACTS[i], CLEAR[i], 100.0, COST) == if i in {0, 5} then Fin(1.0) else PosInf
    ensures Price(FACTS[i], CLEAR[i], 100.0, COST.Relaxed()) == if i in {0, 2, 3, 4, 5} then Fin(1.0) else PosInf
  {
    FreePrice(FACTS[i], CLEAR[i], COST);
    FreePrice(FACTS[i], CLEAR[i], COST.Relaxed());
    OnlyLandIsBlocked(COST, i);
    OnlyLandIsBlocked(COST.Relaxed(), i);
    hide HardBlocked, Price;
  }

  lemma IsFinalized(cost: GridCost, prices: seq<Extended>)
    requires |prices| == 6 && forall i :: 0 <= i < 6 ==> prices[i] == Price(FACTS[i], CLEAR[i], 100.0, cost)
    ensures Finalized(6, 1, 100.0, FACTS, cost, CLEAR, prices)
  {
    assert |FACTS| == 6 && |CLEAR| == 6;
    hide Price, IsNearest, BlockedMap;
    forall i | 0 <= i < |FACTS| ensures IsNearest(6, BlockedMap(FACTS, cost), i, CLEAR[i]) { ClearIsNearest(cost, i); }
  }

  lemma PricedRow(h: (real, real) -> real, f: Frame, water: set<int>, cost: GridCost)
    requires forall i :: 0 <= i < 6 ==> Price(FACTS[i], CLEAR[i], 100.0, cost) == if i in water then Fin(1.0) else PosInf
    ensures PricedAs(RowSea(h, f, water), FACTS, cost)
  {
    var s := RowSea(h, f, water);
    hide Price, Finalized;
    IsFinalized(cost, Prices(water));
    assert Finalized(s.chart.nx, s.chart.ny, s.chart.mx, FACTS, cost, CLEAR, s.chart.cost);
  }

  lemma RowIsPriced(h: (real, real) -> real, f: Frame)
    requires IsRow(h, f)
    ensures Pricings(RowSea(h, f, {0, 5}), RowSea(h, f, {0, 2, 3, 4, 5}), FACTS, COST, COST.Relaxed())
  {
    hide Price, PricedAs, HardBlocked;
    RowIsValid(h, f, {0, 5});
    RowIsValid(h, f, {0, 2, 3, 4, 5});
    forall i | 0 <= i < 6 ensures Price(FACTS[i], CLEAR[i], 100.0, COST) == if i in {0, 5} then Fin(1.0) else PosInf { PriceIs(i); }
    PricedRow(h, f, {0, 5}, COST);
    PricedRelaxed(h, f);
    hide Prices, Sea.Valid, GridCost.Relaxed;
  }

  lemma PricedRelaxed(h: (real, real) -> real, f: Frame)
    ensures PricedAs(RowSea(h, f, {0, 2, 3, 4, 5}), FACTS, COST.Relaxed())
  {
    hide Price, PricedAs, HardBlocked, GridCost.Relaxed;
    var water := {0, 2, 3, 4, 5};
    forall i | 0 <= i < 6 ensures Price(FACTS[i], CLEAR[i], 100.0, COST.Relaxed()) == if i in water then Fin(1.0) else PosInf {
      PriceIs(i);
    }
    PricedRow(h, f, water, COST.Relaxed());
  }

  // ---- The legs -----------------------------------------------------------------------------

  predicate InRowOfSix(c: Chart) { c.nx == 6 && c.ny == 1 && c.mx == c.my == 100.0 }

  lemma Apart(i: int, j: int)
    requires 0 <= i < 6 && 0 <= j < 6
    ensures Steps(6, i, j) == Abs(j - i) && Between(Col(6, i), Col(6, j), (i + j) / 2)
  {
    InRow(i);
    InRow(j);
  }

  lemma NextIsClear(c: Chart, i: int)
    requires c.Valid() && InRowOfSix(c) && c.Passable(i) && c.Passable(i + 1)
    ensures LegClear(c, i, i + 1, None)
  {
    hide Line;
    InRow(i);
    InRow(i + 1);
    var line := Line(6, i, i + 1);
    forall k | 0 <= k < |line| ensures Fit(c, line[k], None) {
      LineInGrid(6, 1, i, i + 1, k);
      InRow(line[k]);
    }
  }

  lemma OpenBetween(c: Chart, a: int, x: int, b: int)
    requires c.Valid() && InRowOfSix(c) && 0 <= a < x < b < 6 && LegClear(c, a, b, None)
    ensures c.Passable(x)
  {
    hide Line;
    Apart(a, b);
    InRow(a);
    InRow(b);
    var cell := LineCoversColumns(6, 1, a, b, x);
    var k :| 0 <= k < |Line(6, a, b)| && Line(6, a, b)[k] == cell;
    LineInGrid(6, 1, a, b, k);
    assert Fit(c, Line(6, a, b)[k], None);
    hide LegClear, Chart.Valid;
    InRow(cell);
  }

  lemma OneStep(c: Chart, i: int)
    requires c.Valid() && InRowOfSix(c) && c.Passable(i) && c.Passable(i + 1)
    requires forall j :: c.Passable(j) ==> c.cost[j] == Fin(1.0)
    ensures CanMove(c, i, i + 1) && LegClear(c, i, i + 1, None) && MoveCost(c, i, i + 1) == 100.0
  {
    NextIsClear(c, i);
    StepIsLegal(c, i);
    hide Line, LegClear, Chart.Length, CanMove;
    assert LegClear(c, i, i + 1, None);
    StepLength(c, i);
    AtUnitCost(c, Line(6, i, i + 1));
  }

  lemma StepIsLegal(c: Chart, i: int)
    requires c.Valid() && InRowOfSix(c) && c.Passable(i) && c.Passable(i + 1) && LegClear(c, i, i + 1, None)
    ensures CanMove(c, i, i + 1)
  {
    hide LegClear;
    InRow(i);
    InRow(i + 1);
    assert MOVES[0] == (1, 0);
    assert HasNeighbour(c, i, 0) && Neighbour(c, i, 0) == i + 1;
    assert Legal(c, i, 0);
  }

  lemma StepLength(c: Chart, i: int)
    requires c.Valid() && InRowOfSix(c) && 0 <= i < 5
    ensures c.Length(i, i + 1) == 100.0
  {
    InRow(i);
    InRow(i + 1);
    var d := c.hypot(100.0, 0.0);
    assert c.East(i, i + 1) == 100.0 && c.North(i, i + 1) == 0.0;
    assert HypotAt(c.hypot, 100.0, 0.0);
    SquareOrder(d, 100.0);
    SquareOrder(100.0, d);
  }

  lemma AtUnitCost(c: Chart, cells: seq<int>)
    requires cells != [] && Clear(c, cells, None) && forall j :: c.Passable(j) ==> c.cost[j] == Fin(1.0)
    ensures Mean(c, cells) == 1.0
  {
    UnitSum(c, cells);
    ByItself(|cells| as real);
  }

  lemma ByItself(n: real)
    requires n > 0.0
    ensures n / n == 1.0
  {}

  lemma {:induction false} UnitSum(c: Chart, cells: seq<int>)
    requires Clear(c, cells, None) && forall j :: c.Passable(j) ==> c.cost[j] == Fin(1.0)
    ensures Sum(c, cells) == |cells| as real
  {
    if cells == [] {
    } else {
      var n := |cells| - 1;
      assert Fit(c, cells[n], None);
      assert forall i :: 0 <= i < n ==> cells[..n][i] == cells[i];
      UnitSum(c, cells[..n]);
    }
  }

  /** From cell 2 along the row is the cheapest way to cell 5. */
  lemma AlongRow(c: Chart)
    requires c.Valid() && c.CostsAtLeastOne() && InRowOfSix(c) && forall j :: 2 <= j < 6 ==> c.Passable(j)
    requires forall j :: c.Passable(j) ==> c.cost[j] == Fin(1.0)
    ensures IsBestRoute(c, [2, 3, 4, 5])
  {
    hide LegClear, MoveCost, Chart.Length, CanMove, Chart.CostsAtLeastOne, Chart.Valid;
    OneStep(c, 2);
    OneStep(c, 3);
    OneStep(c, 4);
    assert [2, 3, 4, 5][..3] == [2, 3, 4] && [2, 3, 4][..2] == [2, 3] && [2, 3][..1] == [2];
    var leg := [2, 3, 4, 5];
    assert IsRoute(c, [2]) && IsRoute(c, [2, 3]) && IsRoute(c, [2, 3, 4]) && IsRoute(c, leg);
    CostOfRow(c);
    forall p | IsRouteBetween(c, p, 2, 5) ensures RouteCost(c, p) >= 300.0 {
      RouteSpansLength(c, p);
      RowLength(c);
    }
  }

  lemma RowLength(c: Chart)
    requires c.Valid() && InRowOfSix(c)
    ensures c.Length(2, 5) >= 300.0
  {
    StepsSpanLength(c, 2, 5);
    Apart(2, 5);
  }

  lemma CostOfRow(c: Chart)
    requires c.Valid() && IsRoute(c, [2, 3, 4, 5])
    requires LegClear(c, 2, 3, None) && LegClear(c, 3, 4, None) && LegClear(c, 4, 5, None)
    requires MoveCost(c, 2, 3) == MoveCost(c, 3, 4) == MoveCost(c, 4, 5) == 100.0
    ensures RouteCost(c, [2, 3, 4, 5]) == 300.0
  {
    hide LegClear, MoveCost, CanMove, Chart.Valid;
    var leg := [2, 3, 4, 5];
    LastMove(c, leg);
    assert leg[..3] == [2, 3, 4];
    LastMove(c, [2, 3, 4]);
    assert [2, 3, 4][..2] == [2, 3];
    LastMove(c, [2, 3]);
    assert [2, 3][..1] == [2];
  }

  lemma EndsNotJoined(c: Chart)
    requires c.Valid() && InRowOfSix(c) && forall i :: c.Passable(i) <==> i == 0 || i == 5
    ensures NotJoined(c, 0, 5)
  {
    forall p ensures !IsRouteBetween(c, p, 0, 5) {
      if IsRoute(c, p) && p[0] == 0 { StaysAtTheEnd(c, p); }
    }
  }

  lemma StaysAtTheEnd(c: Chart, p: seq<int>)
    requires c.Valid() && InRowOfSix(c) && forall i :: c.Passable(i) <==> i == 0 || i == 5
    requires IsRoute(c, p) && p[0] == 0
    ensures |p| == 1
  {
    hide LegClear, Chart.Valid;
    if |p| > 1 {
      assert CanMove(c, p[0], p[0 + 1]);
      RouteInGrid(c, p, 1);
      MovesStep(c, 0, p[1]);
      ClearLegEnds(c, 0, p[1], None);
      Apart(0, p[1]);
      assert false;
    }
  }

  lemma SnapsWest(c: Chart)
    requires c.Valid() && InRowOfSix(c) && forall i :: c.Passable(i) <==> i == 0 || i == 5
    ensures NearestByRing(c, 2, 0)
  {
    Apart(2, 0);
    Apart(2, 5);
    hide Chart.Length, Steps;
  }

  lemma StandingStillIsBest(c: Chart, i: int)
    requires c.Valid() && c.CostsAtLeastOne() && c.Passable(i)
    ensures IsBestRoute(c, [i])
  {
    hide LegClear, MoveCost, CanMove;
    StandingStill(c, i);
  }

  /** A position over each of three cells: the start, a point on the way, and the destination. */
  function Points(f: Frame): seq<RoutePoint>
    requires f.Valid()
  {
    [CentrePoint(f, 0), CentrePoint(f, 2), CentrePoint(f, 5)]
  }

  lemma OverCell(f: Frame, i: int)
    requires f.Valid() && f.nx == 6 && f.ny == 1 && 0 <= i < 6
    ensures CellUnder(f, CentrePoint(f, i)) == Some(i)
  {
    f.CentreMapsBack(i);
  }

  const LEGS: seq<seq<int>> := [[0], [2, 3, 4, 5]]

  lemma FirstLeg(s: Sea)
    requires s.Valid() && InRowOfSix(s.chart) && s.chart.CostsAtLeastOne() && forall i :: s.chart.Passable(i) <==> i == 0 || i == 5
    ensures FoundOn(s, [0], Points(s.frame)[0], Points(s.frame)[1]) && NoWayOn(s, Points(s.frame)[1], Points(s.frame)[2])
  {
    OverCell(s.frame, 0);
    OverCell(s.frame, 2);
    OverCell(s.frame, 5);
    SnapsWest(s.chart);
    hide CentrePoint, CellUnder, IsBestRoute, NearestByRing, NoWaterWithin, Rings;
    HomeIsNearest(s.chart, 0);
    HomeIsNearest(s.chart, 5);
    EndsNotJoined(s.chart);
    StandingStillIsBest(s.chart, 0);
  }

  lemma SecondLeg(s: Sea)
    requires s.Valid() && InRowOfSix(s.chart) && s.chart.CostsAtLeastOne()
    requires forall i :: s.chart.Passable(i) <==> i in {0, 2, 3, 4, 5}
    requires forall i :: s.chart.Passable(i) ==> s.chart.cost[i] == Fin(1.0)
    ensures FoundOn(s, [2, 3, 4, 5], Points(s.frame)[1], Points(s.frame)[2])
  {
    OverCell(s.frame, 2);
    OverCell(s.frame, 5);
    hide CentrePoint, CellUnder, IsBestRoute, NearestByRing, LegClear, Chart.CostsAtLeastOne;
    HomeIsNearest(s.chart, 2);
    HomeIsNearest(s.chart, 5);
    AlongRow(s.chart);
  }

  lemma AcrossLand(c: Chart)
    requires c.Valid() && InRowOfSix(c) && !c.Passable(1)
    ensures !SafePath(c, Stitched(LEGS))
  {
    hide LegClear;
    StitchedLegs();
    var full := [0, 3, 4, 5];
    if LegClear(c, full[0], full[0 + 1], None) { OpenBetween(c, 0, 1, 3); }
  }

  lemma StitchedLegs()
    ensures Stitched(LEGS) == [0, 3, 4, 5]
  {
    StitchedOne([0]);
    StitchedNext([[0]], [2, 3, 4, 5]);
    assert [[0]] + [[2, 3, 4, 5]] == LEGS;
  }

  /** These are the pricings of the row, the legs are those found on them for the three points, the second
      because there is no way with the clearance, and stitched they are not safe; the point between them
      does not keep its cell. */
  ghost predicate MissEachOther(first: Sea, last: Sea) {
    && Pricings(first, last, FACTS, COST, COST.Relaxed())
    && Found(first, last, Points(first.frame), LEGS, Stitched(LEGS), 1, true)
    && NoWayOn(first, Points(first.frame)[1], Points(first.frame)[2])
    && !KeepsCell(first, FACTS, COST, Points(first.frame)[1])
    && !SafePath(last.chart, Stitched(LEGS))
  }

  lemma DoNotMeet(first: Sea, last: Sea)
    requires Pricings(first, last, FACTS, COST, COST.Relaxed()) && InRowOfSix(first.chart)
    requires first.chart.CostsAtLeastOne() && forall i :: first.chart.Passable(i) <==> i == 0 || i == 5
    requires last.chart.CostsAtLeastOne() && forall i :: last.chart.Passable(i) <==> i in {0, 2, 3, 4, 5}
    requires forall i :: last.chart.Passable(i) ==> last.chart.cost[i] == Fin(1.0)
    ensures MissEachOther(first, last)
  {
    hide FoundOn, NoWayOn, SafePath, PricedAs, KeepsCell, CentrePoint, Chart.Valid, Chart.CostsAtLeastOne, Stitched, JoinedAt;
    FirstLeg(first);
    SecondLeg(last);
    AcrossLand(last.chart);
    LegsAre(first, last, Points(first.frame));
    JoinAtRepricing(first, last, FACTS, COST, LEGS, Points(first.frame), 1);
  }

  /** On this row, wherever it lies, the point over cell 2 snaps to cell 0 with the clearance and to its own
      cell without, and the stitched path runs across the land. */
  lemma LegsDoNotMeet(h: (real, real) -> real, f: Frame)
    requires IsRow(h, f)
    ensures MissEachOther(RowSea(h, f, {0, 5}), RowSea(h, f, {0, 2, 3, 4, 5}))
  {
    hide MissEachOther, Pricings;
    RowIsPriced(h, f);
    RowIsValid(h, f, {0, 5});
    RowIsValid(h, f, {0, 2, 3, 4, 5});
    DoNotMeet(RowSea(h, f, {0, 5}), RowSea(h, f, {0, 2, 3, 4, 5}));
  }

  lemma LegsAre(first: Sea, last: Sea, points: seq<RoutePoint>)
    requires first.Valid() && last.Valid() && |points| == 3
    requires FoundOn(first, [0], points[0], points[1]) && FoundOn(last, [2, 3, 4, 5], points[1], points[2])
    ensures LegsFound(first, last, LEGS, points, 1) && !JoinedAt(LEGS, 1)
  {
    hide FoundOn, Sea.Valid;
    assert LEGS[0] == [0] && LEGS[1] == [2, 3, 4, 5];
  }
}
