/** A route through several points (render/autoroute.go, `planRouteOnGrid`): one search per leg on
    the one grid, the legs stitched together. A leg that needs the clearance relaxed prices the grid
    anew under the legs before it. */
module Legs {
  import opened Common
  import opened CellFacts
  import opened Charts
  import opened CellWalk
  import opened Chamfer
  import opened CostGrid
  import opened NavGrids
  import opened Search
  import opened Shorten
  import opened Simplify
  import opened Snaps
  import opened Routes

  function Tail(leg: seq<int>): seq<int> { if leg == [] then [] else leg[1..] }

  /** The legs one after the other, each join cell once. */
  function Stitched(legs: seq<seq<int>>): seq<int> {
    if legs == [] then []
    else if |legs| == 1 then legs[0]
    else Stitched(legs[..|legs| - 1]) + Tail(legs[|legs| - 1])
  }

  lemma StitchedOne(leg: seq<int>)
    ensures Stitched([leg]) == leg
  {}

  lemma StitchedNext(legs: seq<seq<int>>, leg: seq<int>)
    requires legs != []
    ensures Stitched(legs + [leg]) == Stitched(legs) + Tail(leg)
  {
    assert (legs + [leg])[..|legs|] == legs;
  }

  /** Two safe paths stitched are safe exactly when the way from the end of the first to the second
      cell of the other is. */
  lemma JoinIsSafe(c: Chart, a: seq<int>, b: seq<int>)
    requires c.nx > 0 && SafePath(c, a) && SafePath(c, b) && a != [] && b != []
    ensures SafePath(c, a + Tail(b)) <==> |b| == 1 || LegClear(c, a[|a| - 1], b[1], None)
  {
    hide LegClear, Chart.Passable;
    var ab, n := a + Tail(b), |a|;
    if |b| > 1 {
      assert ab[n - 1] == a[n - 1] && ab[n] == b[1];
      assert SafePath(c, ab) ==> LegClear(c, ab[n - 1], ab[n - 1 + 1], None);
      if LegClear(c, a[n - 1], b[1], None) {
        forall i | 0 <= i < |ab| - 1 ensures LegClear(c, ab[i], ab[i + 1], None) {
          if i >= n { assert ab[i] == b[i - n + 1] && ab[i + 1] == b[i - n + 1 + 1]; }
        }
      }
    }
  }

  /** Each leg begins in the cell in which the one before it ends. */
  predicate Joined(legs: seq<seq<int>>) {
    forall i :: 0 < i < |legs| ==> JoinedAt(legs, i)
  }

  predicate JoinedAt(legs: seq<seq<int>>, i: int) {
    0 < i < |legs| && legs[i - 1] != [] && legs[i] != [] && legs[i - 1][|legs[i - 1]| - 1] == legs[i][0]
  }

  ghost predicate AllSafe(c: Chart, legs: seq<seq<int>>)
    requires c.nx > 0
  {
    forall i :: 0 <= i < |legs| ==> legs[i] != [] && SafePath(c, legs[i])
  }

  lemma {:induction false} StitchedIsSafe(c: Chart, legs: seq<seq<int>>)
    requires c.nx > 0 && legs != [] && AllSafe(c, legs) && Joined(legs)
    ensures var full := Stitched(legs);
      SafePath(c, full) && full != [] && full[|full| - 1] == legs[|legs| - 1][|legs[|legs| - 1]| - 1]
  {
    hide SafePath, LegClear;
    if |legs| == 1 {
    } else {
      hide Stitched, Joined, AllSafe;
      var n := |legs| - 1;
      var init, leg := legs[..n], legs[n];
      LastJoin(c, legs);
      assert legs == init + [leg];
      StitchedIsSafe(c, init);
      StitchedNext(init, leg);
      SecondLegIsClear(c, leg);
      JoinIsSafe(c, Stitched(init), leg);
    }
  }

  lemma LastJoin(c: Chart, legs: seq<seq<int>>)
    requires c.nx > 0 && |legs| > 1 && AllSafe(c, legs) && Joined(legs)
    ensures var n := |legs| - 1; var init, leg := legs[..n], legs[n];
      && AllSafe(c, init) && Joined(init) && leg != [] && SafePath(c, leg)
      && init[n - 1] != [] && init[n - 1][|init[n - 1]| - 1] == leg[0]
  {
    hide SafePath;
    var n := |legs| - 1;
    assert JoinedAt(legs, n);
    forall i | 0 < i < n ensures JoinedAt(legs[..n], i) { assert JoinedAt(legs, i); }
  }

  lemma SecondLegIsClear(c: Chart, leg: seq<int>)
    requires c.nx > 0 && SafePath(c, leg)
    ensures |leg| > 1 ==> LegClear(c, leg[0], leg[1], None)
  {
    hide LegClear;
    if |leg| > 1 { assert LegClear(c, leg[0], leg[0 + 1], None); }
  }

  /** Whatever the joins, every cell of the stitched path is passable. */
  lemma {:induction false} StitchedIsClear(c: Chart, legs: seq<seq<int>>)
    requires c.nx > 0 && AllSafe(c, legs)
    ensures Clear(c, Stitched(legs), None)
    ensures legs != [] ==> Stitched(legs) != [] && Stitched(legs)[0] == legs[0][0]
  {
    hide LegClear, Chart.Passable;
    if legs == [] {
    } else if |legs| == 1 {
      assert SafePath(c, legs[0]);
    } else {
      var n := |legs| - 1;
      assert SafePath(c, legs[n]) && legs[..n][0] == legs[0];
      StitchedIsClear(c, legs[..n]);
    }
  }

  // ---- Two pricings of one grid -------------------------------------------------------------

  /** One raster, whatever its prices. */
  ghost predicate SameRaster(s: Sea, t: Sea) {
    && s.frame == t.frame && s.chart.nx == t.chart.nx && s.chart.ny == t.chart.ny
    && s.chart.mx == t.chart.mx && s.chart.my == t.chart.my && s.chart.hypot == t.chart.hypot
  }

  /** Whatever is passable on s is passable on t. */
  ghost predicate OnlyOpens(s: Sea, t: Sea) {
    SameRaster(s, t) && forall i :: s.chart.Passable(i) ==> t.chart.Passable(i)
  }

  lemma SafeOnceOpened(s: Sea, t: Sea, path: seq<int>)
    requires s.Valid() && OnlyOpens(s, t) && SafePath(s.chart, path)
    ensures t.chart.nx > 0 && SafePath(t.chart, path)
  {
    hide Chart.Passable, Line, Chart.Valid;
    forall i | 0 <= i < |path| - 1 ensures LegClear(t.chart, path[i], path[i + 1], None) {
      assert LegClear(s.chart, path[i], path[i + 1], None);
      var line := Line(s.chart.nx, path[i], path[i + 1]);
      forall k | 0 <= k < |line| ensures Fit(t.chart, line[k], None) { assert Fit(s.chart, line[k], None); }
    }
  }

  lemma SamePricing(s: Sea, t: Sea, facts: seq<Cell>, cost: GridCost)
    requires SameRaster(s, t) && PricedAs(s, facts, cost) && PricedAs(t, facts, cost)
    ensures s == t
  {
    hide Finalized;
    var c, d := s.chart, t.chart;
    var a :| Finalized(c.nx, c.ny, c.mx, facts, cost, a, c.cost);
    var b :| Finalized(d.nx, d.ny, d.mx, facts, cost, b, d.cost);
    PricingIsUnique(c.nx, c.ny, c.mx, facts, cost, a, c.cost, b, d.cost);
  }

  /** Which cells the relaxed pricing leaves open. */
  lemma RelaxedOpens(s: Sea, t: Sea, facts: seq<Cell>, cost: GridCost)
    requires s.Valid() && SameRaster(s, t) && PricedAs(s, facts, cost) && PricedAs(t, facts, cost.Relaxed())
    ensures OnlyOpens(s, t) && |t.chart.cost| == |facts|
    ensures forall i :: t.chart.Passable(i) <==> 0 <= i < |facts| && !HardBlocked(facts[i], cost)
  {
    var c, d := s.chart, t.chart;
    hide HardBlocked, Price, IsNearest, BlockedMap, GridCost.Relaxed;
    var a :| Finalized(c.nx, c.ny, c.mx, facts, cost, a, c.cost);
    var b :| Finalized(d.nx, d.ny, d.mx, facts, cost.Relaxed(), b, d.cost);
    RelaxedGridOnlyOpens(c.nx, c.ny, c.mx, facts, cost, a, c.cost, b, d.cost);
  }

  // ---- Joins --------------------------------------------------------------------------------

  /** Every cell that is not blocked itself is found after `cell` from where the position lies. */
  ghost predicate FirstOfUnblocked(c: Chart, facts: seq<Cell>, cost: GridCost, home: int, cell: int)
    requires c.nx > 0
  {
    forall j :: 0 <= j < |facts| && !HardBlocked(facts[j], cost) ==> FoundFirst(c, home, cell, j)
  }

  /** The position keeps its cell when the clearance is given up: no water that this opens is found
      before the cell to which it shifts with the clearance. */
  ghost predicate KeepsCell(s: Sea, facts: seq<Cell>, cost: GridCost, p: RoutePoint)
    requires s.Valid()
  {
    exists cell :: SnapsOn(s, p, cell) && FirstOfUnblocked(s.chart, facts, cost, CellUnder(s.frame, p).value, cell)
  }

  /** A position shifts to one cell on both pricings exactly when it keeps its cell. */
  lemma SameSnapIf(s: Sea, t: Sea, facts: seq<Cell>, cost: GridCost, p: RoutePoint, a: int, b: int)
    requires s.Valid() && t.Valid() && SameRaster(s, t)
    requires PricedAs(s, facts, cost) && PricedAs(t, facts, cost.Relaxed())
    requires SnapsOn(s, p, a) && SnapsOn(t, p, b)
    ensures a == b <==> KeepsCell(s, facts, cost, p)
  {
    var home := CellUnder(s.frame, p).value;
    RelaxedOpens(s, t, facts, cost);
    hide CellUnder, FoundFirst, HardBlocked, PricedAs, Chart.Valid, Chart.Passable;
    SameDistances(s, t);
    if KeepsCell(s, facts, cost, p) {
      var cell :| SnapsOn(s, p, cell) && FirstOfUnblocked(s.chart, facts, cost, home, cell);
      SameSnap(s, p, a, cell);
      assert NearestByRing(t.chart, home, a);
      SameSnap(t, p, a, b);
    }
    if a == b { assert FirstOfUnblocked(s.chart, facts, cost, home, a); }
  }

  lemma SameDistances(s: Sea, t: Sea)
    requires s.chart.nx > 0 && SameRaster(s, t)
    ensures forall i, j, k :: FoundFirst(s.chart, i, j, k) <==> FoundFirst(t.chart, i, j, k)
  {
    forall i, j, k ensures FoundFirst(s.chart, i, j, k) <==> FoundFirst(t.chart, i, j, k) {
      SameLength(s, t, i, j);
      SameLength(s, t, i, k);
    }
  }

  lemma SameLength(s: Sea, t: Sea, i: int, j: int)
    requires s.chart.nx > 0 && SameRaster(s, t)
    ensures s.chart.Length(i, j) == t.chart.Length(i, j)
  {
    assert s.chart.East(i, j) == t.chart.East(i, j) && s.chart.North(i, j) == t.chart.North(i, j);
  }

  // ---- The loop over the legs ---------------------------------------------------------------

  /** The k-th leg and those after it were found on the relaxed pricing, those before it on the first. */
  ghost predicate LegsFound(first: Sea, last: Sea, legs: seq<seq<int>>, points: seq<RoutePoint>, k: int)
    requires first.Valid() && last.Valid()
  {
    && 0 <= k <= |legs| < |points|
    && forall i :: 0 <= i < |legs| ==> legs[i] != [] && FoundOn(if i < k then first else last, legs[i], points[i], points[i + 1])
  }

  lemma LegsFoundNext(first: Sea, before: Sea, after: Sea, legs: seq<seq<int>>, leg: seq<int>,
                      points: seq<RoutePoint>, k: int, k': int)
    requires first.Valid() && before.Valid() && after.Valid()
    requires LegsFound(first, before, legs, points, k) && |legs| + 1 < |points|
    requires FoundOn(after, leg, points[|legs|], points[|legs| + 1])
    requires before == after || (before == first && k == |legs|)
    requires k' == k || (k' == |legs| + 1 && k == |legs| && after == first)
    ensures LegsFound(first, after, legs + [leg], points, k') && leg != []
  {
    assert leg != [];
    hide FoundOn, Sea.Valid;
    var all := legs + [leg];
    forall i | 0 <= i < |all|
      ensures all[i] != [] && FoundOn(if i < k' then first else after, all[i], points[i], points[i + 1])
    {
      if i < |legs| { assert all[i] == legs[i]; }
    }
  }

  ghost predicate SomeLegHasNoWay(s: Sea, points: seq<RoutePoint>)
    requires s.Valid()
  {
    exists i :: 0 <= i < |points| - 1 && NoWayOn(s, points[i], points[i + 1])
  }

  /** The sea before the legs, as it is now, and how that is priced. */
  ghost predicate Pricings(first: Sea, last: Sea, facts: seq<Cell>, cost: GridCost, now: GridCost) {
    && first.Valid() && last.Valid() && SameRaster(first, last)
    && PricedAs(first, facts, cost) && PricedAs(last, facts, now)
    && (now == cost || now == cost.Relaxed())
  }

  /** Giving the clearance up again changes nothing more. */
  lemma Repriced(first: Sea, before: Sea, after: Sea, facts: seq<Cell>, cost: GridCost, was: GridCost, now: GridCost)
    requires Pricings(first, before, facts, cost, was) && Pricings(first, after, facts, cost, now)
    requires now == was || now == cost.Relaxed()
    ensures was == cost ==> before == first
    ensures now == cost ==> after == first
    ensures before == after || (was == cost && now != cost)
  {
    hide PricedAs, Sea.Valid;
    if was == cost { SamePricing(first, before, facts, cost); }
    if now == cost { SamePricing(first, after, facts, cost); }
    if was == now { SamePricing(before, after, facts, now); }
  }

  /** The legs found so far, and the path they make. */
  ghost predicate Found(first: Sea, last: Sea, points: seq<RoutePoint>, legs: seq<seq<int>>, full: seq<int>, k: int, repriced: bool)
    requires first.Valid() && last.Valid()
  {
    && full == Stitched(legs) && LegsFound(first, last, legs, points, k)
    && (if repriced then k < |legs| else k == |legs| && last == first)
  }

  lemma FoundNext(first: Sea, before: Sea, after: Sea, facts: seq<Cell>, cost: GridCost, was: GridCost, now: GridCost,
                  points: seq<RoutePoint>, legs: seq<seq<int>>, full: seq<int>, k: int, leg: seq<int>)
    requires Pricings(first, before, facts, cost, was) && Pricings(first, after, facts, cost, now)
    requires now == was || now == cost.Relaxed()
    requires Found(first, before, points, legs, full, k, was != cost) && |legs| + 1 < |points|
    requires FoundOn(after, leg, points[|legs|], points[|legs| + 1])
    ensures leg != []
    ensures Found(first, after, points, legs + [leg], if legs == [] then leg else full + Tail(leg),
                  if now == cost then |legs| + 1 else k, now != cost)
  {
    Repriced(first, before, after, facts, cost, was, now);
    LegsFoundNext(first, before, after, legs, leg, points, k, if now == cost then |legs| + 1 else k);
    hide Pricings, FoundOn, LegsFound, Stitched, Tail, Sea.Valid;
    StitchedOne(leg);
    if legs == [] {
      assert [] + [leg] == [leg];
    } else {
      StitchedNext(legs, leg);
    }
  }

  predicate EndsMoved(f: Frame, p: RoutePoint, leg: seq<int>)
    requires f.Valid()
  {
    leg != [] && Moved(f, p, leg[|leg| - 1])
  }

  /** The route's own start and destination are reported as moved exactly when they were. */
  predicate Reports(f: Frame, points: seq<RoutePoint>, legs: seq<seq<int>>, shifts: Shifts)
    requires f.Valid() && |points| > 1
  {
    && (shifts.start <==> legs != [] && legs[0] != [] && Moved(f, points[0], legs[0][0]))
    && (shifts.end <==> |legs| == |points| - 1 && EndsMoved(f, points[|points| - 1], legs[|legs| - 1]))
  }

  lemma ReportsNext(f: Frame, points: seq<RoutePoint>, legs: seq<seq<int>>, leg: seq<int>, before: Shifts, after: Shifts)
    requires f.Valid() && |legs| + 1 < |points| && leg != [] && Reports(f, points, legs, before)
    requires Reported(f, leg, points[|legs|], points[|legs| + 1], before, after, |legs| == 0, |legs| + 2 == |points|)
    ensures Reports(f, points, legs + [leg], after)
  {
    hide Moved;
  }

  /** The first pricing of the grid. */
  method PriceFirst(g: NavGrid, cost: GridCost) returns (ghost first: Sea)
    requires g.Valid() && cost.Normal()
    modifies g`cost, g`clearCells
    ensures g.Valid() && g.Facts() == old(g.Facts()) && PricedAt(g, cost) && first == g.AsSea()
    ensures Pricings(first, first, g.Facts(), cost, cost)
  {
    g.Finalize(cost);
    SeaIsPriced(g, cost);
    first := g.AsSea();
  }

  /** One leg, on the grid as the legs before it left it. */
  method NextLeg(g: NavGrid, start: RoutePoint, end: RoutePoint, o: Options, res: RouteResult, isFirst: bool, isLast: bool,
                 ghost first: Sea, ghost was: GridCost) returns (leg: Result<seq<int>>, ghost now: GridCost)
    requires g.Valid() && o.cost.Normal() && PricedAt(g, was) && Pricings(first, g.AsSea(), g.Facts(), o.cost, was)
    modifies g`cost, g`clearCells, res
    ensures g.Valid() && g.Facts() == old(g.Facts()) && PricedAt(g, now) && now.Normal()
    ensures Pricings(first, g.AsSea(), g.Facts(), o.cost, now) && (now == was || now == o.cost.Relaxed())
    ensures now != was ==> o.cost.hardClearance > 0.0 && was == o.cost && NoWayOn(first, start, end)
    ensures leg.Ok? ==> FoundOn(g.AsSea(), leg.value, start, end)
    ensures leg.Ok? ==>
      Reported(g.AsFrame(), leg.value, start, end, old(res.Snapped()), res.Snapped(), isFirst, isLast)
    ensures leg.Err? ==> NoWayOn(g.AsSea(), start, end)
    ensures leg.Err? ==> now == o.cost.Relaxed() || o.cost.hardClearance <= 0.0 || Outside(g.AsFrame(), start, end)
  {
    hide Finalized, NavGrid.Facts, PricedAs, GridCost.Normal, GridCost.Relaxed, NoWayOn, FoundOn, Moved, Outside, Sea.Valid;
    ghost var before := g.AsSea();
    leg, now := FindRoute(g, start, end, o, res, isFirst, isLast, was);
    SeaIsPriced(g, now);
    hide PricedAt;
    Repriced(first, before, g.AsSea(), g.Facts(), o.cost, was, now);
  }

  /** What holds after some of the legs. */
  ghost predicate Stitching(g: NavGrid, shifts: Shifts, first: Sea, cost: GridCost, now: GridCost, points: seq<RoutePoint>,
                            legs: seq<seq<int>>, full: seq<int>, k: int)
    reads g, g.depth, g.scaleOf, g.flags, g.landScale, g.cost, g.clearCells
  {
    && g.Valid() && PricedAt(g, now) && now.Normal() && |points| > 1
    && Pricings(first, g.AsSea(), g.Facts(), cost, now)
    && (now != cost ==> cost.hardClearance > 0.0 && SomeLegHasNoWay(first, points))
    && Found(first, g.AsSea(), points, legs, full, k, now != cost)
    && Reports(g.AsFrame(), points, legs, shifts)
  }

  /** Some leg has no way on the grid in force, which is the relaxed one unless there is no clearance to
      give up or a point lies outside. */
  ghost predicate Failed(g: NavGrid, first: Sea, cost: GridCost, now: GridCost, points: seq<RoutePoint>)
    reads g, g.depth, g.scaleOf, g.flags, g.landScale, g.cost, g.clearCells
  {
    && g.Valid() && PricedAt(g, now) && now.Normal() && Pricings(first, g.AsSea(), g.Facts(), cost, now)
    && (now != cost ==> cost.hardClearance > 0.0 && SomeLegHasNoWay(first, points))
    && SomeLegHasNoWay(g.AsSea(), points)
    && (now == cost.Relaxed() || cost.hardClearance <= 0.0 || SomeLegOutside(g.AsFrame(), points))
  }

  lemma LegFails(g: NavGrid, first: Sea, cost: GridCost, was: GridCost, now: GridCost, points: seq<RoutePoint>, i: int)
    requires g.Valid() && PricedAt(g, now) && now.Normal() && Pricings(first, g.AsSea(), g.Facts(), cost, now)
    requires 0 <= i < |points| - 1 && NoWayOn(g.AsSea(), points[i], points[i + 1])
    requires was != cost ==> cost.hardClearance > 0.0 && SomeLegHasNoWay(first, points)
    requires now != was ==> cost.hardClearance > 0.0 && NoWayOn(first, points[i], points[i + 1])
    requires now == cost.Relaxed() || cost.hardClearance <= 0.0 || Outside(g.AsFrame(), points[i], points[i + 1])
    ensures Failed(g, first, cost, now, points)
  {
    hide NoWayOn, PricedAt, PricedAs, Outside, GridCost.Normal, Sea.Valid;
  }

  lemma LegIsAdded(g: NavGrid, after: Shifts, first: Sea, before: Sea, cost: GridCost, was: GridCost, now: GridCost,
                   points: seq<RoutePoint>, legs: seq<seq<int>>, full: seq<int>, k: int, leg: seq<int>, shifts: Shifts)
    requires g.Valid() && PricedAt(g, now) && now.Normal() && |points| > 1
    requires Pricings(first, before, g.Facts(), cost, was) && Pricings(first, g.AsSea(), g.Facts(), cost, now)
    requires now == was || now == cost.Relaxed()
    requires was != cost ==> cost.hardClearance > 0.0 && SomeLegHasNoWay(first, points)
    requires now != was ==> cost.hardClearance > 0.0 && SomeLegHasNoWay(first, points)
    requires Found(first, before, points, legs, full, k, was != cost) && |legs| + 1 < |points|
    requires FoundOn(g.AsSea(), leg, points[|legs|], points[|legs| + 1])
    requires Reports(g.AsFrame(), points, legs, shifts)
    requires Reported(g.AsFrame(), leg, points[|legs|], points[|legs| + 1], shifts, after, |legs| == 0, |legs| + 2 == |points|)
    ensures Stitching(g, after, first, cost, now, points, legs + [leg], if legs == [] then leg else full + Tail(leg),
                      if now == cost then |legs| + 1 else k)
  {
    FoundNext(first, before, g.AsSea(), g.Facts(), cost, was, now, points, legs, full, k, leg);
    ReportsNext(g.AsFrame(), points, legs, leg, shifts, after);
    hide PricedAt, PricedAs, GridCost.Normal, NoWayOn, Found, FoundOn, Reports, Reported, Stitched, Tail, NavGrid.Facts;
  }

  /** One more leg. */
  method AddLeg(g: NavGrid, points: seq<RoutePoint>, o: Options, res: RouteResult, full: seq<int>, i: nat,
                ghost first: Sea, ghost was: GridCost, ghost legs: seq<seq<int>>, ghost k: int)
      returns (r: Result<seq<int>>, ghost now: GridCost, ghost legs': seq<seq<int>>, ghost k': int)
    requires o.cost.Normal() && Stitching(g, res.Snapped(), first, o.cost, was, points, legs, full, k) && |legs| == i && i + 1 < |points|
    modifies g`cost, g`clearCells, res
    ensures g.Valid() && g.Facts() == old(g.Facts())
    ensures r.Ok? ==> Stitching(g, res.Snapped(), first, o.cost, now, points, legs', r.value, k') && |legs'| == i + 1
    ensures r.Err? ==> Failed(g, first, o.cost, now, points)
  {
    hide NavGrid.Valid, NavGrid.View, NavGrid.AsSea, NavGrid.Facts, PricedAt, Pricings, GridCost.Normal, Failed;
    hide NoWayOn, Found, FoundOn, Moved, Outside, SomeLegHasNoWay, Reports, Reported, Stitched, Tail, Sea.Valid;
    ghost var before, shifts := g.AsSea(), res.Snapped();
    var leg;
    leg, now := NextLeg(g, points[i], points[i + 1], o, res, i == 0, i + 2 == |points|, first, was);
    hide Stitching;
    PricingsAreValid(first, g.AsSea(), g.Facts(), o.cost, now);
    if leg.Err? {
      LegFails(g, first, o.cost, was, now, points, i);
      return Err(leg.message), now, legs, k;
    }
    if now != was { LegHasNoWay(first, points, i); }
    LegIsAdded(g, res.Snapped(), first, before, o.cost, was, now, points, legs, full, k, leg.value, shifts);
    legs', k' := legs + [leg.value], if now == o.cost then |legs| + 1 else k;
    r := Ok(if i == 0 then leg.value else full + Tail(leg.value));
  }

  /** The loop over the legs of `planRouteOnGrid`. */
  method StitchLegs(g: NavGrid, points: seq<RoutePoint>, o: Options)
      returns (r: Result<seq<int>>, res: RouteResult, ghost now: GridCost, ghost first: Sea,
               ghost legs: seq<seq<int>>, ghost k: int)
    requires g.Valid() && o.cost.Normal() && |points| > 1
    modifies g`cost, g`clearCells
    ensures g.Valid() && g.Facts() == old(g.Facts()) && fresh(res)
    ensures r.Ok? ==> Stitching(g, res.Snapped(), first, o.cost, now, points, legs, r.value, k) && |legs| == |points| - 1
    ensures r.Err? ==> Failed(g, first, o.cost, now, points)
  {
    first := PriceFirst(g, o.cost);
    res := new RouteResult();
    now, legs, k := o.cost, [], 0;
    NothingFound(first, points);
    hide NavGrid.Valid, NavGrid.Facts, PricedAt, Pricings, GridCost.Normal, Found, SomeLegHasNoWay;
    var full: seq<int> := [];
    var i := 0;
    assert Stitching(g, res.Snapped(), first, o.cost, now, points, legs, full, k);
    hide Stitching, Failed;
    while i + 1 < |points|
      invariant 0 <= i < |points| && |legs| == i && g.Valid() && g.Facts() == old(g.Facts())
      invariant Stitching(g, res.Snapped(), first, o.cost, now, points, legs, full, k)
    {
      var next;
      next, now, legs, k := AddLeg(g, points, o, res, full, i, first, now, legs, k);
      if next.Err? { return Err(next.message), res, now, first, legs, k; }
      full := next.value;
      i := i + 1;
    }
    r := Ok(full);
  }

  lemma PricingsAreValid(first: Sea, last: Sea, facts: seq<Cell>, cost: GridCost, now: GridCost)
    requires Pricings(first, last, facts, cost, now)
    ensures first.Valid() && last.Valid()
  {}

  lemma LegHasNoWay(s: Sea, points: seq<RoutePoint>, i: int)
    requires s.Valid() && 0 <= i < |points| - 1 && NoWayOn(s, points[i], points[i + 1])
    ensures SomeLegHasNoWay(s, points)
  {
    hide NoWayOn;
  }

  ghost predicate SomeLegOutside(f: Frame, points: seq<RoutePoint>)
    requires f.Valid()
  {
    exists i :: 0 <= i < |points| - 1 && Outside(f, points[i], points[i + 1])
  }

  lemma NothingFound(first: Sea, points: seq<RoutePoint>)
    requires first.Valid() && points != []
    ensures Found(first, first, points, [], [], 0, false)
  {}
}
