/** The whole plan (render/autoroute.go, `planRouteOnGrid`): the legs stitched, shortened, put back on
    their ends and simplified. */
module Plans {
  import opened Common
  import opened CellFacts
  import opened Charts
  import opened CellWalk
  import opened CostGrid
  import opened NavGrids
  import opened Search
  import opened Shorten
  import opened Simplify
  import opened Snaps
  import opened Routes
  import opened Legs

  // ---- Where the legs join ------------------------------------------------------------------

  /** Every leg is safe on the grid as it is finally priced. */
  lemma LegsAreSafe(first: Sea, last: Sea, legs: seq<seq<int>>, points: seq<RoutePoint>, k: int)
    requires first.Valid() && last.Valid() && LegsFound(first, last, legs, points, k)
    requires first == last || OnlyOpens(first, last)
    ensures AllSafe(last.chart, legs)
  {
    assert last.chart.nx > 0;
    hide FoundOn, OnlyOpens, SafePath, Sea.Valid;
    forall i | 0 <= i < |legs| ensures legs[i] != [] && SafePath(last.chart, legs[i]) {
      FoundIsSafe(if i < k then first else last, legs[i], points[i], points[i + 1]);
      if i < k && first != last { SafeOnceOpened(first, last, legs[i]); }
    }
  }

  /** Two legs found on one pricing meet in one cell. */
  lemma JoinsElsewhere(first: Sea, last: Sea, legs: seq<seq<int>>, points: seq<RoutePoint>, k: int, i: int)
    requires first.Valid() && last.Valid() && LegsFound(first, last, legs, points, k)
    requires 0 < i < |legs| && (i != k || first == last)
    ensures JoinedAt(legs, i)
  {
    var s := if i < k then first else last;
    assert FoundOn(if i < k then first else last, legs[i], points[i], points[i + 1]);
    var j := i - 1;
    assert FoundOn(if j < k then first else last, legs[j], points[j], points[j + 1]);
    hide SnapsOn, IsBestRoute, Sea.Valid;
    SameSnap(s, points[i], legs[i - 1][|legs[i - 1]| - 1], legs[i][0]);
  }

  /** Two legs of which the second was found on the relaxed pricing and the first was not meet in one
      cell exactly when the point between them keeps its cell. */
  lemma JoinAtRepricing(first: Sea, last: Sea, facts: seq<Cell>, cost: GridCost, legs: seq<seq<int>>, points: seq<RoutePoint>, k: int)
    requires Pricings(first, last, facts, cost, cost.Relaxed()) && LegsFound(first, last, legs, points, k) && 0 < k < |legs|
    ensures JoinedAt(legs, k) <==> KeepsCell(first, facts, cost, points[k])
  {
    assert FoundOn(if k < k then first else last, legs[k], points[k], points[k + 1]);
    var j := k - 1;
    assert FoundOn(if j < k then first else last, legs[j], points[j], points[j + 1]);
    hide SnapsOn, IsBestRoute, Sea.Valid, PricedAs, KeepsCell;
    SameSnapIf(first, last, facts, cost, points[k], legs[j][|legs[j]| - 1], legs[k][0]);
  }

  /** What a caller can tell of the point at which the grid is priced anew. */
  ghost predicate Settled(first: Sea, facts: seq<Cell>, cost: GridCost, points: seq<RoutePoint>, k: int, repriced: bool)
    requires first.Valid()
  {
    repriced && 0 < k < |points| ==> KeepsCell(first, facts, cost, points[k])
  }

  /** The legs all meet exactly when that point keeps its cell. */
  lemma LegsMeet(first: Sea, last: Sea, facts: seq<Cell>, cost: GridCost, now: GridCost, points: seq<RoutePoint>,
                 legs: seq<seq<int>>, full: seq<int>, k: int)
    requires Pricings(first, last, facts, cost, now) && Found(first, last, points, legs, full, k, now != cost)
    ensures Joined(legs) <==> Settled(first, facts, cost, points, k, now != cost)
  {
    hide Pricings, KeepsCell, JoinedAt, Stitched;
    PricingsAreValid(first, last, facts, cost, now);
    forall i | 0 < i < |legs| && (i != k || now == cost) ensures JoinedAt(legs, i) {
      JoinsElsewhere(first, last, legs, points, k, i);
    }
    if now != cost && 0 < k {
      RepricedIsRelaxed(first, last, facts, cost, now);
      JoinAtRepricing(first, last, facts, cost, legs, points, k);
    }
  }

  lemma RepricedIsRelaxed(first: Sea, last: Sea, facts: seq<Cell>, cost: GridCost, now: GridCost)
    requires Pricings(first, last, facts, cost, now)
    ensures now == cost || now == cost.Relaxed()
  {}

  lemma OpensOrSame(first: Sea, last: Sea, facts: seq<Cell>, cost: GridCost, now: GridCost)
    requires Pricings(first, last, facts, cost, now)
    ensures first == last || OnlyOpens(first, last)
  {
    hide PricedAs, OnlyOpens, Sea.Valid;
    if now == cost { SamePricing(first, last, facts, cost); } else { RelaxedOpens(first, last, facts, cost); }
  }

  /** The stitched path keeps to passable cells in any case, and is safe when the legs meet. */
  lemma PathOfLegs(first: Sea, last: Sea, facts: seq<Cell>, cost: GridCost, now: GridCost, points: seq<RoutePoint>,
                   legs: seq<seq<int>>, full: seq<int>, k: int)
    requires Pricings(first, last, facts, cost, now) && Found(first, last, points, legs, full, k, now != cost) && legs != []
    ensures last.Valid() && Clear(last.chart, full, None) && full != [] && legs[0] != [] && full[0] == legs[0][0]
    ensures Settled(first, facts, cost, points, k, now != cost) ==>
      SafePath(last.chart, full) && legs[|legs| - 1] != [] && full[|full| - 1] == legs[|legs| - 1][|legs[|legs| - 1]| - 1]
  {
    PricingsAreValid(first, last, facts, cost, now);
    OpensOrSame(first, last, facts, cost, now);
    LegsAreSafe(first, last, legs, points, k);
    LegsMeet(first, last, facts, cost, now, points, legs, full, k);
    hide Pricings, LegsFound, Settled, Joined, SafePath, Clear, OnlyOpens, Sea.Valid;
    StitchedIsClear(last.chart, legs);
    if Joined(legs) { StitchedIsSafe(last.chart, legs); }
  }

  // ---- The plan -----------------------------------------------------------------------------

  /** What a plan promises: its path is the legs stitched, it is smoothed, and when the legs meet every
      leg of it samples only passable cells. */
  ghost predicate IsPlan(s: Sea, e: Earth, o: Options, points: seq<RoutePoint>, shifts: Shifts,
                         legs: seq<seq<int>>, trail: Trail, pts: seq<RoutePoint>)
    requires s.Valid()
  {
    && |legs| == |points| - 1 && 0 < |legs| && trail.path == Stitched(legs)
    && IsSmoothed(s, e, o, points[0], points[|points| - 1], shifts, trail, pts)
  }

  /** What the smoothing needs to know of the stitched path. */
  lemma PathIsReady(g: NavGrid, shifts: Shifts, first: Sea, cost: GridCost, now: GridCost, points: seq<RoutePoint>,
                    legs: seq<seq<int>>, full: seq<int>, k: int)
    requires Stitching(g, shifts, first, cost, now, points, legs, full, k) && |legs| == |points| - 1
    ensures first.Valid() && g.AsSea().Valid() && full != [] && full == Stitched(legs) && Clear(g.AsSea().chart, full, None)
    ensures Settled(first, g.Facts(), cost, points, k, now != cost) ==>
      SafePath(g.AsSea().chart, full) && Placed(g.AsSea().frame, full, points[0], points[|points| - 1], shifts)
  {
    hide PricedAt, GridCost.Normal, SomeLegHasNoWay, NavGrid.Facts, Settled, Clear, SafePath, Pricings, LegsFound, Stitched, Reports;
    PricingsAreValid(first, g.AsSea(), g.Facts(), cost, now);
    PathOfLegs(first, g.AsSea(), g.Facts(), cost, now, points, legs, full, k);
    if Settled(first, g.Facts(), cost, points, k, now != cost) { PlacedByReports(g.AsFrame(), points, legs, full, shifts); }
  }

  lemma PlacedByReports(f: Frame, points: seq<RoutePoint>, legs: seq<seq<int>>, full: seq<int>, shifts: Shifts)
    requires f.Valid() && |points| > 1 && |legs| == |points| - 1 && Reports(f, points, legs, shifts)
    requires full != [] && legs[0] != [] && full[0] == legs[0][0]
    requires legs[|legs| - 1] != [] && full[|full| - 1] == legs[|legs| - 1][|legs[|legs| - 1]| - 1]
    ensures Placed(f, full, points[0], points[|points| - 1], shifts)
  {}

  lemma SmoothedIsClear(s: Sea, e: Earth, o: Options, start: RoutePoint, end: RoutePoint, shifts: Shifts,
                        trail: Trail, pts: seq<RoutePoint>)
    requires s.Valid() && IsSmoothed(s, e, o, start, end, shifts, trail, pts)
    requires SafePath(s.chart, trail.path) && Placed(s.frame, trail.path, start, end, shifts)
    ensures AllLegsClear(s, pts)
  {}

  /** A plan on the grid as it is finally priced: the legs it was stitched from, and that every leg of it
      samples only passable cells when those meet. */
  ghost predicate Planned(g: NavGrid, e: Earth, o: Options, shifts: Shifts, first: Sea, now: GridCost,
                          points: seq<RoutePoint>, legs: seq<seq<int>>, k: int, trail: Trail, pts: seq<RoutePoint>)
    reads g, g.depth, g.scaleOf, g.flags, g.landScale, g.cost, g.clearCells
  {
    && Stitching(g, shifts, first, o.cost, now, points, legs, trail.path, k)
    && first.Valid() && g.AsSea().Valid() && IsPlan(g.AsSea(), e, o, points, shifts, legs, trail, pts)
    && (Settled(first, g.Facts(), o.cost, points, k, now != o.cost) ==> AllLegsClear(g.AsSea(), pts))
  }

  lemma SmoothedIsPlanned(g: NavGrid, e: Earth, o: Options, shifts: Shifts, first: Sea, now: GridCost,
                          points: seq<RoutePoint>, legs: seq<seq<int>>, k: int, trail: Trail, pts: seq<RoutePoint>)
    requires Stitching(g, shifts, first, o.cost, now, points, legs, trail.path, k) && |legs| == |points| - 1
    requires g.AsSea().Valid() && IsSmoothed(g.AsSea(), e, o, points[0], points[|points| - 1], shifts, trail, pts)
    ensures Planned(g, e, o, shifts, first, now, points, legs, k, trail, pts)
  {
    hide PricedAt, Pricings, Found, Reports, GridCost.Normal, SomeLegHasNoWay, NavGrid.Facts, Settled, Clear, SafePath, Placed;
    PathIsReady(g, shifts, first, o.cost, now, points, legs, trail.path, k);
    if Settled(first, g.Facts(), o.cost, points, k, now != o.cost) {
      SmoothedIsClear(g.AsSea(), e, o, points[0], points[|points| - 1], shifts, trail, pts);
    }
    hide IsSmoothed, AllLegsClear;
  }

  /** `planRouteOnGrid`. */
  method PlanRoute(g: NavGrid, e: Earth, points: seq<RoutePoint>, o: Options)
      returns (r: Result<seq<RoutePoint>>, res: RouteResult, ghost now: GridCost, ghost first: Sea,
               ghost legs: seq<seq<int>>, ghost k: int, ghost trail: Trail)
    requires g.Valid() && o.cost.Normal() && |points| > 1
    modifies g`cost, g`clearCells
    ensures g.Valid() && g.Facts() == old(g.Facts()) && fresh(res)
    ensures r.Ok? ==> Planned(g, e, o, res.Snapped(), first, now, points, legs, k, trail, r.value)
    ensures r.Err? ==> Failed(g, first, o.cost, now, points)
  {
    hide Failed, Stitching, NavGrid.Valid, NavGrid.Facts, NavGrid.AsSea, Settled, Clear, Sea.Valid, IsSmoothed, SafePath, Placed, Planned;
    var path;
    path, res, now, first, legs, k := StitchLegs(g, points, o);
    trail := Trail([], [], [], []);
    if path.Err? { return Err(path.message), res, now, first, legs, k, trail; }
    ghost var shifts := res.Snapped();
    PathIsReady(g, shifts, first, o.cost, now, points, legs, path.value, k);
    var pts;
    pts, trail := SmoothPath(g.AsSea(), e, path.value, points[0], points[|points| - 1], o, res);
    assert res.Snapped() == shifts;
    SmoothedIsPlanned(g, e, o, shifts, first, now, points, legs, k, trail, pts);
    r := Ok(pts);
  }

  // ---- Two points ---------------------------------------------------------------------------

  /** What a plan from a start to a destination promises: it is the cheapest path between the cells to
      which they snap, smoothed, and every leg samples only passable cells. */
  ghost predicate IsSinglePlan(s: Sea, e: Earth, o: Options, start: RoutePoint, end: RoutePoint, shifts: Shifts,
                               trail: Trail, pts: seq<RoutePoint>)
    requires s.Valid()
  {
    && FoundOn(s, trail.path, start, end) && (|trail.path| > 1 <==> trail.path[0] != trail.path[|trail.path| - 1])
    && (shifts.start <==> Moved(s.frame, start, trail.path[0]))
    && (shifts.end <==> Moved(s.frame, end, trail.path[|trail.path| - 1]))
    && IsSmoothed(s, e, o, start, end, shifts, trail, pts)
    && AllLegsClear(s, pts)
  }

  lemma OnlyLeg(first: Sea, last: Sea, points: seq<RoutePoint>, legs: seq<seq<int>>, full: seq<int>, k: int, repriced: bool)
    requires first.Valid() && last.Valid() && Found(first, last, points, legs, full, k, repriced) && |legs| == 1 && |points| == 2
    ensures full == legs[0] && FoundOn(last, full, points[0], points[1])
    ensures k <= 0 || !repriced
  {
    hide IsBestRoute, SnapsOn, Sea.Valid;
    assert legs == [legs[0]];
    var i := 0;
    assert FoundOn(if i < k then first else last, legs[i], points[i], points[i + 1]);
  }

  lemma OnlyLegIsPlan(s: Sea, e: Earth, o: Options, first: Sea, points: seq<RoutePoint>, legs: seq<seq<int>>, k: int,
                      repriced: bool, shifts: Shifts, trail: Trail, pts: seq<RoutePoint>)
    requires s.Valid() && s.chart.CostsAtLeastOne() && first.Valid() && |points| == 2
    requires IsPlan(s, e, o, points, shifts, legs, trail, pts) && AllLegsClear(s, pts)
    requires Found(first, s, points, legs, trail.path, k, repriced) && Reports(s.frame, points, legs, shifts)
    ensures IsSinglePlan(s, e, o, points[0], points[1], shifts, trail, pts)
  {
    hide IsSmoothed, Chart.CostsAtLeastOne, AllLegsClear, FoundOn, Moved, Sea.Valid, Found, Stitched;
    OnlyLeg(first, s, points, legs, trail.path, k, repriced);
    LoopIsOneCell(s, trail.path, points[0], points[1]);
  }

  /** The plan of two points. */
  lemma PlanOfTwo(g: NavGrid, e: Earth, o: Options, shifts: Shifts, first: Sea, now: GridCost,
                  points: seq<RoutePoint>, legs: seq<seq<int>>, k: int, trail: Trail, pts: seq<RoutePoint>)
    requires Planned(g, e, o, shifts, first, now, points, legs, k, trail, pts) && |points| == 2
    ensures g.AsSea().Valid() && IsSinglePlan(g.AsSea(), e, o, points[0], points[1], shifts, trail, pts)
  {
    SeaIsPriced(g, now);
    hide PricedAt, Pricings, Found, Reports, GridCost.Normal, SomeLegHasNoWay, NavGrid.Facts, IsSmoothed, Chart.CostsAtLeastOne;
    hide AllLegsClear, IsSinglePlan, KeepsCell, Sea.Valid;
    PlanHasLegs(g.AsSea(), e, o, points, shifts, legs, trail, pts);
    OnlyLeg(first, g.AsSea(), points, legs, trail.path, k, now != o.cost);
    OnlyLegIsPlan(g.AsSea(), e, o, first, points, legs, k, now != o.cost, shifts, trail, pts);
  }

  lemma PlanHasLegs(s: Sea, e: Earth, o: Options, points: seq<RoutePoint>, shifts: Shifts,
                    legs: seq<seq<int>>, trail: Trail, pts: seq<RoutePoint>)
    requires s.Valid() && IsPlan(s, e, o, points, shifts, legs, trail, pts)
    ensures |legs| == |points| - 1 && 0 < |legs|
  {}

  /** Where a route that begins or ends in this cell should be held: at the requested position, unless
      that lies in another cell. */
  function EndAt(f: Frame, p: RoutePoint, cell: int): RoutePoint
    requires f.Valid()
  {
    Held(f, p, cell, Moved(f, p, cell))
  }

  /** A plan begins at the start, and ends at the destination exactly when the two do not snap to one
      cell or would be held at one position there. Else the destination is lost, and unreported when
      it lies in that cell. */
  lemma EndsKept(s: Sea, e: Earth, o: Options, start: RoutePoint, end: RoutePoint, shifts: Shifts,
                 trail: Trail, pts: seq<RoutePoint>, a: int, b: int)
    requires s.Valid() && IsSinglePlan(s, e, o, start, end, shifts, trail, pts) && SnapsOn(s, start, a) && SnapsOn(s, end, b)
    ensures pts != [] && pts[0] == EndAt(s.frame, start, a) && (a == b ==> pts == [EndAt(s.frame, start, a)])
    ensures pts[|pts| - 1] == EndAt(s.frame, end, b) <==> a != b || EndAt(s.frame, start, a) == EndAt(s.frame, end, b)
    ensures (shifts.start <==> Moved(s.frame, start, a)) && (shifts.end <==> Moved(s.frame, end, b))
  {
    hide SnapsOn, IsShortened, WaypointsOf, SimplifiedTo, AllLegsClear, IsBestRoute, Moved, Held, Pick, SafePath, Placed, Sea.Valid;
    SameSnap(s, start, trail.path[0], a);
    SameSnap(s, end, trail.path[|trail.path| - 1], b);
  }

  /** Two different positions over one passable cell: the plan is the start alone, and neither end is
      reported as moved. */
  lemma DestinationLost(s: Sea, e: Earth, o: Options, start: RoutePoint, end: RoutePoint, shifts: Shifts,
                        trail: Trail, pts: seq<RoutePoint>, home: int)
    requires s.Valid() && IsSinglePlan(s, e, o, start, end, shifts, trail, pts) && start != end
    requires CellUnder(s.frame, start) == CellUnder(s.frame, end) == Some(home) && s.chart.Passable(home)
    ensures pts == [start] && !shifts.start && !shifts.end
  {
    hide IsSinglePlan, CellUnder, SnapsOn, Sea.Valid;
    SnapsHome(s, start, home);
    SnapsHome(s, end, home);
    EndsKept(s, e, o, start, end, shifts, trail, pts, home, home);
  }
}
