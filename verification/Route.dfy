/** From points to waypoints (render/autoroute.go, `route`, `pathToWaypoints`): the search for one leg
    with its retry, and what is made of a path. */
module Routes {
  import opened Common
  import opened CellFacts
  import opened Charts
  import opened CellWalk
  import opened CostGrid
  import opened NavGrids
  import opened Search
  import opened Shorten
  import opened Simplify
  import opened Snaps

  datatype Options = Options(cost: GridCost, maxWaypoints: int)

  // ---- route --------------------------------------------------------------------------------

  /** The part of the route result the search reports into. */
  class RouteResult {
    var snappedStart: bool
    var snappedEnd: bool
    var warnings: seq<string>

    function Snapped(): Shifts
      reads this
    {
      Shifts(snappedStart, snappedEnd)
    }

    constructor ()
      ensures !snappedStart && !snappedEnd && warnings == []
    {
      snappedStart, snappedEnd, warnings := false, false, [];
    }
  }

  /** The grid is priced at `cost`. */
  ghost predicate PricedAt(g: NavGrid, cost: GridCost)
    requires g.Valid()
    reads g, g.depth, g.scaleOf, g.flags, g.landScale, g.cost, g.clearCells
  {
    g.Priced() && Finalized(g.nx, g.ny, g.mx, g.Facts(), cost, g.clearCells[..], g.cost[..])
  }

  /** The sea that these facts make when priced at `cost`. */
  ghost predicate PricedAs(s: Sea, facts: seq<Cell>, cost: GridCost) {
    exists clear :: Finalized(s.chart.nx, s.chart.ny, s.chart.mx, facts, cost, clear, s.chart.cost)
  }

  lemma SeaIsPriced(g: NavGrid, cost: GridCost)
    requires g.Valid() && PricedAt(g, cost) && cost.Normal()
    ensures PricedAs(g.AsSea(), g.Facts(), cost) && g.AsSea().Valid() && g.AsSea().chart.CostsAtLeastOne()
  {
    hide Finalized;
    g.PricedView(cost);
  }

  function SnapRadius(mx: real): real { RealMax(400.0, 8.0 * mx) }

  /** It reaches 400 metres and eight cells, and no farther than the greater of the two. */
  lemma SnapReaches(mx: real)
    ensures SnapRadius(mx) >= 400.0 && SnapRadius(mx) >= 8.0 * mx && (SnapRadius(mx) == 400.0 || SnapRadius(mx) == 8.0 * mx)
  {}

  /** `path` is the cheapest route between its ends. */
  ghost predicate IsBestRoute(c: Chart, path: seq<int>)
    requires c.nx > 0
  {
    && path != [] && IsRoute(c, path)
    && forall p :: IsRouteBetween(c, p, path[0], path[|path| - 1]) ==> RouteCost(c, path) <= RouteCost(c, p)
  }

  /** Nothing to be had on this grid: an end lies outside it, or has no water near, or the nearest
      waters are not joined. */
  ghost predicate NoWay(c: Chart, s: Option<int>, e: Option<int>, radius: real)
    requires c.Valid()
  {
    || s.None? || e.None?
    || NoWaterWithin(c, s.value, Rings(c, radius)) || NoWaterWithin(c, e.value, Rings(c, radius))
    || exists a, b :: NearestByRing(c, s.value, a) && NearestByRing(c, e.value, b) && NotJoined(c, a, b)
  }

  ghost predicate NotJoined(c: Chart, a: int, b: int)
    requires c.nx > 0
  {
    forall p :: !IsRouteBetween(c, p, a, b)
  }

  /** One attempt of `route` on the grid as it is priced. */
  method Attempt(c: Chart, s: int, e: int, radius: real)
      returns (ok1: bool, ok2: bool, sSnap: int, eSnap: int, path: Option<seq<int>>)
    requires c.Valid() && c.CostsAtLeastOne() && c.InGrid(s) && c.InGrid(e)
    ensures path.Some? ==> ok1 && ok2 && IsBestRoute(c, path.value)
    ensures path.Some? ==> path.value[0] == sSnap && path.value[|path.value| - 1] == eSnap
    ensures path.Some? ==> NearestByRing(c, s, sSnap) && NearestByRing(c, e, eSnap)
    ensures path.None? ==> NoWay(c, Some(s), Some(e), radius)
  {
    hide NearestByRing, NoWaterWithin, Rings, RouteCost, CanMove;
    var a := NearestPassable(c, s, radius);
    var b := NearestPassable(c, e, radius);
    ok1, ok2 := a.Some?, b.Some?;
    sSnap, eSnap, path := if ok1 then a.value else 0, if ok2 then b.value else 0, None;
    if ok1 && ok2 {
      ghost var popped, keys;
      path, popped, keys := FindPath(c, sSnap, eSnap);
      if path.None? { assert NotJoined(c, sSnap, eSnap); }
    }
  }

  /** The cell to which a position shifts. */
  ghost predicate SnapsOn(s: Sea, p: RoutePoint, cell: int)
    requires s.Valid()
  {
    var home := CellUnder(s.frame, p);
    home.Some? && NearestByRing(s.chart, home.value, cell)
  }

  /** A found route: the cheapest between the cells to which its ends snap. */
  ghost predicate FoundOn(s: Sea, path: seq<int>, start: RoutePoint, end: RoutePoint)
    requires s.Valid()
  {
    && path != [] && IsBestRoute(s.chart, path)
    && SnapsOn(s, start, path[0]) && SnapsOn(s, end, path[|path| - 1])
  }

  ghost predicate NoWayOn(s: Sea, start: RoutePoint, end: RoutePoint)
    requires s.Valid()
  {
    NoWay(s.chart, CellUnder(s.frame, start), CellUnder(s.frame, end), SnapRadius(s.chart.mx))
  }

  /** Whether a route that begins or ends in this cell has been moved there. */
  predicate Moved(f: Frame, p: RoutePoint, cell: int)
    requires f.Valid()
  {
    CellUnder(f, p) != Some(cell)
  }

  /** Which of the route's own ends have been reported as moved. */
  datatype Shifts = Shifts(start: bool, end: bool)

  /** From `before` to `after`, the ends of this leg that are the route's own are reported exactly when
      they were moved. */
  predicate Reported(f: Frame, path: seq<int>, start: RoutePoint, end: RoutePoint, before: Shifts, after: Shifts,
                     isFirst: bool, isLast: bool)
    requires f.Valid() && path != []
  {
    && after.start == (before.start || (isFirst && Moved(f, start, path[0])))
    && after.end == (before.end || (isLast && Moved(f, end, path[|path| - 1])))
  }

  predicate Outside(f: Frame, start: RoutePoint, end: RoutePoint)
    requires f.Valid()
  {
    CellUnder(f, start).None? || CellUnder(f, end).None?
  }

  method ReportSnaps(res: RouteResult, start: bool, end: bool)
    modifies res
    ensures res.snappedStart == (old(res.snappedStart) || start) && res.snappedEnd == (old(res.snappedEnd) || end)
  {
    if start {
      res.snappedStart := true;
      res.warnings := res.warnings + ["start moved to the nearest navigable water"];
    }
    if end {
      res.snappedEnd := true;
      res.warnings := res.warnings + ["destination moved to the nearest navigable water"];
    }
  }

  /** One turn of the retry loop of `route`: a verdict, or none when there is cause to retry. */
  method TryRoute(s: Sea, start: RoutePoint, end: RoutePoint, o: Options, res: RouteResult,
                  isFirst: bool, isLast: bool, attempt: int) returns (verdict: Option<Result<seq<int>>>)
    requires s.Valid() && s.chart.CostsAtLeastOne()
    modifies res
    ensures verdict.Some? && verdict.value.Ok? ==>
      && FoundOn(s, verdict.value.value, start, end)
      && Reported(s.frame, verdict.value.value, start, end, old(res.Snapped()), res.Snapped(), isFirst, isLast)
    ensures verdict.None? || verdict.value.Err? ==> NoWayOn(s, start, end) && unchanged(res)
    ensures verdict.Some? && verdict.value.Err? ==> attempt == 1 || o.cost.hardClearance <= 0.0 || Outside(s.frame, start, end)
  {
    hide IsBestRoute, NoWay, Frame.CellAt, SnapRadius, Rings, NearestByRing, Chart.CostsAtLeastOne, Chart.Valid, FoundOn, NoWayOn, Moved;
    var radius := SnapRadius(s.chart.mx);
    var a, b := CellUnder(s.frame, start), CellUnder(s.frame, end);
    if a.None? || b.None? {
      EndOutside(s, start, end);
      return Some(Err("start or end fell outside the search area"));
    }
    s.frame.CellAtInGrid(start.lng, start.lat);
    s.frame.CellAtInGrid(end.lng, end.lat);
    InGridOf(s, a.value);
    InGridOf(s, b.value);
    var ok1, ok2, sSnap, eSnap, path := Attempt(s.chart, a.value, b.value, radius);
    if path.None? { NoWayIs(s, start, end, a.value, b.value); }
    if ok1 && ok2 {
      if path.Some? {
        FoundIs(s, path.value, start, end, a.value, b.value);
        ReportSnaps(res, isFirst && sSnap != a.value, isLast && eSnap != b.value);
        return Some(Ok(path.value));
      }
    } else if attempt == 1 || o.cost.hardClearance <= 0.0 {
      return Some(Err(if ok1 then "the destination is not on navigable water" else "the start is not on navigable water"));
    }
    verdict := None;
  }

  lemma EndOutside(s: Sea, start: RoutePoint, end: RoutePoint)
    requires s.Valid() && Outside(s.frame, start, end)
    ensures NoWayOn(s, start, end)
  {}

  lemma InGridOf(s: Sea, cell: int)
    requires s.Valid() && 0 <= cell < s.frame.nx * s.frame.ny
    ensures s.chart.InGrid(cell)
  {}

  lemma NoWayIs(s: Sea, start: RoutePoint, end: RoutePoint, a: int, b: int)
    requires s.Valid() && CellUnder(s.frame, start) == Some(a) && CellUnder(s.frame, end) == Some(b)
    requires NoWay(s.chart, Some(a), Some(b), SnapRadius(s.chart.mx))
    ensures NoWayOn(s, start, end)
  {}

  lemma FoundIs(s: Sea, path: seq<int>, start: RoutePoint, end: RoutePoint, a: int, b: int)
    requires s.Valid() && CellUnder(s.frame, start) == Some(a) && CellUnder(s.frame, end) == Some(b)
    requires IsBestRoute(s.chart, path)
    requires NearestByRing(s.chart, a, path[0]) && NearestByRing(s.chart, b, path[|path| - 1])
    ensures FoundOn(s, path, start, end)
    ensures Moved(s.frame, start, path[0]) <==> path[0] != a
    ensures Moved(s.frame, end, path[|path| - 1]) <==> path[|path| - 1] != b
  {}

  lemma RelaxedIsNormal(c: GridCost)
    requires c.Normal()
    ensures c.Relaxed().Normal()
  {}

  /** `route`: shifts the ends onto navigable water and searches; when that fails with a clearance
      in force, prices the grid again without it and tries once more. An earlier leg may have priced
      the grid so already. */
  method FindRoute(g: NavGrid, start: RoutePoint, end: RoutePoint, o: Options, res: RouteResult,
                   isFirst: bool, isLast: bool, ghost was: GridCost) returns (r: Result<seq<int>>, ghost now: GridCost)
    requires g.Valid() && PricedAt(g, was) && o.cost.Normal() && (was == o.cost || was == o.cost.Relaxed())
    modifies g`cost, g`clearCells, res
    ensures g.Valid() && (now == was || now == o.cost.Relaxed()) && PricedAt(g, now) && now.Normal() && g.AsSea().Valid()
    ensures g.Facts() == old(g.Facts()) && old(g.AsSea()).Valid()
    ensures now != was ==> o.cost.hardClearance > 0.0 && NoWayOn(old(g.AsSea()), start, end)
    ensures r.Ok? ==> FoundOn(g.AsSea(), r.value, start, end)
    ensures r.Ok? ==>
      Reported(g.AsFrame(), r.value, start, end, old(res.Snapped()), res.Snapped(), isFirst, isLast)
    ensures r.Err? ==> NoWayOn(g.AsSea(), start, end)
    ensures r.Err? && o.cost.hardClearance > 0.0 && !Outside(g.AsFrame(), start, end) ==> now == o.cost.Relaxed()
  {
    hide FoundOn, NoWayOn, Finalized, GridCost.Normal, NavGrid.Facts, Sea.Valid, Moved, Chart.CostsAtLeastOne, Outside;
    RelaxedIsNormal(o.cost);
    now := was;
    SeaIsPriced(g, now);
    var attempt := 0;
    while attempt < 2
      invariant 0 <= attempt <= 1 && g.Valid() && PricedAt(g, now) && g.Facts() == old(g.Facts())
      invariant now == if attempt == 0 then was else o.cost.Relaxed()
      invariant attempt == 0 ==> g.AsSea() == old(g.AsSea())
      invariant attempt == 1 ==> o.cost.hardClearance > 0.0 && NoWayOn(old(g.AsSea()), start, end)
      invariant g.AsSea().Valid() && g.AsSea().chart.CostsAtLeastOne()
      invariant res.Snapped() == old(res.Snapped())
      decreases 2 - attempt
    {
      var verdict := TryRoute(g.AsSea(), start, end, o, res, isFirst, isLast, attempt);
      if verdict.Some? { return verdict.value, now; }
      if attempt == 0 && o.cost.hardClearance > 0.0 {
        g.Finalize(o.cost.Relaxed());
        now := o.cost.Relaxed();
        SeaIsPriced(g, now);
        res.warnings := res.warnings + ["no route with the clearance off land and shoals"];
        attempt := attempt + 1;
        continue;
      }
      break;
    }
    return Err("no safe route between these points"), now;
  }

  lemma RouteIsSafe(c: Chart, path: seq<int>)
    requires c.Valid() && IsRoute(c, path)
    ensures SafePath(c, path)
  {
    hide Legal, Neighbour, LegClear;
    forall i | 0 <= i < |path| - 1 ensures LegClear(c, path[i], path[i + 1], None) {
      assert CanMove(c, path[i], path[i + 1]);
      CanMoveIsClear(c, path[i], path[i + 1]);
    }
    forall i | 0 <= i < |path| ensures c.Passable(path[i]) {
      if i > 0 {
        RouteInGrid(c, path, i - 1);
        RouteInGrid(c, path, i);
        ClearLegEnds(c, path[i - 1], path[i], None);
      }
    }
  }

  lemma CanMoveIsClear(c: Chart, a: int, b: int)
    requires c.Valid() && CanMove(c, a, b)
    ensures LegClear(c, a, b, None)
  {
    hide HasNeighbour, LegClear, Index, Col, Row;
  }

  lemma FoundIsSafe(s: Sea, path: seq<int>, start: RoutePoint, end: RoutePoint)
    requires s.Valid() && FoundOn(s, path, start, end)
    ensures path != [] && SafePath(s.chart, path) && SnapsOn(s, start, path[0]) && SnapsOn(s, end, path[|path| - 1])
  {
    hide SafePath, IsRoute, RouteCost, SnapsOn;
    RouteIsSafe(s.chart, path);
  }

  /** The cheapest path between two cells is one cell long exactly when they are the same. */
  lemma LoopIsOneCell(s: Sea, path: seq<int>, start: RoutePoint, end: RoutePoint)
    requires s.Valid() && s.chart.CostsAtLeastOne() && FoundOn(s, path, start, end)
    ensures path != [] && (|path| > 1 <==> path[0] != path[|path| - 1])
  {
    hide SnapsOn, IsRoute, RouteCost, Chart.Valid, Chart.CostsAtLeastOne;
    if path[0] == path[|path| - 1] { CheapestLoopStandsStill(s.chart, path); }
  }

  /** A position on a passable cell shifts to that cell. */
  lemma SnapsHome(s: Sea, p: RoutePoint, home: int)
    requires s.Valid() && CellUnder(s.frame, p) == Some(home) && s.chart.Passable(home)
    ensures SnapsOn(s, p, home)
  {
    hide CellUnder;
    HomeIsNearest(s.chart, home);
  }

  lemma SameSnap(s: Sea, p: RoutePoint, a: int, b: int)
    requires s.Valid() && SnapsOn(s, p, a) && SnapsOn(s, p, b)
    ensures a == b
  {
    hide CellUnder, NearestByRing, Chart.Valid;
    SnapIsUnique(s.chart, CellUnder(s.frame, p).value, a, b);
  }

  // ---- pathToWaypoints ----------------------------------------------------------------------

  function CentrePoint(f: Frame, cell: int): RoutePoint
    requires f.Valid()
  {
    RoutePoint(f.CentreOf(cell).1, f.CentreOf(cell).0)
  }

  /** The waypoints stand for the cells: each lies in its own. */
  predicate Marks(f: Frame, cells: seq<int>, pts: seq<RoutePoint>)
    requires f.Valid()
  {
    |pts| == |cells| && forall i :: 0 <= i < |pts| ==> CellUnder(f, pts[i]) == Some(cells[i])
  }

  lemma MarksAreClear(s: Sea, cells: seq<int>, pts: seq<RoutePoint>)
    requires s.Valid() && SafePath(s.chart, cells) && Marks(s.frame, cells, pts)
    ensures AllLegsClear(s, pts)
  {
    hide LegClear, CellUnder;
  }

  /** The waypoints of cells: their centres, but the exact requested ends where those were not
      reported as moved. */
  predicate WaypointsOf(f: Frame, cells: seq<int>, start: RoutePoint, end: RoutePoint, shifts: Shifts,
                        out: seq<RoutePoint>)
    requires f.Valid()
  {
    && |out| == |cells|
    && forall i :: 0 <= i < |out| ==>
         out[i] == if i == 0 && !shifts.start then start
                   else if i == |out| - 1 && i > 0 && !shifts.end then end
                   else CentrePoint(f, cells[i])
  }

  /** An end that is not reported as moved lies in the cell at that end of the path. */
  predicate Placed(f: Frame, path: seq<int>, start: RoutePoint, end: RoutePoint, shifts: Shifts)
    requires f.Valid()
  {
    && path != []
    && (!shifts.start ==> CellUnder(f, start) == Some(path[0]))
    && (!shifts.end ==> CellUnder(f, end) == Some(path[|path| - 1]))
  }

  lemma WaypointsAreMarks(f: Frame, cells: seq<int>, start: RoutePoint, end: RoutePoint, shifts: Shifts,
                          out: seq<RoutePoint>)
    requires f.Valid() && WaypointsOf(f, cells, start, end, shifts, out)
    requires Placed(f, cells, start, end, shifts)
    requires forall i :: 0 <= i < |cells| ==> 0 <= cells[i] < f.nx * f.ny
    ensures Marks(f, cells, out)
  {
    hide Frame.CellAt, Frame.CentreOf;
    forall i | 0 <= i < |out| ensures CellUnder(f, out[i]) == Some(cells[i]) {
      f.CentreMapsBack(cells[i]);
    }
  }

  /** The centres of the cells, with the exact requested ends put back unless they were moved. */
  method CentresWithEnds(f: Frame, cells: seq<int>, start: RoutePoint, end: RoutePoint, res: RouteResult) returns (out: seq<RoutePoint>)
    requires f.Valid()
    ensures WaypointsOf(f, cells, start, end, res.Snapped(), out)
  {
    hide Frame.CentreOf;
    out := [];
    for k := 0 to |cells|
      invariant |out| == k && forall i :: 0 <= i < k ==> out[i] == CentrePoint(f, cells[i])
    {
      out := out + [CentrePoint(f, cells[k])];
    }
    if |out| > 0 && !res.snappedStart { out := out[0 := start]; }
    if |out| > 1 && !res.snappedEnd { out := out[|out| - 1 := end]; }
  }

  /** The three shortening passes in order. */
  method ShortenPath(c: Chart, e: Earth, path: seq<int>, max: int) returns (cells: seq<int>, thinned: bool)
    requires c.Valid() && Clear(c, path, None) && path != []
    ensures NoWorse(c, path, cells) && cells != [] && (|path| > 1 <==> |cells| > 1)
    ensures cells[0] == path[0] && cells[|cells| - 1] == path[|path| - 1]
    ensures IsShortened(c, e.bend, path, max, cells)
  {
    hide LegClear, Clear, NoWorse, Keeps, ReachesTo, Straightens, UnwoundBy, ThinnedBy, Thins, Chart.Valid;
    var pulled, kept1 := PullTaut(c, path);
    KeepsEnds(path, kept1, pulled);
    assert |path| >= 3 ==> PulledAt(c, path, kept1, pulled);
    NoWorseIsClear(c, path, pulled);
    var unwound, kept2, trace2, order2 := DropReversals(c, e.bend, pulled);
    KeepsEnds(pulled, kept2, unwound);
    NoWorseIsClear(c, pulled, unwound);
    NoWorseThrough(c, path, pulled, unwound);
    var thin, removed, kept3, trace3, order3 := ThinToLimit(c, unwound, max);
    KeepsEnds(unwound, kept3, thin);
    NoWorseThrough(c, path, unwound, thin);
    cells, thinned := thin, removed;
    assert IsPulled(c, path, pulled) && IsUnwound(c, e.bend, pulled, unwound) && IsThinned(c, unwound, max, cells);
  }

  /** `pathToWaypoints`: the shortening passes, then cell centres with the exact requested ends put
      back unless they had to be snapped. */
  method PathToWaypoints(s: Sea, e: Earth, path: seq<int>, start: RoutePoint, end: RoutePoint, o: Options, res: RouteResult)
      returns (out: seq<RoutePoint>, ghost cells: seq<int>)
    requires s.Valid() && path != [] && Clear(s.chart, path, None)
    modifies res`warnings
    ensures IsShortened(s.chart, e.bend, path, o.maxWaypoints, cells) && NoWorse(s.chart, path, cells)
    ensures cells != [] && cells[0] == path[0] && cells[|cells| - 1] == path[|path| - 1] && (|path| > 1 <==> |cells| > 1)
    ensures WaypointsOf(s.frame, cells, start, end, res.Snapped(), out)
  {
    hide Clear, NoWorse, Frame.CentreOf, Chart.Valid, IsShortened, WaypointsOf;
    var shortened, thinned := ShortenPath(s.chart, e, path, o.maxWaypoints);
    cells := shortened;
    if thinned { res.warnings := res.warnings + ["route thinned to fit the waypoint limit"]; }
    out := CentresWithEnds(s.frame, shortened, start, end, res);
  }

  /** Where a route that begins or ends in this cell is held: at the requested position, or at the
      centre of the cell when it is reported as moved there. */
  function Held(f: Frame, p: RoutePoint, cell: int, snapped: bool): RoutePoint
    requires f.Valid()
  {
    if snapped then CentrePoint(f, cell) else p
  }

  /** The first waypoint is the start and the last the destination, as each is held; there is one
      waypoint alone when the path is one cell. */
  predicate HasEnds(f: Frame, start: RoutePoint, end: RoutePoint, shifts: Shifts,
                    path: seq<int>, pts: seq<RoutePoint>)
    requires f.Valid() && path != []
  {
    && pts != [] && (|pts| > 1 <==> |path| > 1)
    && pts[0] == Held(f, start, path[0], shifts.start)
    && (|pts| > 1 ==> pts[|pts| - 1] == Held(f, end, path[|path| - 1], shifts.end))
  }

  /** How the waypoints came about: the path, the cells left of it, their waypoints, and which of those
      were kept. */
  datatype Trail = Trail(path: seq<int>, cells: seq<int>, rough: seq<RoutePoint>, kept: seq<int>)

  /** The path is shortened by each pass in turn, its ends are put back, and it is simplified. */
  ghost predicate IsSmoothed(s: Sea, e: Earth, o: Options, start: RoutePoint, end: RoutePoint,
                             shifts: Shifts, trail: Trail, pts: seq<RoutePoint>)
    requires s.Valid()
  {
    && trail.path != []
    && IsShortened(s.chart, e.bend, trail.path, o.maxWaypoints, trail.cells)
    && WaypointsOf(s.frame, trail.cells, start, end, shifts, trail.rough)
    && SimplifiedTo(s, e, trail.rough, trail.kept, s.chart.mx) && pts == Pick(trail.rough, trail.kept)
    && HasEnds(s.frame, start, end, shifts, trail.path, pts)
    && (SafePath(s.chart, trail.path) && Placed(s.frame, trail.path, start, end, shifts) ==> AllLegsClear(s, pts))
  }

  lemma RoughIsClear(s: Sea, path: seq<int>, cells: seq<int>, start: RoutePoint, end: RoutePoint,
                     shifts: Shifts, rough: seq<RoutePoint>)
    requires s.Valid() && SafePath(s.chart, path) && NoWorse(s.chart, path, cells)
    requires Placed(s.frame, path, start, end, shifts)
    requires cells != [] && cells[0] == path[0] && cells[|cells| - 1] == path[|path| - 1]
    requires WaypointsOf(s.frame, cells, start, end, shifts, rough)
    ensures AllLegsClear(s, rough)
  {
    hide LegClear, CellUnder, WaypointsOf, NoWorse;
    SafeStaysSafe(s.chart, path, cells);
    assert forall i :: 0 <= i < |cells| ==> s.chart.Passable(cells[i]);
    WaypointsAreMarks(s.frame, cells, start, end, shifts, rough);
    MarksAreClear(s, cells, rough);
  }

  /** The last two steps of the plan: the waypoints of a path, less those within tolerance. */
  method SmoothPath(s: Sea, e: Earth, path: seq<int>, start: RoutePoint, end: RoutePoint, o: Options, res: RouteResult)
      returns (pts: seq<RoutePoint>, ghost trail: Trail)
    requires s.Valid() && path != [] && Clear(s.chart, path, None)
    modifies res`warnings
    ensures IsSmoothed(s, e, o, start, end, res.Snapped(), trail, pts) && trail.path == path
  {
    hide AllLegsClear, SafePath, Clear, NoWorse, SimplifiedTo, IsShortened, Frame.CentreOf, Frame.CellAt, Chart.Valid, Placed, Pick;
    ghost var cells, kept;
    var rough: seq<RoutePoint>;
    rough, cells := PathToWaypoints(s, e, path, start, end, o, res);
    if SafePath(s.chart, path) && Placed(s.frame, path, start, end, res.Snapped()) {
      RoughIsClear(s, path, cells, start, end, res.Snapped(), rough);
    }
    pts, kept := DropWithinTolerance(s, e, rough, s.chart.mx);
    trail := Trail(path, cells, rough, kept);
  }
}
