# The chartplotter's hard cores, modelled and proved

A Dafny model of the parts of the chartplotter whose correctness no finite set of cases can settle.
`dafny verify dfyconfig.toml` checks all of it.

**The auto-router's grid planner.** `CellFacts.dfy` and `NavGrid.dfy` hold the raster and its
finest-scale-wins rule, `Chamfer.dfy` the two-pass 5-7-11 clearance transform, `CostGrid.dfy` what a
finite multiplier guarantees. `Chart.dfy` is the priced grid as a value, `Metric.dfy` the plane's
metric, `CellWalk.dfy` the cells under a leg. `NodeQueue.dfy` is the indexed heap, `Search.dfy` A* over
it, `Snap.dfy` the snapping of the ends, `Shorten.dfy` the three passes over cells, `Simplify.dfy` the
fourth over positions and `Drift.dfy` how far that moves the track. `Charges.dfy`, `MovePrice.dfy` and
`Deviation.dfy` say what charges, prices and deviations come to, by their effects alone. `Route.dfy` is one leg, `Legs.dfy` the
legs of a route through several points, `Plan.dfy` the whole plan, and `MovedJoin.dfy` a route whose legs
do not meet. The main results: the transform is exact and near the straight line, the search is optimal
and complete, and every leg of the final waypoints crosses passable cells only whenever the legs meet.

**The GRIB2 decoders.** `Bits.dfy` gives all bit readers one meaning. `Preprocessor.dfy`,
`AecCode.dfy`, `AecReader.dfy` and `AecDecode.dfy` are the adaptive entropy decoder (CCSDS 121.0-B-3, in
the layout libaec writes), and `AecEncode.dfy` an encoder that may make any legal choice, with the proof
that decoding inverts it. `FieldReader.dfy`, `ComplexPacking.dfy` and `SimplePacking.dfy` are the packings
of WMO-No. 306 (data templates 7.0, 7.2 and 7.3), and `ComplexEncode.dfy` does the same for them.

**Isobar contouring.** `Isobars.dfy`: marching squares, and that the contours are watertight.

**The navigation goal.** `NavGoal.dfy` has the goal, its store and the calls that edit it,
`GoalMachine.dfy` every interleaving of clients, poller, failed writes and restarts, `Arrival.dfy` and
`Rejoin.dfy` the poller's two rolling memories, `Poller.dfy` its tick.

**Single flight.** `SingleFlight.dfy`: the `inflight` protocol as steps of concurrent callers.

## How the model relates to the code

Code that changes things step by step is a method over arrays, fields or a reassigned sequence, proved
against a function of its inputs or old state; the properties are then lemmas about that function.

- Floating-point numbers are reals, and infinities and NaN are constructors (`PosInf`, `NaN`, an absent
  depth). `math.Round` of the grid's non-negative coordinates is floor(x + 1/2).
- `math.Hypot` is any non-negative function whose square is x*x + y*y. Great-circle distance, cross-track
  offset, the projection on a leg and the angle of a turn are arbitrary functions; where a result needs
  distance to be non-negative it says so. `Drift.dfy` alone takes the code's own cross-track formula, on
  the equator, where it is flat.
- The chamfer weights 5/5, 7/5 and 11/5 are counted in fifths of a cell.
- The square root from which the second-extension decoder starts its search is a parameter: any estimate
  that is never too high.
- In the 64-bit buffer of the field readers the bits shifted out are lost, as in the code.
- Time is a number; two goals never start at the same one. The store's file is one value replaced whole,
  and whether a write succeeds is an input. Waypoint keys are any function to non-empty strings.
- In the state machines the poller's read and its update are separate steps, and every lock, wait and
  upstream call of the cache is one, so that all interleavings are covered.

Where the code and its comments disagree, the model follows the code:

- A diagonal or knight move is said not to slip between two rocks. The samples round up in both
  coordinates, so along one diagonal neither corner is looked at, and four of the eight knight moves do
  not look at one of the two cells they cross (`CellWalk.DiagonalClear` and `CellWalk.KnightClear` say
  exactly when such a move is open). "Crosses" below means the cells that are sampled.
- `nearestPassable` is said to find the closest cell; it finds the closest on the nearest ring. That is
  the closest of all, on every chart of square cells, exactly when there is water within two rings
  (`Snaps.SafeRings`, `Snaps.ClosestWithinTwoRings`, `Snaps.DiagonalBeforeCloser`).
- The exact requested ends are said to replace the ends of the path unless they had to be snapped. When
  both ends snap to one cell the path is that cell and the destination is dropped, without report when
  it lies there (`Plans.DestinationLost`); `Plans.EndsKept` says exactly when it is kept.
- `dropWithinTolerance` is said never to move the track further than the tolerance, and small bends not
  to accumulate. Each point is measured against the line to the next one, not against the leg that finally
  replaces it: the tolerance is kept over all lists of n points exactly when n is at most three
  (`Drifts.SafeLengths`).
- A simple-packed field of width 0 is given as the reference value without the decimal scale that every
  other width gets (`SimplePacking.ConstantField` says exactly when that makes no difference).
- The comment on `unpackComplex` gives a value's field as wider than the group width; it is the group
  width.
- The comments on the two saddle cases of `marchCell` name the other pair of corners; the arcs are right
  (`Isobars.SaddleByMean`).
- Two comments of the contouring give its spacing as 4 hPa; it is 2 (`Isobars.EveryLevel`).
- A key is said to have one upstream attempt at a time. It does on every run in which no follower wakes
  up to find no file, and each such wake-up can lead to two (`SingleFlight.OneAttempt`,
  `SingleFlight.MissDoubles`); the cause is always an attempt that failed or an eviction
  (`SingleFlight.NoFailureNoMiss`, `SingleFlight.FailureDoubles`, `SingleFlight.EvictionDoubles`).
- A restart is said to find the goal as it was. A goal made from a list in the old format starts anew at
  every restart until something is written (`GoalMachine.RestartLosesNothing`,
  `GoalMachine.SyncedOnceWritten`).
- `dropWithinTolerance` is described as purely geometric; it also asks that the leg past a dropped point
  is clear, which is what keeps the route safe.
- `thinToLimit` is described as bounded by `shortcutCellHeadroom`, which nothing reads; its ceiling is 0.05
  above the dearest of the three waypoints.
- The cells at which the legs of a longer route join are said to be shared; a clearance relaxed for a
  later leg can move one (`MovedJoins.LegsDoNotMeet`). They are shared exactly when the point at which the
  grid is priced anew keeps its cell (`Plans.LegsMeet`, `Legs.SameSnapIf`).

One behaviour that no comment mentions: the arrival memory is kept by waypoint, so a new goal to the same
pair of waypoints goes on with what the last one remembered (`Poller.FirstTickOfGoal`,
`Poller.OldGoalsCount`).

## Model

| member | source | states |
|---|---|---|
| NodeQueues.NodeQueue.constructor | render/autoroute_search.go:87-90 | An empty queue: every cell is absent from it. |
| NodeQueues.NodeQueue.Swap | render/autoroute_search.go:34-38 | Exchanges two entries and their recorded positions: `pos` stays the exact inverse of `items`, and the same cells are queued. |
| NodeQueues.NodeQueue.Push | render/autoroute_search.go:39-43 | Adds one absent cell; heap order and the position index hold again. |
| NodeQueues.NodeQueue.Pop | render/autoroute_search.go:44-51 | Removes exactly one cell, whose key is no greater than that of any cell that was queued. |
| NodeQueues.NodeQueue.Up | render/autoroute_search.go:26-51 | Restores heap order when one entry may be smaller than its parent. |
| NodeQueues.NodeQueue.Down | render/autoroute_search.go:26-51 | Restores heap order below one entry among the first n; says whether anything moved. |
| NodeQueues.NodeQueue.Fix | render/autoroute_search.go:125-126 | After the key of any one queued entry has changed, heap order holds again and the same cells are queued. |
| NodeQueues.NodeQueue.Put | render/autoroute_search.go:124-129 | Decrease-key or push: the cell is queued once, with its new key, and no other key changes. |
| HeapOrder.RootIsLeast | render/autoroute_search.go:26-51 | The parent-child order makes the root the least of all entries. |
| Search.Consistent | render/autoroute_search.go:80-85 | The straight-line estimate drops by no more than a move costs, on any grid whose multipliers are at least 1. |
| Search.Cut | render/autoroute_search.go:95-131 | Any route from the start either ends in a closed cell that is scored no worse, or runs through an open cell whose key bounds the route from below: the invariant that makes the search exact. |
| Search.PopIsBest | render/autoroute_search.go:95-103 | The open cell with the least key already has its final score, so a cell is never popped again after it was closed. |
| Search.ExhaustedIsComplete | render/autoroute_search.go:95-132 | When the open set runs empty, no route leads to a goal that was not closed. |
| Search.RelaxMove | render/autoroute_search.go:105-130 | One neighbour: the invariant, the consistency of arrays and queue with it, and the lower bound on open keys all survive. |
| Search.CloseAndExpand | render/autoroute_search.go:96-130 | The popped cell is never closed already (the re-pop check does not fire), and all its moves are taken into account. |
| Search.FindPath | render/autoroute_search.go:58-133 | Optimal and complete: a returned path is a legal route of least total cost over all routes of the 16 moves; nil exactly when there is no route. The cells leave the open set once each, at the least route cost to them plus the estimate, in an order in which that never decreases; a search that fails has taken every cell that can be reached, and one that succeeds takes the goal last, after every cell of a smaller key. |
| Search.CheapestLoopStandsStill | render/autoroute_search.go:58-166 | Every move costs something, so the cheapest route from a cell to itself is that cell alone. |
| Search.Reconstruct | render/autoroute_search.go:135-150 | Following the predecessors from the goal never fails and gives the very route whose cost is the goal's score. |
| Search.ReverseInPlace | render/autoroute_search.go:146-148 | The two-ended swap reverses the sequence. |
| CellWalk.Traverse | render/autoroute_search.go:172-210 | Accepts a leg exactly when every cell of its line is passable and within the limit, and then gives the sum and number of those cells; the bounds check never fails. |
| CellWalk.PriceMove | render/autoroute_search.go:156-166 | A move is allowed exactly when its line is clear, and costs its length times the mean multiplier of its line. |
| CellWalk.LineEnds | render/autoroute_search.go:182-208 | The line starts and ends in the cells it joins. |
| CellWalk.LineInGrid | render/autoroute_search.go:189-191 | Every cell of the line is in the grid, in the box of its ends. |
| CellWalk.LineTouches | render/autoroute_search.go:180-198 | Each cell of the line differs from the next and touches it. |
| CellWalk.LineCoversColumns | render/autoroute_search.go:180-190 | No column along the longer axis is jumped over. |
| CellWalk.LineCoversRows | render/autoroute_search.go:180-190 | No row along the longer axis is jumped over. |
| CellWalk.LineReversed | render/autoroute_search.go:180-208 | Walking back visits the reverse of walking there. |
| CellWalk.LineVisitsOnce | render/autoroute_search.go:180-198 | No cell is met twice, so none is counted twice in the mean. |
| CellWalk.LegSymmetric | render/autoroute_search.go:172-210 | A leg is clear in one direction exactly when it is in the other. |
| CellWalk.MoveSymmetric | render/autoroute_search.go:156-166 | A move costs the same both ways. |
| CellWalk.MoveAtLeastLength | render/autoroute_search.go:156-166 | No move is cheaper than its length when multipliers are at least 1. |
| MovePrices.MoveWithin | render/autoroute_search.go:152-166 | A move over cells that cost between two multipliers costs between those two times its length. |
| MovePrices.UniformMove | render/autoroute_search.go:152-166 | Over cells that all cost m a move costs m times its length. |
| MovePrices.RaisedMove | render/autoroute_search.go:152-166 | One cell of the line dearer by d makes the move dearer by its length times d over the number of cells of the line. |
| MovePrices.RouteWithin | render/autoroute_search.go:55-133 | A route through cells that cost between two multipliers costs between those two times its length. |
| MovePrices.UniformRoute | render/autoroute_search.go:55-133 | Where every cell costs m, a route costs m times its length. |
| MovePrices.CheaperIsShorter | render/autoroute_search.go:55-133 | So there, of two routes, the cheaper is the shorter. |
| Search.IsMove | render/autoroute_search.go:18-23 | The moves are exactly the eight neighbours and the eight knight moves. |
| Search.MovesDiffer | render/autoroute_search.go:18-23 | Each of them once. |
| Search.HeuristicIsStraight | render/autoroute_search.go:80-85 | The estimate squared is the square of the straight line to the goal in metres. |
| CellWalk.DiagonalLine | render/autoroute_search.go:183-189 | What a diagonal move looks at: its two ends alone along one diagonal, and one of the two corners along the other. |
| CellWalk.DiagonalClear | render/autoroute_search.go:151-166 | Exactly when a diagonal move is open. It is not what the comment says: a move between two blocked corners is open along one diagonal. |
| CellWalk.KnightLine | render/autoroute_search.go:183-189 | What a knight move looks at: both cells between its ends where both coordinates grow or both shrink, and just one of the two otherwise. |
| CellWalk.KnightCrossesBoth | render/autoroute_search.go:183-189 | The segment of every knight move runs through the inside of both cells between its ends. |
| CellWalk.KnightClear | render/autoroute_search.go:151-166 | Exactly when a knight move is open. It is not what the comment says: four of the eight do not look at one of the two cells they cross. |
| Charts.Chart.LengthTriangle | render/autoroute_search.go:161-165 | Straight-line length obeys the triangle inequality. |
| Snaps.NearestPassable | render/autoroute_search.go:398-430 | The cell itself when passable; otherwise the passable cell of the nearest ring that has one, within the radius, that is closest on that ring, and the first in row order of those as close; none exactly when no ring within the radius has one. |
| Snaps.RingsReach | render/autoroute_search.go:398-403 | The rings searched reach the radius, counted by the smaller side of a cell, and the last of them is needed for it. |
| Routes.SnapReaches | render/autoroute.go:1653-1653 | That radius reaches 400 metres and eight cells, and no farther. |
| Snaps.SnapIsUnique | render/autoroute_search.go:398-430 | That is one cell only. |
| Snaps.ClosestWithinTwoRings | render/autoroute_search.go:395-430 | On square cells, the cell found is the closest in a straight line whenever there is any water within two rings. |
| Snaps.DiagonalBeforeCloser | render/autoroute_search.go:395-430 | Beyond that it need not be: for every r of three or more, water r cells off diagonally is taken before water r + 1 cells off straight ahead, which is closer. |
| Snaps.SafeRings | render/autoroute_search.go:395-430 | So what is found on ring r is the closest there is, on every chart of square cells, if and only if r is at most 2. |
| Shorten.Reach | render/autoroute_search.go:229-253 | From a waypoint the leg reaches as far as every shorter reach was allowed, and no further: the next is refused, or falls outside the path or the window. |
| Shorten.PullTaut | render/autoroute_search.go:223-258 | Drops waypoints only, keeps both ends, adds only legs over passable cells, and each kept leg is one such reach. |
| Shorten.DropReversals | render/autoroute_search.go:284-325 | Drops, one at a time, the first sharpest turn that a neighbouring turn undoes and whose bypass is allowed, until none is left; every leg it adds crosses passable cells, and the ends are kept. In the result, wherever two neighbouring bends turn opposite ways by 12 degrees or more, the leg past one of them that is sharper than that is not clear under multiplier 3; a path whose bends all turn one way comes back unchanged. |
| Shorten.NothingToStraighten | render/autoroute_search.go:284-325 | No turn may be straightened if and only if every such pair of bends left is needed in that sense. |
| Shorten.OneSidedIsKept | render/autoroute_search.go:278-283 | One that turns and keeps the course turned is a corner, however sharp, and survives. |
| Shorten.FindReversal | render/autoroute_search.go:290-318 | The scan finds the first sharpest turn that may go, or that there is none. |
| Shorten.ThinToLimit | render/autoroute_search.go:354-379 | Drops, one at a time, the first waypoint nearest to the line of its neighbours that may go, until at most the limit remain or none may go; every leg it adds crosses passable cells, and the ends are kept. |
| Shorten.SafeStaysSafe | render/autoroute_search.go:223-379 | So what the passes leave of a path whose legs all cross passable cells is such a path. |
| Shorten.FindLeastSignificant | render/autoroute_search.go:361-371 | The scan finds that waypoint, or that there is none. |
| Shorten.LimitIs | render/autoroute_search.go:363-364 | The leg past a waypoint may cost 0.05 more than the dearest of the three, and no more. |
| Deviations.DeviationIsLeast | render/autoroute_search.go:381-393 | The deviation of a waypoint is no more than its distance to any point of the line through its neighbours. |
| Deviations.DeviationIsReached | render/autoroute_search.go:381-393 | And it is the distance to one of them. |
| Deviations.OnTheLine | render/autoroute_search.go:381-393 | So it is 0 exactly on the line. |
| CellFacts.FinestWins | render/autoroute_grid.go:216-256 | After any readings in any order, a cell's depth is the shoalest of the finest scale, and it is land exactly when its finest land scale is at or below its finest water scale. |
| CellFacts.OrderIndependent | render/autoroute_grid.go:216-256 | Readings in another order leave the same cell. |
| NavGrids.NavGrid.SetDepth | render/autoroute_grid.go:216-230 | Only this cell changes, as one depth reading changes it. |
| NavGrids.NavGrid.Mark | render/autoroute_grid.go:232-232 | Only this cell changes, by one flag. |
| NavGrids.NavGrid.MarkLand | render/autoroute_grid.go:234-247 | Only this cell changes, as one land reading changes it. |
| NavGrids.NavGrid.MarkWater | render/autoroute_grid.go:249-256 | Only this cell changes, as one water reading changes it. |
| NavGrids.Frame.CentreMapsBack | render/autoroute_grid.go:198-214 | The centre of a cell lies in that cell. |
| NavGrids.Frame.CellHolds | render/autoroute_grid.go:190-214 | A position is in the cell whose west and south edges it is on or past and whose east and north edges it is short of, and in no other. |
| NavGrids.NavGrid.Finalize | render/autoroute_grid.go:455-561 | Leaves every cell's clearance exact and every cell priced by it, and the recorded facts as they were. |
| NavGrids.NavGrid.PricedView | render/autoroute_grid.go:455-565 | A finalized grid is one the search may be run on: multipliers of at least 1. |
| Chamfer.ChamferDistance | render/autoroute_grid.go:570-612 | Exact: every cell holds the least 5-7-11 norm from a source, or infinity when none is in reach, whatever the borders of the grid. |
| Chamfer.ForwardSweep | render/autoroute_grid.go:601-605 | The first sweep is exact for the sources that forward moves alone lead from, and no value is below some source's norm. |
| Chamfer.BackwardSweep | render/autoroute_grid.go:606-610 | The second sweep is then exact for every source. |
| Chamfer.BestOf | render/autoroute_grid.go:585-598 | One relaxation: the least of a cell's own value and those its neighbours lead to. |
| Chamfer.NormTriangle | render/autoroute_grid.go:567-612 | No chain of moves beats the norm. |
| Chamfer.TowardsShortens | render/autoroute_grid.go:599-600 | From every offset one move of the two masks makes up its weight in norm and stays in the box of the offset, so borders never get in its way. |
| Chamfer.NormNearEuclid | render/autoroute_grid.go:567-570 | For any offset, 121 E*E <= 5 C*C and C*C <= 26 E*E, with C its norm in fifths and E its straight-line length. |
| Chamfer.TransformNearEuclid | render/autoroute_grid.go:567-612 | Within two percent of the straight line: in every cell of every grid that has a source in reach, what the transform leaves obeys both bounds with E the straight-line distance to the nearest source, whichever source is nearest in norm. |
| CostGrid.PricesAtLeastOne | render/autoroute_grid.go:509-559 | Every finite multiplier is at least 1. |
| CostGrid.PassableCells | render/autoroute_grid.go:455-561 | Exactly which cells the priced grid leaves open, by flags and depth: a channel cell unless its own positive charted depth closes it, and any other when it has neither land nor an obstruction, is unsounded, deep enough or dredged, and is at least the hard clearance, in the chamfer norm, from every cell that its facts close and from the transform's infinity. |
| CostGrid.BlockedUnlessNavigable | render/autoroute_grid.go:460-491 | A channel is blocked by its own depth alone, and other water exactly when nothing floats there. |
| Charges.DepthBand | render/autoroute_grid.go:525-527 | Charted water pays the whole depth penalty at the safe depth, none from the ideal depth on, and in between in proportion. |
| Charges.OtherDepths | render/autoroute_grid.go:512-524 | Maintained channels pay none; unsounded water pays its charge within the given range of what is blocked. |
| Charges.ShoalerIsDearer | render/autoroute_grid.go:525-527 | Shoaler water is never cheaper. |
| Charges.ShoreBand | render/autoroute_grid.go:533-536 | The shore charge is whole at the hard clearance, nothing from the soft one on, and in between in proportion. |
| Charges.NearerShoreIsDearer | render/autoroute_grid.go:533-536 | Nearer water is never cheaper. |
| Charges.ChannelsAreFree | render/autoroute_grid.go:545-552 | Channels are free, the band the marks gate pays the marker penalty, and other water the off-channel one. |
| Charges.AreaFlags | render/autoroute_grid.go:553-558 | Unsurveyed and restricted water each add their penalty, and no other flag does. |
| Charges.WorseIsDearer | render/autoroute_grid.go:496-560 | Of two cells with the same flags outside a channel, the one no deeper and no farther from what is blocked is closed when the other is, and otherwise no cheaper. |
| Charges.FreeWater | render/autoroute_grid.go:496-560 | Deep water in a marked channel, away from everything, has multiplier 1. |
| Charges.MetresOfCells | render/autoroute_grid.go:501-501 | The clearance of a cell is its distance in the transform times the width of a cell. |
| Charges.EachIsPaid | render/autoroute_grid.go:496-560 | And each charge comes on top of that: the shore, the depth, the off-channel and the area charge, alone and together. |
| CostGrid.ClearanceInNorm | render/autoroute_grid.go:493-554 | A passable cell outside a channel is at least the hard clearance from every blocked cell, in the chamfer norm. |
| CostGrid.ClearanceKept | render/autoroute_grid.go:493-570 | And in a straight line, up to the two percent of the norm. |
| CostGrid.RelaxedGridOnlyOpens | render/autoroute.go:1684-1692 | The retry's grid keeps every passable cell of the first one, and has open exactly the cells that are not blocked themselves. |
| CostGrid.PricingIsUnique | render/autoroute_grid.go:455-561 | The facts and the tunables determine every multiplier. |
| Simplify.CheckLeg | render/autoroute.go:1487-1495 | A leg between positions is clear exactly when both ends lie in the grid and the cells under it are passable. |
| Simplify.TenthOfLegs | render/autoroute.go:1447-1476 | A point is within tolerance exactly when it is no farther off the line than the tolerance and than a tenth of either leg. |
| Routes.CentresWithEnds | render/autoroute.go:1741-1755 | The centre of every cell, but the requested start and end where those were not moved. |
| Simplify.DropPass | render/autoroute.go:1447-1476 | Between neighbouring kept points every dropped one was within tolerance of, and bypassed by a clear leg from, the last kept point; each kept one was not. |
| Simplify.DropWithinTolerance | render/autoroute.go:1430-1445 | The result of pass after pass until nothing more could be dropped (the list itself when the tolerance is not positive); both ends and the clearness of all legs are kept. |
| Routes.FindRoute | render/autoroute.go:1650-1700 | A path is a cheapest route between the cells to which the ends snap, on the grid as it is then priced, and the moved ends of the whole route are reported exactly. The clearance is given up only when there was no way with it, and an error means there is none without it either, or an end outside the grid. The facts of the grid are untouched. An earlier leg may already have given the clearance up. |
| Routes.PathToWaypoints | render/autoroute.go:1706-1756 | From any path over passable cells: the cells are what the three passes in order leave of it, the waypoints are their centres with the exact ends put back unless they were moved, all their legs are clear when those of the path were, and there is one waypoint alone exactly when the path is one cell. |
| Routes.SmoothPath | render/autoroute.go:1627-1634 | The last two steps together: each pass in turn, the ends put back, and the simplification, with the ends in place and every leg of the result clear when those of the path were. |
| Drifts.LeftWithEnds | render/autoroute.go:1430-1476 | Of a list whose every inner point is within tolerance of the line from the first point to the next one, and bypassed by a clear leg, the passes leave the two ends and nothing else. |
| Drifts.ArcDrifts | render/autoroute.go:1464-1472 | On an arc of that kind the first bend is one and a half tolerances off the final leg: small bends do accumulate. |
| Drifts.SafeLengths | render/autoroute.go:1426-1476 | Over every list of n points with clear legs, on every chart, and however many passes it takes, every dropped point stays within tolerance of the leg that finally spans it if and only if n is at most three. |
| Legs.StitchLegs | render/autoroute.go:1593-1608 | The loop over the legs of a route through several points: every leg is the cheapest between the cells to which its ends snap, on the first pricing up to some leg and on the relaxed one from it on; the relaxed pricing comes in only when some leg has no way on the first; an error means that some leg has none on the grid in force; the ends of the whole route are reported exactly. |
| Legs.JoinIsSafe | render/autoroute.go:1603-1606 | Two safe legs stitched are safe if and only if the way from the end of the first to the second cell of the other is. |
| Legs.StitchedIsSafe | render/autoroute.go:1590-1608 | Safe legs, each of which begins in the cell in which the one before it ends, make a safe path to the end of the last. |
| Legs.SameSnapIf | render/autoroute.go:1590-1608 | A position snaps to one cell with the clearance and without it if and only if no cell that is not blocked itself is found before the cell to which it snaps with the clearance. |
| Plans.JoinAtRepricing | render/autoroute.go:1603-1606 | The leg for which the grid was priced anew begins in the cell in which the one before it ends if and only if the point between them keeps its cell in that sense. |
| Plans.LegsMeet | render/autoroute.go:1603-1606 | All other legs meet in any case: so the join cells are shared if and only if the grid was not priced anew between two legs, or the point at which it was keeps its cell. |
| Plans.PathOfLegs | render/autoroute.go:1590-1608 | The stitched path keeps to passable cells of the grid as it is finally priced, and every leg of it crosses only such cells when the legs meet. |
| MovedJoins.RowIsPriced | render/autoroute.go:1684-1692 | A row of six cells, the first in a channel and the second land, with a clearance of three and a half cells: its two ends alone are open with the clearance, and all but the land without. |
| MovedJoins.LegsDoNotMeet | render/autoroute.go:1603-1606 | On that row, for points over cells 0, 2 and 5, the second leg has no way with the clearance; the two legs found do not meet, and the stitched path crosses the land. |
| Plans.PlanRoute | render/autoroute.go:1564-1641 | Leg safety through the whole pipeline, for any number of points: the legs are the cheapest between the cells to which their ends snap, stitched, shortened by each pass in turn, put back on the ends that were not moved and simplified. Every cell sampled under every leg of the result, mapped back to cells, is passable on the grid in force, given up clearance or not, when the point at which the grid was priced anew keeps its cell; an error means that some leg has no way at all. |
| Plans.PlanOfTwo | render/autoroute.go:1564-1641 | For two points that is unconditional: the plan is the cheapest path smoothed, and every leg of it is clear. |
| Plans.EndsKept | render/autoroute.go:1701-1756 | A plan of two points begins at the start, moved only if reported so. It ends at the destination, in the same way, if and only if the two ends snap to different cells or would be held at one position; otherwise it is the start alone. |
| Plans.DestinationLost | render/autoroute.go:1701-1756 | The exact requested endpoints do not always survive: with start and destination over one passable cell the plan is the start alone, and neither end is reported as moved. |
| Preprocessor.UnmapMap | weather/grib_ccsds.go:519-558 | The inverse undoes the prediction-error mapping of section 4 of CCSDS 121.0-B-3, for every previous sample. |
| Preprocessor.MapUnmap | weather/grib_ccsds.go:519-558 | And the mapping undoes the inverse: on the range they are bijections. |
| Preprocessor.UnmapInRange | weather/grib_ccsds.go:531-553 | Whatever the bitstream holds, the sample stays in [0, 2^bps - 1], and never through the clamp. |
| Preprocessor.UnmapAllMapAll | weather/grib_ccsds.go:519-558 | Over a whole interval, each sample against the one before it, the inverse recovers the samples. |
| Preprocessor.MapAllUnmapAll | weather/grib_ccsds.go:519-558 | And the other way round. |
| AecReader.AecBitReader.ReadBits | weather/grib_ccsds.go:113-135 | The next n bits as a big-endian number, or an error when there are fewer. |
| AecReader.AecBitReader.ReadFS | weather/grib_ccsds.go:140-155 | The number of zeros before the first one, or an error past the limit or the end. |
| AecReader.AecBitReader.SkipToByte | weather/grib_ccsds.go:560-566 | Skips to the next byte. |
| AecCode.ReadBlock | weather/grib_ccsds.go:246-480 | Whatever the code option, a block or run of zero blocks yields exactly blockSize samples a block, the reference included. |
| AecCode.ReadBlocks | weather/grib_ccsds.go:246-486 | So an interval yields its number of blocks times blockSize. |
| AecCode.UnpairPair | weather/grib_ccsds.go:391-439 | Each pair of the second extension is recovered from its number. |
| AecDecode.CorrectedRoot | weather/grib_ccsds.go:421-424 | From any estimate that is not too high, the correction loop finds the one k with k(k+1)/2 <= m < (k+1)(k+2)/2. |
| AecDecode.ZeroBlockRun | weather/grib_ccsds.go:310-370 | Emits the zeros of the run, one fewer where the reference stands. |
| AecDecode.PairBlock | weather/grib_ccsds.go:391-439 | The second extension, with an odd start or an odd end. |
| AecDecode.SplitBlock | weather/grib_ccsds.go:440-479 | All high parts, then all low parts, joined. |
| AecDecode.DecodeBlock | weather/grib_ccsds.go:246-480 | One turn of the block loop reads what the block parser reads. |
| AecDecode.InvertInPlace | weather/grib_ccsds.go:519-558 | The in-place rewrite is the inverse over the interval and touches nothing before it. |
| AecDecode.DecodeAll | weather/grib_ccsds.go:201-568 | The interval loop terminates with the samples the parser gives, or an error exactly when it fails. |
| AecDecode.Decode | weather/grib_ccsds.go:160-574 | Refuses exactly the parameters it should, gives zeros for 0 bits a sample, and otherwise the first n samples of the stream. |
| AecEncode.BlockBack | weather/grib_ccsds.go:246-480 | Every legal choice of code option for a block reads back as the block, or is refused if and only if one of its fundamental sequences is too long. |
| AecEncode.BlocksBack | weather/grib_ccsds.go:246-486 | As does every sequence of choices for an interval. |
| AecEncode.BlocksOf | weather/grib_ccsds.go:202-219 | The decoder counts the blocks of an interval as the encoder does: a full interval, or as many as it takes to hold what remains. |
| AecEncode.StreamSize | weather/grib_ccsds.go:202-219 | A stream for n samples holds them and less than a block more, and all its intervals but the last are full. |
| AecEncode.IdBitsIsLeast | weather/grib_ccsds.go:72-91 | Identifiers are the shortest of three bits at least that number as many options as a sample has bits. |
| AecEncode.RoundTrip | weather/grib_ccsds.go:160-574 | Decoding the whole bytes, for every width, block size, interval length, preprocessor and padding setting, every legal choice in every block, whatever fills up and follows the stream, and a last interval as short as it can be: it gives back exactly the samples if no fundamental sequence exceeds the limit, and an error if one does. |
| AecEncode.EveryListHasAStream | weather/grib_ccsds.go:160-574 | Every list of samples of that width has a legal stream within the limit. |
| AecEncode.LongFSRefused | weather/grib_ccsds.go:151-153 | The limit on a fundamental sequence is exact: one zero more is refused. |
| FieldReader.BitReader.Read | weather/noaa_weather_cache.go:1204-1227 | The next field through the 64-bit buffer, with the sticky error: what the bit string says, less the bits the buffer loses. |
| FieldReader.BitReader.AlignToByte | weather/noaa_weather_cache.go:1229-1233 | Drops what is left of the current byte. |
| FieldReader.Fill | weather/noaa_weather_cache.go:1212-1220 | Shifts bytes in until the field is in the buffer, or says that the bytes ran out exactly when they do. |
| FieldReader.Deliver | weather/noaa_weather_cache.go:1221-1226 | Shift and mask give the field, and fewer than 8 bits stay behind. |
| FieldReader.NarrowField | weather/noaa_weather_cache.go:1204-1227 | Fields of up to 57 bits are read exactly. |
| FieldReader.WideField | weather/noaa_weather_cache.go:1204-1227 | A field of 58 to 64 bits is read exactly if and only if the bits pushed out of the buffer are zeros. |
| FieldReader.WideFieldMisread | weather/noaa_weather_cache.go:1204-1227 | A 58-bit field that is misread. |
| ComplexPacking.ReadBlock | weather/noaa_weather_cache.go:1117-1130 | A block of fields, each turned into the number it stands for. |
| ComplexPacking.DecodeDescriptors | weather/noaa_weather_cache.go:1105-1115 | The first values and the overall minimum, then the next byte; zeros when there are none. |
| ComplexPacking.AppendGroup | weather/noaa_weather_cache.go:1137-1150 | The values of a group; one of width 0 takes no bits. |
| ComplexPacking.DecodePacked | weather/noaa_weather_cache.go:1117-1150 | References, widths and lengths on whole bytes, the last length pinned, then all groups. |
| ComplexPacking.UndoDifferencing | weather/noaa_weather_cache.go:1158-1180 | In-place reconstruction equals the recurrence of order 1 or 2; higher orders are an error. |
| ComplexPacking.UnpackComplex | weather/noaa_weather_cache.go:1095-1189 | The scaled integers of the section, or an error exactly when the bytes run out, a width is impossible or the order is above 2. |
| ComplexPacking.ScaleAdds | weather/noaa_weather_cache.go:1182-1187 | The factors are powers: the base itself at exponent 1, and products for sums of exponents, negative ones included. |
| ComplexPacking.Scaling.ByExponents | weather/noaa_weather_cache.go:1182-1187 | One more in the binary exponent doubles the integer, one more in the decimal exponent divides the value by ten, and without exponents the value is the reference plus the integer. |
| ComplexPacking.Scaling.Injective | weather/noaa_weather_cache.go:1182-1187 | The scaling loses nothing: different integers become different values. |
| ComplexEncode.SignedBack | weather/noaa_weather_cache.go:1237-1246 | Sign and magnitude are read back. |
| ComplexEncode.LinearBlock | weather/noaa_weather_cache.go:1117-1130 | A block of narrow fields reads back as base plus step times each number. |
| ComplexEncode.GroupsBack | weather/noaa_weather_cache.go:1137-1150 | Whatever the groups, their values read back. |
| ComplexEncode.Recovered | weather/noaa_weather_cache.go:1158-1180 | Undoing the differencing recovers the field from its first or second differences. |
| ComplexEncode.RoundTrip | weather/noaa_weather_cache.go:1095-1189 | For every field of integers, every partition into groups that fit, every padding, and differencing of order 0, 1 or 2, decoding the whole bytes gives back exactly the integers. |
| ComplexEncode.EveryFieldHasALayout | weather/noaa_weather_cache.go:1095-1189 | Every field whose differences fit 57 bits has such an encoding. |
| SimplePacking.UnpackSimple | weather/noaa_weather_cache.go:1253-1286 | The scaled fields, read through its own buffer, or an error exactly when the bytes run out; a width of 0 gives the reference. |
| SimplePacking.FailsWhenShort | weather/noaa_weather_cache.go:1253-1286 | It is an error exactly when there are fewer bits than values times their width. |
| SimplePacking.ReadersAgree | weather/noaa_weather_cache.go:1265-1282 | Its buffer and `bitReader` read alike for every width up to 64. |
| SimplePacking.SimpleRoundTrip | weather/noaa_weather_cache.go:1253-1286 | Whole bytes that hold numbers of up to 57 bits, whatever fills them up, decode to the scaled numbers. |
| SimplePacking.ConstantField | weather/noaa_weather_cache.go:1248-1286 | A field of width 0 agrees with the scaling of zeros exactly when the reference is zero or there is no decimal scale: the code does not apply it. |
| Isobars.OneEndPerCrossing | weather/noaa_isobars.go:387-445 | A cell puts one arc end on each edge whose corners lie on different sides of the level and none on any other, in all 16 cases. |
| Isobars.SaddleArc | weather/noaa_isobars.go:428-443 | In a saddle each arc cuts off a corner. |
| Isobars.SaddleByMean | weather/noaa_isobars.go:428-443 | In a saddle the corners cut off are those on the other side of the level from the mean. |
| Isobars.CrossingOnEdge | weather/noaa_isobars.go:404-411 | A crossing point lies on its edge, where the interpolated field is the level. |
| Isobars.Grid.RowByRow | weather/noaa_isobars.go:297-330 | The data hold the first row from west to east, then the next. |
| Isobars.Realisable | weather/noaa_isobars.go:365-376 | Exactly the readings from 700 to 1100 hPa are contoured. |
| Isobars.GridLines | weather/noaa_isobars.go:268-316 | The grid begins at its first meridian and parallel and runs east and south from there. |
| Isobars.ShiftedLon | weather/noaa_isobars.go:273-288 | A cell on the meridians from 0 to 360 is drawn beginning between 180 west and 180 east, on the same meridian. |
| Isobars.DrawnLabel | weather/noaa_isobars.go:289-293 | The label of a segment in hectopascals times 100 is its level, an even number from 920 to 1064. |
| Isobars.EveryLevel | weather/noaa_isobars.go:289-293 | And every even number of that range is a level. |
| Isobars.SamePoint | weather/noaa_isobars.go:273-316 | The cells beside an edge draw its crossing at the same point, up to 360 degrees of longitude. |
| Isobars.Watertight | weather/noaa_isobars.go:268-363 | For every grid, level and grid edge: an edge whose ends straddle the level takes exactly one arc end from each contoured cell beside it, and no other edge takes any. |
| Isobars.RejectDropsNothing | weather/noaa_isobars.go:317-332 | The early reject skips no level that crosses the cell. |
| Isobars.FilterDropsNothing | weather/noaa_isobars.go:335-344 | The filter on long segments drops one if and only if the grid runs west or north, and then it drops all. |
| Isobars.ContourCell | weather/noaa_isobars.go:302-360 | All segments of one cell, in order of level. |
| Isobars.ContourLatLonGrid | weather/noaa_isobars.go:268-363 | The segments of all arcs of all contoured cells, in order; none from a grid too small. |
| NavGoals.Goal.AdvanceKeepsSound | nav_store.go:81-94 | A sound active goal stays sound; it is finished exactly when a goal that does not loop reaches its end. |
| NavGoals.Goal.AdvanceTravels | nav_store.go:81-94 | Laps times length plus cursor grow by exactly n if and only if the advance does not go past the last waypoint. |
| NavGoals.NavGoal.Advance | nav_store.go:81-94 | The fields become those of the advanced goal. |
| NavGoals.NavGoal.Finish | nav_store.go:97-101 | The fields become those of the finished goal. |
| NavGoals.GoalFromLegacy | nav_store.go:184-202 | The loop over the old list gives the goal that `LegacyGoal` describes: none exactly when everything was visited. |
| NavGoals.LegacyGoalIsSound | nav_store.go:179-202 | That goal is a sound active one, and what remains of it is every unvisited waypoint in order. |
| NavGoals.DiskNavStore.constructor | nav_store.go:132-178 | The state is what the file says: nothing without one, the goal of an old list started now, or the saved state with its cursor brought into the list; the file stays as it was. |
| NavGoals.DiskNavStore.Mutate | nav_store.go:263-279 | The edit is kept exactly when it and the write succeed, and otherwise nothing changes, whatever the edit left half done; memory that equalled the file still does. |
| NavGoals.DiskNavStore.StartGoal | nav_service.go:275-292 | Refuses an empty list, a start out of range, and a suspended goal; otherwise replaces the goal. |
| NavGoals.DiskNavStore.Suspend | nav_service.go:472-485 | Only an active goal is suspended. |
| NavGoals.DiskNavStore.Resume | nav_service.go:487-500 | Only a suspended goal is resumed. |
| NavGoals.DiskNavStore.Cancel | nav_service.go:505-516 | An open goal becomes canceled; with none it changes nothing. |
| NavGoals.SuspendThenResume | nav_service.go:472-500 | Suspending an active goal and resuming it leaves it as it was. |
| NavGoals.EditsKeepPlace | nav_service.go:472-516 | Suspending, resuming and canceling apply exactly to the states they should and keep the waypoints, the place among them, the start time and the saved locations. |
| NavGoals.StartReplaces | nav_service.go:275-292 | Starting a goal fails exactly when a suspended one is in the way, and otherwise replaces what there is. |
| NavGoals.DiskNavStore.AdvanceGoal | nav.go:281-293 | Applies only to the active goal of that start and cursor; otherwise, or when the write fails, nothing changes. |
| GoalMachine.StartsWithInv | nav_store.go:132-178 | The invariant holds when the service starts without a file, on a sound saved state, or on any list in the old format; memory and file agree at once except where such a list has an unvisited waypoint. |
| GoalMachine.StepKeepsInv | nav_store.go:263-279 | Every client call, half of a poller tick, failed write or restart keeps: memory is what the file says, but for the start time of a goal from a list in the old format that was never rewritten; the goal is sound (cursor in range, inside the list while open, finish time exactly in terminal states); a plan is about the goal as it is unless another replaced it. |
| GoalMachine.RunKeepsInv | nav_store.go:263-279 | So does every interleaving of them. |
| GoalMachine.RestartLosesNothing | nav_store.go:140-178 | A restart finds the state as it was left if and only if memory equals the file; otherwise it finds it with a new start time of the goal, and nothing else changed. |
| GoalMachine.SyncedOnceWritten | nav_store.go:263-279 | After any run, whatever writes fail in it, memory equals the file if and only if it did at the start or something was written: for a list in the old format, from the first write on. |
| GoalMachine.TerminalIsFinal | nav_service.go:472-516 | After any run, a terminal goal is unchanged or replaced by one started later: it never reopens. |
| GoalMachine.SuspendedStays | nav_service.go:284-290 | Without a Resume or Cancel that is written, any run leaves a suspended goal exactly as it was. |
| GoalMachine.StaleTickChangesNothing | nav.go:281-293 | A tick for a goal that was replaced, suspended, finished or moved on changes no state; it may rewrite the file with what is in memory. |
| GoalMachine.AppliesToWhatWasRead | nav.go:281-293 | An applied tick finds the goal exactly as the poller read it, at the same lap. |
| GoalMachine.GoneIsGone | nav_service.go:284-290 | A goal that leaves the record never comes back. |
| GoalMachine.ProgressIsWhatWasPassed | nav_store.go:81-94 | Over any run a goal survives, laps and cursor grow by exactly the sum of its applied advances. |
| GoalMachine.SucceededWhenAllPassed | nav_store.go:81-94 | A goal that does not loop has succeeded exactly when everything that remained has been passed. |
| GoalMachine.CanSucceed | nav_store.go:81-94 | From any state with an open goal that does not loop, whatever the poller has planned, some run ends with that very goal succeeded. |
| GoalMachine.CanBeCanceled | nav_service.go:505-516 | And an open goal can be canceled at any time. |
| Arrivals.MemoryIsExact | arrival.go:95-124 | `decideArrival` run alone, tick after tick: its memory holds the exact least and greatest distances since the current pair of waypoints became active. |
| Arrivals.DecidesByHistory | arrival.go:126-154 | Its decision is the one the whole history of the pair would give: inside the radius, rounded the corner, far past, or overshot the last. |
| Arrivals.FirstTick | arrival.go:98-154 | On a pair's first tick only the 50 m rule can fire. |
| Rejoins.DecideRejoin | rejoin.go:78-130 | The scan gives the verdict for the furthest leg the boat is on: it starts or extends the track of that leg, skips when the track is confirmed, and forgets it when no leg matches. |
| Rejoins.IsOnLeg | rejoin.go:87-106 | The boat is on a leg exactly when it projects inside it, within 926 m of it, and is 500 m or more from both its ends. |
| Rejoins.AlongGrows | rejoin.go:107-108 | How far along the leg it is grows with the fraction, from 0 at its start to its length at its end. |
| Rejoins.SkipLeavesOne | rejoin.go:121-127 | A skip passes at least two waypoints and leaves at least one. |
| Rejoins.SkipsOnConfirmedStreak | rejoin.go:108-129 | Over any run of ticks: a skip exactly on three or more successive matches of one leg, since the last skip, with at least 20 m gained along it. |
| Poller.RolledIsHistory | nav.go:346-395 | Over any run of ticks of the poller, whatever goals they watch: the rejoin track is the whole streak since the last skip, and the arrival memory is that of the ticks since the last skip. |
| Poller.InputOfRoute | nav.go:373-389 | The arrival rules are asked about the first remaining waypoint, and the second is the one that follows. |
| Poller.MemoryIsExactOverPolls | nav.go:346-395 | So the arrival memory is exact since the later of the last skip and the last change of pair, and empty exactly right after a skip or before the first tick. |
| Poller.FoundIsDue | nav.go:346-395 | What the two memories decide is what the whole history makes due: all waypoints before a leg confirmed by a streak, or one by an arrival rule over the ticks since the last skip. |
| Poller.FirstTickOfGoal | nav.go:357-395 | The first tick of a goal arrives outside 50 m if and only if earlier ticks since the last skip, all of other goals, watched the same pair and a rule holds over them: the memory is kept by waypoint, not by goal. |
| Poller.OldGoalsCount | nav.go:357-395 | So a goal to a waypoint that an earlier one came within 300 m of succeeds on its first tick, ten kilometres off. |
| Poller.ArrivalPoller.Decide | nav.go:346-395 | Rejoining comes first and drops the arrival memory; the number decided is what all ticks so far make due, and is 0, 1 or fewer than remain. |
| Poller.ArrivalPoller.CheckArrival | nav.go:310-433 | Without a fix, at (0, 0) or without an active goal nothing happens and nothing is remembered; otherwise the goal moves on by what is due if the write succeeds, and has passed exactly that many waypoints. |
| SingleFlight.StepKeepsInv | noaa_cache.go:263-307 | Every lock, wait, release, upstream outcome and eviction keeps: each entry is the own group of one leader, and every follower waits on a group that is released or that some caller has yet to release. |
| SingleFlight.OneLeader | noaa_cache.go:287-306 | At most one caller leads for a key, and the entry is its own group. |
| SingleFlight.SomeoneCanMove | noaa_cache.go:287-307 | While any caller is not done, some caller can move. |
| SingleFlight.RunsEnd | noaa_cache.go:263-307 | No run of moves goes on longer than the callers' total rank. |
| SingleFlight.NobodyIsStranded | noaa_cache.go:284-307 | A run that cannot go on has let every caller return, on success and on error. |
| SingleFlight.OneAttempt | noaa_cache.go:281-307 | On every run, a key has at most one upstream attempt at a time as long as no follower of it wakes up to find no file. |
| SingleFlight.MissDoubles | noaa_cache.go:288-296 | And whenever one does, with any other caller about, there is a way on to two attempts at once. |
| SingleFlight.NoFailureNoMiss | noaa_cache.go:281-307 | No follower finds its file missing unless an attempt for the key fails to store one or the file is evicted. |
| SingleFlight.OneAttemptFromTheStart | noaa_cache.go:257-307 | So from the first call on, with any files on disk, a key has one upstream attempt at a time on every run in which no attempt for it fails and its file is not evicted. |
| SingleFlight.FailureDoubles | noaa_cache.go:288-296 | But when a leader with a follower fails and no older file is there, there is a way on to two attempts at once. |
| SingleFlight.EvictionDoubles | noaa_cache.go:288-296 | And so there is when a leader stores its file and that is evicted before a follower wakes up. |
| SingleFlight.RefreshYields | noaa_cache.go:258-280 | A refresh of a key that is being fetched returns at once and leaves everything as it was; of any other key it goes on as a fetch does. |

## Left out

- User-placed bounds and `KeepWaypoints`, which pull each leg taut on its own.
- Section splitting, join straightening, coarse anchors and land repair in `AutoRouteVia`: they are driven by chart queries.
- Rasterising polygons, discs and corridors, channel-mark pairing and waterway stamping: what they record in a cell is modelled, not which cells they reach.
- The choice of grid size and the option defaults: the model takes the cell size and normalised options as given.
- Floating-point rounding, float32 costs and clearances, and int64 wrap-around of GRIB integers wider than 57 bits.
- Spherical trigonometry: haversine distance, cross-track offset, projections and headings are parameters.
- The GRIB section parser, `unpackCCSDS` and the JSON output of contours: the first reads headers, the second scales as `ComplexPacking.Scaling` does.
- High and low pressure centres (`extremaLatLonGrid`), which only rank grid values.
- The seam of a global grid: the code draws no cell between the last column and the first, and the model has none.
- Names, modes, saved locations other than as a value, snapshots and JSON encoding of the navigation file; `waitGoal` and the status calls, which only read.
- Logging, and the sensor's position other than as an optional fix.
- What the upstream cache stores, when it evicts and its timeouts: whether an attempt stores its file is an input, and an eviction may come at any time.
- A store with an empty path, which keeps nothing on disk, and files that do not parse, which stop the service from starting.
- Tile drawing, HTTP handlers, database queries and the other services of the repository: input and output around libraries.
- NavGoals.DiskNavStore.Mutate: edits are functions of the stored state, so aliasing between the stored goal and a caller's copy is not modelled.
- AecDecode.Decode: the output slice is a sequence that is reassigned, so its capacity and growth are not modelled.
