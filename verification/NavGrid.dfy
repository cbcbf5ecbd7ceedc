/** The raster the auto-router searches (render/autoroute_grid.go, `navGrid`). */
module NavGrids {
  import opened Common
  import opened Charts
  import opened Metric
  import opened CellFacts
  import opened Chamfer
  import opened CostGrid

  /** The row or column a coordinate falls in, and the coordinate of the middle of one. */
  function Slot(min: real, d: real, v: real): int
    requires d > 0.0
  { ((v - min) / d).Floor }

  function Centre(min: real, d: real, k: int): real { min + (k as real + 0.5) * d }

  lemma CentreInSlot(min: real, d: real, k: int)
    requires d > 0.0
    ensures Slot(min, d, Centre(min, d, k)) == k
  {
    var x, q := k as real + 0.5, (Centre(min, d, k) - min) / d;
    assert q * d == x * d;
    assert (q - x) * d == 0.0;
  }

  lemma SlotHolds(min: real, d: real, v: real, k: int)
    requires d > 0.0
    ensures Slot(min, d, v) == k <==> min + k as real * d <= v < min + (k + 1) as real * d
  {
    var q, lo, hi := (v - min) / d, k as real, (k + 1) as real;
    assert Slot(min, d, v) == k <==> lo <= q < hi;
    ScaledBy(lo, v - min, d);
    ScaledBy(hi, v - min, d);
  }

  lemma ScaledBy(x: real, v: real, d: real)
    requires d > 0.0
    ensures x * d <= v <==> x <= v / d
  {
    var q := v / d;
    assert q * d == v;
    assert (q - x) * d == q * d - x * d && (x - q) * d == x * d - q * d;
    if x <= q { assert (q - x) * d >= 0.0; } else { assert (x - q) * d > 0.0; }
  }

  /** Where the cells of a raster lie. */
  datatype Frame = Frame(minLon: real, minLat: real, dLon: real, dLat: real, nx: int, ny: int) {
    predicate Valid() { 0 < nx && 0 < ny && 0.0 < dLon && 0.0 < dLat }

    /** `cellAt`: the cell under a position, or none outside the grid. */
    function CellAt(lon: real, lat: real): Option<int>
      requires Valid()
    {
      var ix, iy := Slot(minLon, dLon, lon), Slot(minLat, dLat, lat);
      if ix < 0 || iy < 0 || ix >= nx || iy >= ny then None else Some(Index(nx, ix, iy))
    }

    /** `centreOf`: the position at the centre of a cell. */
    function CentreOf(i: int): (real, real)
      requires Valid()
    {
      (Centre(minLon, dLon, Col(nx, i)), Centre(minLat, dLat, Row(nx, i)))
    }

    /** A position is in the cell whose west and south edges it is on or past and whose east and north edges
        it is short of. */
    lemma CellHolds(lon: real, lat: real, x: int, y: int)
      requires Valid() && 0 <= x < nx && 0 <= y < ny
      ensures CellAt(lon, lat) == Some(Index(nx, x, y)) <==>
        && minLon + x as real * dLon <= lon < minLon + (x + 1) as real * dLon
        && minLat + y as real * dLat <= lat < minLat + (y + 1) as real * dLat
    {
      hide Slot, Index, Col, Row;
      SlotHolds(minLon, dLon, lon, x);
      SlotHolds(minLat, dLat, lat, y);
      IndexOf(nx, ny, x, y);
      var ix, iy := Slot(minLon, dLon, lon), Slot(minLat, dLat, lat);
      if 0 <= ix < nx && 0 <= iy < ny { IndexOf(nx, ny, ix, iy); }
    }

    /** The centre of a cell lies in that cell. */
    lemma CentreMapsBack(i: int)
      requires Valid() && 0 <= i < nx * ny
      ensures CellAt(CentreOf(i).0, CentreOf(i).1) == Some(i)
    {
      hide Slot, Centre, Index, Col, Row;
      CellOf(nx, ny, i);
      CentreInSlot(minLon, dLon, Col(nx, i));
      CentreInSlot(minLat, dLat, Row(nx, i));
    }

    lemma CellAtInGrid(lon: real, lat: real)
      requires Valid() && CellAt(lon, lat).Some?
      ensures 0 <= CellAt(lon, lat).value < nx * ny
    {
      IndexOf(nx, ny, Slot(minLon, dLon, lon), Slot(minLat, dLat, lat));
    }
  }

  /** A raster as it is priced, as a value: all that the planner reads of it. */
  datatype Sea = Sea(frame: Frame, chart: Chart) {
    ghost predicate Valid() { frame.Valid() && chart.Valid() && chart.nx == frame.nx && chart.ny == frame.ny }
  }

  class NavGrid {
    const minLon: real
    const minLat: real
    const dLon: real
    const dLat: real
    const nx: int
    const ny: int
    const mx: real
    const my: real
    const hypot: (real, real) -> real

    const depth: array<Option<real>>
    const scaleOf: array<int>
    const flags: array<set<Flag>>
    const landScale: array<int>
    var cost: array<Extended>
    var clearCells: array<int>

    /** `newNavGrid`, given the cell size it has chosen. */
    constructor (minLon: real, minLat: real, dLon: real, dLat: real, nx: int, ny: int, cell: real,
                 hypot: (real, real) -> real)
      requires 0 < nx && 0 < ny && 0.0 < cell && 0.0 < dLon && 0.0 < dLat && IsHypot(hypot)
      ensures Valid() && !Priced()
      ensures this.nx == nx && this.ny == ny && mx == cell && my == cell && this.hypot == hypot
      ensures this.minLon == minLon && this.minLat == minLat && this.dLon == dLon && this.dLat == dLat
      ensures forall i :: 0 <= i < nx * ny ==> FactsOf(i) == BLANK
    {
      this.minLon, this.minLat, this.dLon, this.dLat := minLon, minLat, dLon, dLat;
      this.nx, this.ny, this.mx, this.my, this.hypot := nx, ny, cell, cell, hypot;
      var n := nx * ny;
      SomeCells(nx, ny);
      depth := new Option<real>[n](_ => None);
      scaleOf := new int[n](_ => NO_SCALE);
      flags := new set<Flag>[n](_ => {});
      landScale := new int[n](_ => NO_SCALE);
      cost := new Extended[0];
      clearCells := new int[0];
    }

    static lemma SomeCells(nx: int, ny: int)
      requires 0 < nx && 0 < ny
      ensures 0 < nx * ny
    {}

    ghost predicate Valid()
      reads this
    {
      && 0 < nx && 0 < ny && 0.0 < mx && 0.0 < my && 0.0 < dLon && 0.0 < dLat && IsHypot(hypot)
      && depth.Length == scaleOf.Length == flags.Length == landScale.Length == nx * ny
      && scaleOf != landScale && clearCells != scaleOf && clearCells != landScale
    }

    ghost predicate Priced()
      reads this
    {
      cost.Length == nx * ny
    }

    function InGrid(i: int): bool { 0 <= i < depth.Length }

    function FactsOf(i: int): Cell
      requires Valid() && InGrid(i)
      reads this, depth, scaleOf, flags, landScale
    {
      Cell(depth[i], scaleOf[i], flags[i], landScale[i])
    }

    ghost function Facts(): (facts: seq<Cell>)
      requires Valid()
      reads this, depth, scaleOf, flags, landScale
      ensures |facts| == depth.Length && forall i :: 0 <= i < |facts| ==> facts[i] == FactsOf(i)
    {
      seq(depth.Length, i requires 0 <= i < depth.Length && Valid()
                        reads this, depth, scaleOf, flags, landScale => FactsOf(i))
    }

    /** What the search and the smoothing passes read of the grid. */
    function View(): Chart
      reads this, cost
    {
      Chart(nx, ny, mx, my, hypot, cost[..])
    }

    function AsFrame(): Frame { Frame(minLon, minLat, dLon, dLat, nx, ny) }

    function AsSea(): (sea: Sea)
      reads this, cost
    {
      Sea(AsFrame(), View())
    }

    // ---- Rasterising ------------------------------------------------------------------------

    /** Only cell i changes, as one reading changes it. */
    twostate predicate Recorded(i: int, r: Reading)
      requires old(Valid()) && Valid() && InGrid(i)
      reads this, depth, scaleOf, flags, landScale
    {
      && FactsOf(i) == Record(old(FactsOf(i)), r)
      && forall j :: InGrid(j) && j != i ==> FactsOf(j) == old(FactsOf(j))
    }

    method SetDepth(i: int, depthM: real, scale: int)
      requires Valid() && InGrid(i)
      modifies depth, scaleOf
      ensures Valid() && Recorded(i, DepthReading(depthM, scale))
    {
      if scale < scaleOf[i] {
        depth[i] := Some(depthM);
        scaleOf[i] := scale;
      } else if scale == scaleOf[i] {
        if depth[i].None? || depthM < depth[i].value {
          depth[i] := Some(depthM);
        }
      }
    }

    method Mark(i: int, f: Flag)
      requires Valid() && InGrid(i)
      modifies flags
      ensures Valid() && Recorded(i, FlagReading(f))
    {
      flags[i] := flags[i] + {f};
    }

    method MarkLand(i: int, scale: int)
      requires Valid() && InGrid(i)
      modifies flags, landScale
      ensures Valid() && Recorded(i, LandReading(scale))
    {
      if scale <= landScale[i] {
        flags[i] := flags[i] + {Land};
        landScale[i] := scale;
      }
    }

    method MarkWater(i: int, scale: int)
      requires Valid() && InGrid(i)
      modifies flags, landScale
      ensures Valid() && Recorded(i, WaterReading(scale))
    {
      if scale < landScale[i] {
        flags[i] := flags[i] - {Land};
        landScale[i] := scale;
      }
    }

    // ---- Pricing ----------------------------------------------------------------------------

    /** The first half of `finalize`: which cells are blocked in themselves. */
    method BlockedCells(c: GridCost) returns (blocked: array<bool>)
      requires Valid()
      ensures fresh(blocked) && blocked[..] == BlockedMap(Facts(), c)
    {
      hide HardBlocked, IsHypot;
      var n := depth.Length;
      blocked := new bool[n];
      for i := 0 to n
        invariant Valid() && forall k :: 0 <= k < i ==> blocked[k] == HardBlocked(FactsOf(k), c)
      {
        blocked[i] := HardBlocked(FactsOf(i), c);
      }
    }

    /** The second half: the price of every cell, given its clearance. */
    method PriceCells(c: GridCost, clear: array<int>) returns (price: array<Extended>)
      requires Valid() && clear.Length == depth.Length
      ensures fresh(price) && price.Length == depth.Length
      ensures forall k :: 0 <= k < price.Length ==> price[k] == Price(FactsOf(k), clear[k], mx, c)
    {
      hide Price, IsHypot;
      var n := depth.Length;
      price := new Extended[n];
      for i := 0 to n
        invariant forall k :: 0 <= k < i ==> price[k] == Price(FactsOf(k), clear[k], mx, c)
      {
        price[i] := Price(FactsOf(i), clear[i], mx, c);
      }
    }

    /** `finalize`: decides what is blocked, grows the clearance out from it and prices the rest. */
    method Finalize(c: GridCost)
      requires Valid()
      modifies this`cost, this`clearCells
      ensures Valid() && Priced() && fresh(cost) && fresh(clearCells)
      ensures Facts() == old(Facts())
      ensures Finalized(nx, ny, mx, Facts(), c, clearCells[..], cost[..])
    {
      hide IsNearest, HardBlocked, Price, BlockedMap, IsHypot;
      ghost var facts := Facts();
      SomeCells(nx, ny);
      var blocked := BlockedCells(c);
      clearCells := ChamferDistance(blocked[..], nx, ny);
      cost := PriceCells(c, clearCells);
      assert Facts() == facts;
    }

    /** A priced grid is one the search may be run on. */
    lemma PricedView(c: GridCost)
      requires Valid() && Priced() && c.Normal()
      requires Finalized(nx, ny, mx, Facts(), c, clearCells[..], cost[..])
      ensures AsSea().Valid() && View().CostsAtLeastOne()
    {
      FinalizedCosts(nx, ny, mx, Facts(), c, clearCells[..], cost[..]);
    }
  }
}
