/** Isobar contouring (weather/noaa_isobars.go): marching squares over a latitude-longitude grid. */
module Isobars {
  import opened Common

  const MIN_HPA := 920
  const MAX_HPA := 1064
  const STEP_HPA := 2

  const LEVELS: nat := (MAX_HPA - MIN_HPA) / STEP_HPA + 1

  /** A grid value, a float64 that may be NaN. */
  datatype Reading = NaN | Num(v: real)

  /** `valid`: neither NaN nor outside the realisable range, in pascals. */
  predicate IsValid(r: Reading) { r.Num? && 70000.0 <= r.v <= 110000.0 }

  /** The readings that are contoured are those from 700 to 1100 hectopascals. */
  lemma Realisable(r: Reading)
    ensures IsValid(r) <==> r.Num? && 700.0 * 100.0 <= r.v <= 1100.0 * 100.0
  {}

  predicate Above(r: Reading, level: real) { r.Num? && r.v > level }

  function Level(k: nat): real { ((MIN_HPA + STEP_HPA * k) * 100) as real }

  // ---- One cell -----------------------------------------------------------------------------

  datatype Edge = Top | Right | Bottom | Left

  datatype Arc = Arc(from: Edge, to: Edge)

  /** `marchCell`: the arcs by which a contour crosses a cell, from the case index of its corners. */
  function MarchCell(level: real, tl: real, tr: real, bl: real, br: real): seq<Arc> {
    var idx := (if tl > level then 8 else 0) + (if tr > level then 4 else 0)
             + (if br > level then 2 else 0) + (if bl > level then 1 else 0);
    var mean := (tl + tr + bl + br) * 0.25;
    if idx == 0 || idx == 15 then []
    else if idx == 1 || idx == 14 then [Arc(Left, Bottom)]
    else if idx == 2 || idx == 13 then [Arc(Bottom, Right)]
    else if idx == 3 || idx == 12 then [Arc(Left, Right)]
    else if idx == 4 || idx == 11 then [Arc(Top, Right)]
    else if idx == 6 || idx == 9 then [Arc(Top, Bottom)]
    else if idx == 7 || idx == 8 then [Arc(Top, Left)]
    else if idx == 5 then
      if mean > level then [Arc(Top, Left), Arc(Bottom, Right)] else [Arc(Top, Right), Arc(Bottom, Left)]
    else
      if mean > level then [Arc(Top, Right), Arc(Bottom, Left)] else [Arc(Top, Left), Arc(Bottom, Right)]
  }

  function Bit(b: bool): nat { if b then 1 else 0 }

  /** How many arc ends lie on an edge. */
  function EndsAt(arcs: seq<Arc>, e: Edge): nat {
    if arcs == [] then 0 else Bit(arcs[0].from == e) + Bit(arcs[0].to == e) + EndsAt(arcs[1..], e)
  }

  predicate Crosses(level: real, a: real, b: real) { (a > level) != (b > level) }

  predicate CrossesEdge(level: real, tl: real, tr: real, bl: real, br: real, e: Edge) {
    match e
    case Top => Crosses(level, tl, tr)
    case Right => Crosses(level, tr, br)
    case Bottom => Crosses(level, bl, br)
    case Left => Crosses(level, tl, bl)
  }

  /** A cell puts one arc end on each edge whose corners lie on different sides of the level, and
      none on any other. */
  lemma OneEndPerCrossing(level: real, tl: real, tr: real, bl: real, br: real, e: Edge)
    ensures EndsAt(MarchCell(level, tl, tr, bl, br), e) == if CrossesEdge(level, tl, tr, bl, br, e) then 1 else 0
  {
    var arcs := MarchCell(level, tl, tr, bl, br);
    if |arcs| == 1 {
      assert arcs[1..] == [];
    } else if |arcs| == 2 {
      assert arcs[1..] == [arcs[1]] && arcs[1..][1..] == [];
      assert EndsAt(arcs[1..], e) == Bit(arcs[1].from == e) + Bit(arcs[1].to == e);
    }
  }

  lemma {:induction false} EndsSomewhere(arcs: seq<Arc>, a: Arc)
    requires a in arcs
    ensures EndsAt(arcs, a.from) > 0 && EndsAt(arcs, a.to) > 0
  {
    if arcs[0] != a { EndsSomewhere(arcs[1..], a); }
  }

  datatype Corner = TL | TR | BL | BR

  predicate Touches(e: Edge, c: Corner) {
    match c
    case TL => e == Top || e == Left
    case TR => e == Top || e == Right
    case BL => e == Bottom || e == Left
    case BR => e == Bottom || e == Right
  }

  function ValueAt(c: Corner, tl: real, tr: real, bl: real, br: real): real {
    match c case TL => tl case TR => tr case BL => bl case BR => br
  }

  lemma SaddleArc(level: real, tl: real, tr: real, bl: real, br: real, a: Arc) returns (c: Corner)
    requires Crosses(level, tl, tr) && Crosses(level, tr, br) && Crosses(level, br, bl)
    requires a in MarchCell(level, tl, tr, bl, br)
    ensures Touches(a.from, c) && Touches(a.to, c)
  {
    c := if a.from == Top then if a.to == Left then TL else TR else if a.to == Left then BL else BR;
  }

  /** In a saddle each arc cuts off a corner, and the corners cut off are those on the other side of
      the level from the mean. */
  lemma SaddleByMean(level: real, tl: real, tr: real, bl: real, br: real, a: Arc, c: Corner)
    requires Crosses(level, tl, tr) && Crosses(level, tr, br) && Crosses(level, br, bl)
    requires a in MarchCell(level, tl, tr, bl, br) && Touches(a.from, c) && Touches(a.to, c)
    ensures (ValueAt(c, tl, tr, bl, br) > level) != ((tl + tr + bl + br) * 0.25 > level)
  {}

  // ---- Interpolation ------------------------------------------------------------------------

  /** Where the level falls between two corner values. Between equal values, where the code gets
      an infinity or NaN, nothing crosses and the number is not used. */
  function Fraction(level: real, a: real, b: real): real { if a == b then 0.0 else (level - a) / (b - a) }

  /** A crossing lies on its edge, at the point where the interpolated field is the level. */
  lemma CrossingOnEdge(level: real, a: real, b: real)
    requires Crosses(level, a, b)
    ensures 0.0 <= Fraction(level, a, b) <= 1.0
    ensures a + Fraction(level, a, b) * (b - a) == level
  {
    var t, d := Fraction(level, a, b), b - a;
    assert t * d == level - a;
    assert (1.0 - t) * d == b - level;
    if d > 0.0 {
      SameSign(t, d);
      SameSign(1.0 - t, d);
    } else {
      SameSign(t, -d);
      SameSign(1.0 - t, -d);
    }
  }

  lemma SameSign(x: real, d: real)
    requires d > 0.0 && x * d >= 0.0
    ensures x >= 0.0
  {}

  // ---- The grid -----------------------------------------------------------------------------

  datatype Grid = Grid(nx: int, ny: int, lo1: real, la1: real, dx: real, dy: real, data: seq<Reading>) {
    predicate Usable() { nx >= 2 && ny >= 2 && |data| >= nx * ny }

    /** The value in column ix of row iy, rows running south. */
    function At(ix: nat, iy: nat): Reading
      requires Usable() && ix < nx && iy < ny
    {
      InData(ix, iy);
      data[iy * nx + ix]
    }

    lemma InData(ix: nat, iy: nat)
      requires Usable() && ix < nx && iy < ny
      ensures 0 <= iy * nx + ix < |data|
    {
      RowsApart(0, iy, nx);
      RowsApart(iy + 1, ny, nx);
      assert (iy + 1) * nx == iy * nx + nx && ny * nx == nx * ny;
    }

    /** The data hold the first row from west to east, then the next. */
    lemma RowByRow(i: nat)
      requires Usable() && i < nx * ny
      ensures i % nx < nx && i / nx < ny && At(i % nx, i / nx) == data[i]
    {
      var x, y := i % nx, i / nx;
      assert i == y * nx + x;
      RowsApart(ny, y, nx);
    }

    /** The cells that are contoured. */
    predicate ValidCell(ix: int, iy: int)
      requires Usable()
    {
      && 0 <= ix < nx - 1 && 0 <= iy < ny - 1
      && IsValid(At(ix, iy)) && IsValid(At(ix + 1, iy)) && IsValid(At(ix, iy + 1)) && IsValid(At(ix + 1, iy + 1))
    }

    function Arcs(ix: nat, iy: nat, k: nat): seq<Arc>
      requires Usable() && ValidCell(ix, iy)
    {
      MarchCell(Level(k), At(ix, iy).v, At(ix + 1, iy).v, At(ix, iy + 1).v, At(ix + 1, iy + 1).v)
    }
  }

  lemma RowsApart(m: int, n: int, size: int)
    requires size >= 0
    ensures m <= n ==> m * size <= n * size
  {
    if m <= n {
      assert (n - m) * size == n * size - m * size && (n - m) * size >= 0;
    }
  }

  /** A whole cell is shifted west by 360 degrees when its left edge is at or beyond 180. */
  function ShiftLon(l: real): real { if l >= 180.0 then l - 360.0 else l }

  /** What is drawn of a grid on the meridians from 0 to 360 begins between 180 west and 180 east, on the
      same meridian. */
  lemma ShiftedLon(l: real)
    requires 0.0 <= l < 360.0
    ensures -180.0 <= ShiftLon(l) < 180.0 && (ShiftLon(l) == l || ShiftLon(l) + 360.0 == l)
  {}

  datatype Point = Point(lon: real, lat: real)

  function Along(from: real, t: real, length: real): real { from + t * length }

  function Back(from: real, t: real, length: real): real { from - t * length }

  function Meridian(g: Grid, x: real): real { g.lo1 + x * g.dx }

  function Parallel(g: Grid, y: real): real { g.la1 - y * g.dy }

  /** The grid begins at its first meridian and parallel, and runs east and south from there. */
  lemma GridLines(g: Grid, n: int)
    ensures Meridian(g, 0.0) == g.lo1 && Meridian(g, (n + 1) as real) == Meridian(g, n as real) + g.dx
    ensures Parallel(g, 0.0) == g.la1 && Parallel(g, (n + 1) as real) == Parallel(g, n as real) - g.dy
  {
    var x := n as real;
    assert (n + 1) as real == x + 1.0;
    assert (x + 1.0) * g.dx == x * g.dx + g.dx && (x + 1.0) * g.dy == x * g.dy + g.dy;
  }

  /** The crossing point on a cell's edge. */
  function PointOf(level: real, tl: real, tr: real, bl: real, br: real,
                   lonL: real, lonR: real, latT: real, latB: real, e: Edge): Point {
    match e
    case Top => Point(Along(lonL, Fraction(level, tl, tr), lonR - lonL), latT)
    case Right => Point(lonR, Back(latT, Fraction(level, tr, br), latT - latB))
    case Bottom => Point(Along(lonL, Fraction(level, bl, br), lonR - lonL), latB)
    case Left => Point(lonL, Back(latT, Fraction(level, tl, bl), latT - latB))
  }

  function CellPoint(g: Grid, ix: nat, iy: nat, k: nat, e: Edge): Point
    requires g.Usable() && g.ValidCell(ix, iy)
  {
    var lonL := ShiftLon(Meridian(g, ix as real));
    PointOf(Level(k), g.At(ix, iy).v, g.At(ix + 1, iy).v, g.At(ix, iy + 1).v, g.At(ix + 1, iy + 1).v,
            lonL, lonL + g.dx, Parallel(g, iy as real), Parallel(g, (iy + 1) as real), e)
  }

  datatype CellArc = CellArc(ix: nat, iy: nat, k: nat, arc: Arc)

  function Tagged(ix: nat, iy: nat, k: nat, arcs: seq<Arc>): seq<CellArc> {
    if arcs == [] then [] else [CellArc(ix, iy, k, arcs[0])] + Tagged(ix, iy, k, arcs[1..])
  }

  /** The arcs of a cell at its first n levels, of the first n cells of a row, of the first n rows. */
  function CellArcs(g: Grid, ix: nat, iy: nat, n: nat): seq<CellArc>
    requires g.Usable()
  {
    if n == 0 || !g.ValidCell(ix, iy) then []
    else CellArcs(g, ix, iy, n - 1) + Tagged(ix, iy, n - 1, g.Arcs(ix, iy, n - 1))
  }

  function RowArcs(g: Grid, iy: nat, n: nat): seq<CellArc>
    requires g.Usable()
  {
    if n == 0 then [] else RowArcs(g, iy, n - 1) + CellArcs(g, n - 1, iy, LEVELS)
  }

  function GridArcs(g: Grid, n: nat): seq<CellArc>
    requires g.Usable()
  {
    if n == 0 then [] else GridArcs(g, n - 1) + RowArcs(g, n - 1, g.nx - 1)
  }

  // ---- Watertight ---------------------------------------------------------------------------

  /** The grid's own edges: from a grid point to the next one east, or to the next one south. */
  datatype GridEdge = East(x: int, y: int) | South(x: int, y: int)

  function EdgeOf(ix: nat, iy: nat, e: Edge): GridEdge {
    match e
    case Top => East(ix, iy)
    case Bottom => East(ix, iy + 1)
    case Left => South(ix, iy)
    case Right => South(ix + 1, iy)
  }

  predicate InGrid(g: Grid, e: GridEdge) {
    match e
    case East(x, y) => 0 <= x < g.nx - 1 && 0 <= y < g.ny
    case South(x, y) => 0 <= x < g.nx && 0 <= y < g.ny - 1
  }

  function FirstEnd(g: Grid, e: GridEdge): Reading
    requires g.Usable() && InGrid(g, e)
  {
    g.At(e.x, e.y)
  }

  function SecondEnd(g: Grid, e: GridEdge): Reading
    requires g.Usable() && InGrid(g, e)
  {
    match e case East(x, y) => g.At(x + 1, y) case South(x, y) => g.At(x, y + 1)
  }

  /** The edge's ends lie on different sides of the level. */
  predicate Straddles(g: Grid, e: GridEdge, k: nat)
    requires g.Usable() && InGrid(g, e)
  {
    Above(FirstEnd(g, e), Level(k)) != Above(SecondEnd(g, e), Level(k))
  }

  /** How many ends of the arcs of level k lie on an edge. */
  function Ends(arcs: seq<CellArc>, e: GridEdge, k: nat): nat {
    if arcs == [] then 0 else
    var a := arcs[0];
    (if a.k == k then Bit(EdgeOf(a.ix, a.iy, a.arc.from) == e) + Bit(EdgeOf(a.ix, a.iy, a.arc.to) == e) else 0)
    + Ends(arcs[1..], e, k)
  }

  /** Of the cell (ix, iy), whether it adjoins the edge and is contoured. */
  function Side(g: Grid, e: GridEdge, ix: int, iy: int): nat
    requires g.Usable()
  {
    match e
    case East(x, y) => Bit(ix == x && (iy == y || iy == y - 1) && g.ValidCell(ix, iy))
    case South(x, y) => Bit((ix == x || ix == x - 1) && iy == y && g.ValidCell(ix, iy))
  }

  /** The number of contoured cells that adjoin an edge: at most two. */
  function Sides(g: Grid, e: GridEdge): nat
    requires g.Usable()
  {
    match e
    case East(x, y) => Side(g, e, x, y) + Side(g, e, x, y - 1)
    case South(x, y) => Side(g, e, x, y) + Side(g, e, x - 1, y)
  }

  lemma {:induction false} EndsAppend(a: seq<CellArc>, b: seq<CellArc>, e: GridEdge, k: nat)
    ensures Ends(a + b, e, k) == Ends(a, e, k) + Ends(b, e, k)
  {
    if a == [] {
      assert a + b == b;
    } else {
      assert (a + b)[1..] == a[1..] + b;
      EndsAppend(a[1..], b, e, k);
    }
  }

  /** The arcs of another level, or of a cell away from the edge, have no ends on it ... */
  lemma {:induction false} NoEnds(ix: nat, iy: nat, j: nat, arcs: seq<Arc>, e: GridEdge, k: nat)
    requires j != k || forall s :: EdgeOf(ix, iy, s) != e
    ensures Ends(Tagged(ix, iy, j, arcs), e, k) == 0
  {
    if arcs == [] {
    } else {
      NoEnds(ix, iy, j, arcs[1..], e, k);
    }
  }

  /** ... and those of a cell beside it have as many as on the cell's own edge there. */
  lemma {:induction false} EndsBeside(ix: nat, iy: nat, k: nat, arcs: seq<Arc>, s: Edge)
    ensures Ends(Tagged(ix, iy, k, arcs), EdgeOf(ix, iy, s), k) == EndsAt(arcs, s)
  {
    if arcs == [] {
    } else {
      EndsBeside(ix, iy, k, arcs[1..], s);
    }
  }

  lemma NotBeside(g: Grid, e: GridEdge, ix: nat, iy: nat)
    requires g.Usable() && forall s :: EdgeOf(ix, iy, s) != e
    ensures Side(g, e, ix, iy) == 0
  {
    hide Grid.ValidCell;
    var top, bottom, left, right := EdgeOf(ix, iy, Top), EdgeOf(ix, iy, Bottom), EdgeOf(ix, iy, Left), EdgeOf(ix, iy, Right);
  }

  lemma LevelEnds(g: Grid, ix: nat, iy: nat, j: nat, e: GridEdge, k: nat)
    requires g.Usable() && g.ValidCell(ix, iy) && InGrid(g, e)
    ensures Ends(Tagged(ix, iy, j, g.Arcs(ix, iy, j)), e, k)
         == if j == k && Straddles(g, e, k) then Side(g, e, ix, iy) else 0
  {
    hide Ends, Tagged, EndsAt, MarchCell, Grid.At, Level;
    var arcs := g.Arcs(ix, iy, j);
    if j == k && exists s :: EdgeOf(ix, iy, s) == e {
      var s :| EdgeOf(ix, iy, s) == e;
      EndsBeside(ix, iy, k, arcs, s);
      OneEndPerCrossing(Level(k), g.At(ix, iy).v, g.At(ix + 1, iy).v, g.At(ix, iy + 1).v, g.At(ix + 1, iy + 1).v, s);
    } else {
      NoEnds(ix, iy, j, arcs, e, k);
      if j == k { NotBeside(g, e, ix, iy); }
    }
  }

  lemma {:induction false} CellEnds(g: Grid, ix: nat, iy: nat, n: nat, e: GridEdge, k: nat)
    requires g.Usable() && InGrid(g, e)
    ensures Ends(CellArcs(g, ix, iy, n), e, k) == if k < n && Straddles(g, e, k) then Side(g, e, ix, iy) else 0
  {
    hide Grid.Arcs, Straddles, Ends, InGrid;
    if n > 0 && g.ValidCell(ix, iy) {
      CellEnds(g, ix, iy, n - 1, e, k);
      LevelEnds(g, ix, iy, n - 1, e, k);
      EndsAppend(CellArcs(g, ix, iy, n - 1), Tagged(ix, iy, n - 1, g.Arcs(ix, iy, n - 1)), e, k);
    } else {
      NoArcsNoEnds(e, k);
    }
  }

  lemma NoArcsNoEnds(e: GridEdge, k: nat)
    ensures Ends([], e, k) == 0
  {}

  /** The contoured cells beside an edge in the first n cells of a row ... */
  function SidesInRow(g: Grid, e: GridEdge, iy: nat, n: nat): nat
    requires g.Usable()
  {
    if n == 0 then 0 else SidesInRow(g, e, iy, n - 1) + Side(g, e, n - 1, iy)
  }

  /** ... and in the first n rows. */
  function SidesInRows(g: Grid, e: GridEdge, n: nat): nat
    requires g.Usable()
  {
    if n == 0 then 0 else SidesInRows(g, e, n - 1) + SidesInRow(g, e, n - 1, g.nx - 1)
  }

  lemma {:induction false} RowEnds(g: Grid, iy: nat, n: nat, e: GridEdge, k: nat)
    requires g.Usable() && InGrid(g, e) && k < LEVELS
    ensures Ends(RowArcs(g, iy, n), e, k) == if Straddles(g, e, k) then SidesInRow(g, e, iy, n) else 0
  {
    hide Ends, CellArcs, Straddles, InGrid, Side;
    if n > 0 {
      RowEnds(g, iy, n - 1, e, k);
      CellEnds(g, n - 1, iy, LEVELS, e, k);
      EndsAppend(RowArcs(g, iy, n - 1), CellArcs(g, n - 1, iy, LEVELS), e, k);
    } else {
      NoArcsNoEnds(e, k);
    }
  }

  lemma {:induction false} RowsEnds(g: Grid, n: nat, e: GridEdge, k: nat)
    requires g.Usable() && InGrid(g, e) && k < LEVELS
    ensures Ends(GridArcs(g, n), e, k) == if Straddles(g, e, k) then SidesInRows(g, e, n) else 0
  {
    hide Ends, RowArcs, Straddles, InGrid, SidesInRow;
    if n > 0 {
      RowsEnds(g, n - 1, e, k);
      RowEnds(g, n - 1, g.nx - 1, e, k);
      EndsAppend(GridArcs(g, n - 1), RowArcs(g, n - 1, g.nx - 1), e, k);
    } else {
      NoArcsNoEnds(e, k);
    }
  }

  lemma {:induction false} RowSides(g: Grid, e: GridEdge, iy: nat, n: nat)
    requires g.Usable()
    ensures SidesInRow(g, e, iy, n) ==
      match e
      case East(x, y) => if x < n then Side(g, e, x, iy) else 0
      case South(x, y) => (if x < n then Side(g, e, x, iy) else 0) + (if x - 1 < n then Side(g, e, x - 1, iy) else 0)
  {
    if n == 0 {
    } else {
      RowSides(g, e, iy, n - 1);
    }
  }

  lemma {:induction false} AllSides(g: Grid, e: GridEdge, n: nat)
    requires g.Usable() && InGrid(g, e)
    ensures SidesInRows(g, e, n) ==
      match e
      case East(x, y) => (if y < n then Side(g, e, x, y) else 0) + (if y - 1 < n then Side(g, e, x, y - 1) else 0)
      case South(x, y) => if y < n then Side(g, e, x, y) + Side(g, e, x - 1, y) else 0
  {
    hide Grid.At, IsValid;
    if n == 0 {
    } else {
      AllSides(g, e, n - 1);
      RowSides(g, e, n - 1, g.nx - 1);
    }
  }

  /** Contours are watertight: at every level, an edge of the grid whose ends straddle the level
      takes exactly one arc end from each contoured cell beside it, and no other edge takes any. */
  lemma Watertight(g: Grid, e: GridEdge, k: nat)
    requires g.Usable() && InGrid(g, e) && k < LEVELS
    ensures Ends(GridArcs(g, g.ny - 1), e, k) == if Straddles(g, e, k) then Sides(g, e) else 0
  {
    hide Ends, GridArcs, Straddles, Grid.At, IsValid;
    RowsEnds(g, g.ny - 1, e, k);
    AllSides(g, e, g.ny - 1);
  }

  /** The crossing point of an edge, whichever cell it is seen from. */
  function EdgePoint(g: Grid, e: GridEdge, k: nat): Point
    requires g.Usable() && InGrid(g, e) && FirstEnd(g, e).Num? && SecondEnd(g, e).Num?
  {
    var t := Fraction(Level(k), FirstEnd(g, e).v, SecondEnd(g, e).v);
    match e
    case East(x, y) => Point(Meridian(g, x as real + t), Parallel(g, y as real))
    case South(x, y) => Point(Meridian(g, x as real), Parallel(g, y as real + t))
  }

  /** Every cell beside an edge draws its crossing at the same point, up to a turn of longitude. */
  lemma SamePoint(g: Grid, ix: nat, iy: nat, k: nat, s: Edge)
    requires g.Usable() && g.ValidCell(ix, iy)
    ensures var e, p := EdgeOf(ix, iy, s), CellPoint(g, ix, iy, k, s);
      && InGrid(g, e) && FirstEnd(g, e).Num? && SecondEnd(g, e).Num?
      && p.lat == EdgePoint(g, e, k).lat
      && (p.lon == EdgePoint(g, e, k).lon || p.lon == EdgePoint(g, e, k).lon - 360.0)
  {
    var e := EdgeOf(ix, iy, s);
    var t := Fraction(Level(k), FirstEnd(g, e).v, SecondEnd(g, e).v);
    East1(g, ix as real, t);
    East1(g, ix as real, 1.0);
    South1(g, iy as real, t);
    South1(g, iy as real, 1.0);
    hide Fraction, Level, Grid.At, Meridian, Parallel, Along, Back;
  }

  /** Part of a step east, from the meridian or from where a shifted cell puts it. */
  lemma East1(g: Grid, x: real, t: real)
    ensures Along(ShiftLon(Meridian(g, x)), t, g.dx) == Meridian(g, x + t) + ShiftLon(Meridian(g, x)) - Meridian(g, x)
    ensures t == 1.0 ==> Meridian(g, x + t) == Meridian(g, x) + g.dx
  {
    hide ShiftLon;
    Spread(x, t, g.dx);
  }

  lemma South1(g: Grid, y: real, t: real)
    ensures Back(Parallel(g, y), t, g.dy) == Parallel(g, y + t)
    ensures t == 1.0 ==> Parallel(g, y + t) == Parallel(g, y) - g.dy
  {
    Spread(y, t, g.dy);
  }

  lemma Spread(x: real, t: real, d: real)
    ensures (x + t) * d == x * d + t * d
  {}

  // ---- The scan -----------------------------------------------------------------------------

  datatype Feature = Feature(a: Point, b: Point, hPa: int)

  function Draw(g: Grid, ix: nat, iy: nat, k: nat, a: Arc): Feature
    requires g.Usable() && g.ValidCell(ix, iy)
  {
    Feature(CellPoint(g, ix, iy, k, a.from), CellPoint(g, ix, iy, k, a.to), MIN_HPA + k * STEP_HPA)
  }

  /** A segment is labelled with its level in hectopascals: an even number of them from 920 to 1064. */
  lemma DrawnLabel(g: Grid, ix: nat, iy: nat, k: nat, a: Arc)
    requires g.Usable() && g.ValidCell(ix, iy)
    ensures Draw(g, ix, iy, k, a).hPa as real * 100.0 == Level(k)
    ensures k < LEVELS ==> 920 <= Draw(g, ix, iy, k, a).hPa <= 1064 && Draw(g, ix, iy, k, a).hPa % 2 == 0
  {
    hide CellPoint;
    var hPa := Draw(g, ix, iy, k, a).hPa;
    assert (hPa * 100) as real == hPa as real * 100.0;
  }

  /** Every even number of hectopascals in that range is the level of some number. */
  lemma EveryLevel(hPa: int)
    requires 920 <= hPa <= 1064 && hPa % 2 == 0
    ensures var k := (hPa - 920) / 2; 0 <= k < LEVELS && Level(k) == hPa as real * 100.0
  {
    assert (hPa * 100) as real == hPa as real * 100.0;
  }

  predicate Drawable(g: Grid, arcs: seq<CellArc>)
    requires g.Usable()
  {
    forall i :: 0 <= i < |arcs| ==> g.ValidCell(arcs[i].ix, arcs[i].iy)
  }

  /** The features of arcs, one segment each. */
  function Drawn(g: Grid, arcs: seq<CellArc>): (fs: seq<Feature>)
    requires g.Usable() && Drawable(g, arcs)
    ensures |fs| == |arcs|
    ensures forall i :: 0 <= i < |arcs| ==> fs[i] == Draw(g, arcs[i].ix, arcs[i].iy, arcs[i].k, arcs[i].arc)
  {
    seq(|arcs|, i requires 0 <= i < |arcs| => Draw(g, arcs[i].ix, arcs[i].iy, arcs[i].k, arcs[i].arc))
  }

  /** What passes the filter on segments wider or taller than two cells: everything, unless the grid
      runs the wrong way. */
  function Kept(g: Grid, arcs: seq<CellArc>): seq<Feature>
    requires g.Usable() && Drawable(g, arcs)
  {
    if g.dx >= 0.0 && g.dy >= 0.0 then Drawn(g, arcs) else []
  }

  lemma {:induction false} CellDrawable(g: Grid, ix: nat, iy: nat, n: nat)
    requires g.Usable()
    ensures Drawable(g, CellArcs(g, ix, iy, n))
  {
    if n > 0 && g.ValidCell(ix, iy) {
      CellDrawable(g, ix, iy, n - 1);
      TaggedCells(ix, iy, n - 1, g.Arcs(ix, iy, n - 1));
    }
  }

  lemma {:induction false} TaggedCells(ix: nat, iy: nat, k: nat, arcs: seq<Arc>)
    ensures |Tagged(ix, iy, k, arcs)| == |arcs|
    ensures forall i :: 0 <= i < |arcs| ==> Tagged(ix, iy, k, arcs)[i] == CellArc(ix, iy, k, arcs[i])
  {
    if arcs == [] {
    } else {
      TaggedCells(ix, iy, k, arcs[1..]);
    }
  }

  lemma {:induction false} RowDrawable(g: Grid, iy: nat, n: nat)
    requires g.Usable()
    ensures Drawable(g, RowArcs(g, iy, n))
  {
    hide CellArcs, Grid.ValidCell;
    if n == 0 {
    } else {
      RowDrawable(g, iy, n - 1);
      CellDrawable(g, n - 1, iy, LEVELS);
    }
  }

  lemma {:induction false} GridDrawable(g: Grid, n: nat)
    requires g.Usable()
    ensures Drawable(g, GridArcs(g, n))
  {
    hide RowArcs, Grid.ValidCell;
    if n == 0 {
    } else {
      GridDrawable(g, n - 1);
      RowDrawable(g, n - 1, g.nx - 1);
    }
  }

  lemma KeptAppend(g: Grid, a: seq<CellArc>, b: seq<CellArc>)
    requires g.Usable() && Drawable(g, a) && Drawable(g, b)
    ensures Drawable(g, a + b) && Kept(g, a + b) == Kept(g, a) + Kept(g, b)
  {
    hide Draw, Grid.ValidCell;
  }

  predicate TooLong(g: Grid, f: Feature) {
    RealAbs(f.a.lon - f.b.lon) > g.dx * 2.0 || RealAbs(f.a.lat - f.b.lat) > g.dy * 2.0
  }

  /** An edge's crossing point lies in the cell. */
  lemma CrossingInCell(level: real, tl: real, tr: real, bl: real, br: real, lonL: real, latT: real, dx: real, dy: real, s: Edge)
    requires CrossesEdge(level, tl, tr, bl, br, s) && dx >= 0.0 && dy >= 0.0
    ensures var p := PointOf(level, tl, tr, bl, br, lonL, lonL + dx, latT, latT - dy, s);
      0.0 <= p.lon - lonL <= dx && 0.0 <= latT - p.lat <= dy
  {
    hide Fraction, Along, Back;
    match s {
      case Top => CrossingOnEdge(level, tl, tr); Within(lonL, Fraction(level, tl, tr), dx);
      case Right => CrossingOnEdge(level, tr, br); Within(latT, Fraction(level, tr, br), dy);
      case Bottom => CrossingOnEdge(level, bl, br); Within(lonL, Fraction(level, bl, br), dx);
      case Left => CrossingOnEdge(level, tl, bl); Within(latT, Fraction(level, tl, bl), dy);
    }
  }

  lemma Within(from: real, t: real, d: real)
    requires 0.0 <= t <= 1.0 && d >= 0.0
    ensures from <= Along(from, t, d) <= from + d && from - d <= Back(from, t, d) <= from
  {
    assert t * d >= 0.0 && (1.0 - t) * d >= 0.0;
    assert (1.0 - t) * d == d - t * d;
  }

  lemma InCell(g: Grid, ix: nat, iy: nat, k: nat, a: Arc, s: Edge)
    requires g.Usable() && g.ValidCell(ix, iy) && a in g.Arcs(ix, iy, k) && (s == a.from || s == a.to)
    requires g.dx >= 0.0 && g.dy >= 0.0
    ensures var p := CellPoint(g, ix, iy, k, s);
      && 0.0 <= p.lon - ShiftLon(Meridian(g, ix as real)) <= g.dx
      && 0.0 <= Parallel(g, iy as real) - p.lat <= g.dy
  {
    South1(g, iy as real, 1.0);
    hide ShiftLon, Level, PointOf, MarchCell, EndsAt, Grid.At, CrossesEdge, Meridian, Parallel, Back;
    var tl, tr, bl, br := g.At(ix, iy).v, g.At(ix + 1, iy).v, g.At(ix, iy + 1).v, g.At(ix + 1, iy + 1).v;
    EndsSomewhere(g.Arcs(ix, iy, k), a);
    OneEndPerCrossing(Level(k), tl, tr, bl, br, s);
    CrossingInCell(Level(k), tl, tr, bl, br, ShiftLon(Meridian(g, ix as real)), Parallel(g, iy as real), g.dx, g.dy, s);
    assert Parallel(g, (iy + 1) as real) == Parallel(g, iy as real) - g.dy;
  }

  /** The filter never drops a segment of a grid that runs east and south. */
  lemma FilterDropsNothing(g: Grid, ix: nat, iy: nat, k: nat, a: Arc)
    requires g.Usable() && g.ValidCell(ix, iy) && a in g.Arcs(ix, iy, k)
    ensures TooLong(g, Draw(g, ix, iy, k, a)) <==> g.dx < 0.0 || g.dy < 0.0
  {
    hide CellPoint, Grid.Arcs, Grid.ValidCell;
    if g.dx >= 0.0 && g.dy >= 0.0 {
      InCell(g, ix, iy, k, a, a.from);
      InCell(g, ix, iy, k, a, a.to);
    }
  }

  /** The early reject drops nothing: a level outside the corners' range crosses no edge. */
  lemma RejectDropsNothing(level: real, tl: real, tr: real, bl: real, br: real)
    requires (level < tl && level < tr && level < bl && level < br) || (level >= tl && level >= tr && level >= bl && level >= br)
    ensures MarchCell(level, tl, tr, bl, br) == []
  {}

  /** The segments of one cell at one level that pass the filter. */
  method KeepSegments(g: Grid, ix: nat, iy: nat, k: nat, arcs: seq<Arc>) returns (fs: seq<Feature>)
    requires g.Usable() && g.ValidCell(ix, iy) && arcs == g.Arcs(ix, iy, k)
    ensures Drawable(g, Tagged(ix, iy, k, arcs)) && fs == Kept(g, Tagged(ix, iy, k, arcs))
  {
    hide Draw, Grid.ValidCell, Grid.Arcs, TooLong;
    TaggedCells(ix, iy, k, arcs);
    ghost var all := Tagged(ix, iy, k, arcs);
    fs := [];
    var i := 0;
    while i < |arcs|
      invariant 0 <= i <= |arcs| && fs == Kept(g, all[..i])
    {
      var f := Draw(g, ix, iy, k, arcs[i]);
      FilterDropsNothing(g, ix, iy, k, arcs[i]);
      KeptAppend(g, all[..i], [all[i]]);
      assert all[..i + 1] == all[..i] + [all[i]];
      if !TooLong(g, f) { fs := fs + [f]; }
      i := i + 1;
    }
    assert all[..i] == all;
  }

  method Least(tl: real, tr: real, bl: real, br: real) returns (least: real)
    ensures least <= tl && least <= tr && least <= bl && least <= br
  {
    least := tl;
    if tr < least { least := tr; }
    if bl < least { least := bl; }
    if br < least { least := br; }
  }

  method Greatest(tl: real, tr: real, bl: real, br: real) returns (greatest: real)
    ensures greatest >= tl && greatest >= tr && greatest >= bl && greatest >= br
  {
    greatest := tl;
    if tr > greatest { greatest := tr; }
    if bl > greatest { greatest := bl; }
    if br > greatest { greatest := br; }
  }

  /** One level of a cell, unless its corners rule it out. */
  method ContourLevel(g: Grid, ix: nat, iy: nat, k: nat, cellMin: real, cellMax: real) returns (fs: seq<Feature>)
    requires g.Usable() && g.ValidCell(ix, iy)
    requires cellMin <= g.At(ix, iy).v <= cellMax && cellMin <= g.At(ix + 1, iy).v <= cellMax
    requires cellMin <= g.At(ix, iy + 1).v <= cellMax && cellMin <= g.At(ix + 1, iy + 1).v <= cellMax
    ensures Drawable(g, Tagged(ix, iy, k, g.Arcs(ix, iy, k))) && fs == Kept(g, Tagged(ix, iy, k, g.Arcs(ix, iy, k)))
  {
    var level := Level(k);
    hide Level, MarchCell, Grid.At, Kept, Tagged, Drawable;
    var tl, tr, bl, br := g.At(ix, iy).v, g.At(ix + 1, iy).v, g.At(ix, iy + 1).v, g.At(ix + 1, iy + 1).v;
    if level < cellMin || level > cellMax {
      RejectDropsNothing(level, tl, tr, bl, br);
      NothingTagged(ix, iy, k);
      NothingKept(g);
      return [];
    }
    fs := KeepSegments(g, ix, iy, k, MarchCell(level, tl, tr, bl, br));
  }

  /** All levels of one cell. */
  method ContourCell(g: Grid, ix: nat, iy: nat) returns (out: seq<Feature>)
    requires g.Usable() && ix < g.nx - 1 && iy < g.ny - 1
    ensures Drawable(g, CellArcs(g, ix, iy, LEVELS)) && out == Kept(g, CellArcs(g, ix, iy, LEVELS))
  {
    hide Draw, Level, MarchCell, Kept, Tagged, Drawable;
    NothingKept(g);
    out := [];
    if !IsValid(g.At(ix, iy)) || !IsValid(g.At(ix + 1, iy)) || !IsValid(g.At(ix, iy + 1)) || !IsValid(g.At(ix + 1, iy + 1)) {
      return;
    }
    var tl, tr, bl, br := g.At(ix, iy).v, g.At(ix + 1, iy).v, g.At(ix, iy + 1).v, g.At(ix + 1, iy + 1).v;
    var cellMin := Least(tl, tr, bl, br);
    var cellMax := Greatest(tl, tr, bl, br);
    assert g.ValidCell(ix, iy);
    var li := 0;
    while li < LEVELS
      invariant 0 <= li <= LEVELS && Drawable(g, CellArcs(g, ix, iy, li)) && out == Kept(g, CellArcs(g, ix, iy, li))
    {
      hide Grid.ValidCell, Grid.Arcs, Grid.At;
      var fs := ContourLevel(g, ix, iy, li, cellMin, cellMax);
      KeptAppend(g, CellArcs(g, ix, iy, li), Tagged(ix, iy, li, g.Arcs(ix, iy, li)));
      out := out + fs;
      li := li + 1;
    }
  }

  lemma NothingKept(g: Grid)
    requires g.Usable()
    ensures Drawable(g, []) && Kept(g, []) == []
  {}

  lemma NothingTagged(ix: nat, iy: nat, k: nat)
    ensures Tagged(ix, iy, k, []) == []
  {}

  method ContourRow(g: Grid, iy: nat) returns (row: seq<Feature>)
    requires g.Usable() && iy < g.ny - 1
    ensures Drawable(g, RowArcs(g, iy, g.nx - 1)) && row == Kept(g, RowArcs(g, iy, g.nx - 1))
  {
    hide Draw, Kept, CellArcs, Drawable;
    NothingKept(g);
    row := [];
    var ix := 0;
    while ix < g.nx - 1
      invariant 0 <= ix <= g.nx - 1 && Drawable(g, RowArcs(g, iy, ix)) && row == Kept(g, RowArcs(g, iy, ix))
    {
      hide Grid.Usable;
      var cell := ContourCell(g, ix, iy);
      KeptAppend(g, RowArcs(g, iy, ix), CellArcs(g, ix, iy, LEVELS));
      row := row + cell;
      ix := ix + 1;
    }
  }

  /** `contourLatLonGrid`: the arcs of the whole grid, unless it runs the wrong way. */
  method ContourLatLonGrid(g: Grid) returns (out: seq<Feature>)
    ensures !g.Usable() ==> out == []
    ensures g.Usable() ==> Drawable(g, GridArcs(g, g.ny - 1)) && out == Kept(g, GridArcs(g, g.ny - 1))
  {
    hide Draw, Kept, RowArcs, Drawable;
    out := [];
    if g.nx < 2 || g.ny < 2 || |g.data| < g.nx * g.ny { return; }
    NothingKept(g);
    var iy := 0;
    while iy < g.ny - 1
      invariant 0 <= iy <= g.ny - 1 && Drawable(g, GridArcs(g, iy)) && out == Kept(g, GridArcs(g, iy))
    {
      hide Grid.Usable;
      var row := ContourRow(g, iy);
      KeptAppend(g, GridArcs(g, iy), RowArcs(g, iy, g.nx - 1));
      out := out + row;
      iy := iy + 1;
    }
  }
}
