/** The two-pass 5-7-11 chamfer transform (render/autoroute_grid.go, `chamferDistance`), in fifths
    of a cell so that its weights 5/5, 7/5 and 11/5 are the integers 5, 7 and 11. */
module Chamfer {
  import opened Common
  import opened Charts

  /** The code's 1e9 cells, "no source seen yet", in fifths. */
  const INFINITE: int := 5_000_000_000

  /** The 5-7-11 norm of an offset. */
  function Norm(dx: int, dy: int): int {
    var a, b := Max(Abs(dx), Abs(dy)), if Abs(dx) < Abs(dy) then Abs(dx) else Abs(dy);
    if a >= 2 * b then 5 * a + b else 4 * a + 3 * b
  }

  datatype Step = Step(dx: int, dy: int, weight: int)

  const FORWARD: seq<Step> := [
    Step(-1, 0, 5), Step(0, -1, 5), Step(-1, -1, 7), Step(1, -1, 7),
    Step(-2, -1, 11), Step(-1, -2, 11), Step(1, -2, 11), Step(2, -1, 11)
  ]

  const BACKWARD: seq<Step> := [
    Step(1, 0, 5), Step(0, 1, 5), Step(1, 1, 7), Step(-1, 1, 7),
    Step(2, 1, 11), Step(1, 2, 11), Step(-1, 2, 11), Step(-2, 1, 11)
  ]

  /** The norm is the greatest of four weighings of the axis offsets. */
  lemma NormIsGreatest(x: int, y: int)
    ensures var a, b := Abs(x), Abs(y);
      && 5 * a + b <= Norm(x, y) && a + 5 * b <= Norm(x, y)
      && 4 * a + 3 * b <= Norm(x, y) && 3 * a + 4 * b <= Norm(x, y)
      && (Norm(x, y) == 5 * a + b || Norm(x, y) == a + 5 * b
          || Norm(x, y) == 4 * a + 3 * b || Norm(x, y) == 3 * a + 4 * b)
  {}

  /** No chain of moves beats the norm. */
  lemma NormTriangle(x: int, y: int, u: int, v: int)
    ensures Norm(x + u, y + v) <= Norm(x, y) + Norm(u, v)
  {
    hide Norm, Abs;
    NormIsGreatest(x, y);
    NormIsGreatest(u, v);
    NormIsGreatest(x + u, y + v);
    AbsTriangle(x, u);
    AbsTriangle(y, v);
  }

  lemma AbsTriangle(x: int, u: int)
    ensures 0 <= Abs(x + u) <= Abs(x) + Abs(u)
  {}

  lemma StepIsItsNorm(s: Step)
    requires s in FORWARD || s in BACKWARD
    ensures Norm(-s.dx, -s.dy) == s.weight > 0
  {}

  /** The offsets reached from a source by forward moves alone. */
  predicate Ahead(dx: int, dy: int) {
    (dy > 0 && dx >= -2 * dy) || (dy == 0 && dx >= 0)
  }

  /** The move that leads back from an offset towards its source. */
  function Towards(dx: int, dy: int): Step
    requires dx != 0 || dy != 0
  {
    var a, b := Abs(dx), Abs(dy);
    var sx, sy := if dx > 0 then -1 else 1, if dy > 0 then -1 else 1;
    if b == 0 then Step(sx, 0, 5)
    else if a == 0 then Step(0, sy, 5)
    else if a == b then Step(sx, sy, 7)
    else if a < b then Step(sx, 2 * sy, 11)
    else if dy > 0 && dx < -2 * dy then Step(1, 0, 5)
    else Step(2 * sx, sy, 11)
  }

  /** It is a forward move where forward moves alone lead, and a backward one elsewhere. */
  lemma TowardsSwept(dx: int, dy: int)
    requires dx != 0 || dy != 0
    ensures var s := Towards(dx, dy);
      if Ahead(dx, dy) then s in FORWARD && Ahead(dx + s.dx, dy + s.dy) else s in BACKWARD
  {
    if Ahead(dx, dy) {
      assert Step(-1, 0, 5) == FORWARD[0] && Step(0, -1, 5) == FORWARD[1];
      assert Step(-1, -1, 7) == FORWARD[2] && Step(1, -1, 7) == FORWARD[3];
      assert Step(-2, -1, 11) == FORWARD[4] && Step(-1, -2, 11) == FORWARD[5];
      assert Step(1, -2, 11) == FORWARD[6] && Step(2, -1, 11) == FORWARD[7];
    } else {
      assert Step(1, 0, 5) == BACKWARD[0] && Step(0, 1, 5) == BACKWARD[1];
      assert Step(1, 1, 7) == BACKWARD[2] && Step(-1, 1, 7) == BACKWARD[3];
      assert Step(2, 1, 11) == BACKWARD[4] && Step(1, 2, 11) == BACKWARD[5];
      assert Step(-1, 2, 11) == BACKWARD[6] && Step(-2, 1, 11) == BACKWARD[7];
    }
  }

  /** It makes up its weight in norm, and stays within the box of the offset, so that the borders
      of the grid never get in its way. */
  lemma TowardsShortens(dx: int, dy: int)
    requires dx != 0 || dy != 0
    ensures var s := Towards(dx, dy);
      && Norm(dx + s.dx, dy + s.dy) == Norm(dx, dy) - s.weight
      && (0 <= dx + s.dx <= dx || dx <= dx + s.dx <= 0) && (0 <= dy + s.dy <= dy || dy <= dy + s.dy <= 0)
  {
    hide Norm, NormOf, Towards, Abs, Shortened;
    var s := Towards(dx, dy);
    NormByParts(dx, dy);
    NormByParts(dx + s.dx, dy + s.dy);
    TowardsParts(dx, dy);
    PartsShorten(Abs(dx), Abs(dy), Abs(dx + s.dx), Abs(dy + s.dy), s.weight);
  }

  /** The sides of the box of an offset, before and after the move. */
  predicate Shortened(a: int, b: int, p: int, q: int, weight: int) {
    && a >= 0 && b >= 0 && p >= 0 && q >= 0
    && if a == 0 || b == 0 then weight == 5 && p + q == a + b - 1 && (p == 0 || q == 0)
       else if weight == 5 then a > 2 * b && p == a - 1 && q == b
       else if a == b then weight == 7 && p == a - 1 && q == b - 1
       else weight == 11 && if a < b then p == a - 1 && q == b - 2 else p == a - 2 && q == b - 1
  }

  lemma TowardsParts(dx: int, dy: int)
    requires dx != 0 || dy != 0
    ensures var s := Towards(dx, dy);
      && (0 <= dx + s.dx <= dx || dx <= dx + s.dx <= 0) && (0 <= dy + s.dy <= dy || dy <= dy + s.dy <= 0)
      && Shortened(Abs(dx), Abs(dy), Abs(dx + s.dx), Abs(dy + s.dy), s.weight)
  {}

  /** The norm by those sides. */
  function NormOf(a: int, b: int): int {
    if a >= 2 * b then 5 * a + b else if b >= 2 * a then 5 * b + a else if a >= b then 4 * a + 3 * b else 4 * b + 3 * a
  }

  lemma NormByParts(dx: int, dy: int)
    ensures Norm(dx, dy) == NormOf(Abs(dx), Abs(dy))
  {}

  lemma PartsShorten(a: int, b: int, p: int, q: int, weight: int)
    requires Shortened(a, b, p, q, weight)
    ensures NormOf(p, q) == NormOf(a, b) - weight
  {}

  // ---- What a cell should hold --------------------------------------------------------------

  function Offset(nx: int, source: int, cell: int): (int, int)
    requires nx > 0
  {
    (Col(nx, cell) - Col(nx, source), Row(nx, cell) - Row(nx, source))
  }

  /** The norm of the way from one cell to another. */
  function Distance(nx: int, source: int, cell: int): int
    requires nx > 0
  {
    Norm(Offset(nx, source, cell).0, Offset(nx, source, cell).1)
  }

  ghost predicate IsSource(src: seq<bool>, s: int) { 0 <= s < |src| && src[s] }

  /** `v` is no more than the distance from any source. */
  ghost predicate NoMoreThanAny(nx: int, src: seq<bool>, cell: int, v: int)
    requires nx > 0
  {
    forall s :: IsSource(src, s) ==> v <= Distance(nx, s, cell)
  }

  /** `v` is still infinite, or no less than the distance from some source. */
  ghost predicate Earned(nx: int, src: seq<bool>, cell: int, v: int)
    requires nx > 0
  {
    v == INFINITE || (v < INFINITE && exists s :: IsSource(src, s) && Distance(nx, s, cell) <= v)
  }

  /** As `NoMoreThanAny`, for the sources that forward moves alone lead from. */
  ghost predicate NoMoreThanAhead(nx: int, src: seq<bool>, cell: int, v: int)
    requires nx > 0
  {
    forall s :: IsSource(src, s) && Ahead(Offset(nx, s, cell).0, Offset(nx, s, cell).1) ==> v <= Distance(nx, s, cell)
  }

  /** The exact answer: the least distance from a source, or infinity when none is in reach. */
  ghost predicate IsNearest(nx: int, src: seq<bool>, cell: int, v: int)
    requires nx > 0
  {
    && v <= INFINITE && NoMoreThanAny(nx, src, cell, v)
    && (v < INFINITE ==> exists s :: IsSource(src, s) && Distance(nx, s, cell) == v)
  }

  // ---- The code -----------------------------------------------------------------------------

  ghost predicate Sized(nx: int, ny: int, src: seq<bool>, d: seq<int>) {
    0 < nx && 0 < ny && |src| == |d| == nx * ny
  }

  ghost predicate AllEarned(nx: int, src: seq<bool>, d: seq<int>)
    requires nx > 0
  {
    forall i :: 0 <= i < |d| ==> Earned(nx, src, i, d[i])
  }

  /** The cell a step leads to, when it lies in the grid. */
  predicate StepsTo(nx: int, ny: int, i: int, o: Step, j: int)
    requires nx > 0
  {
    && 0 <= Col(nx, i) + o.dx < nx && 0 <= Row(nx, i) + o.dy < ny
    && j == Index(nx, Col(nx, i) + o.dx, Row(nx, i) + o.dy)
  }

  /** The value `relax` leaves in cell i: its own, or that of a neighbour plus the step. */
  ghost predicate IsRelaxed(nx: int, ny: int, d: seq<int>, i: int, offsets: seq<Step>, n: int, v: int)
    requires 0 < nx && |d| == nx * ny && 0 <= i < |d| && 0 <= n <= |offsets|
  {
    && v <= d[i]
    && (forall k, j :: 0 <= k < n && 0 <= j < |d| && StepsTo(nx, ny, i, offsets[k], j) ==> v <= d[j] + offsets[k].weight)
    && (v == d[i] || exists k, j ::
          0 <= k < n && 0 <= j < |d| && StepsTo(nx, ny, i, offsets[k], j) && v == d[j] + offsets[k].weight)
  }

  lemma RelaxedFurther(nx: int, ny: int, d: seq<int>, i: int, offsets: seq<Step>, n: int, v: int, j: int, w: int)
    requires 0 < nx && 0 < ny && |d| == nx * ny && 0 <= i < |d| && 0 <= n < |offsets|
    requires IsRelaxed(nx, ny, d, i, offsets, n, v)
    requires if 0 <= j < |d| && StepsTo(nx, ny, i, offsets[n], j)
             then w == if d[j] + offsets[n].weight < v then d[j] + offsets[n].weight else v
             else w == v && forall j' :: !StepsTo(nx, ny, i, offsets[n], j')
    ensures IsRelaxed(nx, ny, d, i, offsets, n + 1, w)
  {
    hide Index, Col, Row;
    forall k, j' | 0 <= k < n + 1 && 0 <= j' < |d| && StepsTo(nx, ny, i, offsets[k], j')
      ensures w <= d[j'] + offsets[k].weight
    {
      if k == n { assert j' == j; }
    }
  }

  /** `relax`: the least of a cell's own value and those its neighbours at the given offsets lead
      to. */
  method BestOf(nx: int, ny: int, d: array<int>, ix: int, iy: int, offsets: seq<Step>) returns (best: int)
    requires 0 < nx && 0 < ny && d.Length == nx * ny && 0 <= ix < nx && 0 <= iy < ny
    ensures 0 <= Index(nx, ix, iy) < nx * ny
    ensures IsRelaxed(nx, ny, d[..], Index(nx, ix, iy), offsets, |offsets|, best)
  {
    IndexOf(nx, ny, ix, iy);
    hide Index, Col, Row, IsRelaxed;
    var i := Index(nx, ix, iy);
    best := d[i];
    NothingRelaxed(nx, ny, d[..], i, offsets);
    var k := 0;
    while k < |offsets|
      invariant 0 <= k <= |offsets| && IsRelaxed(nx, ny, d[..], i, offsets, k, best)
    {
      var o := offsets[k];
      var jx, jy := ix + o.dx, iy + o.dy;
      ghost var j, was := Index(nx, jx, jy), best;
      if !(jx < 0 || jy < 0 || jx >= nx || jy >= ny) {
        IndexOf(nx, ny, jx, jy);
        var v := d[Index(nx, jx, jy)] + o.weight;
        if v < best { best := v; }
      }
      RelaxedFurther(nx, ny, d[..], i, offsets, k, was, j, best);
      k := k + 1;
    }
  }

  lemma NothingRelaxed(nx: int, ny: int, d: seq<int>, i: int, offsets: seq<Step>)
    requires 0 < nx && |d| == nx * ny && 0 <= i < |d|
    ensures IsRelaxed(nx, ny, d, i, offsets, 0, d[i])
  {}

  // ---- One relaxation -----------------------------------------------------------------------

  ghost predicate SourcesAreZero(src: seq<bool>, d: seq<int>) {
    forall s :: IsSource(src, s) && s < |d| ==> d[s] <= 0
  }

  lemma DistanceToSelf(nx: int, s: int)
    requires nx > 0
    ensures Distance(nx, s, s) == 0
  {}

  /** The cell one move towards a source: it is in the grid, nearer by the weight of the move,
      and on the side already swept. */
  lemma TowardsSource(nx: int, ny: int, s: int, i: int) returns (j: int, o: Step)
    requires 0 < nx && 0 < ny && 0 <= s < nx * ny && 0 <= i < nx * ny && s != i
    ensures 0 <= j < nx * ny && StepsTo(nx, ny, i, o, j)
    ensures Distance(nx, s, j) + o.weight == Distance(nx, s, i)
    ensures var v, w := Offset(nx, s, i), Offset(nx, s, j);
      if Ahead(v.0, v.1) then o in FORWARD && j < i && Ahead(w.0, w.1) else o in BACKWARD && i < j
  {
    hide Norm, Ahead, Towards;
    CellOf(nx, ny, s);
    CellOf(nx, ny, i);
    var v := Offset(nx, s, i);
    o := Towards(v.0, v.1);
    TowardsSwept(v.0, v.1);
    TowardsShortens(v.0, v.1);
    IndexOf(nx, ny, Col(nx, i) + o.dx, Row(nx, i) + o.dy);
    j := Index(nx, Col(nx, i) + o.dx, Row(nx, i) + o.dy);
    SweepOrder(nx, ny, i, o, j);
  }

  lemma SweepOrder(nx: int, ny: int, i: int, o: Step, j: int)
    requires 0 < nx && 0 <= i < nx * ny && StepsTo(nx, ny, i, o, j)
    ensures o in FORWARD ==> j < i
    ensures o in BACKWARD ==> i < j
  {
    CellOf(nx, ny, i);
    var y, z := Row(nx, i), Row(nx, i) + o.dy;
    if z < y { LaterRow(nx, z, y); } else if y < z { LaterRow(nx, y, z); }
    assert o in FORWARD ==> z < y || (z == y && o.dx < 0);
    assert o in BACKWARD ==> y < z || (z == y && o.dx > 0);
    hide Col, Row;
  }

  lemma EarnedStep(nx: int, ny: int, src: seq<bool>, i: int, o: Step, j: int, v: int)
    requires 0 < nx && 0 <= i < nx * ny && 0 <= j < nx * ny && StepsTo(nx, ny, i, o, j)
    requires (o in FORWARD || o in BACKWARD) && Earned(nx, src, j, v) && v + o.weight <= INFINITE
    ensures Earned(nx, src, i, v + o.weight)
  {
    hide Norm, Ahead, IsSource;
    StepIsItsNorm(o);
    var s :| IsSource(src, s) && Distance(nx, s, j) <= v;
    CellOf(nx, ny, i);
    IndexOf(nx, ny, Col(nx, i) + o.dx, Row(nx, i) + o.dy);
    var w := Offset(nx, s, j);
    NormTriangle(w.0, w.1, -o.dx, -o.dy);
  }

  lemma RelaxedIsEarned(nx: int, ny: int, src: seq<bool>, d: seq<int>, i: int, offsets: seq<Step>, v: int)
    requires Sized(nx, ny, src, d) && 0 <= i < |d| && AllEarned(nx, src, d)
    requires (offsets == FORWARD || offsets == BACKWARD) && IsRelaxed(nx, ny, d, i, offsets, |offsets|, v)
    ensures Earned(nx, src, i, v)
  {
    hide Distance, IsSource, StepsTo;
    assert Earned(nx, src, i, d[i]);
    if v != d[i] {
      var k, j :| 0 <= k < |offsets| && 0 <= j < |d| && StepsTo(nx, ny, i, offsets[k], j) && v == d[j] + offsets[k].weight;
      assert Earned(nx, src, j, d[j]);
      EarnedStep(nx, ny, src, i, offsets[k], j, d[j]);
    }
  }

  ghost predicate SweptForward(nx: int, src: seq<bool>, d: seq<int>, i: int)
    requires nx > 0
  {
    forall p :: 0 <= p < i && p < |d| ==> NoMoreThanAhead(nx, src, p, d[p])
  }

  ghost predicate SweptBackward(nx: int, src: seq<bool>, d: seq<int>, i: int)
    requires nx > 0
  {
    forall p :: i < p < |d| && 0 <= p ==> NoMoreThanAny(nx, src, p, d[p])
  }

  lemma ForwardStep(nx: int, ny: int, src: seq<bool>, d: seq<int>, i: int, v: int)
    requires Sized(nx, ny, src, d) && 0 <= i < |d| && SourcesAreZero(src, d)
    requires SweptForward(nx, src, d, i) && IsRelaxed(nx, ny, d, i, FORWARD, |FORWARD|, v)
    ensures NoMoreThanAhead(nx, src, i, v)
  {
    hide Distance, Offset, Ahead, StepsTo;
    forall s | IsSource(src, s) && Ahead(Offset(nx, s, i).0, Offset(nx, s, i).1) ensures v <= Distance(nx, s, i) {
      if s == i {
        DistanceToSelf(nx, s);
      } else {
        var j, o := TowardsSource(nx, ny, s, i);
        var k :| 0 <= k < |FORWARD| && FORWARD[k] == o;
        assert NoMoreThanAhead(nx, src, j, d[j]);
      }
    }
  }

  lemma BackwardStep(nx: int, ny: int, src: seq<bool>, d: seq<int>, i: int, v: int)
    requires Sized(nx, ny, src, d) && 0 <= i < |d| && SourcesAreZero(src, d)
    requires SweptBackward(nx, src, d, i) && NoMoreThanAhead(nx, src, i, d[i])
    requires IsRelaxed(nx, ny, d, i, BACKWARD, |BACKWARD|, v)
    ensures NoMoreThanAny(nx, src, i, v)
  {
    hide Distance, Offset, Ahead, StepsTo;
    forall s | IsSource(src, s) ensures v <= Distance(nx, s, i) {
      if s == i {
        DistanceToSelf(nx, s);
      } else {
        var j, o := TowardsSource(nx, ny, s, i);
        if !Ahead(Offset(nx, s, i).0, Offset(nx, s, i).1) {
          var k :| 0 <= k < |BACKWARD| && BACKWARD[k] == o;
          assert NoMoreThanAny(nx, src, j, d[j]);
        }
      }
    }
  }

  // ---- The two sweeps -----------------------------------------------------------------------

  ghost predicate Sound(nx: int, ny: int, src: seq<bool>, d: seq<int>) {
    Sized(nx, ny, src, d) && AllEarned(nx, src, d) && SourcesAreZero(src, d)
  }

  lemma RelaxKeepsSound(nx: int, ny: int, src: seq<bool>, d: seq<int>, i: int, offsets: seq<Step>, v: int)
    requires Sound(nx, ny, src, d) && 0 <= i < |d|
    requires (offsets == FORWARD || offsets == BACKWARD) && IsRelaxed(nx, ny, d, i, offsets, |offsets|, v)
    ensures Sound(nx, ny, src, d[i := v]) && v <= d[i]
  {
    RelaxedIsEarned(nx, ny, src, d, i, offsets, v);
    hide Earned, StepsTo, IsSource;
  }

  lemma NextCell(nx: int, ny: int, ix: int, iy: int)
    requires 0 <= ix < nx && 0 <= iy < ny
    ensures 0 <= Index(nx, ix, iy) < nx * ny
    ensures Index(nx, ix - 1, iy) + 1 == Index(nx, ix, iy) == Index(nx, ix + 1, iy) - 1
    ensures Index(nx, nx, iy) == Index(nx, 0, iy + 1)
    ensures Index(nx, -1, iy) == Index(nx, nx - 1, iy - 1)
  {
    IndexOf(nx, ny, ix, iy);
  }

  /** The first sweep, rows upwards and cells eastwards: exact for the sources ahead. */
  method ForwardSweep(nx: int, ny: int, ghost src: seq<bool>, d: array<int>)
    requires Sized(nx, ny, src, d[..]) && Sound(nx, ny, src, d[..])
    modifies d
    ensures Sound(nx, ny, src, d[..]) && SweptForward(nx, src, d[..], nx * ny)
  {
    hide Index, AllEarned, SourcesAreZero, IsRelaxed, NoMoreThanAhead;
    NextCell(nx, ny, 0, 0);
    FirstCell(nx);
    var iy := 0;
    while iy < ny
      invariant 0 <= iy <= ny && Sound(nx, ny, src, d[..]) && SweptForward(nx, src, d[..], Index(nx, 0, iy))
    {
      var ix := 0;
      while ix < nx
        invariant 0 <= ix <= nx && Sound(nx, ny, src, d[..]) && SweptForward(nx, src, d[..], Index(nx, ix, iy))
      {
        NextCell(nx, ny, ix, iy);
        var best := BestOf(nx, ny, d, ix, iy, FORWARD);
        ForwardStep(nx, ny, src, d[..], Index(nx, ix, iy), best);
        RelaxKeepsSound(nx, ny, src, d[..], Index(nx, ix, iy), FORWARD, best);
        d[Index(nx, ix, iy)] := best;
        ix := ix + 1;
      }
      NextCell(nx, ny, 0, iy);
      iy := iy + 1;
    }
    LastCell(nx, ny);
  }

  lemma FirstCell(nx: int)
    ensures Index(nx, 0, 0) == 0 && Index(nx, nx - 1, -1) == -1
  {}

  lemma LastCell(nx: int, ny: int)
    ensures Index(nx, 0, ny) == nx * ny && Index(nx, nx - 1, ny - 1) == nx * ny - 1
  {}

  lemma LoweringKeepsBounds(nx: int, src: seq<bool>, i: int, v: int, w: int)
    requires nx > 0 && w <= v
    ensures NoMoreThanAhead(nx, src, i, v) ==> NoMoreThanAhead(nx, src, i, w)
    ensures NoMoreThanAny(nx, src, i, v) ==> NoMoreThanAny(nx, src, i, w)
  {
    hide Distance, Offset, Ahead;
  }

  /** The second sweep, rows downwards and cells westwards: exact for every source. */
  method BackwardSweep(nx: int, ny: int, ghost src: seq<bool>, d: array<int>)
    requires Sized(nx, ny, src, d[..]) && Sound(nx, ny, src, d[..]) && SweptForward(nx, src, d[..], nx * ny)
    modifies d
    ensures Sound(nx, ny, src, d[..]) && SweptBackward(nx, src, d[..], -1)
  {
    hide Index, AllEarned, SourcesAreZero, IsRelaxed, NoMoreThanAhead, NoMoreThanAny;
    LastCell(nx, ny);
    var iy := ny - 1;
    while iy >= 0
      invariant -1 <= iy < ny && Sound(nx, ny, src, d[..])
      invariant SweptForward(nx, src, d[..], nx * ny) && SweptBackward(nx, src, d[..], Index(nx, nx - 1, iy))
    {
      var ix := nx - 1;
      while ix >= 0
        invariant -1 <= ix < nx && Sound(nx, ny, src, d[..])
        invariant SweptForward(nx, src, d[..], nx * ny) && SweptBackward(nx, src, d[..], Index(nx, ix, iy))
      {
        NextCell(nx, ny, ix, iy);
        ghost var i := Index(nx, ix, iy);
        var best := BestOf(nx, ny, d, ix, iy, BACKWARD);
        BackwardStep(nx, ny, src, d[..], i, best);
        RelaxKeepsSound(nx, ny, src, d[..], i, BACKWARD, best);
        LoweringKeepsBounds(nx, src, i, d[i], best);
        d[Index(nx, ix, iy)] := best;
        ix := ix - 1;
      }
      NextCell(nx, ny, 0, iy);
      iy := iy - 1;
    }
    FirstCell(nx);
  }

  /** `chamferDistance`: the distance of every cell to its nearest source, in fifths of a cell. */
  method ChamferDistance(src: seq<bool>, nx: int, ny: int) returns (d: array<int>)
    requires 0 < nx && 0 < ny && |src| == nx * ny
    ensures fresh(d) && d.Length == |src|
    ensures forall i :: 0 <= i < |src| ==> IsNearest(nx, src, i, d[i])
  {
    d := new int[|src|](i requires 0 <= i < |src| => if src[i] then 0 else INFINITE);
    assert Sound(nx, ny, src, d[..]) by {
      forall i | 0 <= i < d.Length ensures Earned(nx, src, i, d[i]) {
        DistanceToSelf(nx, i);
        assert src[i] ==> IsSource(src, i);
      }
    }
    hide Distance, IsSource;
    ForwardSweep(nx, ny, src, d);
    BackwardSweep(nx, ny, src, d);
    forall i | 0 <= i < |src| ensures IsNearest(nx, src, i, d[i]) {
      assert Earned(nx, src, i, d[..][i]);
      assert NoMoreThanAny(nx, src, i, d[..][i]);
    }
  }

  // ---- How far the norm is from straight-line distance ---------------------------------------

  /** Within two percent of Euclid: with C the norm in fifths and E the straight-line distance in
      cells, 121 E*E <= 5 C*C and C*C <= 26 E*E. */
  lemma NormNearEuclid(dx: int, dy: int)
    ensures var c, e := Norm(dx, dy), dx * dx + dy * dy;
      121 * e <= 5 * c * c && c * c <= 26 * e
  {
    var a, b := Max(Abs(dx), Abs(dy)), if Abs(dx) < Abs(dy) then Abs(dx) else Abs(dy);
    assert a * a + b * b == dx * dx + dy * dy;
    NormNearEuclidOrdered(a, b);
  }

  lemma NormNearEuclidOrdered(a: int, b: int)
    requires 0 <= b <= a
    ensures var c, e := if a >= 2 * b then 5 * a + b else 4 * a + 3 * b, a * a + b * b;
      121 * e <= 5 * c * c && c * c <= 26 * e
  {
    var c := if a >= 2 * b then 5 * a + b else 4 * a + 3 * b;
    assert 5 * c * c == 5 * (c * c);
    SquareOfSum(if a >= 2 * b then 5 else 4, if a >= 2 * b then 1 else 3, a, b);
    // With a >= 2b: 5*c*c - 121*e == (a - 2b)(4a + 58b), and 26*e - c*c == (a - 5b)^2.
    // Otherwise: 5*c*c - 121*e == (2b - a)(41a - 38b), and 26*e - c*c == 10a^2 - 24ab + 17b^2.
    if a >= 2 * b { Shallow(a, b); } else { Steep(a, b); }
  }

  lemma SquareOfSum(m: int, n: int, a: int, b: int)
    ensures (m * a + n * b) * (m * a + n * b) == (m * m) * (a * a) + 2 * ((m * n) * (a * b)) + (n * n) * (b * b)
  {
    var p, q := m * a, n * b;
    assert (p + q) * (p + q) == p * p + 2 * (p * q) + q * q;
    Regroup(m, a, m, a);
    Regroup(n, b, n, b);
    Regroup(m, a, n, b);
  }

  lemma Regroup(m: int, a: int, n: int, b: int)
    ensures (m * a) * (n * b) == (m * n) * (a * b)
  {}

  lemma Shallow(a: int, b: int)
    requires 0 <= b && 2 * b <= a
    ensures 0 <= 4 * (a * a) + 50 * (a * b) - 116 * (b * b)
    ensures 0 <= a * a - 10 * (a * b) + 25 * (b * b)
  {
    var r := a - 2 * b;
    assert 0 <= r * a && 0 <= r * b;
    assert r * a == a * a - 2 * (a * b);
    assert r * b == a * b - 2 * (b * b);
    FiveTimes(a, b);
  }

  lemma FiveTimes(a: int, b: int)
    ensures 0 <= a * a - 10 * (a * b) + 25 * (b * b)
  {
    var x := a - 5 * b;
    assert x * x == x * a - 5 * (x * b);
    assert x * a == a * a - 5 * (a * b);
    assert x * b == a * b - 5 * (b * b);
    assert 0 <= x * x;
  }

  lemma Steep(a: int, b: int)
    requires 0 <= b <= a < 2 * b
    ensures 0 <= 120 * (a * b) - 41 * (a * a) - 76 * (b * b)
    ensures 0 <= 10 * (a * a) - 24 * (a * b) + 17 * (b * b)
  {
    var r, t := a - b, 2 * b - a;
    assert 0 <= r * t && 0 <= t * b && 0 <= r * r && 0 <= b * b;
    assert r * t == 3 * (a * b) - a * a - 2 * (b * b);
    assert t * b == 2 * (b * b) - a * b;
    assert r * r == a * a - 2 * (a * b) + b * b;
  }

  /** Squared straight-line distance between two cells. */
  function Apart2(nx: int, source: int, cell: int): int
    requires nx > 0
  {
    var v := Offset(nx, source, cell);
    v.0 * v.0 + v.1 * v.1
  }

  /** No source lies closer to the cell in a straight line. */
  ghost predicate ClosestSource(nx: int, src: seq<bool>, cell: int, s: int)
    requires nx > 0
  {
    IsSource(src, s) && forall t :: IsSource(src, t) ==> Apart2(nx, s, cell) <= Apart2(nx, t, cell)
  }

  /** In every cell of every grid, what the transform leaves is within two percent of the straight-line
      distance to the nearest source. */
  lemma TransformNearEuclid(nx: int, src: seq<bool>, cell: int, v: int, s: int)
    requires nx > 0 && IsNearest(nx, src, cell, v) && v < INFINITE && ClosestSource(nx, src, cell, s)
    ensures v >= 0 && 121 * Apart2(nx, s, cell) <= 5 * v * v && v * v <= 26 * Apart2(nx, s, cell)
  {
    var t :| IsSource(src, t) && Distance(nx, t, cell) == v;
    var p, q := Offset(nx, s, cell), Offset(nx, t, cell);
    assert v <= Distance(nx, s, cell);
    NormNearEuclid(p.0, p.1);
    NormNearEuclid(q.0, q.1);
    assert Apart2(nx, s, cell) <= Apart2(nx, t, cell);
    NormIsPositive(q.0, q.1);
    hide Norm, Offset;
    SquareOfLess(v, Norm(p.0, p.1));
  }

  lemma NormIsPositive(dx: int, dy: int)
    ensures Norm(dx, dy) >= 0
  {}

  lemma SquareOfLess(v: int, w: int)
    requires 0 <= v <= w
    ensures v * v <= w * w
  {
    assert v * v <= v * w && v * w <= w * w;
  }
}
