/** The walk over the cells under a straight leg (render/autoroute_search.go, `traverse` and
    `moveCost`): two samples a cell, each rounded to the nearest cell, repeats skipped. */
module CellWalk {
  import opened Common
  import opened Charts
  import opened Metric

  /** `math.Round` for the non-negative coordinates of the grid. */
  function Round(x: real): int { (x + 0.5).Floor }

  /** Coordinate of sample `s` out of `samples` on the way from `a` to `b`. */
  function Along(a: int, b: int, s: int, samples: int): real
    requires samples > 0
  {
    a as real + (s as real / samples as real) * (b - a) as real
  }

  function Steps(nx: int, a: int, b: int): nat
    requires nx > 0
  {
    Max(Abs(Col(nx, b) - Col(nx, a)), Abs(Row(nx, b) - Row(nx, a)))
  }

  function SampleCol(nx: int, a: int, b: int, s: int): int
    requires nx > 0 && Steps(nx, a, b) > 0
  {
    Round(Along(Col(nx, a), Col(nx, b), s, 2 * Steps(nx, a, b)))
  }

  function SampleRow(nx: int, a: int, b: int, s: int): int
    requires nx > 0 && Steps(nx, a, b) > 0
  {
    Round(Along(Row(nx, a), Row(nx, b), s, 2 * Steps(nx, a, b)))
  }

  function SampleCell(nx: int, a: int, b: int, s: int): int
    requires nx > 0 && Steps(nx, a, b) > 0
  {
    Index(nx, SampleCol(nx, a, b, s), SampleRow(nx, a, b, s))
  }

  /** The cells of the first `n` samples, repeats included. */
  function Samples(nx: int, a: int, b: int, n: nat): (cells: seq<int>)
    requires nx > 0 && Steps(nx, a, b) > 0
    ensures |cells| == n && forall s :: 0 <= s < n ==> cells[s] == SampleCell(nx, a, b, s)
  {
    seq(n, s => SampleCell(nx, a, b, s))
  }

  /** A sequence without its immediate repeats. */
  function Distinct(s: seq<int>): (d: seq<int>)
    ensures |d| <= |s| && (s != [] ==> d != [] && d[|d| - 1] == s[|s| - 1])
  {
    if s == [] then [] else
    var d := Distinct(s[..|s| - 1]);
    var x := s[|s| - 1];
    if d != [] && d[|d| - 1] == x then d else d + [x]
  }

  /** The cells met in the first `n` samples. */
  function Walk(nx: int, a: int, b: int, n: nat): seq<int>
    requires nx > 0 && Steps(nx, a, b) > 0
  {
    Distinct(Samples(nx, a, b, n))
  }

  /** The cells a straight leg from `a` to `b` is checked on. */
  function Line(nx: int, a: int, b: int): (cells: seq<int>)
    requires nx > 0
    ensures cells != []
  {
    if Steps(nx, a, b) == 0 then [a] else Walk(nx, a, b, 2 * Steps(nx, a, b) + 1)
  }

  /** A leg may cross this cell: it is passable and, within a limit, no dearer than it. */
  predicate Fit(c: Chart, cell: int, limit: Option<real>) {
    c.Passable(cell) && (limit.Some? ==> c.cost[cell].val <= limit.value)
  }

  predicate Clear(c: Chart, cells: seq<int>, limit: Option<real>) {
    forall i :: 0 <= i < |cells| ==> Fit(c, cells[i], limit)
  }

  function Sum(c: Chart, cells: seq<int>): real
    requires Clear(c, cells, None)
  {
    if cells == [] then 0.0 else
    var x := cells[|cells| - 1];
    assert Fit(c, x, None);
    Sum(c, cells[..|cells| - 1]) + c.cost[x].val
  }

  function Mean(c: Chart, cells: seq<int>): real
    requires cells != [] && Clear(c, cells, None)
  {
    Sum(c, cells) / |cells| as real
  }

  /** What `traverse` accepts. A leg from a cell to itself is not held to the limit. */
  predicate LegClear(c: Chart, a: int, b: int, limit: Option<real>)
    requires c.nx > 0
  {
    Clear(c, Line(c.nx, a, b), if Steps(c.nx, a, b) == 0 then None else limit)
  }

  /** Metres times the mean multiplier of the cells crossed. */
  function MoveCost(c: Chart, a: int, b: int): real
    requires c.nx > 0 && LegClear(c, a, b, None)
  {
    c.Length(a, b) * Mean(c, Line(c.nx, a, b))
  }

  // ---- Samples ------------------------------------------------------------------------------

  lemma Whole(n: real)
    requires n != 0.0
    ensures n / n == 1.0
  {
    assert (n / n) * n == n;
    CancelFactor(n / n, 1.0, n);
  }

  lemma AlongBetween(a: int, b: int, s: int, samples: int)
    requires 0 <= s <= samples && 0 < samples
    ensures a <= b ==> a as real <= Along(a, b, s, samples) <= b as real
    ensures b <= a ==> b as real <= Along(a, b, s, samples) <= a as real
    ensures Along(a, b, 0, samples) == a as real && Along(a, b, samples, samples) == b as real
  {
    var t, d := s as real / samples as real, (b - a) as real;
    Whole(samples as real);
    assert 0.0 / samples as real == 0.0 && 0.0 * d == 0.0 && 1.0 * d == d;
    Fraction(s as real, samples as real);
    PartOf(t, d);
    assert b as real == a as real + d && Along(a, b, s, samples) == a as real + t * d;
  }

  lemma Fraction(s: real, n: real)
    requires 0.0 <= s <= n && n > 0.0
    ensures 0.0 <= s / n <= 1.0
  {
    var t := s / n;
    assert t * n == s && (t - 1.0) * n == s - n;
    SignOf(t, n);
    SignOf(1.0 - t, n);
    assert (1.0 - t) * n == n - s;
  }

  lemma SignOf(t: real, n: real)
    requires n > 0.0
    ensures t * n >= 0.0 <==> t >= 0.0
  {}

  lemma PartOf(t: real, d: real)
    requires 0.0 <= t <= 1.0
    ensures if d >= 0.0 then 0.0 <= t * d <= d else d <= t * d <= 0.0
  {
    var e := if d >= 0.0 then d else -d;
    Product(t, e);
    Product(1.0 - t, e);
    assert (1.0 - t) * e == e - t * e;
    assert t * -d == -(t * d);
  }

  lemma Product(p: real, q: real)
    requires p >= 0.0 && q >= 0.0
    ensures p * q >= 0.0
  {
  }

  lemma Complement(s: real, n: real)
    requires n != 0.0
    ensures (n - s) / n == 1.0 - s / n
  {
    var p, q := s / n, (n - s) / n;
    assert p * n == s && q * n == n - s;
    assert (1.0 - p) * n == n - p * n;
    CancelFactor(q, 1.0 - p, n);
  }

  lemma CancelFactor(p: real, q: real, n: real)
    requires n != 0.0 && p * n == q * n
    ensures p == q
  {
    assert (p - q) * n == 0.0;
  }

  lemma AlongReversed(a: int, b: int, s: int, samples: int)
    requires 0 < samples
    ensures Along(b, a, samples - s, samples) == Along(a, b, s, samples)
  {
    var t, d := s as real / samples as real, (b - a) as real;
    assert (samples - s) as real / samples as real == 1.0 - t by { Complement(s as real, samples as real); }
    assert (a - b) as real == -d;
    assert (1.0 - t) * (-d) == t * d - d;
  }

  /** One sample moves a coordinate by at most half a cell. */
  lemma AlongStep(a: int, b: int, s: int, steps: int)
    requires 0 < steps && Abs(b - a) <= steps
    ensures -0.5 <= Along(a, b, s + 1, 2 * steps) - Along(a, b, s, 2 * steps) <= 0.5
    ensures Abs(b - a) == steps ==>
      Along(a, b, s + 1, 2 * steps) - Along(a, b, s, 2 * steps) == if a <= b then 0.5 else -0.5
  {
    var n, d := (2 * steps) as real, (b - a) as real;
    var u := 1.0 / n;
    assert (s + 1) as real / n == s as real / n + u;
    assert Along(a, b, s + 1, 2 * steps) - Along(a, b, s, 2 * steps) == u * d;
    assert u * n == 1.0;
    UnitFraction(u, n, d);
  }

  lemma UnitFraction(u: real, n: real, d: real)
    requires n > 0.0 && u * n == 1.0 && -n <= 2.0 * d <= n
    ensures -0.5 <= u * d <= 0.5
    ensures 2.0 * d == n ==> u * d == 0.5
    ensures 2.0 * d == -n ==> u * d == -0.5
  {
    assert u > 0.0;
    assert u * (2.0 * d) <= u * n;
    assert u * (-n) <= u * (2.0 * d);
  }

  lemma AxisEnds(a: int, b: int, samples: int)
    requires 0 < samples
    ensures Round(Along(a, b, 0, samples)) == a && Round(Along(a, b, samples, samples)) == b
  {
    AlongBetween(a, b, 0, samples);
  }

  lemma SampleEnds(nx: int, ny: int, a: int, b: int)
    requires 0 < nx && 0 <= a < nx * ny && 0 <= b < nx * ny && Steps(nx, a, b) > 0
    ensures SampleCell(nx, a, b, 0) == a && SampleCell(nx, a, b, 2 * Steps(nx, a, b)) == b
  {
    hide Along, Round, Steps, Col, Row, Index;
    var n := 2 * Steps(nx, a, b);
    AxisEnds(Col(nx, a), Col(nx, b), n);
    AxisEnds(Row(nx, a), Row(nx, b), n);
    CellOf(nx, ny, a);
    CellOf(nx, ny, b);
  }

  predicate Between(p: int, q: int, x: int) { (p <= x <= q) || (q <= x <= p) }

  /** The walk never leaves the box spanned by its ends, so the bounds check never fails. */
  lemma SampleInGrid(nx: int, ny: int, a: int, b: int, s: int)
    requires 0 < nx && 0 <= a < nx * ny && 0 <= b < nx * ny && Steps(nx, a, b) > 0
    requires 0 <= s <= 2 * Steps(nx, a, b)
    ensures Between(Col(nx, a), Col(nx, b), SampleCol(nx, a, b, s))
    ensures Between(Row(nx, a), Row(nx, b), SampleRow(nx, a, b, s))
    ensures 0 <= SampleCol(nx, a, b, s) < nx && 0 <= SampleRow(nx, a, b, s) < ny
    ensures 0 <= SampleCell(nx, a, b, s) < nx * ny
    ensures Col(nx, SampleCell(nx, a, b, s)) == SampleCol(nx, a, b, s)
    ensures Row(nx, SampleCell(nx, a, b, s)) == SampleRow(nx, a, b, s)
  {
    var n := 2 * Steps(nx, a, b);
    AlongBetween(Col(nx, a), Col(nx, b), s, n);
    AlongBetween(Row(nx, a), Row(nx, b), s, n);
    CellOf(nx, ny, a);
    CellOf(nx, ny, b);
    IndexOf(nx, ny, SampleCol(nx, a, b, s), SampleRow(nx, a, b, s));
  }

  lemma SampleReversed(nx: int, a: int, b: int, s: int)
    requires 0 < nx && Steps(nx, a, b) > 0
    ensures Steps(nx, b, a) == Steps(nx, a, b)
    ensures SampleCell(nx, b, a, 2 * Steps(nx, a, b) - s) == SampleCell(nx, a, b, s)
  {
    var n := 2 * Steps(nx, a, b);
    AlongReversed(Col(nx, a), Col(nx, b), s, n);
    AlongReversed(Row(nx, a), Row(nx, b), s, n);
  }

  // ---- Skipping repeats ---------------------------------------------------------------------

  function Reverse(s: seq<int>): (r: seq<int>)
    ensures |r| == |s| && forall i :: 0 <= i < |s| ==> r[i] == s[|s| - 1 - i]
  {
    seq(|s|, i requires 0 <= i < |s| => s[|s| - 1 - i])
  }

  lemma {:induction false} DistinctPrepend(x: int, s: seq<int>)
    ensures Distinct([x] + s) == if s != [] && s[0] == x then Distinct(s) else [x] + Distinct(s)
  {
    if s == [] {
      assert [x] + s == [x];
      assert Distinct([x]) == Distinct([]) + [x];
    } else {
      var init, last := s[..|s| - 1], s[|s| - 1];
      assert ([x] + s)[..|s|] == [x] + init;
      DistinctPrepend(x, init);
      if init == [] { assert s == [last]; assert Distinct([x]) == [x]; }
    }
  }

  lemma {:induction false} DistinctReverse(s: seq<int>)
    ensures Distinct(Reverse(s)) == Reverse(Distinct(s))
  {
    if s == [] {
    } else {
      hide Distinct, Reverse, Next;
      var init, x := s[..|s| - 1], s[|s| - 1];
      assert s == init + [x];
      ReverseAppend(init, x);
      DistinctReverse(init);
      DistinctPrepend(x, Reverse(init));
      DistinctLast(init, x);
      if init == [] { OneReversed(x); } else { NextReversed(Distinct(init), init[|init| - 1], x); }
    }
  }

  lemma OneReversed(x: int)
    ensures Reverse([x]) == [x] && [x] + Reverse([]) == [x] && Distinct([x]) == [x]
  {
    assert [x][..0] == [];
  }

  lemma NextReversed(d: seq<int>, last: int, x: int)
    ensures Reverse(Next(d, last, x)) == if x == last then Reverse(d) else [x] + Reverse(d)
  {
    ReverseAppend(d, x);
  }

  lemma ReverseAppend(s: seq<int>, x: int)
    ensures Reverse(s + [x]) == [x] + Reverse(s)
  {}

  /** Nothing is lost or invented, only immediate repeats go. */
  lemma {:induction false} DistinctMembers(s: seq<int>)
    ensures forall x :: x in Distinct(s) <==> x in s
  {
    if s == [] {
    } else {
      DistinctMembers(s[..|s| - 1]);
      assert s == s[..|s| - 1] + [s[|s| - 1]];
    }
  }

  /** Neighbours after skipping repeats were different neighbouring samples before. */
  lemma {:induction false} DistinctSteps(s: seq<int>, i: nat) returns (k: nat)
    requires i + 1 < |Distinct(s)|
    ensures k + 1 < |s| && s[k] == Distinct(s)[i] && s[k + 1] == Distinct(s)[i + 1] && s[k] != s[k + 1]
  {
    var init := s[..|s| - 1];
    if i + 1 < |Distinct(init)| {
      k := DistinctSteps(init, i);
    } else {
      k := |s| - 2;
    }
  }

  // ---- The walk -----------------------------------------------------------------------------

  lemma StepsSymmetric(nx: int, a: int, b: int)
    requires nx > 0
    ensures Steps(nx, a, b) == Steps(nx, b, a)
  {}

  lemma SamplesReversed(nx: int, a: int, b: int)
    requires 0 < nx && Steps(nx, a, b) > 0
    ensures Steps(nx, b, a) == Steps(nx, a, b)
    ensures var n := 2 * Steps(nx, a, b) + 1;
      Samples(nx, b, a, n) == Reverse(Samples(nx, a, b, n))
  {
    hide SampleCell;
    StepsSymmetric(nx, a, b);
    var n := 2 * Steps(nx, a, b);
    var there, back := Samples(nx, a, b, n + 1), Samples(nx, b, a, n + 1);
    forall s | 0 <= s <= n ensures back[s] == there[n - s] { SampleReversed(nx, a, b, n - s); }
  }

  lemma NoStepsSameCell(nx: int, ny: int, a: int, b: int)
    requires 0 < nx && 0 <= a < nx * ny && 0 <= b < nx * ny && Steps(nx, a, b) == 0
    ensures a == b
  {
    CellOf(nx, ny, a);
    CellOf(nx, ny, b);
  }

  /** Walking back visits the reverse of walking there. */
  lemma LineReversed(nx: int, ny: int, a: int, b: int)
    requires 0 < nx && 0 <= a < nx * ny && 0 <= b < nx * ny
    ensures Line(nx, b, a) == Reverse(Line(nx, a, b))
  {
    hide Steps, SampleCell;
    StepsSymmetric(nx, a, b);
    if Steps(nx, a, b) == 0 {
      NoStepsSameCell(nx, ny, a, b);
    } else {
      SamplesReversed(nx, a, b);
      DistinctReverse(Samples(nx, a, b, 2 * Steps(nx, a, b) + 1));
    }
  }

  /** The walk starts and ends where it should. */
  lemma LineEnds(nx: int, ny: int, a: int, b: int)
    requires 0 < nx && 0 <= a < nx * ny && 0 <= b < nx * ny
    ensures Line(nx, a, b)[0] == a && Line(nx, a, b)[|Line(nx, a, b)| - 1] == b
  {
    hide Steps, SampleCell;
    if Steps(nx, a, b) == 0 {
      NoStepsSameCell(nx, ny, a, b);
    } else {
      SampleEnds(nx, ny, a, b);
      LineStarts(Samples(nx, a, b, 2 * Steps(nx, a, b) + 1));
    }
  }

  /** Every cell of the walk is in the grid and in the box of the ends. */
  lemma LineInGrid(nx: int, ny: int, a: int, b: int, i: nat)
    requires 0 < nx && 0 <= a < nx * ny && 0 <= b < nx * ny && i < |Line(nx, a, b)|
    ensures var cell := Line(nx, a, b)[i];
      && 0 <= cell < nx * ny
      && Between(Col(nx, a), Col(nx, b), Col(nx, cell)) && Between(Row(nx, a), Row(nx, b), Row(nx, cell))
  {
    if Steps(nx, a, b) != 0 {
      var t := Samples(nx, a, b, 2 * Steps(nx, a, b) + 1);
      DistinctMembers(t);
      var cell := Distinct(t)[i];
      assert cell in t;
      var s :| 0 <= s < |t| && t[s] == cell;
      SampleInGrid(nx, ny, a, b, s);
    }
  }

  /** Each cell of the walk differs from the next and touches it. */
  lemma LineTouches(nx: int, ny: int, a: int, b: int, i: nat)
    requires 0 < nx && 0 <= a < nx * ny && 0 <= b < nx * ny && i + 1 < |Line(nx, a, b)|
    ensures var p, q := Line(nx, a, b)[i], Line(nx, a, b)[i + 1];
      p != q && Abs(Col(nx, q) - Col(nx, p)) <= 1 && Abs(Row(nx, q) - Row(nx, p)) <= 1
  {
    var n := Steps(nx, a, b);
    var k := DistinctSteps(Samples(nx, a, b, 2 * n + 1), i);
    SampleInGrid(nx, ny, a, b, k);
    SampleInGrid(nx, ny, a, b, k + 1);
    AlongStep(Col(nx, a), Col(nx, b), k, n);
    AlongStep(Row(nx, a), Row(nx, b), k, n);
  }

  /** The middle sample of a diagonal move rounds up in both coordinates, so along one diagonal no
      corner cell beside the move is looked at, and along the other just one is. */
  lemma DiagonalLine(nx: int, ny: int, a: int, b: int)
    requires nx > 0 && 0 <= a < nx * ny && 0 <= b < nx * ny
    requires Abs(Col(nx, b) - Col(nx, a)) == 1 && Abs(Row(nx, b) - Row(nx, a)) == 1
    ensures Line(nx, a, b) ==
      if Col(nx, b) - Col(nx, a) == Row(nx, b) - Row(nx, a) then [a, b]
      else [a, Index(nx, Max(Col(nx, a), Col(nx, b)), Max(Row(nx, a), Row(nx, b))), b]
  {
    SampleEnds(nx, ny, a, b);
    Halfway(Col(nx, a), Col(nx, b));
    Halfway(Row(nx, a), Row(nx, b));
    DiagonalCorner(nx, ny, a, b);
    hide Index, Col, Row, Along, Round, SampleCell;
    var mid := SampleCell(nx, a, b, 1);
    assert Samples(nx, a, b, 3) == [a, mid, b];
    hide Distinct, Samples;
    ThreeDistinct(a, mid, b);
  }

  lemma ThreeDistinct(a: int, m: int, b: int)
    ensures Distinct([a, m, b]) == Next(Next([a], a, m), m, b)
  {
    hide Distinct;
    DistinctLast([], a);
    assert [] + [a] == [a];
    DistinctLast([a], m);
    assert [a] + [m] == [a, m];
    DistinctLast([a, m], b);
    assert [a, m] + [b] == [a, m, b];
  }

  /** A diagonal move is open exactly when its ends are and, across the other diagonal, the one corner
      it looks at is: never the two corners together, which is what slipping between two rocks needs. */
  lemma DiagonalClear(c: Chart, a: int, b: int)
    requires c.Valid() && c.InGrid(a) && c.InGrid(b)
    requires Abs(Col(c.nx, b) - Col(c.nx, a)) == 1 && Abs(Row(c.nx, b) - Row(c.nx, a)) == 1
    ensures LegClear(c, a, b, None)
      <==> c.Passable(a) && c.Passable(b)
           && (Col(c.nx, b) - Col(c.nx, a) != Row(c.nx, b) - Row(c.nx, a)
               ==> c.Passable(Index(c.nx, Max(Col(c.nx, a), Col(c.nx, b)), Max(Row(c.nx, a), Row(c.nx, b)))))
  {
    DiagonalLine(c.nx, c.ny, a, b);
    hide Line, Index, Col, Row;
    var line := Line(c.nx, a, b);
    assert LegClear(c, a, b, None) ==> Fit(c, line[0], None) && Fit(c, line[1], None) && Fit(c, line[|line| - 1], None);
  }

  lemma Halfway(a: int, b: int)
    requires Abs(b - a) == 1
    ensures Round(Along(a, b, 1, 2)) == Max(a, b)
  {
    assert Along(a, b, 1, 2) == a as real + 0.5 * (b - a) as real;
  }

  /** The corner beside a diagonal move is one of its ends exactly when the move goes south-east or
      north-west in cell numbers. */
  lemma DiagonalCorner(nx: int, ny: int, a: int, b: int)
    requires nx > 0 && 0 <= a < nx * ny && 0 <= b < nx * ny
    requires Abs(Col(nx, b) - Col(nx, a)) == 1 && Abs(Row(nx, b) - Row(nx, a)) == 1
    ensures var corner := Index(nx, Max(Col(nx, a), Col(nx, b)), Max(Row(nx, a), Row(nx, b)));
      && a != b
      && (Col(nx, b) - Col(nx, a) == Row(nx, b) - Row(nx, a) ==> corner == a || corner == b)
      && (Col(nx, b) - Col(nx, a) != Row(nx, b) - Row(nx, a) ==> corner != a && corner != b)
  {
    var x, y := Max(Col(nx, a), Col(nx, b)), Max(Row(nx, a), Row(nx, b));
    CellOf(nx, ny, a);
    CellOf(nx, ny, b);
    IndexOf(nx, ny, x, y);
    hide Col, Row, Index;
  }

  /** A knight move crosses the middle of its longer axis between its ends. These are the two cells
      there, by the coordinate of each end on the shorter axis, and the greater of the two. */
  function Beside(nx: int, a: int, b: int, end: int): int
    requires nx > 0
  {
    if Abs(Col(nx, b) - Col(nx, a)) == 2 then Index(nx, (Col(nx, a) + Col(nx, b)) / 2, Row(nx, end))
    else Index(nx, Col(nx, end), (Row(nx, a) + Row(nx, b)) / 2)
  }

  function BesideGreater(nx: int, a: int, b: int): int
    requires nx > 0
  {
    if Abs(Col(nx, b) - Col(nx, a)) == 2 then Index(nx, (Col(nx, a) + Col(nx, b)) / 2, Max(Row(nx, a), Row(nx, b)))
    else Index(nx, Max(Col(nx, a), Col(nx, b)), (Row(nx, a) + Row(nx, b)) / 2)
  }

  predicate IsKnight(nx: int, a: int, b: int)
    requires nx > 0
  {
    var dx, dy := Abs(Col(nx, b) - Col(nx, a)), Abs(Row(nx, b) - Row(nx, a));
    (dx == 1 && dy == 2) || (dx == 2 && dy == 1)
  }

  /** Both coordinates of the move grow, or both shrink. */
  predicate Aligned(nx: int, a: int, b: int)
    requires nx > 0
  {
    (Col(nx, b) > Col(nx, a)) == (Row(nx, b) > Row(nx, a))
  }

  /** What a knight move looks at: along four of them both cells between its ends, along the other
      four just one. */
  lemma KnightLine(nx: int, ny: int, a: int, b: int)
    requires nx > 0 && 0 <= a < nx * ny && 0 <= b < nx * ny && IsKnight(nx, a, b)
    ensures Line(nx, a, b) ==
      if Aligned(nx, a, b) then [a, Beside(nx, a, b, a), Beside(nx, a, b, b), b]
      else [a, BesideGreater(nx, a, b), b]
  {
    SampleEnds(nx, ny, a, b);
    KnightSamples(nx, a, b);
    KnightCells(nx, ny, a, b);
    assert Steps(nx, a, b) == 2;
    hide SampleCell, Index, Col, Row, Along, Round, Beside, BesideGreater;
    var s := Samples(nx, a, b, 5);
    var p, q, r := SampleCell(nx, a, b, 1), SampleCell(nx, a, b, 2), SampleCell(nx, a, b, 3);
    assert s == [a, p, q, r, b];
    FiveDistinct(a, p, q, r, b);
  }

  function Next(d: seq<int>, last: int, x: int): seq<int> { if x == last then d else d + [x] }

  lemma FiveDistinct(a: int, p: int, q: int, r: int, b: int)
    ensures Distinct([a, p, q, r, b]) == Next(Next(Next(Next([a], a, p), p, q), q, r), r, b)
  {
    DistinctLast([], a);
    hide Distinct, Next;
    DistinctLast([a], p);
    DistinctLast([a, p], q);
    DistinctLast([a, p, q], r);
    DistinctLast([a, p, q, r], b);
    assert [] + [a] == [a] && [a] + [p] == [a, p] && [a, p] + [q] == [a, p, q];
    assert [a, p, q] + [r] == [a, p, q, r] && [a, p, q, r] + [b] == [a, p, q, r, b];
  }

  lemma DistinctLast(s: seq<int>, x: int)
    ensures Distinct(s + [x]) == if s != [] then Next(Distinct(s), s[|s| - 1], x) else [x]
  {
    assert (s + [x])[..|s|] == s;
  }

  /** Quarter samples along an axis of one or two cells: halves round up. */
  lemma Quarters(a: int, b: int)
    requires 1 <= Abs(b - a) <= 2
    ensures var one, two, three := Round(Along(a, b, 1, 4)), Round(Along(a, b, 2, 4)), Round(Along(a, b, 3, 4));
      && (b - a == 1 ==> one == a && two == b && three == b)
      && (b - a == -1 ==> one == a && two == a && three == b)
      && (b - a == 2 ==> one == a + 1 && two == a + 1 && three == b)
      && (b - a == -2 ==> one == a && two == a - 1 && three == a - 1)
  {
    assert Along(a, b, 1, 4) == a as real + 0.25 * (b - a) as real;
    assert Along(a, b, 2, 4) == a as real + 0.5 * (b - a) as real;
    assert Along(a, b, 3, 4) == a as real + 0.75 * (b - a) as real;
  }

  /** The three inner samples: two cells between the ends, or one and repeats. */
  lemma KnightSamples(nx: int, a: int, b: int)
    requires nx > 0 && IsKnight(nx, a, b) && Steps(nx, a, b) == 2
    ensures var p, q, r := SampleCell(nx, a, b, 1), SampleCell(nx, a, b, 2), SampleCell(nx, a, b, 3);
      var here, there := Index(nx, Col(nx, a), Row(nx, a)), Index(nx, Col(nx, b), Row(nx, b));
      if Aligned(nx, a, b) then
        if Col(nx, b) > Col(nx, a) then p == Beside(nx, a, b, a) && q == Beside(nx, a, b, b) && r == there
        else p == here && q == Beside(nx, a, b, a) && r == Beside(nx, a, b, b)
      else
        && q == BesideGreater(nx, a, b)
        && ((p == here && r == q) || (p == q && r == there))
  {
    Quarters(Col(nx, a), Col(nx, b));
    Quarters(Row(nx, a), Row(nx, b));
    hide Along, Round, Col, Row, Index;
  }

  lemma KnightCells(nx: int, ny: int, a: int, b: int)
    requires nx > 0 && 0 <= a < nx * ny && 0 <= b < nx * ny && IsKnight(nx, a, b)
    ensures Index(nx, Col(nx, a), Row(nx, a)) == a && Index(nx, Col(nx, b), Row(nx, b)) == b
    ensures var p, q, g := Beside(nx, a, b, a), Beside(nx, a, b, b), BesideGreater(nx, a, b);
      p != a && q != p && b != q && g != a && g != b && 0 <= p < nx * ny && 0 <= q < nx * ny && 0 <= g < nx * ny
  {
    CellOf(nx, ny, a);
    CellOf(nx, ny, b);
    var x, y := (Col(nx, a) + Col(nx, b)) / 2, (Row(nx, a) + Row(nx, b)) / 2;
    if Abs(Col(nx, b) - Col(nx, a)) == 2 {
      IndexOf(nx, ny, x, Row(nx, a));
      IndexOf(nx, ny, x, Row(nx, b));
    } else {
      IndexOf(nx, ny, Col(nx, a), y);
      IndexOf(nx, ny, Col(nx, b), y);
    }
    hide Col, Row, Index;
  }

  /** The segment itself runs through the inside of both cells between the ends: three eighths and five
      eighths of the way along it. */
  lemma KnightCrossesBoth(nx: int, a: int, b: int)
    requires nx > 0 && IsKnight(nx, a, b)
    ensures var ca, cb, ra, rb := Col(nx, a), Col(nx, b), Row(nx, a), Row(nx, b);
      && Index(nx, Round(Along(ca, cb, 3, 8)), Round(Along(ra, rb, 3, 8))) == Beside(nx, a, b, a)
      && Index(nx, Round(Along(ca, cb, 5, 8)), Round(Along(ra, rb, 5, 8))) == Beside(nx, a, b, b)
  {
    Eighths(Col(nx, a), Col(nx, b));
    Eighths(Row(nx, a), Row(nx, b));
    hide Along, Round, Col, Row, Index;
  }

  lemma Eighths(a: int, b: int)
    requires 1 <= Abs(b - a) <= 2
    ensures Abs(b - a) == 1 ==> Round(Along(a, b, 3, 8)) == a && Round(Along(a, b, 5, 8)) == b
    ensures Abs(b - a) == 2 ==> Round(Along(a, b, 3, 8)) == Round(Along(a, b, 5, 8)) == (a + b) / 2
  {
    var d := b - a;
    assert Along(a, b, 3, 8) == a as real + 0.375 * d as real;
    assert Along(a, b, 5, 8) == a as real + 0.625 * d as real;
    hide Along;
    if d == 1 {
      NearestWhole(Along(a, b, 3, 8), a);
      NearestWhole(Along(a, b, 5, 8), b);
    } else if d == -1 {
      NearestWhole(Along(a, b, 3, 8), a);
      NearestWhole(Along(a, b, 5, 8), b);
    } else {
      var mid := if d == 2 then a + 1 else a - 1;
      NearestWhole(Along(a, b, 3, 8), mid);
      NearestWhole(Along(a, b, 5, 8), mid);
      assert a + b == 2 * mid;
    }
  }

  lemma NearestWhole(x: real, n: int)
    requires n as real - 0.5 < x < n as real + 0.5
    ensures Round(x) == n
  {}

  /** A knight move is open exactly when its ends and the cells it looks at are. Where it looks at one
      cell only, the other that the segment runs through may be blocked. */
  lemma KnightClear(c: Chart, a: int, b: int)
    requires c.Valid() && c.InGrid(a) && c.InGrid(b) && IsKnight(c.nx, a, b)
    ensures LegClear(c, a, b, None)
      <==> c.Passable(a) && c.Passable(b)
           && if Aligned(c.nx, a, b) then c.Passable(Beside(c.nx, a, b, a)) && c.Passable(Beside(c.nx, a, b, b))
              else c.Passable(BesideGreater(c.nx, a, b))
  {
    KnightLine(c.nx, c.ny, a, b);
    hide Line, Index, Col, Row, Beside, BesideGreater;
    var line := Line(c.nx, a, b);
    assert LegClear(c, a, b, None) ==>
      Fit(c, line[0], None) && Fit(c, line[1], None) && Fit(c, line[2], None) && Fit(c, line[|line| - 1], None);
  }

  lemma {:induction false} LineStarts(s: seq<int>)
    requires s != []
    ensures Distinct(s)[0] == s[0]
  {
    if |s| <= 1 {
    } else {
      LineStarts(s[..|s| - 1]);
    }
  }

  /** No row or column along the longer axis is jumped over. */
  lemma LineCoversColumns(nx: int, ny: int, a: int, b: int, x: int) returns (cell: int)
    requires 0 < nx && 0 <= a < nx * ny && 0 <= b < nx * ny
    requires Steps(nx, a, b) == Abs(Col(nx, b) - Col(nx, a)) && Between(Col(nx, a), Col(nx, b), x)
    ensures cell in Line(nx, a, b) && Col(nx, cell) == x
  {
    var k := Steps(nx, a, b);
    if k == 0 { return a; }
    var s := 2 * Abs(x - Col(nx, a));
    AlongAxis(Col(nx, a), Col(nx, b), Abs(x - Col(nx, a)), k);
    SampleInGrid(nx, ny, a, b, s);
    DistinctMembers(Samples(nx, a, b, 2 * k + 1));
    cell := Samples(nx, a, b, 2 * k + 1)[s];
  }

  lemma LineCoversRows(nx: int, ny: int, a: int, b: int, y: int) returns (cell: int)
    requires 0 < nx && 0 <= a < nx * ny && 0 <= b < nx * ny
    requires Steps(nx, a, b) == Abs(Row(nx, b) - Row(nx, a)) && Between(Row(nx, a), Row(nx, b), y)
    ensures cell in Line(nx, a, b) && Row(nx, cell) == y
  {
    var k := Steps(nx, a, b);
    if k == 0 { return a; }
    var s := 2 * Abs(y - Row(nx, a));
    AlongAxis(Row(nx, a), Row(nx, b), Abs(y - Row(nx, a)), k);
    SampleInGrid(nx, ny, a, b, s);
    DistinctMembers(Samples(nx, a, b, 2 * k + 1));
    cell := Samples(nx, a, b, 2 * k + 1)[s];
  }

  /** Along the longer axis, every second sample sits exactly on the next coordinate. */
  lemma {:induction false} AlongAxis(a: int, b: int, k: nat, steps: int)
    requires 0 < steps == Abs(b - a)
    ensures Along(a, b, 2 * k, 2 * steps) == (if a <= b then a + k else a - k) as real
  {
    if k == 0 {
      AlongBetween(a, b, 0, 2 * steps);
    } else {
      AlongAxis(a, b, k - 1, steps);
      AlongStep(a, b, 2 * k - 2, steps);
      AlongStep(a, b, 2 * k - 1, steps);
    }
  }

  // ---- The price of a move ------------------------------------------------------------------

  lemma {:induction false} SumPrepend(c: Chart, x: int, cells: seq<int>)
    requires c.Passable(x) && Clear(c, cells, None)
    ensures Sum(c, [x] + cells) == c.cost[x].val + Sum(c, cells)
  {
    if cells == [] {
      assert [x] + cells == [x] && [x][..0] == [];
    } else {
      assert ([x] + cells)[..|cells|] == [x] + cells[..|cells| - 1];
      SumPrepend(c, x, cells[..|cells| - 1]);
    }
  }

  lemma {:induction false} SumReversed(c: Chart, cells: seq<int>)
    requires Clear(c, cells, None)
    ensures Sum(c, Reverse(cells)) == Sum(c, cells)
  {
    if cells == [] {
    } else {
      var init, x := cells[..|cells| - 1], cells[|cells| - 1];
      assert Reverse(cells) == [x] + Reverse(init);
      SumReversed(c, init);
      SumPrepend(c, x, Reverse(init));
    }
  }

  lemma {:induction false} SumAtLeastCount(c: Chart, cells: seq<int>)
    requires c.CostsAtLeastOne() && Clear(c, cells, None)
    ensures Sum(c, cells) >= |cells| as real
  {
    if cells == [] {
    } else {
      SumAtLeastCount(c, cells[..|cells| - 1]);
    }
  }

  lemma ClearReversed(c: Chart, cells: seq<int>, limit: Option<real>)
    ensures Clear(c, Reverse(cells), limit) == Clear(c, cells, limit)
  {
    var back := Reverse(cells);
    assert forall i :: 0 <= i < |cells| ==> cells[i] == back[|cells| - 1 - i];
  }

  /** A leg is as clear in one direction as in the other. */
  lemma LegSymmetric(c: Chart, a: int, b: int, limit: Option<real>)
    requires c.Valid() && c.InGrid(a) && c.InGrid(b)
    ensures LegClear(c, a, b, limit) == LegClear(c, b, a, limit)
  {
    hide Line, Steps;
    var held := if Steps(c.nx, a, b) == 0 then None else limit;
    LineReversed(c.nx, c.ny, a, b);
    ClearReversed(c, Line(c.nx, a, b), held);
    StepsSymmetric(c.nx, a, b);
  }

  lemma MeanReversed(c: Chart, cells: seq<int>)
    requires cells != [] && Clear(c, cells, None)
    ensures Clear(c, Reverse(cells), None) && Mean(c, Reverse(cells)) == Mean(c, cells)
  {
    ClearReversed(c, cells, None);
    SumReversed(c, cells);
  }

  // ---- No cell twice ------------------------------------------------------------------------

  /** Along the way a coordinate never turns back. */
  lemma AlongOrdered(a: int, b: int, s: int, t: int, samples: int)
    requires 0 < samples && s <= t
    ensures if a <= b then Along(a, b, s, samples) <= Along(a, b, t, samples) else Along(a, b, s, samples) >= Along(a, b, t, samples)
  {
    var p, q, d := s as real / samples as real, t as real / samples as real, (b - a) as real;
    assert p * samples as real == s as real && q * samples as real == t as real;
    SignOf(q - p, samples as real);
    assert (q - p) * samples as real == q * samples as real - p * samples as real;
    var e := if d >= 0.0 then d else -d;
    Product(q - p, e);
    assert (q - p) * d == q * d - p * d && (q - p) * -d == -((q - p) * d);
  }

  predicate Ordered(s: seq<int>, f: int -> int) { forall i, j :: 0 <= i <= j < |s| ==> f(s[i]) <= f(s[j]) }

  lemma {:induction false} DistinctOrdered(s: seq<int>, f: int -> int)
    requires Ordered(s, f)
    ensures Ordered(Distinct(s), f)
  {
    if s == [] {
    } else {
      var init, x := s[..|s| - 1], s[|s| - 1];
      DistinctOrdered(init, f);
      var d := Distinct(init);
      forall i | 0 <= i < |d| ensures f(d[i]) <= f(x) {
        var k := DistinctFrom(init, i);
        assert s[k] == init[k];
      }
    }
  }

  lemma DistinctFrom(s: seq<int>, i: nat) returns (k: nat)
    requires i < |Distinct(s)|
    ensures k < |s| && s[k] == Distinct(s)[i]
  {
    hide Distinct;
    DistinctMembers(s);
    assert Distinct(s)[i] in Distinct(s);
    k :| 0 <= k < |s| && s[k] == Distinct(s)[i];
  }

  function Signed(forward: bool, v: int): int { if forward then v else -v }

  lemma SamplesOrdered(nx: int, ny: int, a: int, b: int)
    requires 0 < nx && 0 <= a < nx * ny && 0 <= b < nx * ny && Steps(nx, a, b) > 0
    ensures var s := Samples(nx, a, b, 2 * Steps(nx, a, b) + 1);
      && Ordered(s, cell => Signed(Col(nx, a) <= Col(nx, b), Col(nx, cell)))
      && Ordered(s, cell => Signed(Row(nx, a) <= Row(nx, b), Row(nx, cell)))
  {
    var n := 2 * Steps(nx, a, b);
    var s := Samples(nx, a, b, n + 1);
    var ca, cb, ra, rb := Col(nx, a), Col(nx, b), Row(nx, a), Row(nx, b);
    forall i, j | 0 <= i <= j < |s|
      ensures Signed(ca <= cb, Col(nx, s[i])) <= Signed(ca <= cb, Col(nx, s[j]))
      ensures Signed(ra <= rb, Row(nx, s[i])) <= Signed(ra <= rb, Row(nx, s[j]))
    {
      SampleInGrid(nx, ny, a, b, i);
      SampleInGrid(nx, ny, a, b, j);
      AlongOrdered(ca, cb, i, j, n);
      AlongOrdered(ra, rb, i, j, n);
      hide Along, SampleCell, Col, Row, Steps;
    }
  }

  /** No cell is met twice. */
  lemma LineVisitsOnce(nx: int, ny: int, a: int, b: int, i: nat, j: nat)
    requires 0 < nx && 0 <= a < nx * ny && 0 <= b < nx * ny && i < j < |Line(nx, a, b)|
    ensures Line(nx, a, b)[i] != Line(nx, a, b)[j]
  {
    var col := (cell: int) => Signed(Col(nx, a) <= Col(nx, b), Col(nx, cell));
    var row := (cell: int) => Signed(Row(nx, a) <= Row(nx, b), Row(nx, cell));
    var line := Line(nx, a, b);
    SamplesOrdered(nx, ny, a, b);
    DistinctOrdered(Samples(nx, a, b, 2 * Steps(nx, a, b) + 1), col);
    DistinctOrdered(Samples(nx, a, b, 2 * Steps(nx, a, b) + 1), row);
    assert Ordered(line, col) && Ordered(line, row);
    hide Distinct, Samples, Steps, Line, Walk;
    if line[i] == line[j] {
      assert col(line[i]) <= col(line[i + 1]) <= col(line[j]) && row(line[i]) <= row(line[i + 1]) <= row(line[j]);
      LineTouches(nx, ny, a, b, i);
      LineInGrid(nx, ny, a, b, i);
      LineInGrid(nx, ny, a, b, i + 1);
      CellOf(nx, ny, line[i]);
      CellOf(nx, ny, line[i + 1]);
      assert false;
    }
  }

  /** A move costs the same both ways. */
  lemma MoveSymmetric(c: Chart, a: int, b: int)
    requires c.Valid() && c.InGrid(a) && c.InGrid(b) && LegClear(c, a, b, None)
    ensures LegClear(c, b, a, None) && MoveCost(c, a, b) == MoveCost(c, b, a)
  {
    hide Line, Index, Col, Row, Chart.Length;
    var there, back := Line(c.nx, a, b), Line(c.nx, b, a);
    assert back == Reverse(there) by { LineReversed(c.nx, c.ny, a, b); }
    assert Clear(c, back, None) && Mean(c, back) == Mean(c, there) by { MeanReversed(c, there); }
    assert c.Length(b, a) == c.Length(a, b) by { c.LengthSymmetric(a, b); }
  }

  /** A clear leg has both ends in passable water. */
  lemma ClearLegEnds(c: Chart, a: int, b: int, limit: Option<real>)
    requires c.Valid() && c.InGrid(a) && c.InGrid(b) && LegClear(c, a, b, limit)
    ensures c.Passable(a) && c.Passable(b) && LegClear(c, a, b, None)
  {
    LineEnds(c.nx, c.ny, a, b);
  }

  lemma ScaledUp(length: real, sum: real, n: real)
    requires length >= 0.0 && sum >= n > 0.0
    ensures length * (sum / n) >= length
  {
    var mean := sum / n;
    assert mean * n == sum;
    assert (mean - 1.0) * n >= 0.0;
    assert length * (mean - 1.0) >= 0.0;
  }

  /** No move is cheaper than its length: the straight-line heuristic never overestimates. */
  lemma MoveAtLeastLength(c: Chart, a: int, b: int)
    requires c.Valid() && c.CostsAtLeastOne() && LegClear(c, a, b, None)
    ensures MoveCost(c, a, b) >= c.Length(a, b) >= 0.0
  {
    var w := Line(c.nx, a, b);
    assert HypotAt(c.hypot, c.East(a, b), c.North(a, b));
    SumAtLeastCount(c, w);
    ScaledUp(c.Length(a, b), Sum(c, w), |w| as real);
  }

  // ---- The code -----------------------------------------------------------------------------

  lemma SquaredLength(c: Chart, a: int, b: int)
    requires c.Valid()
    ensures var h, dx, dy := c.Length(a, b), Col(c.nx, b) - Col(c.nx, a), Row(c.nx, b) - Row(c.nx, a);
      h >= 0.0 && h * h == (dx as real * c.mx) * (dx as real * c.mx) + (dy as real * c.my) * (dy as real * c.my)
  {
    var x, y := c.East(a, b), c.North(a, b);
    assert HypotAt(c.hypot, x, y);
    var dx, dy := Col(c.nx, b) - Col(c.nx, a), Row(c.nx, b) - Row(c.nx, a);
    assert x == dx as real * c.mx && y == dy as real * c.my;
    hide Col, Row, Chart.East, Chart.North;
  }

  /** A cell s steps away is at least s cell widths away. */
  lemma StepsSpanLength(c: Chart, a: int, b: int)
    requires c.Valid()
    ensures c.Length(a, b) >= Steps(c.nx, a, b) as real * RealMin(c.mx, c.my)
  {
    SquaredLength(c, a, b);
    hide Col, Row, Chart.Length;
    LongerLeg(c.Length(a, b), Col(c.nx, b) - Col(c.nx, a), Row(c.nx, b) - Row(c.nx, a), c.mx, c.my);
  }

  lemma LongerLeg(h: real, dx: int, dy: int, mx: real, my: real)
    requires h >= 0.0 && mx > 0.0 && my > 0.0
    requires h * h == (dx as real * mx) * (dx as real * mx) + (dy as real * my) * (dy as real * my)
    ensures h >= Max(Abs(dx), Abs(dy)) as real * RealMin(mx, my)
  {
    var m, x, y := RealMin(mx, my), dx as real * mx, dy as real * my;
    assert h * h == x * x + y * y && h * h == y * y + x * x;
    LegOfTriangle(h, dx, x, y, mx, m);
    LegOfTriangle(h, dy, y, x, my, m);
  }

  lemma LegOfTriangle(h: real, d: int, x: real, y: real, width: real, m: real)
    requires h >= 0.0 && h * h == x * x + y * y && 0.0 < m <= width && x == d as real * width
    ensures h >= Abs(d) as real * m
  {
    var n := Abs(d) as real;
    var leg := n * width;
    ScaleNegates(d, width);
    assert leg == x || leg == -x;
    assert leg * leg == x * x && y * y >= 0.0;
    Shrunk(n, m, width);
    SquareOrder(leg, h);
  }

  lemma Shrunk(n: real, m: real, width: real)
    requires n >= 0.0 && 0.0 < m <= width
    ensures 0.0 <= n * m <= n * width
  {}

  /** One bad sample spoils the whole leg. */
  lemma BadSample(c: Chart, a: int, b: int, s: nat, n: nat, limit: Option<real>)
    requires c.nx > 0 && Steps(c.nx, a, b) > 0 && s < n
    requires !Fit(c, SampleCell(c.nx, a, b, s), limit)
    ensures !Clear(c, Walk(c.nx, a, b, n), limit)
  {
    var t := Samples(c.nx, a, b, n);
    DistinctMembers(t);
    assert t[s] in Distinct(t);
  }

  lemma WalkStarts(nx: int, a: int, b: int)
    requires nx > 0 && Steps(nx, a, b) > 0
    ensures Walk(nx, a, b, 0) == []
  {}

  /** What one more sample adds to the walk. */
  lemma NextSample(c: Chart, a: int, b: int, s: nat, limit: Option<real>)
    requires c.nx > 0 && Steps(c.nx, a, b) > 0
    requires Clear(c, Walk(c.nx, a, b, s), limit)
    ensures var w, w', x := Walk(c.nx, a, b, s), Walk(c.nx, a, b, s + 1), SampleCell(c.nx, a, b, s);
      if s > 0 && SampleCell(c.nx, a, b, s - 1) == x then w' == w
      else Fit(c, x, limit) ==>
        Clear(c, w', limit) && Sum(c, w') == Sum(c, w) + c.cost[x].val && |w'| == |w| + 1
  {
    var t, t' := Samples(c.nx, a, b, s), Samples(c.nx, a, b, s + 1);
    assert t'[..s] == t;
    var w, x := Walk(c.nx, a, b, s), SampleCell(c.nx, a, b, s);
    if !(s > 0 && SampleCell(c.nx, a, b, s - 1) == x) && Fit(c, x, limit) {
      assert Clear(c, w + [x], limit);
      assert (w + [x])[..|w|] == w;
    }
  }

  /** The cell under one sample, and the bounds check that never fails. */
  method SampleAt(c: Chart, a: int, b: int, s: int) returns (i: int)
    requires c.Valid() && c.InGrid(a) && c.InGrid(b) && Steps(c.nx, a, b) > 0
    requires 0 <= s <= 2 * Steps(c.nx, a, b)
    ensures i == SampleCell(c.nx, a, b, s) && c.InGrid(i)
  {
    var samples := 2 * Steps(c.nx, a, b);
    var ix := Round(Along(Col(c.nx, a), Col(c.nx, b), s, samples));
    var iy := Round(Along(Row(c.nx, a), Row(c.nx, b), s, samples));
    SampleInGrid(c.nx, c.ny, a, b, s);
    if ix < 0 || iy < 0 || ix >= c.nx || iy >= c.ny {
      assert false;
    }
    i := Index(c.nx, ix, iy);
  }

  /** The sampling loop of `traverse`. */
  method TraverseSamples(c: Chart, a: int, b: int, limit: Option<real>) returns (sum: real, count: nat, ok: bool)
    requires c.Valid() && c.InGrid(a) && c.InGrid(b) && Steps(c.nx, a, b) > 0
    ensures var w := Walk(c.nx, a, b, 2 * Steps(c.nx, a, b) + 1);
      && ok == Clear(c, w, limit)
      && (ok ==> Clear(c, w, None) && sum == Sum(c, w) && count == |w|)
      && (!ok ==> sum == 0.0 && count == 0)
  {
    hide Steps, SampleCell, Walk;
    WalkStarts(c.nx, a, b);
    var samples := 2 * Steps(c.nx, a, b);
    var prev := -1;
    sum, count := 0.0, 0;
    var s := 0;
    while s <= samples
      invariant 0 <= s <= samples + 1
      invariant prev == if s == 0 then -1 else SampleCell(c.nx, a, b, s - 1)
      invariant Clear(c, Walk(c.nx, a, b, s), limit)
      invariant sum == Sum(c, Walk(c.nx, a, b, s)) && count == |Walk(c.nx, a, b, s)|
    {
      var i := SampleAt(c, a, b, s);
      NextSample(c, a, b, s, limit);
      s := s + 1;
      if i != prev {
        prev := i;
        var m := c.cost[i];
        if m.PosInf? || (limit.Some? && m.val > limit.value) {
          BadSample(c, a, b, s - 1, samples + 1, limit);
          return 0.0, 0, false;
        }
        sum := sum + m.val;
        count := count + 1;
      }
    }
    ok := true;
  }

  /** `traverse`: sums the multipliers under the leg, or refuses it. */
  method Traverse(c: Chart, a: int, b: int, limit: Option<real>) returns (sum: real, count: nat, ok: bool)
    requires c.Valid() && c.InGrid(a) && c.InGrid(b)
    ensures ok == LegClear(c, a, b, limit)
    ensures ok ==> LegClear(c, a, b, None) && sum == Sum(c, Line(c.nx, a, b)) && count == |Line(c.nx, a, b)|
    ensures !ok ==> sum == 0.0 && count == 0
  {
    if Steps(c.nx, a, b) == 0 {
      var m := c.cost[a];
      if m.PosInf? {
        assert !Fit(c, Line(c.nx, a, b)[0], None);
        return 0.0, 0, false;
      }
      assert [a][..0] == [];
      return m.val, 1, true;
    }
    sum, count, ok := TraverseSamples(c, a, b, limit);
  }

  /** `moveCost`: the price of one move, or a refusal. */
  method PriceMove(c: Chart, a: int, b: int) returns (price: real, ok: bool)
    requires c.Valid() && c.InGrid(a) && c.InGrid(b)
    ensures ok == LegClear(c, a, b, None)
    ensures ok ==> price == MoveCost(c, a, b)
  {
    hide Line, Chart.Length;
    var sum, count, clear := Traverse(c, a, b, None);
    if !clear { return 0.0, false; }
    return c.Length(a, b) * (sum / count as real), true;
  }
}
