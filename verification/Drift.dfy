/** How far `dropWithinTolerance` lets the track move (render/autoroute.go). A dropped point was
    measured against the line to the point after it, which the leg that finally spans it need not
    follow. */
module Drifts {
  import opened Common
  import opened Metric
  import opened Charts
  import opened CellWalk
  import opened NavGrids
  import opened Shorten
  import opened Simplify

  /** Every dropped point lies within tolerance of the leg that finally spans it. */
  ghost predicate StaysNear(e: Earth, start: seq<RoutePoint>, kept: seq<int>, tolerance: real)
    requires KeepsAt(|start|, kept)
  {
    forall m, i :: 0 <= m < |kept| - 1 && kept[m] < i < kept[m + 1] ==>
      e.crossTrack(start[kept[m]], start[i], start[kept[m + 1]]) <= tolerance
  }

  ghost predicate AllPairsClear(s: Sea, pts: seq<RoutePoint>)
    requires s.Valid()
  {
    forall i, j :: 0 <= i < j < |pts| ==> LegIsClear(s, pts[i], pts[j])
  }

  /** No list of n points is moved by more than the tolerance, however many passes it takes and even where
      every leg between two of them is clear. */
  ghost predicate NeverDrifts(e: Earth, tolerance: real, n: nat) {
    forall s: Sea, start: seq<RoutePoint>, kept: seq<int> ::
      s.Valid() && |start| == n && AllPairsClear(s, start) && SimplifiedTo(s, e, start, kept, tolerance) ==>
        StaysNear(e, start, kept, tolerance)
  }

  // ---- Up to three points -------------------------------------------------------------------

  lemma KeptOfThree(kept: seq<int>)
    requires KeepsAt(3, kept)
    ensures kept == [0, 1, 2] || kept == [0, 2]
  {
    if |kept| > 3 { KeepsIncreases(3, kept, 3); }
    if |kept| == 1 { assert false; }
  }

  /** The one point between two ends was measured against the leg that spans it. */
  lemma {:induction false} MiddleIsNear(s: Sea, e: Earth, start: seq<RoutePoint>, trace: seq<seq<int>>, tolerance: real, n: nat)
    requires s.Valid() && |start| == 3 && ArePasses(s, e, start, trace, tolerance) && n < |trace| && trace[n] == [0, 2]
    ensures e.crossTrack(start[0], start[1], start[2]) <= tolerance
  {
    hide LegIsClear;
    assert Identity(3) == [0, 1, 2];
    if n == 0 {
    } else {
      var m := n - 1;
      assert PassLeaves(s, e, start, trace[m], trace[m + 1], tolerance);
      KeptOfThree(trace[m]);
      if trace[m] == [0, 2] {
        MiddleIsNear(s, e, start, trace, tolerance, m);
      } else {
        MiddleIsDropped(s, e, start, tolerance);
      }
    }
  }

  lemma MiddleIsDropped(s: Sea, e: Earth, start: seq<RoutePoint>, tolerance: real)
    requires s.Valid() && |start| == 3 && PassLeaves(s, e, start, [0, 1, 2], [0, 2], tolerance)
    ensures e.crossTrack(start[0], start[1], start[2]) <= tolerance
  {
    hide LegIsClear, AllSifted;
    var kept :| IsPass(s, e, Pick(start, [0, 1, 2]), kept, tolerance) && KeepsAt(3, kept) && [0, 2] == Pick([0, 1, 2], kept);
    assert Pick(start, [0, 1, 2]) == start;
    KeptOfThree(kept);
    assert kept == [0, 2];
    SiftedMiddle(s, e, start, kept, tolerance);
  }

  lemma SiftedMiddle(s: Sea, e: Earth, start: seq<RoutePoint>, kept: seq<int>, tolerance: real)
    requires s.Valid() && |start| == 3 && kept == [0, 2] && AllSifted(s, e, start, kept, tolerance)
    ensures e.crossTrack(start[0], start[1], start[2]) <= tolerance
  {
    hide LegIsClear;
    assert Sifted(s, e, start, kept[0], kept[0 + 1], tolerance);
    assert Droppable(s, e, start[0], start[1], start[1 + 1], tolerance);
  }

  lemma UpToThree(e: Earth, tolerance: real, n: nat)
    requires n <= 3
    ensures NeverDrifts(e, tolerance, n)
  {
    hide PassLeaves, AllPairsClear, NothingDroppable, Sea.Valid, Identity;
    forall s: Sea, start: seq<RoutePoint>, kept: seq<int>
      | s.Valid() && |start| == n && AllPairsClear(s, start) && SimplifiedTo(s, e, start, kept, tolerance)
      ensures StaysNear(e, start, kept, tolerance)
    {
      if n == 3 {
        var trace :| ArePasses(s, e, start, trace, tolerance) && trace[|trace| - 1] == kept;
        KeptOfThree(kept);
        if kept == [0, 2] { MiddleIsNear(s, e, start, trace, tolerance, |trace| - 1); }
      }
    }
  }

  // ---- A track that drifts ------------------------------------------------------------------

  const METRES_PER_DEGREE_LAT: real := 111320.0

  /** Metres east and north from one position to another on the equator. */
  function Apart(a: RoutePoint, b: RoutePoint): (real, real) {
    ((b.lng - a.lng) * METRES_PER_DEGREE_LAT, (b.lat - a.lat) * METRES_PER_DEGREE_LAT)
  }

  /** How far m is from the line along d. */
  function OffCourse(h: (real, real) -> real, m: (real, real), d: (real, real)): real {
    var den := h(d.0, d.1);
    if den == 0.0 then h(m.0, m.1) else RealAbs(d.1 * m.0 - d.0 * m.1) / den
  }

  /** `crossTrackMeters` on the equator. */
  function CrossTrack(h: (real, real) -> real, a: RoutePoint, m: RoutePoint, b: RoutePoint): real {
    OffCourse(h, Apart(a, m), Apart(a, b))
  }

  /** The earth about the equator, where it is flat. */
  function Flat(h: (real, real) -> real, bend: (int, int, int) -> real): Earth {
    Earth((a: RoutePoint, b: RoutePoint) => h(Apart(a, b).0, Apart(a, b).1), (a, m, b) => CrossTrack(h, a, m, b), bend)
  }

  function At(x: real, y: real): RoutePoint {
    RoutePoint(y / METRES_PER_DEGREE_LAT, x / METRES_PER_DEGREE_LAT)
  }

  /** How far along point i of the arc is, in steps of ten tolerances, and how far off course. */
  function Along(t: real, i: int): real { i as real * (10.0 * t) }

  function Off(t: real, i: int): real { if i == 1 then 1.5 * t else if i == 2 then t else 0.0 }

  function ArcPoint(t: real, i: int): RoutePoint { At(Along(t, i), Off(t, i)) }

  /** Due east, but for the first two points. */
  function Arc(t: real, k: nat): (run: seq<RoutePoint>)
    ensures |run| == k + 2
  {
    seq(k + 2, i => ArcPoint(t, i))
  }

  lemma AtLeastEast(h: (real, real) -> real, x: real, y: real)
    requires IsHypot(h) && x >= 0.0
    ensures h(x, y) >= x
  {
    assert HypotAt(h, x, y);
    SquareOrder(x, h(x, y));
  }

  lemma DueEast(h: (real, real) -> real, x: real)
    requires IsHypot(h) && x >= 0.0
    ensures h(x, 0.0) == x
  {
    assert HypotAt(h, x, 0.0);
    SquareOrder(x, h(x, 0.0));
    SquareOrder(h(x, 0.0), x);
  }

  /** A point no farther off than `limit`, north or south, is no farther than that off the line. */
  lemma OffLine(h: (real, real) -> real, mx: real, my: real, dx: real, dy: real, limit: real)
    requires IsHypot(h) && dx > 0.0 && limit >= 0.0 && -(limit * dx) <= dy * mx - dx * my <= limit * dx
    ensures h(dx, dy) > 0.0 && RealAbs(dy * mx - dx * my) / h(dx, dy) <= limit
  {
    AtLeastEast(h, dx, dy);
    var cross, den := RealAbs(dy * mx - dx * my), h(dx, dy);
    assert cross <= limit * dx && limit * dx <= limit * den;
    Quotient(cross, limit, den);
  }

  lemma Quotient(x: real, limit: real, den: real)
    requires den > 0.0
    ensures x <= limit * den <==> x / den <= limit
  {
    assert x == x / den * den;
  }

  lemma ApartAt(x1: real, y1: real, x2: real, y2: real)
    ensures Apart(At(x1, y1), At(x2, y2)) == (x2 - x1, y2 - y1)
  {}

  lemma AlongSteps(t: real, i: int, j: int)
    requires i < j && t > 0.0
    ensures Along(t, j - i) == Along(t, j) - Along(t, i) && Along(t, j - i) >= 10.0 * t
  {
    var n, step := (j - i) as real, 10.0 * t;
    AtLeastOne(n, step);
    assert n == j as real - i as real;
  }

  lemma AtLeastOne(n: real, step: real)
    requires n >= 1.0 && step > 0.0
    ensures n * step >= step
  {
    assert (n - 1.0) * step >= 0.0;
  }

  lemma ArcApart(t: real, k: nat, i: int, j: int)
    requires 0 <= i < j < k + 2 && t > 0.0
    ensures Apart(Arc(t, k)[i], Arc(t, k)[j]) == (Along(t, j - i), Off(t, j) - Off(t, i)) && Along(t, j - i) >= 10.0 * t
  {
    AlongSteps(t, i, j);
    hide Along;
    assert Arc(t, k)[i] == ArcPoint(t, i) && Arc(t, k)[j] == ArcPoint(t, j);
    hide Arc, At, Apart;
    ApartAt(Along(t, i), Off(t, i), Along(t, j), Off(t, j));
  }

  /** Each inner point of the arc is within tolerance of the line to the next. */
  lemma ArcIsDropped(h: (real, real) -> real, bend: (int, int, int) -> real, t: real, k: nat)
    requires IsHypot(h) && t > 0.0 && k >= 2
    ensures var run := Arc(t, k); forall i :: 0 < i < |run| - 1 ==> WithinTolerance(Flat(h, bend), run[0], run[i], run[i + 1], t)
  {
    var e, run := Flat(h, bend), Arc(t, k);
    hide Arc, Flat, WithinTolerance, Along, Off, Apart;
    forall i | 0 < i < |run| - 1 ensures WithinTolerance(e, run[0], run[i], run[i + 1], t) {
      ArcApart(t, k, 0, i);
      ArcApart(t, k, i, i + 1);
      ArcApart(t, k, 0, i + 1);
      StartsOnCourse(t);
      LegsAreLong(h, Along(t, i), Off(t, i), Along(t, 1), Off(t, i + 1) - Off(t, i), t);
      NearLine(h, t, i);
      Within(h, bend, run[0], run[i], run[i + 1], t);
    }
  }

  lemma StartsOnCourse(t: real)
    ensures Off(t, 0) == 0.0
  {}

  lemma Within(h: (real, real) -> real, bend: (int, int, int) -> real, a: RoutePoint, m: RoutePoint, b: RoutePoint, t: real)
    requires RealMin(h(Apart(a, m).0, Apart(a, m).1), h(Apart(m, b).0, Apart(m, b).1)) * DROP_RELATIVE_FRACTION >= t
    requires OffCourse(h, Apart(a, m), Apart(a, b)) <= t
    ensures WithinTolerance(Flat(h, bend), a, m, b, t)
  {
    FlatIs(h, bend, a, m, b);
    hide Apart, OffCourse, Flat;
  }

  lemma FlatIs(h: (real, real) -> real, bend: (int, int, int) -> real, a: RoutePoint, m: RoutePoint, b: RoutePoint)
    ensures var e := Flat(h, bend);
      && e.distance(a, m) == h(Apart(a, m).0, Apart(a, m).1) && e.distance(m, b) == h(Apart(m, b).0, Apart(m, b).1)
      && e.crossTrack(a, m, b) == CrossTrack(h, a, m, b)
  {}

  lemma LegsAreLong(h: (real, real) -> real, x1: real, y1: real, x2: real, y2: real, t: real)
    requires IsHypot(h) && t > 0.0 && x1 >= 10.0 * t && x2 >= 10.0 * t
    ensures RealMin(h(x1, y1), h(x2, y2)) * DROP_RELATIVE_FRACTION >= t
  {
    AtLeastEast(h, x1, y1);
    AtLeastEast(h, x2, y2);
  }

  lemma NearLine(h: (real, real) -> real, t: real, i: int)
    requires IsHypot(h) && t > 0.0 && i >= 1
    ensures OffCourse(h, (Along(t, i), Off(t, i)), (Along(t, i + 1), Off(t, i + 1))) <= t
  {
    var mx, my, dx, dy := Along(t, i), Off(t, i), Along(t, i + 1), Off(t, i + 1);
    var tt := t * t;
    assert dx > 0.0;
    if i == 1 {
      assert dy * mx == 10.0 * tt && dx * my == 30.0 * tt && t * dx == 20.0 * tt;
    } else if i == 2 {
      assert dy * mx == 0.0 && dx * my == 30.0 * tt && t * dx == 30.0 * tt;
    } else {
      assert dy * mx == 0.0 && dx * my == 0.0 && t * dx >= 0.0;
    }
    OffLine(h, mx, my, dx, dy, t);
  }

  lemma OverLeg(h: (real, real) -> real, a: RoutePoint, m: RoutePoint, b: RoutePoint, mx: real, dx: real, off: real)
    requires Apart(a, m) == (mx, off) && Apart(a, b) == (dx, 0.0) && h(dx, 0.0) == dx && dx > 0.0 && off >= 0.0
    ensures CrossTrack(h, a, m, b) == off
  {
    hide Apart;
    assert 0.0 * mx == 0.0 && dx * off >= 0.0 && dx * off / dx == off;
  }

  lemma FirstBend(h: (real, real) -> real, t: real, k: nat)
    requires IsHypot(h) && t > 0.0 && k >= 2
    ensures var run := Arc(t, k); CrossTrack(h, run[0], run[1], run[k + 1]) == 1.5 * t
  {
    hide Arc, At, Apart, Along, RealAbs, CrossTrack;
    var run, dx := Arc(t, k), Along(t, k + 1);
    ArcApart(t, k, 0, 1);
    ArcApart(t, k, 0, k + 1);
    DueEast(h, dx);
    OverLeg(h, run[0], run[1], run[k + 1], Along(t, 1), dx, 1.5 * t);
  }

  /** But its first bend is a tolerance and a half off the leg that replaces it. */
  lemma ArcDrifts(h: (real, real) -> real, bend: (int, int, int) -> real, t: real, k: nat)
    requires IsHypot(h) && t > 0.0 && k >= 2
    ensures var run := Arc(t, k); Flat(h, bend).crossTrack(run[0], run[1], run[|run| - 1]) == 1.5 * t
  {
    var run := Arc(t, k);
    FirstBend(h, t, k);
    FlatIs(h, bend, run[0], run[1], run[k + 1]);
    hide Flat, CrossTrack, Arc;
  }

  // ---- Open water ---------------------------------------------------------------------------

  /** Open water about the equator, in square cells of t metres, as far as the arc goes. */
  function OpenSea(h: (real, real) -> real, t: real, k: nat): Sea
    requires t > 0.0
  {
    var cell, nx := t / METRES_PER_DEGREE_LAT, 10 * (k + 1) + 1;
    Sea(Frame(0.0, 0.0, cell, cell, nx, 2), Chart(nx, 2, t, t, h, seq(2 * nx, _ => Fin(1.0))))
  }

  lemma OpenSeaIsValid(h: (real, real) -> real, t: real, k: nat)
    requires IsHypot(h) && t > 0.0
    ensures OpenSea(h, t, k).Valid()
  {}

  lemma SlotOf(x: real, t: real)
    requires t > 0.0
    ensures t / METRES_PER_DEGREE_LAT > 0.0
    ensures Slot(0.0, t / METRES_PER_DEGREE_LAT, x * t / METRES_PER_DEGREE_LAT) == x.Floor
  {
    var d := t / METRES_PER_DEGREE_LAT;
    assert x * t / METRES_PER_DEGREE_LAT == x * d;
    assert x * d / d == x;
  }

  lemma ArcInSea(h: (real, real) -> real, t: real, k: nat, i: int)
    requires IsHypot(h) && t > 0.0 && 0 <= i < k + 2
    ensures OpenSea(h, t, k).Valid() && CellUnder(OpenSea(h, t, k).frame, Arc(t, k)[i]).Some?
  {
    OpenSeaIsValid(h, t, k);
    SlotOf((10 * i) as real, t);
    var y := if i == 1 then 1.5 else if i == 2 then 1.0 else 0.0;
    SlotOf(y, t);
    assert Along(t, i) == (10 * i) as real * t by { TenSteps(i, t); }
    assert Off(t, i) == y * t;
    assert Arc(t, k)[i] == At((10 * i) as real * t, y * t);
  }

  lemma TenSteps(i: int, t: real)
    ensures i as real * (10.0 * t) == (10 * i) as real * t
  {
    assert (10 * i) as real == 10.0 * i as real;
  }

  lemma OpenIsClear(s: Sea, a: RoutePoint, b: RoutePoint)
    requires s.Valid() && CellUnder(s.frame, a).Some? && CellUnder(s.frame, b).Some?
    requires forall i :: s.chart.InGrid(i) ==> s.chart.Passable(i)
    ensures LegIsClear(s, a, b)
  {
    s.frame.CellAtInGrid(a.lng, a.lat);
    s.frame.CellAtInGrid(b.lng, b.lat);
    var c, i, j := s.chart, CellUnder(s.frame, a).value, CellUnder(s.frame, b).value;
    hide CellUnder, Line;
    var line := Line(c.nx, i, j);
    forall k | 0 <= k < |line| ensures Fit(c, line[k], None) { LineInGrid(c.nx, c.ny, i, j, k); }
  }

  lemma ArcIsClear(h: (real, real) -> real, t: real, k: nat)
    requires IsHypot(h) && t > 0.0
    ensures OpenSea(h, t, k).Valid() && AllPairsClear(OpenSea(h, t, k), Arc(t, k))
  {
    var s, run := OpenSea(h, t, k), Arc(t, k);
    OpenSeaIsValid(h, t, k);
    hide LegIsClear, CellUnder, Arc;
    forall i, j | 0 <= i < j < |run| ensures LegIsClear(s, run[i], run[j]) {
      ArcInSea(h, t, k, i);
      ArcInSea(h, t, k, j);
      OpenIsClear(s, run[i], run[j]);
    }
  }

  // ---- What becomes of the arc --------------------------------------------------------------

  /** Every inner point of a list could be dropped against its first. */
  ghost predicate AllDroppable(s: Sea, e: Earth, pts: seq<RoutePoint>, tolerance: real)
    requires s.Valid()
  {
    forall i :: 0 < i < |pts| - 1 ==> Droppable(s, e, pts[0], pts[i], pts[i + 1], tolerance)
  }

  lemma ArcIsDroppable(h: (real, real) -> real, bend: (int, int, int) -> real, t: real, k: nat)
    requires IsHypot(h) && t > 0.0 && k >= 2
    ensures OpenSea(h, t, k).Valid() && AllDroppable(OpenSea(h, t, k), Flat(h, bend), Arc(t, k), t)
  {
    ArcIsClear(h, t, k);
    ArcIsDropped(h, bend, t, k);
    hide Arc, Flat, OpenSea, WithinTolerance, LegIsClear;
  }

  /** One pass then drops all of them. */
  lemma OnePassDropsAll(s: Sea, e: Earth, pts: seq<RoutePoint>, kept: seq<int>, tolerance: real)
    requires s.Valid() && |pts| >= 3 && AllDroppable(s, e, pts, tolerance)
    ensures IsPass(s, e, pts, kept, tolerance) <==> kept == [0, |pts| - 1]
  {
    hide Droppable;
    if IsPass(s, e, pts, kept, tolerance) {
      if |kept| == 1 { assert false; }
      assert kept[|kept| - 1] == |pts| - 1;
      assert Sifted(s, e, pts, kept[0], kept[0 + 1], tolerance);
    }
    if kept == [0, |pts| - 1] { assert Sifted(s, e, pts, 0, |pts| - 1, tolerance); }
  }

  /** So the arc is left with its ends alone. */
  lemma {:induction false} ArcGoes(s: Sea, e: Earth, start: seq<RoutePoint>, trace: seq<seq<int>>, tolerance: real, n: nat)
    requires s.Valid() && |start| >= 3 && AllDroppable(s, e, start, tolerance)
    requires ArePasses(s, e, start, trace, tolerance) && 0 < n < |trace|
    ensures trace[n] == [0, |start| - 1]
  {
    hide AllDroppable, Droppable, IsPass;
    var m := n - 1;
    assert PassLeaves(s, e, start, trace[m], trace[m + 1], tolerance);
    IdentityPicks(start);
    if m == 0 {
      FirstPass(s, e, start, trace[n], tolerance);
    } else {
      ArcGoes(s, e, start, trace, tolerance, m);
      NextPass(s, e, start, trace[n], tolerance);
    }
  }

  lemma FirstPass(s: Sea, e: Earth, start: seq<RoutePoint>, after: seq<int>, tolerance: real)
    requires s.Valid() && |start| >= 3 && AllDroppable(s, e, start, tolerance)
    ensures PassLeaves(s, e, start, Identity(|start|), after, tolerance) <==> after == [0, |start| - 1]
  {
    hide AllDroppable, Droppable, IsPass;
    var n := |start|;
    IdentityPicks(start);
    forall kept ensures IsPass(s, e, start, kept, tolerance) <==> kept == [0, n - 1] { OnePassDropsAll(s, e, start, kept, tolerance); }
    assert KeepsAt(n, [0, n - 1]) && Pick(Identity(n), [0, n - 1]) == [0, n - 1];
  }

  lemma NextPass(s: Sea, e: Earth, start: seq<RoutePoint>, after: seq<int>, tolerance: real)
    requires s.Valid() && |start| >= 3 && PassLeaves(s, e, start, [0, |start| - 1], after, tolerance)
    ensures after == [0, |start| - 1]
  {
    var before := [0, |start| - 1];
    var kept :| IsPass(s, e, Pick(start, before), kept, tolerance) && KeepsAt(2, kept) && after == Pick(before, kept);
    assert kept == Identity(2) == [0, 1];
  }

  lemma EndsAreLeft(s: Sea, e: Earth, start: seq<RoutePoint>, tolerance: real)
    requires s.Valid() && |start| >= 3 && AllDroppable(s, e, start, tolerance) && tolerance > 0.0
    ensures SimplifiedTo(s, e, start, [0, |start| - 1], tolerance)
  {
    var n, kept := |start|, [0, |start| - 1];
    IdentityPicks(start);
    FirstPass(s, e, start, kept, tolerance);
    hide PassLeaves, Identity, AllDroppable, Droppable;
    var trace := [Identity(n), kept];
    assert ArePasses(s, e, start, trace, tolerance) && trace[|trace| - 1] == kept;
  }

  lemma NothingElseIsLeft(s: Sea, e: Earth, start: seq<RoutePoint>, kept: seq<int>, tolerance: real)
    requires s.Valid() && |start| >= 3 && AllDroppable(s, e, start, tolerance) && tolerance > 0.0
    requires SimplifiedTo(s, e, start, kept, tolerance)
    ensures kept == [0, |start| - 1]
  {
    hide PassLeaves, NothingDroppable, Droppable, AllDroppable;
    var trace :| ArePasses(s, e, start, trace, tolerance) && trace[|trace| - 1] == kept;
    SomethingDroppable(s, e, start, tolerance);
    if |trace| > 1 {
      ArcGoes(s, e, start, trace, tolerance, |trace| - 1);
    } else {
      assert false;
    }
  }

  lemma SomethingDroppable(s: Sea, e: Earth, start: seq<RoutePoint>, tolerance: real)
    requires s.Valid() && |start| >= 3 && AllDroppable(s, e, start, tolerance)
    ensures !NothingDroppable(s, e, Pick(start, Identity(|start|)), tolerance)
  {
    IdentityPicks(start);
    hide Droppable;
    var i := 1;
    assert Droppable(s, e, start[i - 1], start[i], start[i + 1], tolerance);
  }

  /** What `dropWithinTolerance` makes of such a list, and nothing else. */
  lemma LeftWithEnds(s: Sea, e: Earth, start: seq<RoutePoint>, kept: seq<int>, tolerance: real)
    requires s.Valid() && |start| >= 3 && AllDroppable(s, e, start, tolerance) && tolerance > 0.0
    ensures SimplifiedTo(s, e, start, kept, tolerance) <==> kept == [0, |start| - 1]
  {
    hide SimplifiedTo, AllDroppable;
    EndsAreLeft(s, e, start, tolerance);
    if SimplifiedTo(s, e, start, kept, tolerance) { NothingElseIsLeft(s, e, start, kept, tolerance); }
  }

  lemma Drifting(s: Sea, e: Earth, start: seq<RoutePoint>, kept: seq<int>, tolerance: real)
    requires s.Valid() && AllPairsClear(s, start) && SimplifiedTo(s, e, start, kept, tolerance)
    requires !StaysNear(e, start, kept, tolerance)
    ensures !NeverDrifts(e, tolerance, |start|)
  {
    hide AllPairsClear, SimplifiedTo, StaysNear, Sea.Valid;
  }

  lemma FromFour(h: (real, real) -> real, bend: (int, int, int) -> real, tolerance: real, n: nat)
    requires IsHypot(h) && tolerance > 0.0 && n >= 4
    ensures !NeverDrifts(Flat(h, bend), tolerance, n)
  {
    hide Arc, Flat, OpenSea, AllDroppable, AllPairsClear, SimplifiedTo, StaysNear, Sea.Valid, NeverDrifts, IsHypot;
    var k := n - 2;
    ArcIsClear(h, tolerance, k);
    ArcIsDroppable(h, bend, tolerance, k);
    ArcDrifts(h, bend, tolerance, k);
    LeftWithEnds(OpenSea(h, tolerance, k), Flat(h, bend), Arc(tolerance, k), [0, n - 1], tolerance);
    ArcLeaves(Flat(h, bend), Arc(tolerance, k), tolerance, n);
    Drifting(OpenSea(h, tolerance, k), Flat(h, bend), Arc(tolerance, k), [0, n - 1], tolerance);
  }

  /** The pass over positions keeps the track within the tolerance, over every list of n points whatever
      their legs and however many passes it takes, exactly when n is at most three. */
  lemma SafeLengths(h: (real, real) -> real, bend: (int, int, int) -> real, tolerance: real, n: nat)
    requires IsHypot(h) && tolerance > 0.0
    ensures NeverDrifts(Flat(h, bend), tolerance, n) <==> n <= 3
  {
    hide NeverDrifts, Flat;
    if n <= 3 {
      UpToThree(Flat(h, bend), tolerance, n);
    } else {
      FromFour(h, bend, tolerance, n);
    }
  }

  lemma ArcLeaves(e: Earth, run: seq<RoutePoint>, tolerance: real, n: nat)
    requires n >= 4 && |run| == n && e.crossTrack(run[0], run[1], run[n - 1]) > tolerance
    ensures KeepsAt(n, [0, n - 1]) && !StaysNear(e, run, [0, n - 1], tolerance)
  {
    var kept := [0, n - 1];
    assert kept[0] == 0 && kept[0 + 1] == n - 1 && 0 < 1 < n - 1;
  }
}
