/** The pass over positions (render/autoroute.go, `legIsClear`, `dropWithinTolerance`). Great-circle
    length, cross-track offset and the angle of a turn are parameters. */
module Simplify {
  import opened Common
  import opened Charts
  import opened CellWalk
  import opened NavGrids
  import opened Shorten

  datatype RoutePoint = RoutePoint(lat: real, lng: real)

  /** The trigonometry the passes use: great-circle metres, perpendicular offset in metres of the
      middle of three positions, and signed turn in degrees at the middle of three cells. */
  datatype Earth = Earth(
    distance: (RoutePoint, RoutePoint) -> real,
    crossTrack: (RoutePoint, RoutePoint, RoutePoint) -> real,
    bend: (int, int, int) -> real)

  const DROP_RELATIVE_FRACTION: real := 0.1

  // ---- Legs between positions ---------------------------------------------------------------

  function CellUnder(f: Frame, p: RoutePoint): Option<int>
    requires f.Valid()
  {
    f.CellAt(p.lng, p.lat)
  }

  /** `legIsClear`: the cells under both ends and between them are passable. */
  ghost predicate LegIsClear(s: Sea, a: RoutePoint, b: RoutePoint)
    requires s.Valid()
  {
    && CellUnder(s.frame, a).Some? && CellUnder(s.frame, b).Some?
    && LegClear(s.chart, CellUnder(s.frame, a).value, CellUnder(s.frame, b).value, None)
  }

  ghost predicate AllLegsClear(s: Sea, pts: seq<RoutePoint>)
    requires s.Valid()
  {
    forall i :: 0 <= i < |pts| - 1 ==> LegIsClear(s, pts[i], pts[i + 1])
  }

  method CheckLeg(s: Sea, a: RoutePoint, b: RoutePoint) returns (clear: bool)
    requires s.Valid()
    ensures clear == LegIsClear(s, a, b)
  {
    var ai, bi := CellUnder(s.frame, a), CellUnder(s.frame, b);
    if ai.None? || bi.None? { return false; }
    s.frame.CellAtInGrid(a.lng, a.lat);
    s.frame.CellAtInGrid(b.lng, b.lat);
    var _, _, ok := Traverse(s.chart, ai.value, bi.value, None);
    clear := ok;
  }

  // ---- One pass -----------------------------------------------------------------------------

  /** m is within tolerance of the line a-b: at most `tolerance` off it and at most a tenth of the
      shorter leg. */
  predicate WithinTolerance(e: Earth, a: RoutePoint, m: RoutePoint, b: RoutePoint, tolerance: real) {
    var legM := RealMin(e.distance(a, m), e.distance(m, b));
    e.crossTrack(a, m, b) <= RealMin(tolerance, legM * DROP_RELATIVE_FRACTION)
  }

  /** No farther off the line than the tolerance, and than a tenth of either leg. */
  lemma TenthOfLegs(e: Earth, a: RoutePoint, m: RoutePoint, b: RoutePoint, tolerance: real)
    ensures WithinTolerance(e, a, m, b, tolerance) <==>
      var off := e.crossTrack(a, m, b); off <= tolerance && 10.0 * off <= e.distance(a, m) && 10.0 * off <= e.distance(m, b)
  {}

  ghost predicate Droppable(s: Sea, e: Earth, a: RoutePoint, m: RoutePoint, b: RoutePoint, tolerance: real)
    requires s.Valid()
  {
    WithinTolerance(e, a, m, b, tolerance) && LegIsClear(s, a, b)
  }

  /** Between two neighbouring kept points, at positions p and q: every point dropped was droppable
      against p, and q was not, unless it is the last. */
  ghost predicate Sifted(s: Sea, e: Earth, pts: seq<RoutePoint>, p: int, q: int, tolerance: real)
    requires s.Valid()
  {
    && 0 <= p < q < |pts|
    && (forall i :: p < i < q ==> Droppable(s, e, pts[p], pts[i], pts[i + 1], tolerance))
    && (q < |pts| - 1 ==> !Droppable(s, e, pts[p], pts[q], pts[q + 1], tolerance))
  }

  lemma SiftedLegIsClear(s: Sea, e: Earth, pts: seq<RoutePoint>, p: int, q: int, tolerance: real)
    requires s.Valid() && AllLegsClear(s, pts) && Sifted(s, e, pts, p, q, tolerance)
    ensures LegIsClear(s, pts[p], pts[q])
  {
    hide LegIsClear, WithinTolerance;
    if q > p + 1 { assert Droppable(s, e, pts[p], pts[q - 1], pts[q - 1 + 1], tolerance); }
  }

  ghost predicate AllSifted(s: Sea, e: Earth, pts: seq<RoutePoint>, kept: seq<int>, tolerance: real)
    requires s.Valid()
  {
    forall m :: 0 <= m < |kept| - 1 ==> Sifted(s, e, pts, kept[m], kept[m + 1], tolerance)
  }

  ghost predicate SiftedSoFar(s: Sea, e: Earth, pts: seq<RoutePoint>, kept: seq<int>, i: int, tolerance: real)
    requires s.Valid()
  {
    && kept != [] && 0 <= kept[|kept| - 1] < i < |pts|
    && AllSifted(s, e, pts, kept, tolerance)
    && (forall k :: kept[|kept| - 1] < k < i ==> Droppable(s, e, pts[kept[|kept| - 1]], pts[k], pts[k + 1], tolerance))
  }

  lemma SiftNext(s: Sea, e: Earth, pts: seq<RoutePoint>, kept: seq<int>, i: int, tolerance: real)
    requires s.Valid() && SiftedSoFar(s, e, pts, kept, i, tolerance)
    ensures i < |pts| - 1 && Droppable(s, e, pts[kept[|kept| - 1]], pts[i], pts[i + 1], tolerance) ==>
      SiftedSoFar(s, e, pts, kept, i + 1, tolerance)
    ensures i < |pts| - 1 && !Droppable(s, e, pts[kept[|kept| - 1]], pts[i], pts[i + 1], tolerance) ==>
      SiftedSoFar(s, e, pts, kept + [i], i + 1, tolerance)
    ensures i == |pts| - 1 ==> AllSifted(s, e, pts, kept + [i], tolerance)
  {
    hide Droppable;
  }

  lemma LastKept(s: Sea, e: Earth, pts: seq<RoutePoint>, kept: seq<int>, out: seq<RoutePoint>, i: int, tolerance: real)
    requires s.Valid() && SiftedSoFar(s, e, pts, kept, i, tolerance) && Keeps(pts[..kept[|kept| - 1] + 1], kept, out)
    ensures kept != [] && out != [] && 0 <= kept[|kept| - 1] < i && out[|out| - 1] == pts[kept[|kept| - 1]]
  {
    hide Droppable;
  }

  /** One pass: each point is measured against the last one kept. */
  method DropPass(s: Sea, e: Earth, pts: seq<RoutePoint>, tolerance: real)
      returns (out: seq<RoutePoint>, ghost kept: seq<int>)
    requires s.Valid()
    ensures Keeps(pts, kept, out) && |out| <= |pts|
    ensures IsPass(s, e, pts, kept, tolerance)
  {
    if |pts| < 3 {
      KeepsAll(pts);
      return pts, Identity(|pts|);
    }
    hide LegIsClear, WithinTolerance, Droppable, AllSifted, Identity, Sea.Valid;
    out, kept := [pts[0]], [0];
    var i := 1;
    assert SiftedSoFar(s, e, pts, kept, i, tolerance) by { FirstKept(s, e, pts, tolerance); }
    assert Keeps(pts[..1], kept, out);
    while i < |pts| - 1
      invariant 1 <= i < |pts| && SiftedSoFar(s, e, pts, kept, i, tolerance)
      invariant kept != [] && 0 <= kept[|kept| - 1] < |pts| && Keeps(pts[..kept[|kept| - 1] + 1], kept, out) && |out| <= i
    {
      hide Keeps, SiftedSoFar;
      LastKept(s, e, pts, kept, out, i, tolerance);
      var prev := out[|out| - 1];
      var clear := CheckLeg(s, prev, pts[i + 1]);
      SiftNext(s, e, pts, kept, i, tolerance);
      DroppableIs(s, e, prev, pts[i], pts[i + 1], tolerance);
      TenthOfLegs(e, prev, pts[i], pts[i + 1], tolerance);
      var legM := RealMin(e.distance(prev, pts[i]), e.distance(pts[i], pts[i + 1]));
      if e.crossTrack(prev, pts[i], pts[i + 1]) > RealMin(tolerance, legM * 0.1) || !clear {
        KeepsNext(pts, kept, out, kept[|kept| - 1], i);
        out, kept := out + [pts[i]], kept + [i];
      }
      i := i + 1;
    }
    LastKept(s, e, pts, kept, out, i, tolerance);
    SiftNext(s, e, pts, kept, i, tolerance);
    KeepsNext(pts, kept, out, kept[|kept| - 1], i);
    out, kept := out + [pts[i]], kept + [i];
    assert pts[..i + 1] == pts;
  }

  lemma FirstKept(s: Sea, e: Earth, pts: seq<RoutePoint>, tolerance: real)
    requires s.Valid() && |pts| >= 2
    ensures SiftedSoFar(s, e, pts, [0], 1, tolerance)
  {}

  lemma DroppableIs(s: Sea, e: Earth, a: RoutePoint, m: RoutePoint, b: RoutePoint, tolerance: real)
    requires s.Valid()
    ensures Droppable(s, e, a, m, b, tolerance) <==> WithinTolerance(e, a, m, b, tolerance) && LegIsClear(s, a, b)
  {}

  lemma DropPassIsSafe(s: Sea, e: Earth, pts: seq<RoutePoint>, kept: seq<int>, out: seq<RoutePoint>, tolerance: real)
    requires s.Valid() && AllLegsClear(s, pts) && Keeps(pts, kept, out)
    requires IsPass(s, e, pts, kept, tolerance)
    ensures AllLegsClear(s, out)
  {
    hide LegIsClear, Sifted;
    if |pts| < 3 {
      assert out == pts;
    } else {
      forall m | 0 <= m < |out| - 1 ensures LegIsClear(s, out[m], out[m + 1]) {
        SiftedLegIsClear(s, e, pts, kept[m], kept[m + 1], tolerance);
      }
    }
  }

  // ---- Pass after pass ----------------------------------------------------------------------

  /** One pass keeps the points at these positions. */
  ghost predicate IsPass(s: Sea, e: Earth, pts: seq<RoutePoint>, kept: seq<int>, tolerance: real)
    requires s.Valid()
  {
    if |pts| < 3 then kept == Identity(|pts|)
    else KeepsAt(|pts|, kept) && AllSifted(s, e, pts, kept, tolerance)
  }

  /** The positions `kept` leaves of a list of n, the two ends among them. */
  predicate KeepsAt(n: nat, kept: seq<int>) {
    && (forall i :: 0 <= i < |kept| ==> 0 <= kept[i] < n)
    && (forall i, j :: 0 <= i < j < |kept| ==> kept[i] < kept[j])
    && (n > 0 ==> kept != [] && kept[0] == 0 && kept[|kept| - 1] == n - 1)
  }

  function Pick<T>(xs: seq<T>, kept: seq<int>): (out: seq<T>)
    requires forall i :: 0 <= i < |kept| ==> 0 <= kept[i] < |xs|
    ensures |out| == |kept| && forall i :: 0 <= i < |kept| ==> out[i] == xs[kept[i]]
  {
    seq(|kept|, i requires 0 <= i < |kept| => xs[kept[i]])
  }

  lemma KeepsIsPick<T>(xs: seq<T>, kept: seq<int>, out: seq<T>)
    ensures Keeps(xs, kept, out) <==> KeepsAt(|xs|, kept) && out == Pick(xs, kept)
  {}

  /** From the positions `before`, a pass leaves the positions `after`, both counted in `start`. */
  ghost predicate PassLeaves(s: Sea, e: Earth, start: seq<RoutePoint>, before: seq<int>, after: seq<int>, tolerance: real)
    requires s.Valid()
  {
    && KeepsAt(|start|, before)
    && exists kept :: IsPass(s, e, Pick(start, before), kept, tolerance) && KeepsAt(|before|, kept) && after == Pick(before, kept)
  }

  /** The positions left after each pass in turn. */
  ghost predicate ArePasses(s: Sea, e: Earth, start: seq<RoutePoint>, trace: seq<seq<int>>, tolerance: real)
    requires s.Valid()
  {
    && trace != [] && trace[0] == Identity(|start|)
    && forall n :: 0 <= n < |trace| - 1 ==> PassLeaves(s, e, start, trace[n], trace[n + 1], tolerance)
  }

  /** What is left once no pass can drop anything more. */
  ghost predicate SimplifiedTo(s: Sea, e: Earth, start: seq<RoutePoint>, kept: seq<int>, tolerance: real)
    requires s.Valid()
  {
    && KeepsAt(|start|, kept)
    && (tolerance <= 0.0 ==> kept == Identity(|start|))
    && (tolerance > 0.0 ==> NothingDroppable(s, e, Pick(start, kept), tolerance))
    && exists trace :: ArePasses(s, e, start, trace, tolerance) && trace[|trace| - 1] == kept
  }

  ghost predicate NothingDroppable(s: Sea, e: Earth, pts: seq<RoutePoint>, tolerance: real)
    requires s.Valid()
  {
    forall i :: 0 < i < |pts| - 1 ==> !Droppable(s, e, pts[i - 1], pts[i], pts[i + 1], tolerance)
  }

  lemma KeepsEnds<T>(path: seq<T>, kept: seq<int>, out: seq<T>)
    requires Keeps(path, kept, out) && path != []
    ensures out != [] && out[0] == path[0] && out[|out| - 1] == path[|path| - 1]
    ensures |path| > 1 <==> |out| > 1
  {}

  lemma {:induction false} KeepsIncreases(n: nat, kept: seq<int>, k: nat)
    requires KeepsAt(n, kept) && k < |kept|
    ensures kept[k] >= k && kept[|kept| - 1 - k] <= n - 1 - k
  {
    if k == 0 {
    } else {
      KeepsIncreases(n, kept, k - 1);
    }
  }

  /** A pass that keeps every point has found none to drop. */
  lemma KeptAllIsSame(n: nat, kept: seq<int>)
    requires KeepsAt(n, kept) && |kept| == n
    ensures kept == Identity(n)
  {
    forall k | 0 <= k < |kept| ensures kept[k] == k {
      KeepsIncreases(n, kept, k);
      KeepsIncreases(n, kept, |kept| - 1 - k);
    }
  }

  lemma NothingToDrop(s: Sea, e: Earth, pts: seq<RoutePoint>, tolerance: real)
    requires s.Valid() && IsPass(s, e, pts, Identity(|pts|), tolerance)
    ensures NothingDroppable(s, e, pts, tolerance)
  {
    hide LegIsClear, WithinTolerance, Droppable;
    var kept := Identity(|pts|);
    forall i | 0 < i < |pts| - 1 ensures !Droppable(s, e, pts[i - 1], pts[i], pts[i + 1], tolerance) {
      assert Sifted(s, e, pts, kept[i - 1], kept[i - 1 + 1], tolerance);
    }
  }

  lemma PicksCompose<T>(xs: seq<T>, a: seq<int>, b: seq<int>)
    requires KeepsAt(|xs|, a) && KeepsAt(|a|, b)
    ensures KeepsAt(|xs|, Pick(a, b)) && Pick(Pick(xs, a), b) == Pick(xs, Pick(a, b))
  {}

  lemma IdentityPicks<T>(xs: seq<T>)
    ensures KeepsAt(|xs|, Identity(|xs|)) && Pick(xs, Identity(|xs|)) == xs
  {}

  lemma PassAdded(s: Sea, e: Earth, start: seq<RoutePoint>, trace: seq<seq<int>>, next: seq<int>, tolerance: real)
    requires s.Valid() && ArePasses(s, e, start, trace, tolerance)
    requires PassLeaves(s, e, start, trace[|trace| - 1], next, tolerance)
    ensures ArePasses(s, e, start, trace + [next], tolerance)
  {
    hide PassLeaves, Identity;
    var longer := trace + [next];
    forall n | 0 <= n < |longer| - 1 ensures PassLeaves(s, e, start, longer[n], longer[n + 1], tolerance) {
      assert longer[n] == trace[n];
      if n < |trace| - 1 { assert longer[n + 1] == trace[n + 1]; }
    }
  }

  /** The loop of `DropWithinTolerance` so far: `at` are the positions of what is left. */
  ghost predicate Dropping(s: Sea, e: Earth, start: seq<RoutePoint>, trace: seq<seq<int>>, at: seq<int>,
                           pts: seq<RoutePoint>, tolerance: real)
    requires s.Valid()
  {
    && ArePasses(s, e, start, trace, tolerance) && trace[|trace| - 1] == at
    && KeepsAt(|start|, at) && pts == Pick(start, at)
    && (AllLegsClear(s, start) ==> AllLegsClear(s, pts))
  }

  lemma StartDropping(s: Sea, e: Earth, start: seq<RoutePoint>, tolerance: real)
    requires s.Valid()
    ensures Dropping(s, e, start, [Identity(|start|)], Identity(|start|), start, tolerance)
  {
    IdentityPicks(start);
  }

  lemma DropMore(s: Sea, e: Earth, start: seq<RoutePoint>, trace: seq<seq<int>>, at: seq<int>, pts: seq<RoutePoint>,
                 kept: seq<int>, next: seq<RoutePoint>, tolerance: real)
    requires s.Valid() && Dropping(s, e, start, trace, at, pts, tolerance)
    requires Keeps(pts, kept, next) && IsPass(s, e, pts, kept, tolerance)
    ensures Dropping(s, e, start, trace + [Pick(at, kept)], Pick(at, kept), next, tolerance)
  {
    KeepsIsPick(pts, kept, next);
    PicksCompose(start, at, kept);
    if AllLegsClear(s, pts) { DropPassIsSafe(s, e, pts, kept, next, tolerance); }
    hide IsPass, AllLegsClear, Keeps, ArePasses, KeepsAt;
    assert PassLeaves(s, e, start, at, Pick(at, kept), tolerance);
    PassAdded(s, e, start, trace, Pick(at, kept), tolerance);
  }

  lemma DroppingEnds(s: Sea, e: Earth, start: seq<RoutePoint>, trace: seq<seq<int>>, at: seq<int>,
                     pts: seq<RoutePoint>, tolerance: real)
    requires s.Valid() && Dropping(s, e, start, trace, at, pts, tolerance) && start != []
    ensures pts != [] && pts[0] == start[0] && pts[|pts| - 1] == start[|start| - 1] && (|start| > 1 <==> |pts| > 1)
    ensures |pts| <= |start| && |at| == |pts|
  {
    hide ArePasses, AllLegsClear;
    KeepsIncreases(|start|, at, |at| - 1);
  }

  /** `dropWithinTolerance`: passes until nothing more can go. */
  method DropWithinTolerance(s: Sea, e: Earth, start: seq<RoutePoint>, tolerance: real)
      returns (pts: seq<RoutePoint>, ghost kept: seq<int>)
    requires s.Valid()
    ensures AllLegsClear(s, start) ==> AllLegsClear(s, pts)
    ensures start != [] ==> pts != [] && pts[0] == start[0] && pts[|pts| - 1] == start[|start| - 1]
    ensures |pts| <= |start| && (|start| > 1 <==> |pts| > 1)
    ensures SimplifiedTo(s, e, start, kept, tolerance) && pts == Pick(start, kept)
  {
    hide LegIsClear, WithinTolerance, Droppable, Keeps, AllLegsClear, AllSifted, Dropping, Sea.Valid, IsPass, Identity;
    hide SimplifiedTo, ArePasses, NothingDroppable;
    pts, kept := start, Identity(|start|);
    ghost var trace := [kept];
    IdentityPicks(start);
    StartDropping(s, e, start, tolerance);
    if |start| < 3 || tolerance <= 0.0 {
      LeftAlone(s, e, start, tolerance);
      return;
    }
    while true
      invariant Dropping(s, e, start, trace, kept, pts, tolerance) && pts != []
      decreases |pts|
    {
      DroppingEnds(s, e, start, trace, kept, pts, tolerance);
      var next, left := DropPass(s, e, pts, tolerance);
      KeepsIsPick(pts, left, next);
      if |next| == |pts| {
        KeptAllIsSame(|pts|, left);
        NothingToDrop(s, e, pts, tolerance);
        DroppingIsDone(s, e, start, trace, kept, pts, tolerance);
        return;
      }
      DropMore(s, e, start, trace, kept, pts, left, next, tolerance);
      KeepsEnds(pts, left, next);
      pts, trace, kept := next, trace + [Pick(kept, left)], Pick(kept, left);
    }
  }

  lemma LeftAlone(s: Sea, e: Earth, start: seq<RoutePoint>, tolerance: real)
    requires s.Valid() && (|start| < 3 || tolerance <= 0.0)
    ensures SimplifiedTo(s, e, start, Identity(|start|), tolerance)
  {
    IdentityPicks(start);
    hide Droppable;
    var trace := [Identity(|start|)];
    assert ArePasses(s, e, start, trace, tolerance) && trace[|trace| - 1] == Identity(|start|);
  }

  lemma DroppingIsDone(s: Sea, e: Earth, start: seq<RoutePoint>, trace: seq<seq<int>>, at: seq<int>,
                       pts: seq<RoutePoint>, tolerance: real)
    requires s.Valid() && Dropping(s, e, start, trace, at, pts, tolerance) && NothingDroppable(s, e, pts, tolerance)
    requires tolerance > 0.0
    ensures SimplifiedTo(s, e, start, at, tolerance) && pts == Pick(start, at)
    ensures AllLegsClear(s, start) ==> AllLegsClear(s, pts)
  {
    hide NothingDroppable, AllLegsClear, ArePasses;
  }
}
