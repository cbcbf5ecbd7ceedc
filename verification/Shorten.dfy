/** The passes that turn a cell-by-cell path into few waypoints (render/autoroute_search.go,
    `pullTaut`, `dropReversals`, `thinToLimit`). Each drops waypoints and nothing else, keeps the
    ends, and adds only legs that cross passable cells. */
module Shorten {
  import opened Common
  import opened Charts
  import opened CellWalk

  const PULL_WINDOW: int := 512
  const SHORTCUT_MEAN_TOLERANCE: real := 1.6
  const MIN_REVERSAL_DEG: real := 12.0
  const REVERSAL_COST_CEILING: real := 3.0

  /** Every cell is in the grid and every leg crosses passable cells only. */
  ghost predicate SafePath(c: Chart, p: seq<int>)
    requires c.nx > 0
  {
    (forall i :: 0 <= i < |p| ==> c.Passable(p[i])) && (forall i :: 0 <= i < |p| - 1 ==> LegClear(c, p[i], p[i + 1], None))
  }

  predicate IsLeg(path: seq<int>, a: int, b: int) {
    exists i :: 0 <= i < |path| - 1 && path[i] == a && path[i + 1] == b
  }

  /** Every leg of `out` crosses passable cells only, unless it is a leg of `path` already. */
  ghost predicate NoWorse(c: Chart, path: seq<int>, out: seq<int>)
    requires c.nx > 0
  {
    && Clear(c, out, None)
    && forall i :: 0 <= i < |out| - 1 ==> LegClear(c, out[i], out[i + 1], None) || IsLeg(path, out[i], out[i + 1])
  }

  lemma NoWorseThanItself(c: Chart, path: seq<int>)
    requires c.nx > 0 && Clear(c, path, None)
    ensures NoWorse(c, path, path)
  {
    hide LegClear;
  }

  lemma NoWorseThrough(c: Chart, a: seq<int>, b: seq<int>, d: seq<int>)
    requires c.nx > 0 && NoWorse(c, a, b) && NoWorse(c, b, d)
    ensures NoWorse(c, a, d)
  {
    hide LegClear, Clear;
  }

  /** So what is left of a safe path is safe. */
  lemma SafeStaysSafe(c: Chart, path: seq<int>, out: seq<int>)
    requires c.nx > 0 && SafePath(c, path) && NoWorse(c, path, out)
    ensures SafePath(c, out)
  {
    hide LegClear;
    forall i | 0 <= i < |out| ensures c.Passable(out[i]) { assert Fit(c, out[i], None); }
  }

  /** `out` is what is left of `path` at the positions `kept`, the two ends among them. */
  ghost predicate Keeps<T>(path: seq<T>, kept: seq<int>, out: seq<T>): (keeps: bool)
    ensures keeps ==> |kept| == |out|
  {
    && |kept| == |out|
    && (forall i :: 0 <= i < |kept| ==> 0 <= kept[i] < |path| && out[i] == path[kept[i]])
    && (forall i, j :: 0 <= i < j < |kept| ==> kept[i] < kept[j])
    && (path != [] ==> kept != [] && kept[0] == 0 && kept[|kept| - 1] == |path| - 1)
  }

  function Identity(n: nat): (kept: seq<int>)
    ensures |kept| == n && forall i :: 0 <= i < n ==> kept[i] == i
  {
    seq(n, i => i)
  }

  lemma KeepsAll<T>(path: seq<T>)
    ensures Keeps(path, Identity(|path|), path)
  {}

  function Without<T>(s: seq<T>, k: int): seq<T>
    requires 0 <= k < |s|
  {
    s[..k] + s[k + 1..]
  }

  lemma KeepsWithout(path: seq<int>, kept: seq<int>, out: seq<int>, k: int)
    requires Keeps(path, kept, out) && 0 < k < |out| - 1
    ensures Keeps(path, Without(kept, k), Without(out, k))
  {}

  lemma NoWorseWithout(c: Chart, path: seq<int>, p: seq<int>, k: int)
    requires c.nx > 0 && NoWorse(c, path, p) && 0 < k < |p| - 1 && LegClear(c, p[k - 1], p[k + 1], None)
    ensures NoWorse(c, path, Without(p, k))
  {
    hide LegClear, IsLeg, Fit;
    var q := Without(p, k);
    forall i | 0 <= i < |q| - 1 ensures LegClear(c, q[i], q[i + 1], None) || IsLeg(path, q[i], q[i + 1]) {
      if i < k - 1 { assert q[i] == p[i] && q[i + 1] == p[i + 1]; }
      else if i >= k { assert q[i] == p[i + 1] && q[i + 1] == p[i + 1 + 1]; }
    }
  }

  // ---- pullTaut -----------------------------------------------------------------------------

  /** A straight leg may replace path[i..j]: it is navigable and on average no more than 1.6 times
      as dear as the cells it replaces. */
  predicate Shortcut(c: Chart, path: seq<int>, i: int, j: int)
    requires c.nx > 0 && 0 <= i < j < |path| && Clear(c, path, None)
  {
    && LegClear(c, path[i], path[j], None)
    && Mean(c, Line(c.nx, path[i], path[j])) <= RunMean(c, path, i, j) * SHORTCUT_MEAN_TOLERANCE
  }

  function RunMean(c: Chart, path: seq<int>, i: int, j: int): real
    requires 0 <= i <= j < |path| && Clear(c, path, None)
  {
    RunClear(c, path, i, j);
    Sum(c, path[i..j + 1]) / (j - i + 1) as real
  }

  lemma RunClear(c: Chart, path: seq<int>, i: int, j: int)
    requires 0 <= i <= j < |path| && Clear(c, path, None)
    ensures Clear(c, path[i..j + 1], None)
  {}

  lemma Tried(c: Chart, path: seq<int>, i: int, j: int, runSum: real, sum: real, n: nat, ok: bool)
    requires c.Valid() && 0 <= i < j < |path| && Clear(c, path, None)
    requires Clear(c, path[i..j + 1], None) && runSum == Sum(c, path[i..j + 1])
    requires ok == LegClear(c, path[i], path[j], None)
    requires ok ==> sum == Sum(c, Line(c.nx, path[i], path[j])) && n == |Line(c.nx, path[i], path[j])|
    ensures ok ==> n > 0 && LegClear(c, path[i], path[j], None)
    ensures Shortcut(c, path, i, j) <==>
      ok && n > 0 && !(sum / n as real > (runSum / (j - i + 1) as real) * SHORTCUT_MEAN_TOLERANCE)
  {
    if ok { MeanIs(c, path[i], path[j], sum, n); }
    hide LegClear, Clear, Sum, Mean, Line;
  }

  /** From waypoint i the leg reaches to j and no further: each longer reach up to j was allowed,
      and the next is not, or falls outside the path or the window. */
  ghost predicate ReachesTo(c: Chart, path: seq<int>, i: int, j: int)
    requires c.nx > 0 && Clear(c, path, None)
  {
    && 0 <= i < j < |path| && (j == i + 1 || j - i <= PULL_WINDOW)
    && (forall k :: i + 2 <= k <= j ==> Shortcut(c, path, i, k))
    && (j + 1 < |path| && j + 1 - i <= PULL_WINDOW ==> !Shortcut(c, path, i, j + 1))
  }

  lemma RunSumNext(c: Chart, path: seq<int>, i: int, j: int)
    requires 0 <= i < j < |path| && Clear(c, path, None)
    ensures Clear(c, path[i..j], None) && Clear(c, path[i..j + 1], None)
    ensures Fit(c, path[j], None) && Sum(c, path[i..j + 1]) == Sum(c, path[i..j]) + c.cost[path[j]].val
  {
    assert path[i..j + 1][..j - i] == path[i..j];
  }

  /** The look-ahead of `pullTaut` from one kept waypoint. */
  method Reach(c: Chart, path: seq<int>, i: int) returns (best: int)
    requires c.Valid() && Clear(c, path, None) && 0 <= i < |path| - 1
    ensures ReachesTo(c, path, i, best) && (best == i + 1 || LegClear(c, path[i], path[best], None))
  {
    hide LegClear, Sum, Mean, Shortcut;
    best := i + 1;
    RunSumNext(c, path, i, i + 1);
    OneCellSum(c, path, i);
    var runSum := c.cost[path[i]].val + c.cost[path[i + 1]].val;
    var j := i + 2;
    while j < |path| && j - i <= PULL_WINDOW
      invariant i + 2 <= j <= |path| && best == j - 1
      invariant Clear(c, path[i..j], None) && runSum == Sum(c, path[i..j])
      invariant forall k :: i + 2 <= k <= best ==> Shortcut(c, path, i, k)
      invariant best == i + 1 || (LegClear(c, path[i], path[best], None) && best - i <= PULL_WINDOW)
    {
      FitAt(c, path, i);
      FitAt(c, path, j);
      RunSumNext(c, path, i, j);
      runSum := runSum + c.cost[path[j]].val;
      var sum, n, ok := Traverse(c, path[i], path[j], None);
      Tried(c, path, i, j, runSum, sum, n, ok);
      if !ok || n == 0 { break; }
      if sum / n as real > (runSum / (j - i + 1) as real) * SHORTCUT_MEAN_TOLERANCE { break; }
      best := j;
      j := j + 1;
    }
  }

  lemma FitAt(c: Chart, pts: seq<int>, k: int)
    requires Clear(c, pts, None) && 0 <= k < |pts|
    ensures Fit(c, pts[k], None)
  {}

  lemma OneCellSum(c: Chart, path: seq<int>, i: int)
    requires 0 <= i < |path| && Clear(c, path, None)
    ensures Fit(c, path[i], None) && Clear(c, path[i..i + 1], None) && Sum(c, path[i..i + 1]) == c.cost[path[i]].val
  {
    assert path[i..i + 1] == [path[i]] && [path[i]][..0] == [];
  }

  lemma MeanIs(c: Chart, a: int, b: int, sum: real, n: nat)
    requires c.Valid() && LegClear(c, a, b, None)
    requires sum == Sum(c, Line(c.nx, a, b)) && n == |Line(c.nx, a, b)|
    ensures n > 0 && sum / n as real == Mean(c, Line(c.nx, a, b))
  {
    hide Line;
  }

  /** `pullTaut`: from each kept waypoint, a leg as far ahead as it may reach. */
  method PullTaut(c: Chart, path: seq<int>) returns (out: seq<int>, ghost kept: seq<int>)
    requires c.Valid() && Clear(c, path, None)
    ensures NoWorse(c, path, out) && Keeps(path, kept, out)
    ensures |path| < 3 ==> out == path
    ensures |path| >= 3 ==> forall m :: 0 <= m < |kept| - 1 ==> ReachesTo(c, path, kept[m], kept[m + 1])
  {
    if |path| < 3 {
      KeepsAll(path);
      NoWorseThanItself(c, path);
      return path, Identity(|path|);
    }
    hide LegClear, ReachesTo, Chart.Passable;
    FitAt(c, path, 0);
    out, kept := [path[0]], [0];
    var i := 0;
    assert Keeps(path[..1], kept, out);
    while i < |path| - 1
      invariant 0 <= i < |path| && Keeps(path[..i + 1], kept, out) && NoWorse(c, path, out)
      invariant forall m :: 0 <= m < |kept| - 1 ==> ReachesTo(c, path, kept[m], kept[m + 1])
    {
      hide Keeps, NoWorse, Clear;
      var best := Reach(c, path, i);
      ReachAdvances(c, path, i, best);
      KeepsNext(path, kept, out, i, best);
      NoWorseNext(c, path, kept, out, i, best);
      out, kept := out + [path[best]], kept + [best];
      i := best;
    }
    assert path[..i + 1] == path;
  }

  lemma KeepsNext<T>(path: seq<T>, kept: seq<int>, out: seq<T>, i: int, j: int)
    requires 0 <= i < j < |path| && Keeps(path[..i + 1], kept, out)
    ensures Keeps(path[..j + 1], kept + [j], out + [path[j]]) && kept != [] && kept[|kept| - 1] == i
  {}

  lemma NoWorseNext(c: Chart, path: seq<int>, kept: seq<int>, out: seq<int>, i: int, j: int)
    requires c.Valid() && 0 <= i < j < |path| && Keeps(path[..i + 1], kept, out) && Clear(c, path, None)
    requires NoWorse(c, path, out) && (j == i + 1 || LegClear(c, path[i], path[j], None))
    ensures NoWorse(c, path, out + [path[j]])
  {
    hide LegClear, Chart.Passable;
    assert out[|out| - 1] == path[i];
    FitAt(c, path, j);
    if j == i + 1 { assert IsLeg(path, path[i], path[j]); }
    hide IsLeg, Fit;
    var q := out + [path[j]];
    forall k | 0 <= k < |q| - 1 ensures LegClear(c, q[k], q[k + 1], None) || IsLeg(path, q[k], q[k + 1]) {
      if k < |out| - 1 { assert q[k] == out[k] && q[k + 1] == out[k + 1]; }
    }
  }

  lemma ReachAdvances(c: Chart, path: seq<int>, i: int, j: int)
    requires c.nx > 0 && Clear(c, path, None) && ReachesTo(c, path, i, j)
    ensures 0 <= i < j < |path|
  {}

  // ---- Dropping one waypoint at a time ------------------------------------------------------

  /** A record of successive removals: `trace` starts at `path`, ends at `out`, and each entry is
      the one before it less the waypoint at `order`. */
  ghost predicate Removals(path: seq<int>, trace: seq<seq<int>>, order: seq<int>, out: seq<int>) {
    && |trace| == |order| + 1 && trace[0] == path && trace[|order|] == out
    && forall n :: 0 <= n < |order| ==> 0 < order[n] < |trace[n]| - 1 && trace[n + 1] == Without(trace[n], order[n])
  }

  lemma NoRemovals(path: seq<int>)
    ensures Removals(path, [path], [], path)
  {}

  lemma RemovalsExtended(path: seq<int>, trace: seq<seq<int>>, order: seq<int>, out: seq<int>, k: int)
    requires Removals(path, trace, order, out) && 0 < k < |out| - 1
    ensures Removals(path, trace + [Without(out, k)], order + [k], Without(out, k))
  {
    hide Without;
  }

  lemma DropIsNoWorse(c: Chart, path: seq<int>, kept: seq<int>, pts: seq<int>, k: int, limit: Option<real>)
    requires c.Valid() && NoWorse(c, path, pts) && Keeps(path, kept, pts) && 0 < k < |pts| - 1
    requires LegClear(c, pts[k - 1], pts[k + 1], limit)
    ensures NoWorse(c, path, Without(pts, k)) && Keeps(path, Without(kept, k), Without(pts, k))
  {
    hide LegClear, Keeps;
    FitAt(c, pts, k - 1);
    FitAt(c, pts, k + 1);
    hide NoWorse, Clear;
    ClearLegEnds(c, pts[k - 1], pts[k + 1], limit);
    NoWorseWithout(c, path, pts, k);
    KeepsWithout(path, kept, pts, k);
  }

  // ---- dropReversals ------------------------------------------------------------------------

  /** The heading change at waypoint i, positive to starboard; none at the ends. The angle between
      two legs, which the code takes from atan2, is the parameter `bend`. */
  function TurnAt(bend: (int, int, int) -> real, pts: seq<int>, i: int): real {
    if i <= 0 || i >= |pts| - 1 then 0.0 else bend(pts[i - 1], pts[i], pts[i + 1])
  }

  /** One turn to starboard and one to port. */
  predicate Opposite(x: real, y: real) { x < 0.0 < y || y < 0.0 < x }

  lemma OppositeSigns(x: real, y: real)
    ensures x * y < 0.0 <==> Opposite(x, y)
  {
    if x > 0.0 && y < 0.0 { assert x * -y > 0.0; } else if x < 0.0 && y > 0.0 { assert -x * y > 0.0; }
    else if x > 0.0 && y > 0.0 { assert x * y > 0.0; } else if x < 0.0 && y < 0.0 { assert -x * -y > 0.0; }
  }

  /** The turn at i is a real one, and a neighbour's real turn undoes it. */
  predicate Reversed(bend: (int, int, int) -> real, pts: seq<int>, i: int) {
    var turn, ahead, behind := TurnAt(bend, pts, i), TurnAt(bend, pts, i + 1), TurnAt(bend, pts, i - 1);
    && RealAbs(turn) >= MIN_REVERSAL_DEG
    && ((Opposite(turn, ahead) && RealAbs(ahead) >= MIN_REVERSAL_DEG)
        || (Opposite(turn, behind) && RealAbs(behind) >= MIN_REVERSAL_DEG))
  }

  /** Waypoint i may go: its turn is more than the threshold and undone by a neighbour's, and the
      leg past it stays in water no dearer than the ceiling. */
  predicate Straightens(c: Chart, bend: (int, int, int) -> real, pts: seq<int>, i: int)
    requires c.nx > 0
  {
    && 0 < i < |pts| - 1 && Reversed(bend, pts, i) && RealAbs(TurnAt(bend, pts, i)) > MIN_REVERSAL_DEG
    && LegClear(c, pts[i - 1], pts[i + 1], Some(REVERSAL_COST_CEILING))
  }

  /** Waypoint i is the first of the sharpest turns that may go. */
  ghost predicate Sharpest(c: Chart, bend: (int, int, int) -> real, pts: seq<int>, i: int)
    requires c.nx > 0
  {
    && Straightens(c, bend, pts, i)
    && forall j :: Straightens(c, bend, pts, j) ==>
         var a, b := RealAbs(TurnAt(bend, pts, j)), RealAbs(TurnAt(bend, pts, i));
         a <= b && (j < i ==> a < b)
  }

  lemma ReversedBySigns(bend: (int, int, int) -> real, pts: seq<int>, i: int)
    ensures var turn, ahead, behind := TurnAt(bend, pts, i), TurnAt(bend, pts, i + 1), TurnAt(bend, pts, i - 1);
      Reversed(bend, pts, i) <==>
        && RealAbs(turn) >= MIN_REVERSAL_DEG
        && ((turn * ahead < 0.0 && RealAbs(ahead) >= MIN_REVERSAL_DEG)
            || (turn * behind < 0.0 && RealAbs(behind) >= MIN_REVERSAL_DEG))
  {
    OppositeSigns(TurnAt(bend, pts, i), TurnAt(bend, pts, i + 1));
    OppositeSigns(TurnAt(bend, pts, i), TurnAt(bend, pts, i - 1));
    hide TurnAt, Opposite, RealAbs;
  }

  /** One scan of `dropReversals`: the waypoint to drop, or -1. */
  method FindReversal(c: Chart, bend: (int, int, int) -> real, pts: seq<int>) returns (best: int)
    requires c.Valid() && Clear(c, pts, None)
    ensures best == -1 || Sharpest(c, bend, pts, best)
    ensures best == -1 ==> forall i :: !Straightens(c, bend, pts, i)
  {
    hide LegClear, Reversed, Opposite;
    best := -1;
    var bestTurn := MIN_REVERSAL_DEG;
    var i := 1;
    while i < |pts| - 1
      invariant 1 <= i && (i == 1 || i <= |pts| - 1)
      invariant best == -1 ==> bestTurn == MIN_REVERSAL_DEG
      invariant best != -1 ==> best < i && Straightens(c, bend, pts, best) && bestTurn == RealAbs(TurnAt(bend, pts, best))
      invariant forall j :: j < i && Straightens(c, bend, pts, j) ==>
        best != -1 && RealAbs(TurnAt(bend, pts, j)) <= bestTurn && (j < best ==> RealAbs(TurnAt(bend, pts, j)) < bestTurn)
    {
      var turn := TurnAt(bend, pts, i);
      var ahead, behind := TurnAt(bend, pts, i + 1), TurnAt(bend, pts, i - 1);
      var reversed := (turn * ahead < 0.0 && RealAbs(ahead) >= MIN_REVERSAL_DEG)
                      || (turn * behind < 0.0 && RealAbs(behind) >= MIN_REVERSAL_DEG);
      ReversedBySigns(bend, pts, i);
      if RealAbs(turn) >= MIN_REVERSAL_DEG && reversed {
        FitAt(c, pts, i - 1);
        FitAt(c, pts, i + 1);
        var _, _, ok := Traverse(c, pts[i - 1], pts[i + 1], Some(REVERSAL_COST_CEILING));
        if ok && RealAbs(turn) > bestTurn {
          best, bestTurn := i, RealAbs(turn);
        }
      }
      i := i + 1;
    }
  }

  /** The bend at the k-th waypoint from the start, counted from 1. */
  function BendAt(bend: (int, int, int) -> real, pts: seq<int>, k: int): real
    requires 0 < k < |pts| - 1
  {
    bend(pts[k - 1], pts[k], pts[k + 1])
  }

  /** Wherever two neighbouring bends turn opposite ways by 12 degrees or more, the leg past one that is
      sharper than that would cross water that is impassable or dearer than 3. */
  ghost predicate ZigzagsNeeded(c: Chart, bend: (int, int, int) -> real, pts: seq<int>)
    requires c.nx > 0
  {
    forall k :: 0 < k < |pts| - 2 ==>
      var p, q := BendAt(bend, pts, k), BendAt(bend, pts, k + 1);
      (p < 0.0 < q || q < 0.0 < p) && RealAbs(p) >= 12.0 && RealAbs(q) >= 12.0 ==>
        && (RealAbs(p) > 12.0 ==> !LegClear(c, pts[k - 1], pts[k + 1], Some(3.0)))
        && (RealAbs(q) > 12.0 ==> !LegClear(c, pts[k], pts[k + 2], Some(3.0)))
  }

  /** No turn is left to straighten exactly when every zigzag left is needed. */
  lemma NothingToStraighten(c: Chart, bend: (int, int, int) -> real, pts: seq<int>)
    requires c.nx > 0
    ensures (forall i :: !Straightens(c, bend, pts, i)) <==> ZigzagsNeeded(c, bend, pts)
  {
    hide LegClear, RealAbs;
    if forall i :: !Straightens(c, bend, pts, i) {
      forall k | 0 < k < |pts| - 2
        ensures var p, q := BendAt(bend, pts, k), BendAt(bend, pts, k + 1);
          (p < 0.0 < q || q < 0.0 < p) && RealAbs(p) >= 12.0 && RealAbs(q) >= 12.0 ==>
            && (RealAbs(p) > 12.0 ==> !LegClear(c, pts[k - 1], pts[k + 1], Some(3.0)))
            && (RealAbs(q) > 12.0 ==> !LegClear(c, pts[k], pts[k + 2], Some(3.0)))
      {
        assert !Straightens(c, bend, pts, k) && !Straightens(c, bend, pts, k + 1);
      }
    }
    if ZigzagsNeeded(c, bend, pts) {
      forall i ensures !Straightens(c, bend, pts, i) {
        if 1 < i < |pts| - 1 { var p, q := BendAt(bend, pts, i - 1), BendAt(bend, pts, i - 1 + 1); }
        if 0 < i < |pts| - 2 { var p, q := BendAt(bend, pts, i), BendAt(bend, pts, i + 1); }
      }
    }
  }

  /** All bends of the path turn one way. */
  predicate OneSided(bend: (int, int, int) -> real, pts: seq<int>) {
    (forall k :: 0 < k < |pts| - 1 ==> BendAt(bend, pts, k) >= 0.0) || (forall k :: 0 < k < |pts| - 1 ==> BendAt(bend, pts, k) <= 0.0)
  }

  ghost predicate UnwoundBy(c: Chart, bend: (int, int, int) -> real, cells: seq<int>,
                            trace: seq<seq<int>>, order: seq<int>, pts: seq<int>)
    requires c.nx > 0
  {
    Removals(cells, trace, order, pts) && forall n :: 0 <= n < |order| ==> Sharpest(c, bend, trace[n], order[n])
  }

  lemma UnwoundNext(c: Chart, bend: (int, int, int) -> real, cells: seq<int>,
                    trace: seq<seq<int>>, order: seq<int>, pts: seq<int>, k: int)
    requires c.nx > 0 && UnwoundBy(c, bend, cells, trace, order, pts) && Sharpest(c, bend, pts, k)
    ensures UnwoundBy(c, bend, cells, trace + [Without(pts, k)], order + [k], Without(pts, k))
  {
    hide Reversed, TurnAt, LegClear, Without;
    RemovalsExtended(cells, trace, order, pts, k);
  }

  lemma OneSidedStays(c: Chart, bend: (int, int, int) -> real, pts: seq<int>, i: int)
    requires c.nx > 0 && OneSided(bend, pts)
    ensures !Straightens(c, bend, pts, i)
  {
    hide LegClear, RealAbs;
    if 0 < i < |pts| - 1 { assert TurnAt(bend, pts, i) == BendAt(bend, pts, i); }
    if 1 < i < |pts| - 1 { assert TurnAt(bend, pts, i - 1) == BendAt(bend, pts, i - 1); }
    if 0 < i < |pts| - 2 { assert TurnAt(bend, pts, i + 1) == BendAt(bend, pts, i + 1); }
  }

  /** A path whose bends all turn one way, however sharply, comes back unchanged. */
  lemma OneSidedIsKept(c: Chart, bend: (int, int, int) -> real, cells: seq<int>,
                       trace: seq<seq<int>>, order: seq<int>, pts: seq<int>)
    requires c.nx > 0 && UnwoundBy(c, bend, cells, trace, order, pts) && OneSided(bend, cells)
    ensures pts == cells
  {
    hide OneSided, Straightens;
    if order != [] {
      assert Sharpest(c, bend, trace[0], order[0]);
      OneSidedStays(c, bend, cells, order[0]);
    }
  }

  lemma SharpestGoes(c: Chart, bend: (int, int, int) -> real, pts: seq<int>, k: int)
    requires c.nx > 0 && Sharpest(c, bend, pts, k)
    ensures 0 < k < |pts| - 1 && LegClear(c, pts[k - 1], pts[k + 1], Some(REVERSAL_COST_CEILING))
  {}

  /** `dropReversals`: drops the sharpest undone turn until none is left that may go. */
  method DropReversals(c: Chart, bend: (int, int, int) -> real, cells: seq<int>)
      returns (pts: seq<int>, ghost kept: seq<int>, ghost trace: seq<seq<int>>, ghost order: seq<int>)
    requires c.Valid() && Clear(c, cells, None)
    ensures NoWorse(c, cells, pts) && Keeps(cells, kept, pts) && UnwoundBy(c, bend, cells, trace, order, pts)
    ensures forall i :: !Straightens(c, bend, pts, i)
    ensures ZigzagsNeeded(c, bend, pts) && (OneSided(bend, cells) ==> pts == cells)
  {
    KeepsAll(cells);
    NoRemovals(cells);
    NoWorseThanItself(c, cells);
    pts, kept, trace, order := cells, Identity(|cells|), [cells], [];
    assert UnwoundBy(c, bend, cells, trace, order, pts);
    hide LegClear, Reversed, Keeps, Removals, NoWorse, UnwoundBy, Sharpest, Without, ZigzagsNeeded, OneSided;
    while |pts| > 2
      invariant NoWorse(c, cells, pts) && Keeps(cells, kept, pts) && UnwoundBy(c, bend, cells, trace, order, pts)
      decreases |pts|
    {
      NoWorseIsClear(c, cells, pts);
      var best := FindReversal(c, bend, pts);
      if best < 0 {
        Unwound(c, bend, cells, trace, order, pts);
        return;
      }
      SharpestGoes(c, bend, pts, best);
      DropIsNoWorse(c, cells, kept, pts, best, Some(REVERSAL_COST_CEILING));
      UnwoundNext(c, bend, cells, trace, order, pts, best);
      WithoutIsShorter(pts, best);
      trace, order := trace + [Without(pts, best)], order + [best];
      pts, kept := Without(pts, best), Without(kept, best);
    }
    Unwound(c, bend, cells, trace, order, pts);
  }

  lemma Unwound(c: Chart, bend: (int, int, int) -> real, cells: seq<int>, trace: seq<seq<int>>, order: seq<int>, pts: seq<int>)
    requires c.nx > 0 && UnwoundBy(c, bend, cells, trace, order, pts) && forall i :: !Straightens(c, bend, pts, i)
    ensures ZigzagsNeeded(c, bend, pts) && (OneSided(bend, cells) ==> pts == cells)
  {
    hide UnwoundBy, Straightens, ZigzagsNeeded, OneSided;
    NothingToStraighten(c, bend, pts);
    if OneSided(bend, cells) { OneSidedIsKept(c, bend, cells, trace, order, pts); }
  }

  lemma NoWorseIsClear(c: Chart, path: seq<int>, out: seq<int>)
    requires c.nx > 0 && NoWorse(c, path, out)
    ensures Clear(c, out, None)
  {}

  lemma WithoutIsShorter(s: seq<int>, k: int)
    requires 0 <= k < |s|
    ensures |Without(s, k)| == |s| - 1
  {}

  // ---- thinToLimit --------------------------------------------------------------------------

  /** Perpendicular distance from cell m to the line through a and b. */
  function Deviation(c: Chart, a: int, m: int, b: int): real
    requires c.nx > 0
  {
    var dx, dy := c.East(a, b), c.North(a, b);
    var den := c.hypot(dx, dy);
    if den == 0.0 then c.hypot(c.East(a, m), c.North(a, m))
    else RealAbs(dy * c.East(a, m) - dx * c.North(a, m)) / den
  }

  /** The dearest of three waypoints, and a little more: what the leg past the middle one may cost. */
  function BypassLimit(c: Chart, pts: seq<int>, k: int): real
    requires Clear(c, pts, None) && 0 < k < |pts| - 1
  {
    FitAt(c, pts, k - 1);
    FitAt(c, pts, k);
    FitAt(c, pts, k + 1);
    RealMax(RealMax(c.cost[pts[k - 1]].val, c.cost[pts[k]].val), c.cost[pts[k + 1]].val) + 0.05
  }

  lemma LimitIs(c: Chart, pts: seq<int>, k: int)
    requires Clear(c, pts, None) && 0 < k < |pts| - 1
    ensures forall m :: k - 1 <= m <= k + 1 ==> Fit(c, pts[m], None) && c.cost[pts[m]].val + 0.05 <= BypassLimit(c, pts, k)
    ensures exists m :: k - 1 <= m <= k + 1 && Fit(c, pts[m], None) && c.cost[pts[m]].val + 0.05 == BypassLimit(c, pts, k)
    ensures BypassLimit(c, pts, k)
         == RealMax(RealMax(c.cost[pts[k - 1]].val, c.cost[pts[k]].val), c.cost[pts[k + 1]].val) + 0.05
  {
    FitAt(c, pts, k - 1);
    FitAt(c, pts, k);
    FitAt(c, pts, k + 1);
    var x, y, z := c.cost[pts[k - 1]].val, c.cost[pts[k]].val, c.cost[pts[k + 1]].val;
    var m := if x >= y && x >= z then k - 1 else if y >= z then k else k + 1;
    assert Fit(c, pts[m], None) && c.cost[pts[m]].val + 0.05 == BypassLimit(c, pts, k);
    hide Fit;
  }

  predicate Thins(c: Chart, pts: seq<int>, k: int)
    requires c.nx > 0 && Clear(c, pts, None)
  {
    0 < k < |pts| - 1 && LegClear(c, pts[k - 1], pts[k + 1], Some(BypassLimit(c, pts, k)))
  }

  function DeviationAt(c: Chart, pts: seq<int>, k: int): real
    requires c.nx > 0 && 0 < k < |pts| - 1
  {
    Deviation(c, pts[k - 1], pts[k], pts[k + 1])
  }

  /** Waypoint k is the first of those nearest to the line between their neighbours that may go. */
  ghost predicate LeastSignificant(c: Chart, pts: seq<int>, k: int)
    requires c.nx > 0
  {
    && Clear(c, pts, None) && Thins(c, pts, k)
    && forall j :: Thins(c, pts, j) ==>
         DeviationAt(c, pts, k) <= DeviationAt(c, pts, j) && (j < k ==> DeviationAt(c, pts, k) < DeviationAt(c, pts, j))
  }

  /** One scan of `thinToLimit`: the waypoint to drop, or -1. */
  method FindLeastSignificant(c: Chart, pts: seq<int>) returns (bestAt: int)
    requires c.Valid() && Clear(c, pts, None)
    ensures bestAt == -1 || (bestAt > 0 && LeastSignificant(c, pts, bestAt))
    ensures bestAt == -1 ==> forall k :: !Thins(c, pts, k)
  {
    hide LegClear, Deviation, BypassLimit;
    bestAt := -1;
    var bestDev := PosInf;
    var k := 1;
    while k < |pts| - 1
      invariant 1 <= k && (k == 1 || k <= |pts| - 1)
      invariant bestAt == -1 ==> bestDev == PosInf
      invariant bestAt != -1 ==> bestAt < k && Thins(c, pts, bestAt) && bestDev == Fin(DeviationAt(c, pts, bestAt))
      invariant forall j :: j < k && Thins(c, pts, j) ==>
        bestAt != -1 && bestDev.val <= DeviationAt(c, pts, j) && (j < bestAt ==> bestDev.val < DeviationAt(c, pts, j))
    {
      FitAt(c, pts, k - 1);
      FitAt(c, pts, k + 1);
      FitAt(c, pts, k);
      var limit := RealMax(RealMax(c.cost[pts[k - 1]].val, c.cost[pts[k]].val), c.cost[pts[k + 1]].val) + 0.05;
      LimitIs(c, pts, k);
      var _, _, ok := Traverse(c, pts[k - 1], pts[k + 1], Some(limit));
      if ok {
        var dev := Deviation(c, pts[k - 1], pts[k], pts[k + 1]);
        if Fin(dev).Less(bestDev) { bestDev, bestAt := Fin(dev), k; }
      }
      k := k + 1;
    }
  }

  ghost predicate ThinnedBy(c: Chart, path: seq<int>, max: int, trace: seq<seq<int>>, order: seq<int>, pts: seq<int>)
    requires c.nx > 0
  {
    && Removals(path, trace, order, pts)
    && forall n :: 0 <= n < |order| ==> |trace[n]| > max && LeastSignificant(c, trace[n], order[n])
  }

  lemma ThinnedNext(c: Chart, path: seq<int>, max: int, trace: seq<seq<int>>, order: seq<int>, pts: seq<int>, k: int)
    requires c.nx > 0 && ThinnedBy(c, path, max, trace, order, pts) && |pts| > max && LeastSignificant(c, pts, k)
    ensures ThinnedBy(c, path, max, trace + [Without(pts, k)], order + [k], Without(pts, k))
  {
    ThinsIsClear(c, pts, k);
    hide LeastSignificant, Without;
    RemovalsExtended(path, trace, order, pts, k);
  }

  /** `thinToLimit`: drops the least significant waypoint until at most `max` remain, or none may
      go without cutting a corner. */
  method ThinToLimit(c: Chart, path: seq<int>, max: int)
      returns (pts: seq<int>, removed: bool, ghost kept: seq<int>, ghost trace: seq<seq<int>>, ghost order: seq<int>)
    requires c.Valid() && Clear(c, path, None)
    ensures NoWorse(c, path, pts) && Keeps(path, kept, pts) && ThinnedBy(c, path, max, trace, order, pts)
    ensures removed <==> order != []
    ensures max < 2 ==> pts == path
    ensures max >= 2 && |pts| > max ==> Clear(c, pts, None) && forall k :: !Thins(c, pts, k)
  {
    KeepsAll(path);
    NoRemovals(path);
    NoWorseThanItself(c, path);
    pts, kept, trace, order := path, Identity(|path|), [path], [];
    removed := false;
    assert ThinnedBy(c, path, max, trace, order, pts);
    hide LegClear, Keeps, NoWorse, ThinnedBy, Thins, LeastSignificant, Without, BypassLimit;
    if max < 2 || |path| <= max { return; }
    while |pts| > max
      invariant NoWorse(c, path, pts) && Keeps(path, kept, pts) && ThinnedBy(c, path, max, trace, order, pts)
      invariant removed <==> order != []
      decreases |pts|
    {
      NoWorseIsClear(c, path, pts);
      var bestAt := FindLeastSignificant(c, pts);
      if bestAt < 0 { break; }
      ThinsIsClear(c, pts, bestAt);
      DropIsNoWorse(c, path, kept, pts, bestAt, Some(BypassLimit(c, pts, bestAt)));
      ThinnedNext(c, path, max, trace, order, pts, bestAt);
      WithoutIsShorter(pts, bestAt);
      trace, order := trace + [Without(pts, bestAt)], order + [bestAt];
      pts, kept := Without(pts, bestAt), Without(kept, bestAt);
      removed := true;
    }
  }

  lemma ThinsIsClear(c: Chart, pts: seq<int>, k: int)
    requires c.nx > 0 && LeastSignificant(c, pts, k)
    ensures Clear(c, pts, None) && 0 < k < |pts| - 1
    ensures LegClear(c, pts[k - 1], pts[k + 1], Some(BypassLimit(c, pts, k)))
  {
    hide LegClear, BypassLimit;
  }

  // ---- What each pass makes of its input ----------------------------------------------------

  ghost predicate PulledAt(c: Chart, path: seq<int>, kept: seq<int>, out: seq<int>)
    requires c.nx > 0 && Clear(c, path, None)
  {
    Keeps(path, kept, out) && forall m :: 0 <= m < |kept| - 1 ==> ReachesTo(c, path, kept[m], kept[m + 1])
  }

  ghost predicate IsPulled(c: Chart, path: seq<int>, out: seq<int>)
    requires c.nx > 0
  {
    if |path| < 3 then out == path else Clear(c, path, None) && exists kept :: PulledAt(c, path, kept, out)
  }

  ghost predicate IsUnwound(c: Chart, bend: (int, int, int) -> real, cells: seq<int>, pts: seq<int>)
    requires c.nx > 0
  {
    && (exists trace, order :: UnwoundBy(c, bend, cells, trace, order, pts))
    && forall i :: !Straightens(c, bend, pts, i)
  }

  ghost predicate IsThinned(c: Chart, path: seq<int>, max: int, pts: seq<int>)
    requires c.nx > 0
  {
    && (exists trace, order :: ThinnedBy(c, path, max, trace, order, pts))
    && (max < 2 ==> pts == path)
    && (max >= 2 && |pts| > max ==> Clear(c, pts, None) && forall k :: !Thins(c, pts, k))
  }

  /** The three passes in order. */
  ghost predicate IsShortened(c: Chart, bend: (int, int, int) -> real, path: seq<int>, max: int, cells: seq<int>)
    requires c.nx > 0
  {
    exists pulled, unwound ::
      IsPulled(c, path, pulled) && IsUnwound(c, bend, pulled, unwound) && IsThinned(c, unwound, max, cells)
  }
}
