/** A* over the priced grid (render/autoroute_search.go, `findPath` and `reconstruct`). */
module Search {
  import opened Common
  import opened Charts
  import opened CellWalk
  import opened Metric
  import opened NodeQueues

  /** The sixteen moves: the eight neighbours and the eight knight moves. */
  const MOVES: seq<(int, int)> := [
    (1, 0), (-1, 0), (0, 1), (0, -1),
    (1, 1), (1, -1), (-1, 1), (-1, -1),
    (1, 2), (2, 1), (2, -1), (1, -2),
    (-1, -2), (-2, -1), (-2, 1), (-1, 2)
  ]

  /** They are the neighbouring cells and those a knight's move away, each once. */
  lemma IsMove(x: int, y: int)
    ensures (x, y) in MOVES <==> Max(Abs(x), Abs(y)) == 1 || (Abs(x) == 1 && Abs(y) == 2) || (Abs(x) == 2 && Abs(y) == 1)
  {
    if (x, y) in MOVES {
      var k :| 0 <= k < 16 && MOVES[k] == (x, y);
    } else {
      assert (1, 0) == MOVES[0] && (-1, 0) == MOVES[1] && (0, 1) == MOVES[2] && (0, -1) == MOVES[3];
      assert (1, 1) == MOVES[4] && (1, -1) == MOVES[5] && (-1, 1) == MOVES[6] && (-1, -1) == MOVES[7];
      assert (1, 2) == MOVES[8] && (2, 1) == MOVES[9] && (2, -1) == MOVES[10] && (1, -2) == MOVES[11];
      assert (-1, -2) == MOVES[12] && (-2, -1) == MOVES[13] && (-2, 1) == MOVES[14] && (-1, 2) == MOVES[15];
    }
  }

  lemma MovesDiffer(i: int, j: int)
    requires 0 <= i < j < |MOVES|
    ensures MOVES[i] != MOVES[j]
  {}

  predicate HasNeighbour(c: Chart, a: int, k: int)
    requires c.nx > 0 && 0 <= k < |MOVES|
  {
    0 <= Col(c.nx, a) + MOVES[k].0 < c.nx && 0 <= Row(c.nx, a) + MOVES[k].1 < c.ny
  }

  function Neighbour(c: Chart, a: int, k: int): int
    requires c.nx > 0 && 0 <= k < |MOVES|
  {
    Index(c.nx, Col(c.nx, a) + MOVES[k].0, Row(c.nx, a) + MOVES[k].1)
  }

  lemma NeighbourInGrid(c: Chart, a: int, k: int)
    requires c.Valid() && 0 <= k < |MOVES| && HasNeighbour(c, a, k)
    ensures c.InGrid(Neighbour(c, a, k))
  {
    IndexOf(c.nx, c.ny, Col(c.nx, a) + MOVES[k].0, Row(c.nx, a) + MOVES[k].1);
  }

  /** Move number k from cell `a` exists and crosses passable water only. */
  predicate Legal(c: Chart, a: int, k: int): (legal: bool)
    requires c.nx > 0
    ensures legal ==> 0 <= k < |MOVES| && c.InGrid(a)
  {
    0 <= k < |MOVES| && c.InGrid(a) && HasNeighbour(c, a, k) && LegClear(c, a, Neighbour(c, a, k), None)
  }

  ghost predicate CanMove(c: Chart, a: int, b: int)
    requires c.nx > 0
  {
    exists k :: Legal(c, a, k) && Neighbour(c, a, k) == b
  }

  /** A route: passable cells joined by legal moves. */
  ghost predicate IsRoute(c: Chart, p: seq<int>)
    requires c.nx > 0
  {
    p != [] && c.Passable(p[0]) && forall i :: 0 <= i < |p| - 1 ==> CanMove(c, p[i], p[i + 1])
  }

  ghost predicate IsRouteBetween(c: Chart, p: seq<int>, a: int, b: int)
    requires c.nx > 0
  {
    IsRoute(c, p) && p[0] == a && p[|p| - 1] == b
  }

  ghost function RouteCost(c: Chart, p: seq<int>): real
    requires c.nx > 0 && IsRoute(c, p)
  {
    if |p| == 1 then 0.0 else
    assert CanMove(c, p[|p| - 2], p[|p| - 1]);
    RouteCost(c, p[..|p| - 1]) + MoveCost(c, p[|p| - 2], p[|p| - 1])
  }

  lemma RouteInGrid(c: Chart, p: seq<int>, i: nat)
    requires c.Valid() && IsRoute(c, p) && i < |p|
    ensures c.InGrid(p[i])
  {
    if i < |p| - 1 {
      assert CanMove(c, p[i], p[i + 1]);
    } else if i > 0 {
      assert CanMove(c, p[i - 1], p[i]);
      var k :| Legal(c, p[i - 1], k) && Neighbour(c, p[i - 1], k) == p[i];
      NeighbourInGrid(c, p[i - 1], k);
    }
  }

  lemma RouteExtended(c: Chart, p: seq<int>, k: int)
    requires c.Valid() && IsRoute(c, p) && Legal(c, p[|p| - 1], k)
    ensures var v := Neighbour(c, p[|p| - 1], k);
      IsRoute(c, p + [v]) && RouteCost(c, p + [v]) == RouteCost(c, p) + MoveCost(c, p[|p| - 1], v)
  {
    hide Legal, Neighbour, RouteCost, MoveCost;
    var v := Neighbour(c, p[|p| - 1], k);
    assert CanMove(c, p[|p| - 1], v);
    var q := p + [v];
    forall i | 0 <= i < |q| - 1 ensures CanMove(c, q[i], q[i + 1]) {
      if i < |p| - 1 { assert CanMove(c, p[i], p[i + 1]); }
    }
    LastMove(c, q);
    assert q[..|q| - 1] == p;
  }

  lemma LastMove(c: Chart, p: seq<int>)
    requires c.Valid() && IsRoute(c, p) && |p| > 1
    ensures IsRoute(c, p[..|p| - 1]) && CanMove(c, p[|p| - 2], p[|p| - 1])
    ensures LegClear(c, p[|p| - 2], p[|p| - 1], None)
    ensures RouteCost(c, p) == RouteCost(c, p[..|p| - 1]) + MoveCost(c, p[|p| - 2], p[|p| - 1])
  {
    hide HasNeighbour, LegClear, MoveCost, Index, Col, Row;
    assert CanMove(c, p[|p| - 2], p[|p| - 1]);
  }

  // ---- The heuristic ------------------------------------------------------------------------

  /** Straight-line metres to the goal. */
  function Heuristic(c: Chart, goal: int, i: int): real
    requires c.nx > 0
  {
    c.Length(goal, i)
  }

  /** It is the straight line between the centres. */
  lemma HeuristicIsStraight(c: Chart, goal: int, i: int)
    requires c.Valid()
    ensures var dx, dy := Col(c.nx, i) - Col(c.nx, goal), Row(c.nx, i) - Row(c.nx, goal);
      && Heuristic(c, goal, i) >= 0.0
      && Heuristic(c, goal, i) * Heuristic(c, goal, i)
           == (dx as real * c.mx) * (dx as real * c.mx) + (dy as real * c.my) * (dy as real * c.my)
  {
    SquaredLength(c, goal, i);
    hide Chart.Length, Col, Row;
  }

  /** The heuristic drops by no more than a move costs. */
  lemma Consistent(c: Chart, goal: int, a: int, b: int)
    requires c.Valid() && c.CostsAtLeastOne() && LegClear(c, a, b, None)
    ensures Heuristic(c, goal, a) <= MoveCost(c, a, b) + Heuristic(c, goal, b)
    ensures MoveCost(c, a, b) >= 0.0
  {
    hide Chart.Length, MoveCost, LegClear;
    MoveAtLeastLength(c, a, b);
    c.LengthSymmetric(a, b);
    c.LengthTriangle(goal, b, a);
  }

  // ---- The state of a search ----------------------------------------------------------------

  /** What the search knows: `trail` records, for the proof, the route that gave each score. */
  datatype State = State(score: seq<Extended>, came: seq<int>, closed: seq<bool>, open: set<int>, trail: seq<seq<int>>)

  ghost predicate Shaped(c: Chart, s: State) {
    |s.score| == |s.came| == |s.closed| == |s.trail| == |c.cost|
  }

  /** A score is the cost of a known route, found through a closed predecessor. */
  ghost predicate Traced(c: Chart, start: int, s: State, v: int)
    requires c.nx > 0 && Shaped(c, s) && c.InGrid(v)
  {
    s.score[v].Fin? ==>
      && IsRouteBetween(c, s.trail[v], start, v)
      && RouteCost(c, s.trail[v]) == s.score[v].val
      && (v == start ==> s.trail[v] == [start])
      && (v != start ==>
           c.InGrid(s.came[v]) && s.closed[s.came[v]] && s.trail[v] == s.trail[s.came[v]] + [v])
  }

  ghost predicate Best(c: Chart, start: int, s: State, v: int)
    requires c.nx > 0 && Shaped(c, s) && c.InGrid(v)
  {
    s.score[v].Fin? && forall p :: IsRouteBetween(c, p, start, v) ==> s.score[v].val <= RouteCost(c, p)
  }

  /** Move k out of `u` has been taken into account. */
  ghost predicate Relaxed(c: Chart, s: State, u: int, k: int)
    requires c.nx > 0 && Shaped(c, s)
  {
    c.InGrid(u) && Legal(c, u, k) && c.InGrid(Neighbour(c, u, k)) && s.score[u].Fin? ==>
      var v := Neighbour(c, u, k);
      s.score[v].Fin? && s.score[v].val <= s.score[u].val + MoveCost(c, u, v)
  }

  ghost predicate Inv(c: Chart, start: int, s: State): (holds: bool)
    requires c.nx > 0
    ensures holds ==> Shaped(c, s)
  {
    && Shaped(c, s) && c.InGrid(start) && s.score[start] == Fin(0.0)
    && (forall v :: v in s.open ==> c.InGrid(v) && !s.closed[v])
    && (forall v :: c.InGrid(v) ==> (s.score[v].Fin? <==> s.closed[v] || v in s.open))
    && (forall v :: c.InGrid(v) ==> Traced(c, start, s, v))
    && (forall v :: c.InGrid(v) && s.closed[v] ==> Best(c, start, s, v))
  }

  /** All moves out of closed cells have been taken into account; of `cur`, the first k. */
  ghost predicate RelaxedBut(c: Chart, s: State, cur: int, k: int)
    requires c.nx > 0 && Shaped(c, s)
  {
    forall u, j :: c.InGrid(u) && s.closed[u] && 0 <= j < |MOVES| && (u != cur || j < k) ==> Relaxed(c, s, u, j)
  }

  function Key(c: Chart, goal: int, s: State, v: int): real
    requires c.nx > 0 && 0 <= v < |s.score| && s.score[v].Fin?
  {
    s.score[v].val + Heuristic(c, goal, v)
  }

  ghost predicate KeysAtLeast(c: Chart, goal: int, s: State, bound: real)
    requires c.nx > 0
  {
    forall v :: v in s.open && 0 <= v < |s.score| && s.score[v].Fin? ==> bound <= Key(c, goal, s, v)
  }

  // ---- Optimality ---------------------------------------------------------------------------

  /** Any route from the start either ends in a closed cell that is scored no worse, or is cut by
      an open cell whose key bounds it from below. */
  lemma {:induction false} Cut(c: Chart, start: int, goal: int, s: State, p: seq<int>) returns (x: int)
    requires c.Valid() && c.CostsAtLeastOne() && Inv(c, start, s) && RelaxedBut(c, s, -1, 0)
    requires IsRoute(c, p) && p[0] == start
    ensures var v := p[|p| - 1];
      && c.InGrid(v)
      && if s.closed[v] && s.score[v].val <= RouteCost(c, p) then true
         else x in s.open && Key(c, goal, s, x) <= RouteCost(c, p) + Heuristic(c, goal, v)
    decreases |p|
  {
    hide Heuristic, MoveCost, Legal, Neighbour, LegClear, Traced, Best;
    var v := p[|p| - 1];
    RouteInGrid(c, p, |p| - 1);
    x := v;
    if |p| <= 1 {
    } else {
      var q, u := p[..|p| - 1], p[|p| - 2];
      LastMove(c, p);
      var y := Cut(c, start, goal, s, q);
      Consistent(c, goal, u, v);
      if s.closed[u] && s.score[u].val <= RouteCost(c, q) {
        var k :| Legal(c, u, k) && Neighbour(c, u, k) == v;
        assert Relaxed(c, s, u, k);
      } else {
        x := y;
      }
    }
  }

  /** The open cell with the least key already has its final score. */
  lemma PopIsBest(c: Chart, start: int, goal: int, s: State, cur: int)
    requires c.Valid() && c.CostsAtLeastOne() && Inv(c, start, s) && RelaxedBut(c, s, -1, 0)
    requires cur in s.open && KeysAtLeast(c, goal, s, Key(c, goal, s, cur))
    ensures Best(c, start, s, cur)
  {
    hide Heuristic, RouteCost, IsRoute, RelaxedBut, Traced;
    forall p | IsRouteBetween(c, p, start, cur) ensures s.score[cur].val <= RouteCost(c, p) {
      var x := Cut(c, start, goal, s, p);
    }
  }

  /** Once the open set is empty, no route leads to a cell that was never closed. */
  lemma ExhaustedIsComplete(c: Chart, start: int, goal: int, s: State)
    requires c.Valid() && c.CostsAtLeastOne() && Inv(c, start, s) && RelaxedBut(c, s, -1, 0)
    requires (forall v :: v !in s.open) && c.InGrid(goal) && !s.closed[goal]
    ensures forall p :: !IsRouteBetween(c, p, start, goal)
  {
    hide Heuristic, RouteCost, IsRoute, RelaxedBut, Traced, Best;
    forall p ensures !IsRouteBetween(c, p, start, goal) {
      if IsRouteBetween(c, p, start, goal) { var x := Cut(c, start, goal, s, p); }
    }
  }

  // ---- Steps of the search ------------------------------------------------------------------

  function Initial(c: Chart, start: int): State
    requires c.InGrid(start)
  {
    var n := |c.cost|;
    State(seq(n, i => if i == start then Fin(0.0) else PosInf), seq(n, i => -1), seq(n, i => false),
          {start}, seq(n, i => [start]))
  }

  lemma InitialInv(c: Chart, start: int)
    requires c.Valid() && c.Passable(start)
    ensures Inv(c, start, Initial(c, start)) && RelaxedBut(c, Initial(c, start), -1, 0)
  {
    var s := Initial(c, start);
    assert IsRoute(c, [start]);
  }

  function Close(s: State, cur: int): State
    requires 0 <= cur < |s.closed|
  {
    s.(closed := s.closed[cur := true], open := s.open - {cur})
  }

  lemma CloseInv(c: Chart, start: int, goal: int, s: State, cur: int)
    requires c.Valid() && c.CostsAtLeastOne() && Inv(c, start, s) && RelaxedBut(c, s, -1, 0)
    requires cur in s.open && KeysAtLeast(c, goal, s, Key(c, goal, s, cur))
    ensures Inv(c, start, Close(s, cur)) && RelaxedBut(c, Close(s, cur), cur, 0)
    ensures KeysAtLeast(c, goal, Close(s, cur), Key(c, goal, s, cur))
  {
    hide Heuristic, RouteCost, IsRoute, Legal, MoveCost, Neighbour;
    PopIsBest(c, start, goal, s, cur);
    var t := Close(s, cur);
    forall v | c.InGrid(v) ensures Traced(c, start, t, v) { assert Traced(c, start, s, v); }
    forall v | c.InGrid(v) && t.closed[v] ensures Best(c, start, t, v) { assert Best(c, start, s, v); }
    forall u, j | c.InGrid(u) && t.closed[u] && 0 <= j < |MOVES| && u != cur ensures Relaxed(c, t, u, j) {
      assert Relaxed(c, s, u, j);
    }
  }

  /** Records a cheaper route to `v` through `u`. */
  function Improve(s: State, u: int, v: int, score: real): State
    requires 0 <= u < |s.trail| && 0 <= v < |s.score| && |s.score| == |s.came| == |s.trail|
  {
    s.(score := s.score[v := Fin(score)], came := s.came[v := u], open := s.open + {v},
       trail := s.trail[v := s.trail[u] + [v]])
  }

  /** Move k out of `cur` needs no change when its target is closed or scored well enough. */
  lemma NothingToImprove(c: Chart, start: int, s: State, cur: int, k: int)
    requires c.Valid() && Inv(c, start, s) && c.InGrid(cur) && s.closed[cur] && 0 <= k < |MOVES|
    requires RelaxedBut(c, s, cur, k)
    requires Legal(c, cur, k) ==>
      var v := Neighbour(c, cur, k);
      c.InGrid(v) && (s.closed[v] || !Fin(s.score[cur].val + MoveCost(c, cur, v)).Less(s.score[v]))
    ensures RelaxedBut(c, s, cur, k + 1)
  {
    hide Legal, Neighbour, MoveCost, LegClear, IsRoute, RouteCost;
    if Legal(c, cur, k) {
      var v := Neighbour(c, cur, k);
      if s.closed[v] {
        assert Traced(c, start, s, cur);
        LegalTargets(c, cur, k);
        RouteExtended(c, s.trail[cur], k);
        assert Best(c, start, s, v);
        assert IsRouteBetween(c, s.trail[cur] + [v], start, v);
      }
      assert Relaxed(c, s, cur, k);
    }
  }

  lemma LegalTargets(c: Chart, u: int, k: int)
    requires c.Valid() && Legal(c, u, k)
    ensures c.InGrid(Neighbour(c, u, k)) && LegClear(c, u, Neighbour(c, u, k), None)
  {
    NeighbourInGrid(c, u, k);
  }

  /** Move k out of the closed cell `cur` leads to a cell it improves. */
  ghost predicate Improves(c: Chart, start: int, s: State, cur: int, k: int)
    requires c.Valid()
  {
    && Inv(c, start, s) && c.InGrid(cur) && s.closed[cur] && s.score[cur].Fin? && Legal(c, cur, k)
    && var v := Neighbour(c, cur, k);
       LegalTargets(c, cur, k);
       !s.closed[v] && Fin(s.score[cur].val + MoveCost(c, cur, v)).Less(s.score[v])
  }

  ghost function Improved(c: Chart, start: int, s: State, cur: int, k: int): (t: State)
    requires c.Valid() && Improves(c, start, s, cur, k)
    ensures Shaped(c, t)
  {
    var v := Neighbour(c, cur, k);
    LegalTargets(c, cur, k);
    Improve(s, cur, v, s.score[cur].val + MoveCost(c, cur, v))
  }

  lemma ImproveInv(c: Chart, start: int, s: State, cur: int, k: int)
    requires c.Valid() && c.CostsAtLeastOne() && Improves(c, start, s, cur, k)
    ensures Inv(c, start, Improved(c, start, s, cur, k))
  {
    hide Legal, Neighbour, MoveCost, LegClear, IsRoute, RouteCost;
    var v, t := Neighbour(c, cur, k), Improved(c, start, s, cur, k);
    LegalTargets(c, cur, k);
    assert Traced(c, start, s, cur);
    RouteExtended(c, s.trail[cur], k);
    assert t.score[v].val >= 0.0 by { RouteCostsNoLess(c, s.trail[cur] + [v]); }
    assert v != start;
    forall w | c.InGrid(w) ensures Traced(c, start, t, w) { assert Traced(c, start, s, w); }
    forall w | c.InGrid(w) && t.closed[w] ensures Best(c, start, t, w) { assert Best(c, start, s, w); }
  }

  lemma ImproveRelaxes(c: Chart, start: int, s: State, cur: int, k: int)
    requires c.Valid() && Improves(c, start, s, cur, k) && RelaxedBut(c, s, cur, k)
    ensures RelaxedBut(c, Improved(c, start, s, cur, k), cur, k + 1)
  {
    hide Legal, Neighbour, MoveCost, LegClear, Traced, Best;
    var t := Improved(c, start, s, cur, k);
    forall u, j | c.InGrid(u) && t.closed[u] && 0 <= j < |MOVES| && (u != cur || j < k + 1)
      ensures Relaxed(c, t, u, j)
    {
      if u != cur || j < k { assert Relaxed(c, s, u, j); }
    }
  }

  lemma ImproveKeepsKeys(c: Chart, start: int, goal: int, s: State, cur: int, k: int, bound: real)
    requires c.Valid() && c.CostsAtLeastOne() && Improves(c, start, s, cur, k)
    requires KeysAtLeast(c, goal, s, bound) && bound <= Key(c, goal, s, cur)
    ensures KeysAtLeast(c, goal, Improved(c, start, s, cur, k), bound)
  {
    hide Legal, Neighbour, MoveCost, LegClear, Heuristic, Traced, Best;
    LegalTargets(c, cur, k);
    Consistent(c, goal, cur, Neighbour(c, cur, k));
  }

  lemma {:induction false} RouteCostsNoLess(c: Chart, p: seq<int>)
    requires c.Valid() && c.CostsAtLeastOne() && IsRoute(c, p)
    ensures RouteCost(c, p) >= 0.0
  {
    hide MoveCost, LegClear;
    if |p| <= 1 {
    } else {
      LastMove(c, p);
      Consistent(c, p[0], p[|p| - 2], p[|p| - 1]);
      RouteCostsNoLess(c, p[..|p| - 1]);
    }
  }

  lemma MovesStep(c: Chart, a: int, b: int)
    requires c.Valid() && CanMove(c, a, b)
    ensures LegClear(c, a, b, None) && 1 <= Steps(c.nx, a, b) <= 2
  {
    hide LegClear, Chart.Valid, Index;
    var k :| Legal(c, a, k) && Neighbour(c, a, k) == b;
    NeighbourPlace(c, a, k);
    hide Col, Row;
  }

  lemma NeighbourPlace(c: Chart, a: int, k: int)
    requires c.nx > 0 && 0 <= k < |MOVES| && HasNeighbour(c, a, k)
    ensures Col(c.nx, Neighbour(c, a, k)) == Col(c.nx, a) + MOVES[k].0
    ensures Row(c.nx, Neighbour(c, a, k)) == Row(c.nx, a) + MOVES[k].1
  {
    var x, y := Col(c.nx, a) + MOVES[k].0, Row(c.nx, a) + MOVES[k].1;
    hide Col, Row, Index;
    IndexOf(c.nx, c.ny, x, y);
  }

  /** Each of the sixteen moves goes somewhere, so it has a positive length and a positive cost. */
  lemma MovesCost(c: Chart, a: int, b: int)
    requires c.Valid() && c.CostsAtLeastOne() && CanMove(c, a, b)
    ensures LegClear(c, a, b, None) && MoveCost(c, a, b) > 0.0
  {
    hide CanMove, Steps, MoveCost, LegClear, Chart.Length;
    MovesStep(c, a, b);
    MoveAtLeastLength(c, a, b);
    StepsSpanLength(c, a, b);
  }

  /** So the cheapest route from a cell to itself stays there. */
  lemma CheapestLoopStandsStill(c: Chart, p: seq<int>)
    requires c.Valid() && c.CostsAtLeastOne() && IsRoute(c, p) && p[0] == p[|p| - 1]
    requires forall q :: IsRouteBetween(c, q, p[0], p[0]) ==> RouteCost(c, p) <= RouteCost(c, q)
    ensures |p| == 1
  {
    hide Legal, MoveCost, LegClear;
    if |p| > 1 {
      StandingStill(c, p[0]);
      LastMove(c, p);
      MovesCost(c, p[|p| - 2], p[|p| - 1]);
      RouteCostsNoLess(c, p[..|p| - 1]);
      assert false;
    }
  }

  /** No route is cheaper than the straight line between its ends. */
  lemma {:induction false} RouteSpansLength(c: Chart, p: seq<int>)
    requires c.Valid() && c.CostsAtLeastOne() && IsRoute(c, p)
    ensures RouteCost(c, p) >= c.Length(p[0], p[|p| - 1])
    decreases |p|
  {
    if |p| == 1 {
      assert HypotAt(c.hypot, c.East(p[0], p[0]), c.North(p[0], p[0]));
      SquareOrder(c.Length(p[0], p[0]), 0.0);
    } else {
      LastMove(c, p);
      hide IsRoute, RouteCost, LegClear, MoveCost, Chart.Length, Chart.CostsAtLeastOne, Chart.Valid;
      var q := p[..|p| - 1];
      RouteSpansLength(c, q);
      MoveAtLeastLength(c, p[|p| - 2], p[|p| - 1]);
      c.LengthTriangle(p[0], p[|p| - 2], p[|p| - 1]);
    }
  }

  // ---- The code -----------------------------------------------------------------------------

  lemma TrailStep(c: Chart, start: int, s: State, v: int)
    requires c.Valid() && Inv(c, start, s) && c.InGrid(v) && s.score[v].Fin?
    ensures IsRouteBetween(c, s.trail[v], start, v) && (v == start ==> s.trail[v] == [start])
    ensures v != start ==>
      && c.InGrid(s.came[v]) && s.score[s.came[v]].Fin?
      && s.trail[v] == s.trail[s.came[v]] + [v]
  {
    hide IsRoute, RouteCost, Best;
    assert Traced(c, start, s, v);
  }

  lemma BestTrail(c: Chart, start: int, s: State, v: int)
    requires c.Valid() && Inv(c, start, s) && c.InGrid(v) && Best(c, start, s, v)
    ensures IsRouteBetween(c, s.trail[v], start, v)
    ensures forall p :: IsRouteBetween(c, p, start, v) ==> RouteCost(c, s.trail[v]) <= RouteCost(c, p)
  {
    hide IsRoute, RouteCost;
    assert Traced(c, start, s, v);
  }

  lemma ReverseAppend(s: seq<int>, x: int)
    ensures Reverse(s + [x]) == [x] + Reverse(s)
  {}

  /** `reconstruct`: follows `came` from the goal back to the start. The predecessor it looks up
      is never missing. */
  method Reconstruct(c: Chart, came: array<int>, start: int, goal: int, ghost s: State)
      returns (path: Option<seq<int>>)
    requires c.Valid() && Inv(c, start, s) && s.came == came[..]
    requires c.InGrid(goal) && s.score[goal].Fin?
    ensures path == Some(s.trail[goal])
  {
    hide Inv, Reverse;
    var back := [goal];
    var cur := goal;
    ghost var rest := [];
    ReverseAppend([], goal);
    while cur != start
      invariant c.InGrid(cur) && s.score[cur].Fin? && Shaped(c, s)
      invariant s.trail[goal] == s.trail[cur] + rest && Reverse(back) == [cur] + rest
      decreases |s.trail[cur]|
    {
      TrailStep(c, start, s, cur);
      var prev := came[cur];
      if prev < 0 {
        assert false;
      }
      rest := [cur] + rest;
      ReverseAppend(back, prev);
      cur := prev;
      back := back + [cur];
    }
    TrailStep(c, start, s, start);
    var turned := ReverseInPlace(back);
    path := Some(turned);
  }

  /** The two-ended swap loop at the end of `reconstruct`. */
  method ReverseInPlace(s: seq<int>) returns (path: seq<int>)
    ensures path == Reverse(s)
  {
    path := s;
    var i, j := 0, |s| - 1;
    while i < j
      invariant 0 <= i && j == |s| - 1 - i && i <= j + 1 && |path| == |s|
      invariant forall k :: 0 <= k < i || j < k < |s| ==> path[k] == s[|s| - 1 - k]
      invariant forall k :: i <= k <= j ==> path[k] == s[k]
    {
      path := path[i := path[j]][j := path[i]];
      i, j := i + 1, j - 1;
    }
  }

  /** The arrays and the queue hold the state `s`. */
  ghost predicate Tracks(c: Chart, goal: int, s: State,
                         gScore: array<Extended>, came: array<int>, closed: array<bool>, q: NodeQueue)
    requires c.nx > 0
    reads gScore, came, closed, q, q.f, q.pos
  {
    && Shaped(c, s)
    && gScore[..] == s.score && came[..] == s.came && closed[..] == s.closed
    && came != q.pos && q.Heap() && q.f.Length == q.pos.Length == |c.cost|
    && (forall v :: v in s.open <==> q.Queued(v))
    && (forall v :: v in s.open && s.score[v].Fin? ==> q.f[v] == Key(c, goal, s, v))
  }

  lemma KeysAfterImprove(c: Chart, goal: int, s: State, u: int, v: int, score: real)
    requires c.nx > 0 && Shaped(c, s) && c.InGrid(u) && c.InGrid(v)
    ensures Key(c, goal, Improve(s, u, v, score), v) == score + Heuristic(c, goal, v)
    ensures forall w :: c.InGrid(w) && w != v && s.score[w].Fin? ==>
      Key(c, goal, Improve(s, u, v, score), w) == Key(c, goal, s, w)
  {}

  /** Writes a better score for `nb` and moves it up the queue. */
  method RecordMove(c: Chart, goal: int, cur: int, nb: int, tentative: real,
                    gScore: array<Extended>, came: array<int>, closed: array<bool>, q: NodeQueue, ghost s: State)
    requires c.Valid() && Tracks(c, goal, s, gScore, came, closed, q) && c.InGrid(cur) && c.InGrid(nb)
    requires forall v :: v in s.open ==> c.InGrid(v) && s.score[v].Fin?
    modifies gScore, came, q`items, q.f, q.pos
    ensures Tracks(c, goal, Improve(s, cur, nb, tentative), gScore, came, closed, q)
  {
    hide Heuristic, Key, NodeQueue.Heap, NodeQueue.Queued;
    KeysAfterImprove(c, goal, s, cur, nb, tentative);
    gScore[nb] := Fin(tentative);
    came[nb] := cur;
    q.Put(nb, tentative + Heuristic(c, goal, nb));
  }

  lemma OpenIsScored(c: Chart, start: int, s: State)
    requires c.Valid() && Inv(c, start, s)
    ensures forall v :: v in s.open ==> c.InGrid(v) && s.score[v].Fin? && !s.closed[v]
  {}

  /** One turn of the neighbour loop: consider move k out of the cell just closed. */
  method RelaxMove(c: Chart, start: int, goal: int, cur: int, k: int,
                   gScore: array<Extended>, came: array<int>, closed: array<bool>, q: NodeQueue,
                   ghost s: State, ghost bound: real) returns (ghost t: State)
    requires c.Valid() && c.CostsAtLeastOne() && Inv(c, start, s)
    requires c.InGrid(cur) && s.closed[cur] && s.score[cur].Fin? && 0 <= k < |MOVES| && RelaxedBut(c, s, cur, k)
    requires KeysAtLeast(c, goal, s, bound) && bound <= Key(c, goal, s, cur)
    requires Tracks(c, goal, s, gScore, came, closed, q)
    modifies gScore, came, q`items, q.f, q.pos
    ensures Inv(c, start, t) && RelaxedBut(c, t, cur, k + 1) && KeysAtLeast(c, goal, t, bound)
    ensures t.closed == s.closed && t.score[cur] == s.score[cur]
    ensures Tracks(c, goal, t, gScore, came, closed, q)
  {
    hide Inv, RelaxedBut, KeysAtLeast, Heuristic, MoveCost, LegClear, Key, Index, Col, Row;
    hide NodeQueue.Heap, NodeQueue.Queued;
    t := s;
    var x, y := Col(c.nx, cur) + MOVES[k].0, Row(c.nx, cur) + MOVES[k].1;
    if x < 0 || y < 0 || x >= c.nx || y >= c.ny {
      NothingToImprove(c, start, s, cur, k);
      return;
    }
    var nb := Index(c.nx, x, y);
    NeighbourInGrid(c, cur, k);
    if closed[nb] || !c.Passable(nb) {
      if Legal(c, cur, k) { ClearLegEnds(c, cur, nb, None); }
      NothingToImprove(c, start, s, cur, k);
      return;
    }
    var step, ok := PriceMove(c, cur, nb);
    if !ok {
      NothingToImprove(c, start, s, cur, k);
      return;
    }
    var tentative := gScore[cur].val + step;
    if !Fin(tentative).Less(gScore[nb]) {
      NothingToImprove(c, start, s, cur, k);
      return;
    }
    assert Improves(c, start, s, cur, k);
    OpenIsScored(c, start, s);
    t := Improved(c, start, s, cur, k);
    ImproveInv(c, start, s, cur, k);
    ImproveRelaxes(c, start, s, cur, k);
    ImproveKeepsKeys(c, start, goal, s, cur, k, bound);
    RecordMove(c, goal, cur, nb, tentative, gScore, came, closed, q, s);
  }

  /** The neighbour loop: every move out of the cell just closed. */
  method Expand(c: Chart, start: int, goal: int, cur: int,
                gScore: array<Extended>, came: array<int>, closed: array<bool>, q: NodeQueue,
                ghost s: State, ghost bound: real) returns (ghost t: State)
    requires c.Valid() && c.CostsAtLeastOne() && Inv(c, start, s)
    requires c.InGrid(cur) && s.closed[cur] && s.score[cur].Fin? && RelaxedBut(c, s, cur, 0)
    requires KeysAtLeast(c, goal, s, bound) && bound <= Key(c, goal, s, cur)
    requires Tracks(c, goal, s, gScore, came, closed, q)
    modifies gScore, came, q`items, q.f, q.pos
    ensures Inv(c, start, t) && RelaxedBut(c, t, -1, 0) && KeysAtLeast(c, goal, t, bound)
    ensures t.closed == s.closed && Tracks(c, goal, t, gScore, came, closed, q)
  {
    t := s;
    AllMovesRelaxed(c, t, cur);
    hide Inv, RelaxedBut, KeysAtLeast, Heuristic, Tracks;
    var k := 0;
    while k < |MOVES|
      invariant 0 <= k <= |MOVES| && Inv(c, start, t) && RelaxedBut(c, t, cur, k)
      invariant t.closed == s.closed && t.score[cur] == s.score[cur]
      invariant KeysAtLeast(c, goal, t, bound) && Tracks(c, goal, t, gScore, came, closed, q)
    {
      t := RelaxMove(c, start, goal, cur, k, gScore, came, closed, q, t, bound);
      k := k + 1;
    }
    AllMovesRelaxed(c, t, cur);
  }

  lemma AllMovesRelaxed(c: Chart, s: State, cur: int)
    requires c.Valid() && Shaped(c, s)
    ensures RelaxedBut(c, s, cur, |MOVES|) ==> RelaxedBut(c, s, -1, 0)
  {
    hide Relaxed;
  }

  lemma LeastKey(c: Chart, goal: int, s: State, cur: int, f: seq<real>)
    requires c.Valid() && Shaped(c, s) && |f| == |c.cost|
    requires cur in s.open && c.InGrid(cur) && s.score[cur].Fin?
    requires forall v :: v in s.open ==> c.InGrid(v) && s.score[v].Fin? && f[v] == Key(c, goal, s, v) && f[cur] <= f[v]
    ensures KeysAtLeast(c, goal, s, Key(c, goal, s, cur))
  {
    hide Key;
  }

  /** Takes the cell with the least key off the queue. */
  method TakeLeast(c: Chart, goal: int,
                   gScore: array<Extended>, came: array<int>, closed: array<bool>, q: NodeQueue, ghost s: State)
      returns (cur: int)
    requires c.Valid() && Tracks(c, goal, s, gScore, came, closed, q) && q.items != []
    requires forall v :: v in s.open ==> c.InGrid(v) && s.score[v].Fin?
    modifies q`items, q.pos
    ensures cur in s.open && KeysAtLeast(c, goal, s, Key(c, goal, s, cur))
    ensures Tracks(c, goal, s.(open := s.open - {cur}), gScore, came, closed, q)
  {
    hide KeysAtLeast, Key, Heuristic, NodeQueue.Heap, NodeQueue.Queued, Chart.Valid;
    cur := q.Pop();
    LeastKey(c, goal, s, cur, q.f[..]);
    ghost var t := s.(open := s.open - {cur});
    forall v | v in t.open ensures Key(c, goal, t, v) == Key(c, goal, s, v) { SameKey(c, goal, s, t, v); }
  }

  lemma SameKey(c: Chart, goal: int, s: State, t: State, v: int)
    requires c.nx > 0 && t.score == s.score && 0 <= v < |s.score| && s.score[v].Fin?
    ensures Key(c, goal, t, v) == Key(c, goal, s, v)
  {}

  /** x is the least cost of a route from the start to v. */
  ghost predicate LeastCost(c: Chart, start: int, v: int, x: real)
    requires c.nx > 0
  {
    && (exists p :: IsRouteBetween(c, p, start, v) && RouteCost(c, p) == x)
    && (forall p :: IsRouteBetween(c, p, start, v) ==> x <= RouteCost(c, p))
  }

  /** The key of v is the least cost of a route to it and the straight line from there to the goal. */
  ghost predicate LeastKeyOf(c: Chart, start: int, goal: int, v: int, key: real)
    requires c.nx > 0
  {
    LeastCost(c, start, v, key - Heuristic(c, goal, v))
  }

  /** No cell comes twice, the keys never decrease, and each is the final key of its cell. */
  ghost predicate OrderedLog(c: Chart, start: int, goal: int, popped: seq<int>, keys: seq<real>)
    requires c.nx > 0
  {
    && |popped| == |keys|
    && (forall i, j :: 0 <= i < j < |popped| ==> popped[i] != popped[j])
    && (forall i, j :: 0 <= i < j < |keys| ==> keys[i] <= keys[j])
    && (forall i :: 0 <= i < |popped| ==> LeastKeyOf(c, start, goal, popped[i], keys[i]))
  }

  /** Every cell that a route reaches is among those popped. */
  ghost predicate AllReached(c: Chart, start: int, popped: seq<int>)
    requires c.nx > 0
  {
    forall p :: IsRoute(c, p) && p[0] == start ==> p[|p| - 1] in popped
  }

  /** A route from the start to a cell at a key below the bound. */
  ghost predicate ReachesBelow(c: Chart, start: int, goal: int, p: seq<int>, bound: real)
    requires c.nx > 0
  {
    p != [] && IsRoute(c, p) && p[0] == start && RouteCost(c, p) + Heuristic(c, goal, p[|p| - 1]) < bound
  }

  /** The goal is popped last, after every cell that a route reaches at a smaller key. */
  ghost predicate GoalLast(c: Chart, start: int, goal: int, popped: seq<int>, keys: seq<real>)
    requires c.nx > 0
  {
    && popped != [] && |keys| == |popped| && popped[|popped| - 1] == goal
    && forall p :: ReachesBelow(c, start, goal, p, keys[|keys| - 1]) ==> p[|p| - 1] in popped
  }

  /** `findPath`: the cheapest route from `start` to `goal`, or nothing when there is none.
      `popped` and `keys` record, for the proof, the cells in the order they leave the open set and
      their keys. No cell leaves it twice, the keys never decrease and are final; a search that fails
      has popped every cell that can be reached, and one that succeeds has popped the goal last, after
      every cell with a smaller key. */
  method FindPath(c: Chart, start: int, goal: int)
      returns (path: Option<seq<int>>, ghost popped: seq<int>, ghost keys: seq<real>)
    requires c.Valid() && c.CostsAtLeastOne()
    ensures path.None? ==> forall p :: !IsRouteBetween(c, p, start, goal)
    ensures path.Some? ==>
      && IsRouteBetween(c, path.value, start, goal)
      && forall p :: IsRouteBetween(c, p, start, goal) ==> RouteCost(c, path.value) <= RouteCost(c, p)
    ensures OrderedLog(c, start, goal, popped, keys)
    ensures path.None? && c.Passable(start) && c.Passable(goal) ==> AllReached(c, start, popped)
    ensures path.Some? && start != goal ==> GoalLast(c, start, goal, popped, keys)
  {
    popped, keys := [], [];
    if !c.InGrid(start) || !c.InGrid(goal) || !c.Passable(start) || !c.Passable(goal) {
      forall p ensures !IsRouteBetween(c, p, start, goal) { NoRouteFromBadEnds(c, p, start, goal); }
      return None, popped, keys;
    }
    if start == goal {
      StandingStill(c, start);
      return Some([start]), popped, keys;
    }
    path, popped, keys := SearchLoop(c, start, goal);
  }

  lemma NoRouteFromBadEnds(c: Chart, p: seq<int>, start: int, goal: int)
    requires c.Valid() && !(c.Passable(start) && c.Passable(goal))
    ensures !IsRouteBetween(c, p, start, goal)
  {
    if IsRouteBetween(c, p, start, goal) && |p| > 1 {
      LastMove(c, p);
      RouteInGrid(c, p, |p| - 2);
      RouteInGrid(c, p, |p| - 1);
      ClearLegEnds(c, p[|p| - 2], p[|p| - 1], None);
    }
  }

  lemma StandingStill(c: Chart, start: int)
    requires c.Valid() && c.CostsAtLeastOne() && c.Passable(start)
    ensures IsRouteBetween(c, [start], start, start) && RouteCost(c, [start]) == 0.0
    ensures forall p :: IsRoute(c, p) ==> RouteCost(c, p) >= 0.0
  {
    forall p | IsRoute(c, p) ensures RouteCost(c, p) >= 0.0 { RouteCostsNoLess(c, p); }
  }

  /** What is recorded of the cells that have left the open set: they are the closed ones, and their
      keys bound those still open. */
  ghost predicate Log(c: Chart, start: int, goal: int, s: State, popped: seq<int>, keys: seq<real>)
    requires c.nx > 0 && Shaped(c, s)
  {
    && OrderedLog(c, start, goal, popped, keys)
    && (forall v :: c.InGrid(v) ==> (s.closed[v] <==> v in popped))
    && (|keys| > 0 ==> KeysAtLeast(c, goal, s, keys[|keys| - 1]))
  }

  /** The key with which the least open cell is popped is its final one. */
  lemma PoppedKey(c: Chart, start: int, goal: int, s: State, cur: int)
    requires c.Valid() && c.CostsAtLeastOne() && Inv(c, start, s) && RelaxedBut(c, s, -1, 0)
    requires cur in s.open && KeysAtLeast(c, goal, s, Key(c, goal, s, cur))
    ensures LeastKeyOf(c, start, goal, cur, Key(c, goal, s, cur))
  {
    hide IsRoute, RouteCost, Heuristic, RelaxedBut;
    PopIsBest(c, start, goal, s, cur);
    assert Traced(c, start, s, cur);
  }

  lemma LogExtended(c: Chart, start: int, goal: int, s: State, t: State, popped: seq<int>, keys: seq<real>, cur: int)
    requires c.nx > 0 && Shaped(c, s) && Shaped(c, t) && Log(c, start, goal, s, popped, keys)
    requires cur in s.open && c.InGrid(cur) && !s.closed[cur] && s.score[cur].Fin?
    requires LeastKeyOf(c, start, goal, cur, Key(c, goal, s, cur))
    ensures OrderedLog(c, start, goal, popped + [cur], keys + [Key(c, goal, s, cur)])
    ensures t.closed == s.closed[cur := true] && KeysAtLeast(c, goal, t, Key(c, goal, s, cur)) ==>
      Log(c, start, goal, t, popped + [cur], keys + [Key(c, goal, s, cur)])
  {
    hide Key, LeastKeyOf;
    if |keys| > 0 { assert keys[|keys| - 1] <= Key(c, goal, s, cur); }
  }

  /** When the goal is popped, every cell that a route reaches at a smaller key has been. */
  lemma NothingSkipped(c: Chart, start: int, goal: int, s: State, popped: seq<int>, keys: seq<real>)
    requires c.Valid() && c.CostsAtLeastOne() && Inv(c, start, s) && RelaxedBut(c, s, -1, 0)
    requires Log(c, start, goal, s, popped, keys) && goal in s.open && c.InGrid(goal) && s.score[goal].Fin?
    requires KeysAtLeast(c, goal, s, Key(c, goal, s, goal))
    ensures GoalLast(c, start, goal, popped + [goal], keys + [Key(c, goal, s, goal)])
  {
    assert |keys| == |popped|;
    hide IsRoute, RouteCost, Heuristic, Key, RelaxedBut, OrderedLog, Traced, Best;
    var key := Key(c, goal, s, goal);
    forall p | ReachesBelow(c, start, goal, p, key)
      ensures p[|p| - 1] in popped + [goal]
    {
      var x := Cut(c, start, goal, s, p);
    }
  }

  /** When the open set is empty, every cell that a route reaches has been popped. */
  lemma NothingLeft(c: Chart, start: int, goal: int, s: State, popped: seq<int>, keys: seq<real>)
    requires c.Valid() && c.CostsAtLeastOne() && Inv(c, start, s) && RelaxedBut(c, s, -1, 0)
    requires Log(c, start, goal, s, popped, keys) && forall v :: v !in s.open
    ensures AllReached(c, start, popped)
  {
    hide RouteCost, Heuristic, Key, RelaxedBut, OrderedLog, Traced, Best;
    forall p | IsRoute(c, p) && p[0] == start ensures p[|p| - 1] in popped {
      var x := Cut(c, start, goal, s, p);
    }
  }

  function Range(n: nat): (cells: set<int>)
    ensures forall v :: v in cells <==> 0 <= v < n
  {
    if n == 0 then {} else Range(n - 1) + {n - 1}
  }

  method Start(c: Chart, start: int, goal: int)
      returns (gScore: array<Extended>, came: array<int>, closed: array<bool>, q: NodeQueue)
    requires c.Valid() && c.Passable(start)
    ensures fresh(gScore) && fresh(came) && fresh(closed) && fresh(q) && fresh(q.f) && fresh(q.pos)
    ensures Tracks(c, goal, Initial(c, start), gScore, came, closed, q)
  {
    hide Heuristic, Chart.Valid, NodeQueue.Heap;
    var n := |c.cost|;
    gScore := new Extended[n](_ => PosInf);
    came := new int[n](_ => -1);
    closed := new bool[n](_ => false);
    q := new NodeQueue(n);
    gScore[start] := Fin(0.0);
    q.Put(start, Heuristic(c, goal, start));
  }

  /** Closes a cell taken off the queue and relaxes its moves. It is never closed already. */
  method CloseAndExpand(c: Chart, start: int, goal: int, cur: int,
                        gScore: array<Extended>, came: array<int>, closed: array<bool>, q: NodeQueue,
                        ghost s: State) returns (ghost t: State)
    requires c.Valid() && c.CostsAtLeastOne() && Inv(c, start, s) && RelaxedBut(c, s, -1, 0)
    requires cur in s.open && c.InGrid(cur) && !s.closed[cur] && s.score[cur].Fin?
    requires KeysAtLeast(c, goal, s, Key(c, goal, s, cur))
    requires Tracks(c, goal, s.(open := s.open - {cur}), gScore, came, closed, q)
    modifies gScore, came, closed, q`items, q.f, q.pos
    ensures Inv(c, start, t) && RelaxedBut(c, t, -1, 0)
    ensures t.closed == s.closed[cur := true] && KeysAtLeast(c, goal, t, Key(c, goal, s, cur))
    ensures Tracks(c, goal, t, gScore, came, closed, q)
  {
    hide Inv, RelaxedBut, KeysAtLeast, Heuristic, Key, Chart.Valid;
    hide NodeQueue.Heap, NodeQueue.Queued;
    if closed[cur] {
      assert false;
    }
    OpenIsScored(c, start, s);
    CloseInv(c, start, goal, s, cur);
    closed[cur] := true;
    t := Close(s, cur);
    SameKey(c, goal, s, t, cur);
    forall v | v in t.open
      ensures Key(c, goal, t, v) == Key(c, goal, s.(open := s.open - {cur}), v)
    {
      SameKey(c, goal, s, t, v);
      SameKey(c, goal, s, s.(open := s.open - {cur}), v);
    }
    t := Expand(c, start, goal, cur, gScore, came, closed, q, t, Key(c, goal, s, cur));
  }

  /** The cells yet to be closed. */
  ghost predicate ToDo(c: Chart, s: State, todo: set<int>) {
    |s.closed| == |c.cost| && forall v :: v in todo <==> 0 <= v < |c.cost| && !s.closed[v]
  }

  lemma AllToDo(c: Chart, start: int)
    requires c.Valid() && c.Passable(start)
    ensures ToDo(c, Initial(c, start), Range(|c.cost|))
  {}

  lemma StillToDo(c: Chart, s: State, todo: set<int>, v: int)
    requires ToDo(c, s, todo) && v in todo
    ensures 0 <= v < |c.cost| == |s.closed| && !s.closed[v]
  {}

  lemma OneDone(c: Chart, s: State, t: State, todo: set<int>, cur: int)
    requires ToDo(c, s, todo) && 0 <= cur < |c.cost| && !s.closed[cur] && t.closed == s.closed[cur := true]
    ensures ToDo(c, t, todo - {cur}) && cur in todo
  {}

  method SearchLoop(c: Chart, start: int, goal: int)
      returns (path: Option<seq<int>>, ghost popped: seq<int>, ghost keys: seq<real>)
    requires c.Valid() && c.CostsAtLeastOne() && c.Passable(start) && c.Passable(goal)
    ensures path.None? ==> forall p :: !IsRouteBetween(c, p, start, goal)
    ensures path.Some? ==>
      && IsRouteBetween(c, path.value, start, goal)
      && forall p :: IsRouteBetween(c, p, start, goal) ==> RouteCost(c, path.value) <= RouteCost(c, p)
    ensures OrderedLog(c, start, goal, popped, keys)
    ensures path.None? ==> AllReached(c, start, popped)
    ensures path.Some? ==> GoalLast(c, start, goal, popped, keys)
  {
    hide Inv, RelaxedBut, KeysAtLeast, Heuristic, Key, IsRouteBetween, RouteCost, Chart.Valid, Log, OrderedLog, Best;
    hide NodeQueue.Heap, NodeQueue.Queued, LeastKeyOf, AllReached, GoalLast, ToDo;
    ghost var s := Initial(c, start);
    InitialInv(c, start);
    AllToDo(c, start);
    var gScore, came, closed, q := Start(c, start, goal);
    popped, keys := [], [];
    EmptyLog(c, start, goal);
    ghost var todo := Range(|c.cost|);
    while |q.items| > 0
      invariant Inv(c, start, s) && RelaxedBut(c, s, -1, 0) && Tracks(c, goal, s, gScore, came, closed, q)
      invariant Log(c, start, goal, s, popped, keys) && OrderedLog(c, start, goal, popped, keys)
      invariant goal in todo && ToDo(c, s, todo)
      decreases todo
    {
      OpenIsScored(c, start, s);
      var cur := TakeLeast(c, goal, gScore, came, closed, q, s);
      ghost var key := Key(c, goal, s, cur);
      PoppedKey(c, start, goal, s, cur);
      if cur == goal {
        LogExtended(c, start, goal, s, s, popped, keys, cur);
        NothingSkipped(c, start, goal, s, popped, keys);
        popped, keys := popped + [cur], keys + [key];
        PopIsBest(c, start, goal, s, cur);
        path := Reconstruct(c, came, start, goal, s);
        BestTrail(c, start, s, goal);
        return;
      }
      ghost var t := CloseAndExpand(c, start, goal, cur, gScore, came, closed, q, s);
      OneDone(c, s, t, todo, cur);
      todo := todo - {cur};
      LogExtended(c, start, goal, s, t, popped, keys, cur);
      s, popped, keys := t, popped + [cur], keys + [key];
    }
    q.EmptyQueue();
    StillToDo(c, s, todo, goal);
    ExhaustedIsComplete(c, start, goal, s);
    NothingLeft(c, start, goal, s, popped, keys);
    path := None;
  }

  lemma EmptyLog(c: Chart, start: int, goal: int)
    requires c.Valid() && c.Passable(start)
    ensures Log(c, start, goal, Initial(c, start), [], []) && OrderedLog(c, start, goal, [], [])
  {}
}
