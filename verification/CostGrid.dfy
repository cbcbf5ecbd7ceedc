/** How a cell's facts and its clearance become a cost multiplier (render/autoroute_grid.go,
    `finalize`), and what a finite multiplier guarantees. */
module CostGrid {
  import opened Common
  import opened Charts
  import opened CellFacts
  import opened Chamfer

  /** The tunables, in metres and in multiplier units. */
  datatype GridCost = GridCost(
    safeDepth: real, idealDepth: real, hardClearance: real, softClearance: real,
    depthPenalty: real, shorePenalty: real, unknownPenalty: real, unknownRange: real,
    unsurveyedPenalty: real, restrictedPenalty: real, markerPenalty: real, offChannelPenalty: real)
  {
    /** What normalising the route options establishes. */
    predicate Normal() {
      && 0.0 <= hardClearance <= softClearance
      && 0.0 <= depthPenalty && 0.0 <= shorePenalty && 0.0 <= unknownPenalty
      && 0.0 <= unsurveyedPenalty && 0.0 <= restrictedPenalty
      && 0.0 <= markerPenalty && 0.0 <= offChannelPenalty
    }

    /** The retry of a failed search: no hard clearance, and no channel-following charges. */
    function Relaxed(): GridCost {
      this.(hardClearance := 0.0, markerPenalty := 0.0, offChannelPenalty := 0.0)
    }
  }

  /** Charted shoaler than the boat's safe depth. */
  predicate TooShoal(f: Cell, c: GridCost) {
    f.depth.Some? && f.depth.value < c.safeDepth
  }

  predicate HardBlocked(f: Cell, c: GridCost) {
    if Channel in f.flags then ChannelDepth in f.flags && TooShoal(f, c) && f.depth.value > 0.0
    else Land in f.flags || Obstruction in f.flags || (TooShoal(f, c) && Dredged !in f.flags)
  }

  function DepthCharge(f: Cell, distM: real, c: GridCost): real {
    if Dredged in f.flags || Channel in f.flags then 0.0
    else if f.depth.None? then if distM < c.unknownRange then c.unknownPenalty else 0.0
    else
      var span := c.idealDepth - c.safeDepth;
      if span > 0.0 && f.depth.value < c.idealDepth then c.depthPenalty * (c.idealDepth - f.depth.value) / span else 0.0
  }

  function ShoreCharge(distM: real, c: GridCost): real {
    if c.softClearance > c.hardClearance && distM < c.softClearance
    then c.shorePenalty * ((c.softClearance - distM) / (c.softClearance - c.hardClearance)) else 0.0
  }

  function ChannelCharge(f: Cell, c: GridCost): real {
    if MarkedChannel in f.flags || Channel in f.flags || Dredged in f.flags then 0.0
    else if MarkerZone in f.flags then c.markerPenalty
    else c.offChannelPenalty
  }

  function AreaCharge(f: Cell, c: GridCost): real {
    (if Unsurveyed in f.flags then c.unsurveyedPenalty else 0.0)
    + (if Restricted in f.flags then c.restrictedPenalty else 0.0)
  }

  /** Metres from the nearest blocked cell, from the transform's fifths of a cell. */
  function Metres(clear: int, mx: real): real { clear as real / 5.0 * mx }

  function Price(f: Cell, clear: int, mx: real, c: GridCost): Extended {
    if HardBlocked(f, c) then PosInf else
    var distM := Metres(clear, mx);
    if distM < c.hardClearance && Channel !in f.flags then PosInf
    else Fin(1.0 + DepthCharge(f, distM, c) + ShoreCharge(distM, c) + ChannelCharge(f, c) + AreaCharge(f, c))
  }

  function BlockedMap(facts: seq<Cell>, c: GridCost): (blocked: seq<bool>)
    ensures |blocked| == |facts| && forall i :: 0 <= i < |facts| ==> blocked[i] == HardBlocked(facts[i], c)
  {
    seq(|facts|, i requires 0 <= i < |facts| => HardBlocked(facts[i], c))
  }

  /** What `finalize` leaves behind. */
  ghost predicate Finalized(nx: int, ny: int, mx: real, facts: seq<Cell>, c: GridCost, clear: seq<int>, cost: seq<Extended>) {
    && 0 < nx && 0 < ny && |facts| == |clear| == |cost| == nx * ny
    && (forall i :: 0 <= i < |facts| ==> IsNearest(nx, BlockedMap(facts, c), i, clear[i]))
    && (forall i :: 0 <= i < |facts| ==> cost[i] == Price(facts[i], clear[i], mx, c))
  }

  // ---- What a price means -------------------------------------------------------------------

  lemma ChargesAreCharges(f: Cell, distM: real, c: GridCost)
    requires c.Normal() && distM >= 0.0
    ensures DepthCharge(f, distM, c) >= 0.0 && ShoreCharge(distM, c) >= 0.0
    ensures ChannelCharge(f, c) >= 0.0 && AreaCharge(f, c) >= 0.0
  {
    var span := c.idealDepth - c.safeDepth;
    if f.depth.Some? && span > 0.0 && f.depth.value < c.idealDepth {
      ChargeIsPositive(c.depthPenalty, c.idealDepth - f.depth.value, span);
    }
    if c.softClearance > c.hardClearance && distM < c.softClearance {
      FractionIsPositive(c.shorePenalty, c.softClearance - distM, c.softClearance - c.hardClearance);
    }
  }

  lemma ChargeIsPositive(p: real, x: real, y: real)
    requires p >= 0.0 && x >= 0.0 && y > 0.0
    ensures p * x / y >= 0.0
  {
    assert p * x >= 0.0;
  }

  lemma FractionIsPositive(p: real, x: real, y: real)
    requires p >= 0.0 && x >= 0.0 && y > 0.0
    ensures p * (x / y) >= 0.0
  {
    assert x / y >= 0.0;
  }

  /** Every multiplier is at least 1, as the search's heuristic needs. */
  lemma PricesAtLeastOne(f: Cell, clear: int, mx: real, c: GridCost)
    requires c.Normal() && clear >= 0 && mx > 0.0
    ensures Price(f, clear, mx, c).Fin? ==> Price(f, clear, mx, c).val >= 1.0
  {
    MetresPositive(clear, mx);
    hide DepthCharge, ShoreCharge, ChannelCharge, AreaCharge, Metres, GridCost.Normal;
    ChargesAreCharges(f, Metres(clear, mx), c);
  }

  lemma MetresPositive(clear: int, mx: real)
    requires clear >= 0 && mx > 0.0
    ensures Metres(clear, mx) >= 0.0
  {
    assert (clear as real / 5.0) * mx >= 0.0;
  }

  predicate OwnDepthCloses(f: Cell, c: GridCost) {
    ChannelDepth in f.flags && f.depth.Some? && 0.0 < f.depth.value < c.safeDepth
  }

  /** A channel is closed by its own charted depth and by nothing else. */
  lemma ChannelClosedByOwnDepth(f: Cell, clear: int, mx: real, c: GridCost)
    requires Channel in f.flags
    ensures Price(f, clear, mx, c).Fin? <==> !OwnDepthCloses(f, c)
  {
    hide Metres;
  }

  /** What a boat may float over: neither land nor an obstruction, and unsounded, deep enough or dredged. */
  predicate Floats(f: Cell, c: GridCost) {
    && Land !in f.flags && Obstruction !in f.flags
    && (f.depth.None? || f.depth.value >= c.safeDepth || Dredged in f.flags)
  }

  /** A channel is blocked by its own charted depth alone, and other water exactly when nothing floats there. */
  lemma BlockedUnlessNavigable(f: Cell, c: GridCost)
    ensures HardBlocked(f, c) <==> if Channel in f.flags then OwnDepthCloses(f, c) else !Floats(f, c)
  {}

  /** In the chamfer norm, every cell that is closed by its facts is at least the hard clearance away from
      cell i: every channel that its own depth closes, and other water on which nothing floats. */
  ghost predicate StandsOff(nx: int, mx: real, facts: seq<Cell>, c: GridCost, i: int)
    requires nx > 0
  {
    && (forall j :: 0 <= j < |facts| && Channel in facts[j].flags && OwnDepthCloses(facts[j], c) ==>
          c.hardClearance <= Metres(Distance(nx, j, i), mx))
    && (forall j :: 0 <= j < |facts| && Channel !in facts[j].flags && !Floats(facts[j], c) ==>
          c.hardClearance <= Metres(Distance(nx, j, i), mx))
  }

  lemma StandsOffBlocked(nx: int, mx: real, facts: seq<Cell>, c: GridCost, i: int)
    requires nx > 0
    ensures StandsOff(nx, mx, facts, c, i) <==>
      forall j :: 0 <= j < |facts| && HardBlocked(facts[j], c) ==> c.hardClearance <= Metres(Distance(nx, j, i), mx)
  {
    hide Metres, Distance, HardBlocked, Floats, OwnDepthCloses;
    forall j | 0 <= j < |facts|
      ensures HardBlocked(facts[j], c) <==> if Channel in facts[j].flags then OwnDepthCloses(facts[j], c) else !Floats(facts[j], c)
    {
      BlockedUnlessNavigable(facts[j], c);
    }
  }

  /** A cell of the priced grid in a channel is passable exactly when its own depth does not close it.
      Any other is exactly when it has neither land nor an obstruction, is unsounded, deep enough or
      dredged, and is the hard clearance away from everything that its facts close, and, as no distance
      beyond the transform's infinity is told, from that. */
  lemma PassableCells(nx: int, ny: int, mx: real, facts: seq<Cell>, c: GridCost, clear: seq<int>, cost: seq<Extended>, i: int)
    requires Finalized(nx, ny, mx, facts, c, clear, cost) && mx > 0.0 && 0 <= i < |facts|
    ensures Channel in facts[i].flags ==>
      (cost[i].Fin? <==>
         !(ChannelDepth in facts[i].flags && facts[i].depth.Some? && 0.0 < facts[i].depth.value < c.safeDepth))
    ensures Channel !in facts[i].flags ==>
      (cost[i].Fin? <==>
         && Land !in facts[i].flags && Obstruction !in facts[i].flags
         && (facts[i].depth.None? || facts[i].depth.value >= c.safeDepth || Dredged in facts[i].flags)
         && StandsOff(nx, mx, facts, c, i) && c.hardClearance <= Metres(INFINITE, mx))
  {
    if Channel in facts[i].flags { ChannelClosedByOwnDepth(facts[i], clear[i], mx, c); }
    BlockedUnlessNavigable(facts[i], c);
    assert Floats(facts[i], c) <==>
      && Land !in facts[i].flags && Obstruction !in facts[i].flags
      && (facts[i].depth.None? || facts[i].depth.value >= c.safeDepth || Dredged in facts[i].flags);
    hide Distance, Metres, HardBlocked, Floats, OwnDepthCloses, StandsOff;
    StandsOffBlocked(nx, mx, facts, c, i);
    var blocked := BlockedMap(facts, c);
    assert IsNearest(nx, blocked, i, clear[i]);
    forall j | 0 <= j < |facts| && HardBlocked(facts[j], c)
      ensures Metres(clear[i], mx) <= Metres(Distance(nx, j, i), mx)
    {
      assert IsSource(blocked, j);
      MetresOrdered(clear[i], Distance(nx, j, i), mx);
    }
    MetresOrdered(clear[i], INFINITE, mx);
    if clear[i] < INFINITE {
      var s :| IsSource(blocked, s) && Distance(nx, s, i) == clear[i];
      assert HardBlocked(facts[s], c);
    }
  }

  /** So a passable cell outside a channel keeps the hard clearance from every blocked cell, in the
      chamfer norm. */
  lemma ClearanceInNorm(nx: int, ny: int, mx: real, facts: seq<Cell>, c: GridCost, clear: seq<int>, cost: seq<Extended>, i: int, j: int)
    requires Finalized(nx, ny, mx, facts, c, clear, cost) && mx > 0.0
    requires 0 <= i < |facts| && 0 <= j < |facts|
    requires cost[i].Fin? && Channel !in facts[i].flags && HardBlocked(facts[j], c)
    ensures c.hardClearance <= Metres(Distance(nx, j, i), mx)
  {
    hide Distance, Metres, HardBlocked, Price, Finalized, StandsOff;
    PassableCells(nx, ny, mx, facts, c, clear, cost, i);
    GridHasColumns(nx, ny, mx, facts, c, clear, cost);
    StandsOffBlocked(nx, mx, facts, c, i);
  }

  lemma GridHasColumns(nx: int, ny: int, mx: real, facts: seq<Cell>, c: GridCost, clear: seq<int>, cost: seq<Extended>)
    requires Finalized(nx, ny, mx, facts, c, clear, cost)
    ensures nx > 0
  {}

  /** And in straight lines, up to the two percent of the norm: with E the distance in cells and w
      the cell width, 25 hard*hard <= 26 w*w E*E. */
  lemma ClearanceKept(nx: int, ny: int, mx: real, facts: seq<Cell>, c: GridCost, clear: seq<int>, cost: seq<Extended>, i: int, j: int)
    requires 0 < nx && Finalized(nx, ny, mx, facts, c, clear, cost) && c.Normal() && mx > 0.0
    requires 0 <= i < |facts| && 0 <= j < |facts|
    requires cost[i].Fin? && Channel !in facts[i].flags && HardBlocked(facts[j], c)
    ensures var v := Offset(nx, j, i);
      25.0 * (c.hardClearance * c.hardClearance) <= 26.0 * (mx * mx) * (v.0 * v.0 + v.1 * v.1) as real
  {
    hide Norm, Metres, Finalized, Offset, HardBlocked;
    ClearanceInNorm(nx, ny, mx, facts, c, clear, cost, i, j);
    var v := Offset(nx, j, i);
    NormNearEuclid(v.0, v.1);
    ClearanceSquared(c.hardClearance, Norm(v.0, v.1), mx, v.0 * v.0 + v.1 * v.1);
  }

  lemma MetresOrdered(p: int, q: int, mx: real)
    requires p <= q && mx > 0.0
    ensures Metres(p, mx) <= Metres(q, mx)
  {
    assert (q - p) as real / 5.0 * mx >= 0.0;
  }

  lemma ClearanceSquared(hard: real, n: int, mx: real, e: int)
    requires 0.0 <= hard <= Metres(n, mx) && mx > 0.0 && n * n <= 26 * e
    ensures 25.0 * (hard * hard) <= 26.0 * (mx * mx) * e as real
  {
    var m := n as real;
    var reach := m * mx;
    assert 5.0 * hard <= reach;
    assert 25.0 * (hard * hard) <= reach * reach by {
      var h := 5.0 * hard;
      assert h * h <= h * reach && h * reach <= reach * reach;
      assert h * h == 25.0 * (hard * hard);
    }
    assert reach * reach == (m * m) * (mx * mx);
    assert m * m == (n * n) as real <= 26.0 * e as real;
    ScaledOrder(m * m, 26.0 * e as real, mx * mx);
  }

  lemma ScaledOrder(p: real, q: real, s: real)
    requires p <= q && s >= 0.0
    ensures p * s <= q * s
  {
    assert (q - p) * s >= 0.0;
  }

  lemma RelaxingOnlyOpens(f: Cell, clear: int, clear': int, mx: real, c: GridCost)
    requires clear' >= 0 && mx > 0.0
    ensures Price(f, clear, mx, c).Fin? ==> Price(f, clear', mx, c.Relaxed()).Fin?
    ensures Price(f, clear', mx, c.Relaxed()).Fin? <==> !HardBlocked(f, c)
  {
    MetresPositive(clear', mx);
    hide Metres;
  }

  // ---- The whole grid -----------------------------------------------------------------------

  lemma NearestIsDistance(nx: int, src: seq<bool>, i: int, v: int)
    requires nx > 0 && IsNearest(nx, src, i, v)
    ensures v >= 0
  {
    if v < INFINITE {
      var s :| IsSource(src, s) && Distance(nx, s, i) == v;
    }
  }

  lemma FinalizedCosts(nx: int, ny: int, mx: real, facts: seq<Cell>, c: GridCost, clear: seq<int>, cost: seq<Extended>)
    requires Finalized(nx, ny, mx, facts, c, clear, cost) && c.Normal() && mx > 0.0
    ensures forall i :: 0 <= i < |cost| && cost[i].Fin? ==> cost[i].val >= 1.0
  {
    hide Price, IsNearest, BlockedMap, GridCost.Normal;
    forall i | 0 <= i < |cost| && cost[i].Fin? ensures cost[i].val >= 1.0 {
      NearestIsDistance(nx, BlockedMap(facts, c), i, clear[i]);
      PricesAtLeastOne(facts[i], clear[i], mx, c);
    }
  }

  lemma NearestIsUnique(nx: int, src: seq<bool>, i: int, v: int, w: int)
    requires nx > 0 && IsNearest(nx, src, i, v) && IsNearest(nx, src, i, w)
    ensures v <= w
  {
    hide Distance;
  }

  /** Facts and tunables determine the prices. */
  lemma PricingIsUnique(nx: int, ny: int, mx: real, facts: seq<Cell>, c: GridCost,
                        clear: seq<int>, cost: seq<Extended>, clear': seq<int>, cost': seq<Extended>)
    requires Finalized(nx, ny, mx, facts, c, clear, cost) && Finalized(nx, ny, mx, facts, c, clear', cost')
    ensures cost == cost'
  {
    hide Price, IsNearest, BlockedMap;
    var blocked := BlockedMap(facts, c);
    forall i | 0 <= i < |cost| ensures cost[i] == cost'[i] {
      NearestIsUnique(nx, blocked, i, clear[i], clear'[i]);
      NearestIsUnique(nx, blocked, i, clear'[i], clear[i]);
    }
  }

  /** Pricing a grid again without the hard clearance closes no cell, and leaves open exactly those
      that are not blocked themselves. */
  lemma RelaxedGridOnlyOpens(nx: int, ny: int, mx: real, facts: seq<Cell>, c: GridCost,
                             clear: seq<int>, cost: seq<Extended>, clear': seq<int>, cost': seq<Extended>)
    requires Finalized(nx, ny, mx, facts, c, clear, cost) && mx > 0.0
    requires Finalized(nx, ny, mx, facts, c.Relaxed(), clear', cost')
    ensures |cost'| == |cost| && forall i :: 0 <= i < |cost| && cost[i].Fin? ==> cost'[i].Fin?
    ensures forall i :: 0 <= i < |cost'| ==> (cost'[i].Fin? <==> !HardBlocked(facts[i], c))
  {
    hide Price, IsNearest, BlockedMap, HardBlocked;
    forall i | 0 <= i < |cost|
      ensures (cost[i].Fin? ==> cost'[i].Fin?) && (cost'[i].Fin? <==> !HardBlocked(facts[i], c))
    {
      NearestIsDistance(nx, BlockedMap(facts, c.Relaxed()), i, clear'[i]);
      RelaxingOnlyOpens(facts[i], clear[i], clear'[i], mx, c);
    }
  }
}
