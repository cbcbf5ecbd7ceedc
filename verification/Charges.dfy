/** What the charges of a priced cell come to (render/autoroute_grid.go, `finalize`): their values at the
    ends of each band, and that shoaler or nearer water is never cheaper. */
module Charges {
  import opened Common
  import opened CellFacts
  import opened CostGrid

  // ---- Depth --------------------------------------------------------------------------------

  predicate Maintained(f: Cell) { Dredged in f.flags || Channel in f.flags }

  /** Charted water pays the whole depth penalty at the safe depth, nothing from the ideal depth on, and
      in between in proportion to what it lacks. */
  lemma DepthBand(f: Cell, distM: real, c: GridCost)
    requires f.depth.Some? && !Maintained(f) && c.idealDepth > c.safeDepth
    ensures f.depth.value == c.safeDepth ==> DepthCharge(f, distM, c) == c.depthPenalty
    ensures f.depth.value >= c.idealDepth ==> DepthCharge(f, distM, c) == 0.0
    ensures f.depth.value <= c.idealDepth ==>
      DepthCharge(f, distM, c) * (c.idealDepth - c.safeDepth) == c.depthPenalty * (c.idealDepth - f.depth.value)
  {
    var span, lack := c.idealDepth - c.safeDepth, c.idealDepth - f.depth.value;
    ShareOf(c.depthPenalty, lack, span);
    assert c.depthPenalty * 0.0 == 0.0;
  }

  lemma ShareOf(p: real, x: real, y: real)
    requires y > 0.0
    ensures p * x / y * y == p * x && p * y / y == p
  {
    assert p * y / y * y == p * y;
    Cancelled(p * y / y, p, y);
  }

  lemma Cancelled(p: real, q: real, y: real)
    requires y > 0.0 && p * y == q * y
    ensures p == q
  {
    assert (p - q) * y == 0.0;
  }

  /** A maintained channel pays nothing, and unsounded water its charge up to the given range alone. */
  lemma OtherDepths(f: Cell, distM: real, c: GridCost)
    ensures Maintained(f) ==> DepthCharge(f, distM, c) == 0.0
    ensures !Maintained(f) && f.depth.None? ==>
      DepthCharge(f, distM, c) == if distM < c.unknownRange then c.unknownPenalty else 0.0
  {}

  /** Shoaler water is never cheaper. */
  lemma ShoalerIsDearer(f: Cell, g: Cell, distM: real, c: GridCost)
    requires c.Normal() && f.flags == g.flags && f.depth.Some? && g.depth.Some? && f.depth.value <= g.depth.value
    ensures DepthCharge(f, distM, c) >= DepthCharge(g, distM, c)
  {
    var span := c.idealDepth - c.safeDepth;
    if !Maintained(f) && span > 0.0 && f.depth.value < c.idealDepth {
      var more, less := c.idealDepth - f.depth.value, if g.depth.value < c.idealDepth then c.idealDepth - g.depth.value else 0.0;
      LargerShare(c.depthPenalty, less, more, span);
    }
  }

  lemma LargerShare(p: real, x: real, x': real, y: real)
    requires p >= 0.0 && 0.0 <= x <= x' && y > 0.0
    ensures 0.0 <= p * x / y <= p * x' / y
  {
    assert p * x >= 0.0 && p * (x' - x) >= 0.0;
    assert p * x' == p * x + p * (x' - x);
    var u, v := p * x / y, p * x' / y;
    assert u * y == p * x && v * y == p * x';
    NoLess(u, v, y);
    assert 0.0 * y == 0.0;
    NoLess(0.0, u, y);
  }

  lemma NoLess(u: real, v: real, y: real)
    requires y > 0.0 && u * y <= v * y
    ensures u <= v
  {
    if u > v { Positive(u - v, y); }
  }

  lemma Positive(d: real, y: real)
    requires d > 0.0 && y > 0.0
    ensures d * y > 0.0
  {}

  /** Nor is water nearer to what is blocked. */
  lemma NearerDepthIsDearer(f: Cell, near: real, far: real, c: GridCost)
    requires c.Normal() && near <= far
    ensures DepthCharge(f, near, c) >= DepthCharge(f, far, c)
  {}

  // ---- The shore ----------------------------------------------------------------------------

  /** The shore charge is whole at the hard clearance, nothing from the soft one on, and in between in
      proportion to what is lacking. */
  lemma ShoreBand(distM: real, c: GridCost)
    requires c.softClearance > c.hardClearance
    ensures distM == c.hardClearance ==> ShoreCharge(distM, c) == c.shorePenalty
    ensures distM >= c.softClearance ==> ShoreCharge(distM, c) == 0.0
    ensures distM <= c.softClearance ==>
      ShoreCharge(distM, c) * (c.softClearance - c.hardClearance) == c.shorePenalty * (c.softClearance - distM)
  {
    var band, lack := c.softClearance - c.hardClearance, c.softClearance - distM;
    PartOf(c.shorePenalty, lack, band);
    assert c.shorePenalty * 0.0 == 0.0;
  }

  lemma PartOf(p: real, x: real, y: real)
    requires y > 0.0
    ensures p * (x / y) * y == p * x && p * (y / y) == p
  {
    var u, one := x / y, y / y;
    assert u * y == x && one * y == 1.0 * y;
    Cancelled(one, 1.0, y);
    assert p * u * y == p * (u * y);
  }

  lemma NearerShoreIsDearer(near: real, far: real, c: GridCost)
    requires c.Normal() && near <= far
    ensures ShoreCharge(near, c) >= ShoreCharge(far, c)
  {
    var band := c.softClearance - c.hardClearance;
    if band > 0.0 && near < c.softClearance {
      var more, less := c.softClearance - near, if far < c.softClearance then c.softClearance - far else 0.0;
      PartOf(c.shorePenalty, more, band);
      PartOf(c.shorePenalty, less, band);
      assert c.shorePenalty * more >= c.shorePenalty * less && c.shorePenalty * less >= 0.0 by {
        assert c.shorePenalty * (more - less) >= 0.0 && c.shorePenalty * less >= 0.0;
      }
      NoLess(c.shorePenalty * (less / band), c.shorePenalty * (more / band), band);
      assert 0.0 * band == 0.0;
      NoLess(0.0, c.shorePenalty * (more / band), band);
    }
  }

  // ---- Channels and areas -------------------------------------------------------------------

  /** Any channel is free, the band the marks gate pays the marker penalty, and other water the gentler
      one. */
  lemma ChannelsAreFree(f: Cell, c: GridCost)
    ensures MarkedChannel in f.flags || Channel in f.flags || Dredged in f.flags ==> ChannelCharge(f, c) == 0.0
    ensures {MarkedChannel, Channel, Dredged} !! f.flags ==>
      ChannelCharge(f, c) == if MarkerZone in f.flags then c.markerPenalty else c.offChannelPenalty
  {}

  /** Unsurveyed and restricted water pay each its own penalty on top, and no other flag does. */
  lemma AreaFlags(f: Cell, flags: set<Flag>, c: GridCost)
    requires Unsurveyed !in f.flags && Restricted !in f.flags
    ensures var bare, marked := AreaCharge(f, c), AreaCharge(f.(flags := f.flags + flags), c);
      && bare == 0.0
      && (flags == {Unsurveyed} ==> marked == c.unsurveyedPenalty)
      && (flags == {Restricted} ==> marked == c.restrictedPenalty)
      && (flags == {Unsurveyed, Restricted} ==> marked == c.unsurveyedPenalty + c.restrictedPenalty)
      && (Unsurveyed !in flags && Restricted !in flags ==> marked == 0.0)
  {}

  // ---- The whole price ----------------------------------------------------------------------

  /** A step to a neighbouring cell in the transform is a cell's width. */
  lemma MetresOfCells(k: int, mx: real)
    ensures Metres(5 * k, mx) == k as real * mx
  {
    assert (5 * k) as real / 5.0 == k as real;
  }

  /** Deep water away from everything, in a marked channel, costs its length alone. */
  lemma FreeWater(f: Cell, clear: int, mx: real, c: GridCost)
    requires f.flags == {MarkedChannel} && f.depth.Some? && f.depth.value >= c.idealDepth >= c.safeDepth
    requires Metres(clear, mx) >= c.softClearance >= c.hardClearance
    ensures Price(f, clear, mx, c) == Fin(1.0)
  {
    hide Metres;
  }

  /** Each charge is paid on top: for the shore, for the depth, for leaving the channels and for the area. */
  lemma EachIsPaid(f: Cell, clear: int, mx: real, c: GridCost)
    requires f.depth.Some? && Metres(clear, mx) >= c.hardClearance && c.idealDepth > c.safeDepth && c.softClearance > c.hardClearance
    ensures f.flags == {MarkedChannel} && f.depth.value >= c.idealDepth && Metres(clear, mx) == c.hardClearance ==>
      Price(f, clear, mx, c) == Fin(1.0 + c.shorePenalty)
    ensures f.flags == {MarkedChannel} && f.depth.value == c.safeDepth && Metres(clear, mx) >= c.softClearance ==>
      Price(f, clear, mx, c) == Fin(1.0 + c.depthPenalty)
    ensures f.flags == {} && f.depth.value >= c.idealDepth && Metres(clear, mx) >= c.softClearance ==>
      Price(f, clear, mx, c) == Fin(1.0 + c.offChannelPenalty)
    ensures f.flags == {MarkedChannel, Restricted} && f.depth.value >= c.idealDepth && Metres(clear, mx) >= c.softClearance ==>
      Price(f, clear, mx, c) == Fin(1.0 + c.restrictedPenalty)
    ensures f.flags == {Unsurveyed} && f.depth.value == c.safeDepth && Metres(clear, mx) == c.hardClearance ==>
      Price(f, clear, mx, c) == Fin(1.0 + c.depthPenalty + c.shorePenalty + c.offChannelPenalty + c.unsurveyedPenalty)
  {
    if !Maintained(f) { DepthBand(f, Metres(clear, mx), c); }
    ShoreBand(Metres(clear, mx), c);
    hide Metres, DepthCharge, ShoreCharge;
  }

  /** Of two cells with the same flags, the one that is no deeper and no farther from what is blocked is
      closed when the other is, and otherwise no cheaper. */
  lemma WorseIsDearer(f: Cell, g: Cell, near: int, far: int, mx: real, c: GridCost)
    requires c.Normal() && mx > 0.0 && near <= far && f.flags == g.flags && Channel !in f.flags
    requires f.depth.Some? && g.depth.Some? && f.depth.value <= g.depth.value
    ensures Price(g, far, mx, c).PosInf? ==> Price(f, near, mx, c).PosInf?
    ensures Price(f, near, mx, c).Fin? ==> Price(g, far, mx, c).Fin? && Price(f, near, mx, c).val >= Price(g, far, mx, c).val
  {
    hide DepthCharge, ShoreCharge, Metres;
    MetresOrdered(near, far, mx);
    var p, q := Metres(near, mx), Metres(far, mx);
    ShoalerIsDearer(f, g, p, c);
    NearerDepthIsDearer(g, p, q, c);
    NearerShoreIsDearer(p, q, c);
  }
}
