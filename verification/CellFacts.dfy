/** What the chart says of one cell, and the finest-cell-wins rule by which it is recorded
    (render/autoroute_grid.go, `setDepth`, `mark`, `markLand`, `markWater`). */
module CellFacts {
  import opened Common

  /** "Coarser than anything real": the scale of a cell nothing has been recorded for. */
  const NO_SCALE: int := 0x7FFF_FFFF

  datatype Flag = Land | Obstruction | Dredged | Unsurveyed | Restricted | Channel | ChannelDepth
                | MarkedChannel | MarkerZone

  datatype Cell = Cell(depth: Option<real>, scaleOf: int, flags: set<Flag>, landScale: int)

  const BLANK: Cell := Cell(None, NO_SCALE, {}, NO_SCALE)

  datatype Reading = DepthReading(depth: real, scale: int) | LandReading(scale: int) | WaterReading(scale: int)
                   | FlagReading(flag: Flag)

  /** Compilation scales are int32, and land is recorded at a scale, not as a plain flag. */
  predicate InRange(r: Reading) { if r.FlagReading? then r.flag != Land else r.scale <= NO_SCALE }

  function Record(c: Cell, r: Reading): Cell {
    match r
    case DepthReading(d, scale) =>
      if scale < c.scaleOf then c.(depth := Some(d), scaleOf := scale)
      else if scale == c.scaleOf && (c.depth.None? || d < c.depth.value) then c.(depth := Some(d))
      else c
    case LandReading(scale) =>
      if scale <= c.landScale then c.(flags := c.flags + {Land}, landScale := scale) else c
    case WaterReading(scale) =>
      if scale < c.landScale then c.(flags := c.flags - {Land}, landScale := scale) else c
    case FlagReading(f) => c.(flags := c.flags + {f})
  }

  function RecordAll(c: Cell, rs: seq<Reading>): Cell {
    if rs == [] then c else Record(RecordAll(c, rs[..|rs| - 1]), rs[|rs| - 1])
  }

  /** `d` is the shoalest depth among the readings of the finest scale. */
  ghost predicate ShoalestAtFinest(rs: seq<Reading>, d: real, scale: int) {
    && DepthReading(d, scale) in rs
    && (forall r :: r in rs && r.DepthReading? ==> scale < r.scale || (scale == r.scale && d <= r.depth))
  }

  /** The finest land reading is at or below every water reading. */
  ghost predicate LandWins(rs: seq<Reading>) {
    exists l :: l in rs && l.LandReading? && forall w :: w in rs && w.WaterReading? ==> l.scale <= w.scale
  }

  /** What the cell holds is what its finest readings say. */
  ghost predicate FinestOf(rs: seq<Reading>, c: Cell) {
    && (c.depth.None? <==> forall r :: r in rs ==> !r.DepthReading?)
    && (c.depth.Some? ==> ShoalestAtFinest(rs, c.depth.value, c.scaleOf))
    && (c.depth.None? ==> c.scaleOf == NO_SCALE)
    && (Land in c.flags <==> LandWins(rs))
    && (forall f :: f != Land ==> (f in c.flags <==> FlagReading(f) in rs))
    && (forall r :: r in rs && (r.LandReading? || r.WaterReading?) ==> c.landScale <= r.scale)
    && (c.landScale == NO_SCALE || LandReading(c.landScale) in rs || WaterReading(c.landScale) in rs)
    && (Land in c.flags ==> LandReading(c.landScale) in rs)
    && (Land !in c.flags && c.landScale < NO_SCALE ==> WaterReading(c.landScale) in rs)
  }

  /** After any readings in any order, a cell's depth is the shoalest at the finest scale, and it
      is land exactly when its finest land reading is at or below its finest water reading. */
  lemma {:induction false} FinestWins(rs: seq<Reading>)
    requires forall r :: r in rs ==> InRange(r)
    ensures FinestOf(rs, RecordAll(BLANK, rs))
  {
    if rs == [] {
    } else {
      var init, r := rs[..|rs| - 1], rs[|rs| - 1];
      FinestWins(init);
      assert rs == init + [r];
      var was, now := RecordAll(BLANK, init), RecordAll(BLANK, rs);
      forall f | f != Land ensures f in now.flags <==> FlagReading(f) in rs {
        assert f in was.flags <==> FlagReading(f) in init;
      }
      FinestDepth(init, was, r);
      FinestLand(init, was, r);
    }
  }

  lemma FinestDepth(init: seq<Reading>, was: Cell, r: Reading)
    requires InRange(r) && FinestOf(init, was) && forall q :: q in init ==> InRange(q)
    ensures var rs, now := init + [r], Record(was, r);
      && (now.depth.None? <==> forall q :: q in rs ==> !q.DepthReading?)
      && (now.depth.Some? ==> ShoalestAtFinest(rs, now.depth.value, now.scaleOf))
      && (now.depth.None? ==> now.scaleOf == NO_SCALE)
  {
    hide LandWins;
    var rs, now := init + [r], Record(was, r);
    assert r in rs && forall q :: q in rs <==> q in init || q == r;
  }

  lemma FinestLand(init: seq<Reading>, was: Cell, r: Reading)
    requires InRange(r) && FinestOf(init, was) && forall q :: q in init ==> InRange(q)
    ensures var rs, now := init + [r], Record(was, r);
      && (Land in now.flags <==> LandWins(rs))
      && (forall q :: q in rs && (q.LandReading? || q.WaterReading?) ==> now.landScale <= q.scale)
      && (now.landScale == NO_SCALE || LandReading(now.landScale) in rs || WaterReading(now.landScale) in rs)
      && (Land in now.flags ==> LandReading(now.landScale) in rs)
      && (Land !in now.flags && now.landScale < NO_SCALE ==> WaterReading(now.landScale) in rs)
  {
    hide ShoalestAtFinest;
    var rs, now := init + [r], Record(was, r);
    assert r in rs && forall q :: q in rs <==> q in init || q == r;
    if LandWins(rs) {
      var l :| l in rs && l.LandReading? && forall w :: w in rs && w.WaterReading? ==> l.scale <= w.scale;
      assert l in init ==> LandWins(init);
    }
    if Land in now.flags {
      var l := LandReading(now.landScale);
      assert l in rs && forall w :: w in rs && w.WaterReading? ==> l.scale <= w.scale;
    }
  }

  lemma FinestBySet(rs: seq<Reading>, qs: seq<Reading>, c: Cell)
    requires FinestOf(qs, c) && forall r :: r in rs <==> r in qs
    ensures FinestOf(rs, c)
  {
    assert LandWins(rs) <==> LandWins(qs) by {
      if l :| l in rs && l.LandReading? && forall w :: w in rs && w.WaterReading? ==> l.scale <= w.scale {
        assert l in qs;
      }
      if l :| l in qs && l.LandReading? && forall w :: w in qs && w.WaterReading? ==> l.scale <= w.scale {
        assert l in rs;
      }
    }
  }

  lemma FinestIsUnique(rs: seq<Reading>, a: Cell, b: Cell)
    requires FinestOf(rs, a) && FinestOf(rs, b) && forall r :: r in rs ==> InRange(r)
    ensures a == b
  {
    assert a.flags == b.flags by {
      forall f ensures f in a.flags <==> f in b.flags {}
    }
    if a.depth.Some? {
      assert DepthReading(a.depth.value, a.scaleOf) in rs && DepthReading(b.depth.value, b.scaleOf) in rs;
    }
  }

  /** The order in which the chart's features are rasterised does not matter. */
  lemma OrderIndependent(rs: seq<Reading>, qs: seq<Reading>)
    requires multiset(rs) == multiset(qs) && forall r :: r in rs ==> InRange(r)
    ensures RecordAll(BLANK, rs) == RecordAll(BLANK, qs)
  {
    hide FinestOf, RecordAll;
    forall r ensures r in rs <==> r in qs { assert multiset(rs)[r] == multiset(qs)[r]; }
    FinestWins(rs);
    FinestWins(qs);
    FinestBySet(rs, qs, RecordAll(BLANK, qs));
    FinestIsUnique(rs, RecordAll(BLANK, rs), RecordAll(BLANK, qs));
  }
}
