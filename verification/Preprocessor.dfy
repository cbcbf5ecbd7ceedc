/** The unit-delay preprocessor of CCSDS 121.0-B-3 section 4 and its inverse as the decoder computes
    it (weather/grib_ccsds.go, the tail of the interval loop in `aecDecode`). */
module Preprocessor {
  import opened Common

  /** xMax is 2^bps - 1. */
  predicate IsMax(xMax: int) { xMax >= 1 && xMax % 2 == 1 }

  /** How far a sample may move either way without leaving the range. */
  function Theta(prev: int, xMax: int): int { if prev <= xMax - prev then prev else xMax - prev }

  /** Section 4: the prediction error x - prev as a non-negative number. */
  function Map(prev: int, x: int, xMax: int): int {
    var delta, theta := x - prev, Theta(prev, xMax);
    if 0 <= delta <= theta then 2 * delta
    else if -theta <= delta < 0 then -2 * delta - 1
    else theta + Abs(delta)
  }

  /** The upper half of the range: where the code's `prev & med` is not zero. */
  predicate UpperHalf(prev: int, xMax: int) { prev >= xMax / 2 + 1 }

  /** The signed step that d stands for while it alternates. */
  function Delta(d: int): int { if d % 2 == 0 then d / 2 else -(d / 2 + 1) }

  function Clamp(v: int, xMax: int): int { if v < 0 then 0 else if v > xMax then xMax else v }

  predicate Alternates(prev: int, d: int, xMax: int) {
    d / 2 + d % 2 <= if UpperHalf(prev, xMax) then xMax - prev else prev
  }

  /** The decoder's inverse. `mask ^ v` is v in the lower half and xMax - v in the upper, and
      masking with xMax is the remainder by xMax + 1. */
  function Unmap(prev: int, d: int, xMax: int): int
    requires xMax >= 0
  {
    if Alternates(prev, d, xMax) then Clamp(prev + Delta(d), xMax)
    else if UpperHalf(prev, xMax) then xMax - d % (xMax + 1)
    else d % (xMax + 1)
  }

  /** Whatever the bitstream holds, the sample stays in range, and never through the clamp. */
  lemma UnmapInRange(prev: int, d: int, xMax: int)
    requires IsMax(xMax) && 0 <= prev <= xMax && 0 <= d
    ensures 0 <= Unmap(prev, d, xMax) <= xMax
    ensures Alternates(prev, d, xMax) ==> 0 <= prev + Delta(d) <= xMax
  {}

  lemma SmallRemainder(d: int, xMax: int)
    requires 0 <= d <= xMax
    ensures d % (xMax + 1) == d
  {}

  /** The inverse undoes the mapping ... */
  lemma UnmapMap(prev: int, x: int, xMax: int)
    requires IsMax(xMax) && 0 <= prev <= xMax && 0 <= x <= xMax
    ensures 0 <= Map(prev, x, xMax) <= xMax && Unmap(prev, Map(prev, x, xMax), xMax) == x
  {
    SmallRemainder(Map(prev, x, xMax), xMax);
  }

  /** ... and the mapping undoes the inverse: on the range they are bijections. */
  lemma MapUnmap(prev: int, d: int, xMax: int)
    requires IsMax(xMax) && 0 <= prev <= xMax && 0 <= d <= xMax
    ensures 0 <= Unmap(prev, d, xMax) <= xMax && Map(prev, Unmap(prev, d, xMax), xMax) == d
  {
    SmallRemainder(d, xMax);
  }

  predicate AllAtMost(vs: seq<nat>, bound: int) { forall i :: 0 <= i < |vs| ==> vs[i] <= bound }

  /** A whole interval: the first sample is the reference, each other is mapped against the one
      before it. */
  function MapAll(xs: seq<nat>, xMax: int): (ds: seq<nat>)
    requires IsMax(xMax) && AllAtMost(xs, xMax)
    ensures |ds| == |xs| && AllAtMost(ds, xMax)
  {
    if |xs| <= 1 then xs else
    var init, last := xs[..|xs| - 1], xs[|xs| - 1];
    UnmapMap(init[|init| - 1], last, xMax);
    MapAll(init, xMax) + [Map(init[|init| - 1], last, xMax)]
  }

  function UnmapAll(ds: seq<nat>, xMax: int): (xs: seq<nat>)
    requires IsMax(xMax) && (ds != [] ==> ds[0] <= xMax)
    ensures |xs| == |ds| && AllAtMost(xs, xMax)
  {
    if |ds| <= 1 then ds else
    var init := UnmapAll(ds[..|ds| - 1], xMax);
    UnmapInRange(init[|init| - 1], ds[|ds| - 1], xMax);
    init + [Unmap(init[|init| - 1], ds[|ds| - 1], xMax)]
  }

  lemma Mapped(xs: seq<nat>, x: nat, xMax: int)
    requires IsMax(xMax) && xs != [] && AllAtMost(xs, xMax) && x <= xMax
    ensures AllAtMost(xs + [x], xMax) && MapAll(xs + [x], xMax) == MapAll(xs, xMax) + [Map(xs[|xs| - 1], x, xMax)]
  {
    hide Map, IsMax;
    assert (xs + [x])[..|xs|] == xs;
  }

  lemma Unmapped(ds: seq<nat>, d: nat, xMax: int)
    requires IsMax(xMax) && ds != [] && ds[0] <= xMax
    ensures var init := UnmapAll(ds, xMax);
      UnmapAll(ds + [d], xMax) == init + [Unmap(init[|init| - 1], d, xMax)]
  {
    hide Unmap, IsMax;
    assert (ds + [d])[..|ds|] == ds;
  }

  lemma {:induction false} UnmapAllMapAll(xs: seq<nat>, xMax: int)
    requires IsMax(xMax) && AllAtMost(xs, xMax)
    ensures UnmapAll(MapAll(xs, xMax), xMax) == xs
  {
    if |xs| <= 1 {
    } else {
      hide Map, Unmap, MapAll, UnmapAll, IsMax;
      var init, last := xs[..|xs| - 1], xs[|xs| - 1];
      assert xs == init + [last];
      UnmapAllMapAll(init, xMax);
      UnmapMap(init[|init| - 1], last, xMax);
      Mapped(init, last, xMax);
      Unmapped(MapAll(init, xMax), Map(init[|init| - 1], last, xMax), xMax);
    }
  }

  lemma {:induction false} MapAllUnmapAll(ds: seq<nat>, xMax: int)
    requires IsMax(xMax) && AllAtMost(ds, xMax)
    ensures MapAll(UnmapAll(ds, xMax), xMax) == ds
  {
    if |ds| <= 1 {
    } else {
      hide Map, Unmap, MapAll, UnmapAll, IsMax;
      var init, last := ds[..|ds| - 1], ds[|ds| - 1];
      assert ds == init + [last];
      MapAllUnmapAll(init, xMax);
      var xs := UnmapAll(init, xMax);
      MapUnmap(xs[|xs| - 1], last, xMax);
      Unmapped(init, last, xMax);
      Mapped(xs, Unmap(xs[|xs| - 1], last, xMax), xMax);
    }
  }
}
