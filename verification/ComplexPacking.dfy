/** `unpackComplex` (weather/noaa_weather_cache.go): GRIB2 complex packing with spatial differencing
    (WMO-No. 306, data templates 7.2 and 7.3). */
module ComplexPacking {
  import opened Common
  import opened Bits
  import opened FieldReader

  datatype Params = Params(bitsPerValue: int, numGroups: nat, gwRef: int, gwBits: int,
                           glRef: int, glIncr: int, glLast: int, glBits: int,
                           order: nat, extraOctets: int, nValues: nat)

  // ---- What the bits say --------------------------------------------------------------------

  /** `signedFromBits`: the top bit is the sign, the others the magnitude. */
  function Signed(u: nat, width: int): int {
    if width <= 0 then 0
    else if Mask(ShiftRight(u, width - 1), 1) == 1 then Pow2(width - 1) - u else u
  }

  /** What a field's number stands for: a signed number, or a base plus a multiple of a step. */
  datatype Meaning = SignMagnitude | Linear(base: int, step: int)

  function Meant(m: Meaning, v: nat, width: int): int {
    match m
    case SignMagnitude => Signed(v, width)
    case Linear(base, step) => base + v * step
  }

  function TakeMeant(src: Source, count: nat, width: int, m: Meaning): (r: (seq<int>, Source))
    ensures |r.0| == count
  {
    if count == 0 then ([], src) else
    var init := TakeMeant(src, count - 1, width, m);
    var last := Take(init.1, width);
    (init.0 + [Meant(m, last.0, width)], last.1)
  }

  /** The literal first values and the overall minimum that spatial differencing needs. */
  datatype Descriptors = Descriptors(firsts: seq<int>, overallMin: int)

  function Zeros(n: nat): (z: seq<int>)
    ensures |z| == n
  {
    seq(n, i => 0)
  }

  function ReadDescriptors(p: Params, src: Source): (r: (Descriptors, Source))
    ensures |r.0.firsts| == p.order
  {
    if p.order > 0 && p.extraOctets > 0 then
      var firsts := TakeMeant(src, p.order, p.extraOctets * 8, SignMagnitude);
      var least := Take(firsts.1, p.extraOctets * 8);
      (Descriptors(firsts.0, Signed(least.0, p.extraOctets * 8)), Align(least.1))
    else (Descriptors(Zeros(p.order), 0), src)
  }

  function Count(length: int): nat { if length < 0 then 0 else length }

  /** The values of the first k groups. */
  function ReadGroups(src: Source, refs: seq<int>, widths: seq<int>, lengths: seq<int>, k: nat): (seq<int>, Source)
    requires k <= |refs| == |widths| == |lengths|
  {
    if k == 0 then ([], src) else
    var before := ReadGroups(src, refs, widths, lengths, k - 1);
    var group := TakeMeant(before.1, Count(lengths[k - 1]), widths[k - 1], Linear(refs[k - 1], 1));
    (before.0 + group.0, group.1)
  }

  function Pinned(lengths: seq<int>, last: int): (r: seq<int>)
    ensures |r| == |lengths|
  {
    if lengths == [] then [] else lengths[|lengths| - 1 := last]
  }

  /** The three blocks of group headers, each on whole bytes, and then the values. */
  function ReadPacked(p: Params, src: Source): (seq<int>, Source) {
    var refs := TakeMeant(src, p.numGroups, p.bitsPerValue, Linear(0, 1));
    var widths := TakeMeant(Align(refs.1), p.numGroups, p.gwBits, Linear(p.gwRef, 1));
    var lengths := TakeMeant(Align(widths.1), p.numGroups, p.glBits, Linear(p.glRef, p.glIncr));
    ReadGroups(Align(lengths.1), refs.0, widths.0, Pinned(lengths.0, p.glLast), p.numGroups)
  }

  function Truncated(raw: seq<int>, n: nat): (r: seq<int>)
    ensures |r| <= n
  {
    if |raw| > n then raw[..n] else raw
  }

  /** The value after xs once the differencing is undone. */
  function Undone(raw: seq<int>, order: nat, d: Descriptors, xs: seq<int>): int
    requires order <= 2 && |d.firsts| == order && |xs| < |raw|
  {
    var i := |xs|;
    if i < order then d.firsts[i]
    else if order == 0 then raw[i]
    else if order == 1 then raw[i] + d.overallMin + xs[i - 1]
    else raw[i] + d.overallMin + 2 * xs[i - 1] - xs[i - 2]
  }

  /** The first k values with the differencing undone. */
  function Integrated(raw: seq<int>, order: nat, d: Descriptors, k: nat): (xs: seq<int>)
    requires order <= 2 && |d.firsts| == order && k <= |raw|
    ensures |xs| == k
  {
    if k == 0 then [] else
    var xs := Integrated(raw, order, d, k - 1);
    xs + [Undone(raw, order, d, xs)]
  }

  /** The integers of a data section, or nothing when it is too short or asks for a differencing
      order above 2. */
  function Unpack(p: Params, src: Source): Option<seq<int>> {
    var d := ReadDescriptors(p, src);
    var packed := ReadPacked(p, d.1);
    var raw := Truncated(packed.0, p.nValues);
    if packed.1.None? || p.order > 2 then None else Some(Integrated(raw, p.order, d.0, |raw|))
  }

  // ---- Scaling ------------------------------------------------------------------------------

  function Power(b: real, n: nat): (r: real)
    requires b >= 1.0
    ensures r >= 1.0 && (n > 0 && b > 1.0 ==> r > 1.0)
  {
    if n == 0 then 1.0 else
    var rest := Power(b, n - 1);
    assert b * rest >= b by { assert b * (rest - 1.0) >= 0.0; }
    b * rest
  }

  /** The e-th power of b, for exponents of either sign. */
  function Scale(b: real, e: int): (r: real)
    requires b > 1.0
    ensures r > 0.0 && (r == 1.0 <==> e == 0)
  {
    if e >= 0 then Power(b, e) else
    var p := Power(b, -e);
    assert 1.0 / p * p == 1.0;
    1.0 / p
  }

  lemma ScaleUp(b: real, e: int)
    requires b > 1.0
    ensures Scale(b, e + 1) == b * Scale(b, e)
  {
    if e < 0 {
      var p, q := Power(b, -e), Power(b, -e - 1);
      assert p == b * q;
      hide Power;
      assert 1.0 / p * p == 1.0 && 1.0 / q * q == 1.0;
      Inverses(b, 1.0 / p, q);
      assert e == -1 ==> q == 1.0 by { if e == -1 { PowerNone(b); } }
    }
  }

  lemma PowerNone(b: real)
    requires b >= 1.0
    ensures Power(b, 0) == 1.0
  {}

  lemma Inverses(b: real, u: real, q: real)
    requires q > 0.0 && u * (b * q) == 1.0
    ensures 1.0 / q == b * u
  {
    assert (b * u) * q == u * (b * q);
    SameFactor(1.0 / q, b * u, q);
  }

  /** `Scale` is the e-th power: b itself at one, and products for sums. */
  lemma ScaleAdds(b: real, m: int, n: int)
    requires b > 1.0
    ensures Scale(b, 1) == b && Scale(b, m + n) == Scale(b, m) * Scale(b, n)
  {
    ScaleUp(b, 0);
    hide Scale;
    IsSum(b, m, n);
  }

  predicate Times(z: real, x: real, y: real) { z == x * y }

  lemma {:induction false} IsSum(b: real, m: int, n: int)
    requires b > 1.0
    ensures Times(Scale(b, m + n), Scale(b, m), Scale(b, n))
    decreases if n >= 0 then n else -n
  {
    hide Scale;
    if n == 0 {
    } else {
      var k := if n > 0 then n - 1 else n;
      ScaleUp(b, k);
      ScaleUp(b, m + k);
      assert m + k + 1 == m + (k + 1);
      hide Times;
      IsSum(b, m, if n > 0 then n - 1 else n + 1);
      FactorMoves(b, Scale(b, m), Scale(b, k), Scale(b, m + k));
    }
  }

  lemma FactorMoves(b: real, x: real, y: real, z: real)
    requires b > 0.0
    ensures Times(z, x, y) <==> Times(b * z, x, b * y)
  {
    assert x * (b * y) == (x * y) * b && b * z == z * b;
    if z * b == (x * y) * b { SameFactor(z, x * y, b); }
  }

  datatype Scaling = Scaling(ref: real, binaryScale: int, decimalScale: int) {
    function With(x: int, scaleBin: real, scaleDec: real): real {
      (ref + x as real * scaleBin) * scaleDec
    }

    /** (R + x * 2^E) * 10^-D */
    function Of(x: int): real { With(x, Scale(2.0, binaryScale), Scale(10.0, -decimalScale)) }

    function OfAll(xs: seq<int>): (r: seq<real>)
      ensures |r| == |xs|
    {
      if xs == [] then [] else OfAll(xs[..|xs| - 1]) + [Of(xs[|xs| - 1])]
    }

    /** One more in the binary exponent doubles the integer, one more in the decimal exponent divides the
        value by ten, and without exponents the value is the reference plus the integer. */
    lemma ByExponents(x: int)
      ensures Scaling(ref, binaryScale + 1, decimalScale).Of(x) == Of(2 * x)
      ensures Of(x) == 10.0 * Scaling(ref, binaryScale, decimalScale + 1).Of(x)
      ensures Scaling(ref, 0, 0).Of(x) == ref + x as real
    {
      hide Scale, With;
      ScaleUp(2.0, binaryScale);
      ScaleUp(10.0, -decimalScale - 1);
      assert -decimalScale - 1 == -(decimalScale + 1);
      WithBy(x, Scale(2.0, binaryScale), Scale(10.0, -decimalScale));
      WithBy(x, Scale(2.0, binaryScale), Scale(10.0, -decimalScale - 1));
      SameReference(Scaling(ref, binaryScale + 1, decimalScale), x, Scale(2.0, binaryScale + 1), Scale(10.0, -decimalScale));
      SameReference(Scaling(ref, binaryScale, decimalScale + 1), x, Scale(2.0, binaryScale), Scale(10.0, -decimalScale - 1));
      Scaling(ref, 0, 0).WithBy(x, 1.0, 1.0);
    }

    lemma SameReference(o: Scaling, x: int, s: real, dec: real)
      requires o.ref == ref
      ensures o.With(x, s, dec) == With(x, s, dec)
    {}

    lemma WithBy(x: int, s: real, dec: real)
      ensures With(x, 2.0 * s, dec) == With(2 * x, s, dec)
      ensures With(x, s, 10.0 * dec) == 10.0 * With(x, s, dec)
      ensures With(x, 1.0, 1.0) == ref + x as real
    {
      Doubled(x, s);
      Tenfold(ref + x as real * s, dec);
    }

    /** Scaling loses nothing: different integers become different values. */
    lemma Injective(x: int, y: int)
      requires Of(x) == Of(y)
      ensures x == y
    {
      hide Scale;
      var bin, dec := Scale(2.0, binaryScale), Scale(10.0, -decimalScale);
      var a, b := ref + x as real * bin, ref + y as real * bin;
      assert Of(x) == a * dec && Of(y) == b * dec;
      SameFactor(a, b, dec);
      SameFactor(x as real, y as real, bin);
    }

    method Apply(xs: seq<int>) returns (out: seq<real>)
      ensures out == OfAll(xs)
    {
      var scaleBin := Scale(2.0, binaryScale);
      var scaleDec := Scale(10.0, -decimalScale);
      out := [];
      var i := 0;
      while i < |xs|
        invariant 0 <= i <= |xs| && out == OfAll(xs[..i])
      {
        hide With;
        assert xs[..i + 1][..i] == xs[..i];
        assert OfAll(xs[..i + 1]) == OfAll(xs[..i]) + [Of(xs[i])];
        out := out + [With(xs[i], scaleBin, scaleDec)];
        i := i + 1;
      }
      assert xs[..i] == xs;
    }
  }

  lemma Tenfold(v: real, dec: real)
    ensures v * (10.0 * dec) == 10.0 * (v * dec)
  {}

  lemma Doubled(x: int, s: real)
    ensures x as real * (2.0 * s) == (2 * x) as real * s
  {
    var y := x as real;
    assert (2 * x) as real == 2.0 * y;
  }

  lemma SameFactor(a: real, b: real, factor: real)
    requires factor > 0.0 && a * factor == b * factor
    ensures a == b
  {
    assert (a - b) * factor == 0.0;
  }

  // ---- The decoder --------------------------------------------------------------------------

  /** One block of fields. */
  method ReadBlock(br: BitReader, count: nat, width: int, m: Meaning) returns (vs: seq<int>)
    requires br.Valid()
    modifies br
    ensures br.Valid() && (vs, br.State()) == TakeMeant(old(br.State()), count, width, m)
  {
    hide Take, BitReader.State, BitReader.Valid, Meant;
    ghost var src := br.State();
    vs := [];
    var i := 0;
    while i < count
      invariant 0 <= i <= count && br.Valid() && (vs, br.State()) == TakeMeant(src, i, width, m)
    {
      var v := br.Read(width);
      vs := vs + [Meant(m, v, width)];
      i := i + 1;
    }
  }

  method DecodeDescriptors(br: BitReader, p: Params) returns (d: Descriptors)
    requires br.Valid()
    modifies br
    ensures br.Valid() && (d, br.State()) == ReadDescriptors(p, old(br.State()))
  {
    hide Take, Signed, BitReader.State, BitReader.Valid;
    d := Descriptors(Zeros(p.order), 0);
    if p.order > 0 && p.extraOctets > 0 {
      var bits := p.extraOctets * 8;
      var firsts := ReadBlock(br, p.order, bits, SignMagnitude);
      var least := br.Read(bits);
      d := Descriptors(firsts, Signed(least, bits));
      br.AlignToByte();
    }
  }

  lemma NoBits(src: Source)
    ensures Take(src, 0) == (0, src)
  {}

  /** The values of one group; a group of width 0 takes no bits and repeats its reference. */
  method AppendGroup(br: BitReader, raw: seq<int>, r: int, w: int, l: int) returns (out: seq<int>)
    requires br.Valid()
    modifies br
    ensures br.Valid()
    ensures var group := TakeMeant(old(br.State()), Count(l), w, Linear(r, 1));
      out == raw + group.0 && br.State() == group.1
  {
    hide Take, BitReader.State, BitReader.Valid;
    ghost var src := br.State();
    out := raw;
    var j := 0;
    while j < l
      invariant 0 <= j <= Count(l) && br.Valid()
      invariant out == raw + TakeMeant(src, j, w, Linear(r, 1)).0 && br.State() == TakeMeant(src, j, w, Linear(r, 1)).1
    {
      var v;
      if w == 0 {
        NoBits(br.State());
        v := r;
      } else {
        var field := br.Read(w);
        v := r + field;
      }
      out := out + [v];
      j := j + 1;
    }
  }

  method DecodeGroups(br: BitReader, refs: seq<int>, widths: seq<int>, lengths: seq<int>) returns (raw: seq<int>)
    requires br.Valid() && |refs| == |widths| == |lengths|
    modifies br
    ensures br.Valid() && (raw, br.State()) == ReadGroups(old(br.State()), refs, widths, lengths, |refs|)
  {
    hide Take, TakeMeant, BitReader.State, BitReader.Valid;
    ghost var src := br.State();
    raw := [];
    var i := 0;
    while i < |refs|
      invariant 0 <= i <= |refs| && br.Valid()
      invariant (raw, br.State()) == ReadGroups(src, refs, widths, lengths, i)
    {
      raw := AppendGroup(br, raw, refs[i], widths[i], lengths[i]);
      i := i + 1;
    }
  }

  method DecodePacked(br: BitReader, p: Params) returns (raw: seq<int>)
    requires br.Valid()
    modifies br
    ensures br.Valid() && (raw, br.State()) == ReadPacked(p, old(br.State()))
  {
    hide Take, TakeMeant, ReadGroups, Align, BitReader.State, BitReader.Valid;
    var refs := ReadBlock(br, p.numGroups, p.bitsPerValue, Linear(0, 1));
    br.AlignToByte();
    var widths := ReadBlock(br, p.numGroups, p.gwBits, Linear(p.gwRef, 1));
    br.AlignToByte();
    var lengths := ReadBlock(br, p.numGroups, p.glBits, Linear(p.glRef, p.glIncr));
    if p.numGroups > 0 { lengths := lengths[p.numGroups - 1 := p.glLast]; }
    br.AlignToByte();
    raw := DecodeGroups(br, refs, widths, lengths);
  }

  lemma ReplaceNext<T>(done: seq<T>, values: seq<T>, x: T)
    requires |done| < |values|
    ensures (done + values[|done|..])[|done| := x] == (done + [x]) + values[|done| + 1..]
  {}

  /** The first values replace those of the packed list ... */
  method PlantFirsts(values: seq<int>, order: nat, d: Descriptors) returns (raw: seq<int>, i: nat)
    requires |d.firsts| == order
    ensures |raw| == |values| && i == (if order < |raw| then order else |raw|)
    ensures order <= 2 ==> raw == Integrated(values, order, d, i) + values[i..]
  {
    raw, i := values, 0;
    while i < order && i < |raw|
      invariant i <= order && i <= |raw| == |values|
      invariant order <= 2 ==> raw == Integrated(values, order, d, i) + values[i..]
    {
      if order <= 2 { ReplaceNext(Integrated(values, order, d, i), values, d.firsts[i]); }
      raw := raw[i := d.firsts[i]];
      i := i + 1;
    }
  }

  /** ... and the differencing is undone in place from there. */
  method UndoDifferencing(values: seq<int>, order: nat, d: Descriptors) returns (r: Result<seq<int>>)
    requires |d.firsts| == order && order > 0
    ensures if order > 2 then r.Err? else r == Ok(Integrated(values, order, d, |values|))
  {
    var raw, i := PlantFirsts(values, order, d);
    if order > 2 { return Err("spatial differencing order not supported"); }
    while i < |raw|
      invariant i <= |raw| == |values| && (i < |raw| ==> order <= i)
      invariant raw == Integrated(values, order, d, i) + values[i..]
    {
      ghost var done := Integrated(values, order, d, i);
      ReplaceNext(done, values, Undone(values, order, d, done));
      if order == 1 {
        raw := raw[i := raw[i] + d.overallMin + raw[i - 1]];
      } else {
        raw := raw[i := raw[i] + d.overallMin + 2 * raw[i - 1] - raw[i - 2]];
      }
      i := i + 1;
    }
    assert Integrated(values, order, d, i) + values[i..] == Integrated(values, order, d, i);
    r := Ok(raw);
  }

  lemma {:induction false} NoDifferencing(raw: seq<int>, d: Descriptors, k: nat)
    requires d.firsts == [] && k <= |raw|
    ensures Integrated(raw, 0, d, k) == raw[..k]
  {
    if k == 0 {
    } else {
      NoDifferencing(raw, d, k - 1);
    }
  }

  /** `unpackComplex`. */
  method UnpackComplex(packed: seq<byte>, scaling: Scaling, p: Params) returns (r: Result<seq<real>>)
    ensures var xs := Unpack(p, Some(BitsOf(packed)));
      if xs.None? then r.Err? else r == Ok(scaling.OfAll(xs.value))
  {
    hide BitsOf, ReadDescriptors, ReadPacked, Integrated, BitReader.Valid, Scaling.OfAll;
    var br := new BitReader(packed);
    var d := DecodeDescriptors(br, p);
    var raw := DecodePacked(br, p);
    if |raw| > p.nValues { raw := raw[..p.nValues]; }
    if br.err { return Err("ran out of bytes"); }
    if p.order > 0 {
      var undone := UndoDifferencing(raw, p.order, d);
      if undone.Err? { return Err(undone.message); }
      raw := undone.value;
    } else {
      NoDifferencing(raw, d, |raw|);
      assert raw[..|raw|] == raw;
    }
    var out := scaling.Apply(raw);
    r := Ok(out);
  }
}
