/** `unpackSimple` (weather/noaa_weather_cache.go): GRIB2 simple packing (WMO-No. 306, data
    template 7.0), with its own copy of the 64-bit buffer. */
module SimplePacking {
  import opened Common
  import opened Bits
  import opened FieldReader
  import opened ComplexPacking

  /** A run of fields of any width, as the buffer gives them. */
  function TakeRun(src: Source, count: nat, n: nat): (r: (seq<nat>, Source))
    ensures |r.0| == count
  {
    if count == 0 then ([], src) else
    var init := TakeRun(src, count - 1, n);
    var last := TakeBuffered(init.1, n);
    (init.0 + [last.0], last.1)
  }

  /** Widths up to 64 are read as `bitReader` reads them. */
  lemma {:induction false} ReadersAgree(src: Source, count: nat, n: nat)
    requires 0 < n <= 64
    ensures TakeRun(src, count, n) == TakeMany(src, count, n)
  {
    if count == 0 {
    } else {
      ReadersAgree(src, count - 1, n);
    }
  }

  lemma {:induction false} ErrorsStick(src: Source, i: nat, count: nat, n: nat)
    requires i <= count && TakeRun(src, i, n).1.None?
    ensures TakeRun(src, count, n).1.None?
  {
    if i == count {
    } else {
      ErrorsStick(src, i, count - 1, n);
    }
  }

  /** What a run of fields stands for once scaled, or nothing when the bytes run out. */
  function Unpacked(packed: seq<byte>, scaling: Scaling, bitsPerValue: nat, n: nat): Option<seq<real>> {
    if bitsPerValue == 0 then Some(seq(n, i => scaling.ref)) else
    var fields := TakeRun(Some(BitsOf(packed)), n, bitsPerValue);
    if fields.1.None? then None else Some(scaling.OfAll(fields.0))
  }

  /** The first i fields are read and scaled, and `rest` is what follows them. */
  ghost predicate Unpacking(packed: seq<byte>, scaling: Scaling, bitsPerValue: nat, i: nat, out: seq<real>, rest: bits) {
    var fields := TakeRun(Some(BitsOf(packed)), i, bitsPerValue);
    fields.1 == Some(rest) && out == scaling.OfAll(fields.0)
  }

  lemma UnpackingMore(packed: seq<byte>, scaling: Scaling, bitsPerValue: nat, i: nat, out: seq<real>, rest: bits)
    requires Unpacking(packed, scaling, bitsPerValue, i, out, rest)
    ensures var (x, next) := TakeBuffered(Some(rest), bitsPerValue);
      if next.None? then TakeRun(Some(BitsOf(packed)), i + 1, bitsPerValue).1.None?
      else Unpacking(packed, scaling, bitsPerValue, i + 1, out + [scaling.Of(x)], next.value)
  {
    hide BitsOf, TakeBuffered, Scaling.OfAll, Scaling.Of;
    Extended(scaling, TakeRun(Some(BitsOf(packed)), i, bitsPerValue).0, TakeBuffered(Some(rest), bitsPerValue).0);
  }

  lemma UnpackingFails(packed: seq<byte>, scaling: Scaling, bitsPerValue: nat, i: nat, n: nat)
    requires i <= n && bitsPerValue > 0 && TakeRun(Some(BitsOf(packed)), i, bitsPerValue).1.None?
    ensures Unpacked(packed, scaling, bitsPerValue, n).None?
  {
    hide TakeRun, BitsOf;
    ErrorsStick(Some(BitsOf(packed)), i, n, bitsPerValue);
  }

  lemma UnpackingDone(packed: seq<byte>, scaling: Scaling, bitsPerValue: nat, n: nat, out: seq<real>, rest: bits)
    requires Unpacking(packed, scaling, bitsPerValue, n, out, rest) && bitsPerValue > 0
    ensures Unpacked(packed, scaling, bitsPerValue, n) == Some(out)
  {
    hide TakeRun, BitsOf, Scaling.OfAll;
  }

  lemma NothingUnpacked(packed: seq<byte>, scaling: Scaling, bitsPerValue: nat)
    ensures Unpacking(packed, scaling, bitsPerValue, 0, [], BitsOf(packed))
  {}

  /** `unpackSimple`. */
  method UnpackSimple(packed: seq<byte>, scaling: Scaling, bitsPerValue: nat, n: nat) returns (r: Result<seq<real>>)
    ensures var xs := Unpacked(packed, scaling, bitsPerValue, n);
      if xs.Some? then r == Ok(xs.value) else r.Err?
  {
    if bitsPerValue == 0 { return Ok(seq(n, i => scaling.ref)); }
    hide BitsOf, Pending, Buffered, TakeBuffered, TakeRun, Scale, Unpacking, Unpacked, Scaling.With;
    var scaleBin := Scale(2.0, scaling.binaryScale);
    var scaleDec := Scale(10.0, -scaling.decimalScale);
    ghost var rest := BitsOf(packed);
    Unread(packed);
    NothingUnpacked(packed, scaling, bitsPerValue);
    var out: seq<real> := [];
    var bitBuf: nat, bitsInBuf: nat, bp: nat := 0, 0, 0;
    var i := 0;
    while i < n
      invariant 0 <= i <= n && Buffered(packed, bp, bitBuf, bitsInBuf) && bp <= |packed|
      invariant rest == Pending(packed, bp, bitBuf, bitsInBuf)
      invariant Unpacking(packed, scaling, bitsPerValue, i, out, rest)
    {
      var next := NextField(packed, bp, bitBuf, bitsInBuf, bitsPerValue);
      UnpackingMore(packed, scaling, bitsPerValue, i, out, rest);
      if next.None? {
        UnpackingFails(packed, scaling, bitsPerValue, i + 1, n);
        return Err("simple unpack: ran out of bytes");
      }
      var Field(x, bp', buf', len') := next.value;
      out := out + [scaling.With(x, scaleBin, scaleDec)];
      rest := Pending(packed, bp', buf', len');
      bp, bitBuf, bitsInBuf := bp', buf', len';
      i := i + 1;
    }
    UnpackingDone(packed, scaling, bitsPerValue, n, out, rest);
    r := Ok(out);
  }

  /** A field, and the buffer after it. */
  datatype Field = Field(x: nat, bp: nat, bitBuf: nat, bitsInBuf: nat)

  method NextField(packed: seq<byte>, bp: nat, bitBuf: nat, bitsInBuf: nat, n: nat) returns (next: Option<Field>)
    requires Buffered(packed, bp, bitBuf, bitsInBuf) && bp <= |packed| && n > 0
    ensures var taken := TakeBuffered(Some(Pending(packed, bp, bitBuf, bitsInBuf)), n);
      if next.None? then taken.1.None?
      else var f := next.value;
        && Buffered(packed, f.bp, f.bitBuf, f.bitsInBuf) && f.bp <= |packed|
        && taken == (f.x, Some(Pending(packed, f.bp, f.bitBuf, f.bitsInBuf)))
  {
    Buffering(packed, bp, bitBuf, bitsInBuf, n);
    hide Pending, Buffered, TakeBuffered, Loaded, Lost, Holds;
    ghost var rest := Pending(packed, bp, bitBuf, bitsInBuf);
    var short, bp1, full, fullLen := Fill(packed, bp, bitBuf, bitsInBuf, n);
    if short { return None; }
    var x, left, leftLen := Deliver(packed, bp1, full, fullLen, n, rest);
    next := Some(Field(x, bp1, left, leftLen));
  }

  lemma Unread(packed: seq<byte>)
    ensures Buffered(packed, 0, 0, 0) && Pending(packed, 0, 0, 0) == BitsOf(packed)
  {
    assert packed[0..] == packed && [] + BitsOf(packed) == BitsOf(packed);
  }

  /** What a filled buffer delivers is what the source gives. */
  lemma Buffering(b: seq<byte>, bp: nat, buf: nat, len: nat, n: nat)
    requires Buffered(b, bp, buf, len) && n > 0
    ensures len < 8 && bp <= |b| && Lost(len, n) <= n && Loaded(len, n) - n < 8 && n <= Loaded(len, n)
    ensures Lost(len, n) == if Loaded(len, n) > 64 then Loaded(len, n) - 64 else 0
    ensures var s := Pending(b, bp, buf, len);
      TakeBuffered(Some(s), n) == if |s| < n then (0, None) else (ToNat(s[Lost(len, n)..n]), Some(s[n..]))
  {
    LeftOver(b, bp, buf, len);
    NarrowFieldsAreWhole(len, n);
  }

  lemma Extended(scaling: Scaling, xs: seq<int>, x: int)
    ensures scaling.OfAll(xs + [x]) == scaling.OfAll(xs) + [scaling.Of(x)]
  {
    assert (xs + [x])[..|xs|] == xs;
  }

  /** A run of fields takes its width times its count, and fails exactly when there is less. */
  lemma {:induction false} RunLength(s: bits, count: nat, n: nat)
    requires n > 0
    ensures var rest := TakeRun(Some(s), count, n).1;
      if |s| < count * n then rest.None? else rest.Some? && |rest.value| == |s| - count * n
  {
    if count == 0 {
    } else {
      hide TakeBuffered;
      Distribute(count - 1, 1, n);
      RunLength(s, count - 1, n);
      var rest := TakeRun(Some(s), count - 1, n).1;
      if rest.Some? { TakeLength(rest.value, n); }
      NoneStaysNone(n);
    }
  }

  lemma TakeLength(s: bits, n: nat)
    requires n > 0
    ensures var rest := TakeBuffered(Some(s), n).1;
      if |s| < n then rest.None? else rest.Some? && |rest.value| == |s| - n
  {}

  lemma NoneStaysNone(n: nat)
    ensures TakeBuffered(None, n).1.None?
  {}

  /** Unpacking fails exactly when there are fewer bits than fields times their width. */
  lemma FailsWhenShort(packed: seq<byte>, scaling: Scaling, bitsPerValue: nat, n: nat)
    ensures Unpacked(packed, scaling, bitsPerValue, n).None? <==> 8 * |packed| < n * bitsPerValue
  {
    if bitsPerValue > 0 { RunLength(BitsOf(packed), n, bitsPerValue); }
  }

  /** Numbers of up to 57 bits each come back scaled, whatever fills up and follows their whole bytes. */
  lemma SimpleRoundTrip(xs: seq<nat>, scaling: Scaling, bitsPerValue: nat, pad: bits)
    requires 0 < bitsPerValue <= 57 && AllBelow(xs, Pow2(bitsPerValue)) && |Fields(xs, bitsPerValue) + pad| % 8 == 0
    ensures Unpacked(Pack(Fields(xs, bitsPerValue) + pad), scaling, bitsPerValue, |xs|) == Some(scaling.OfAll(xs))
  {
    hide Pow2, Pack, BitsOf, Scaling.OfAll;
    var all := Fields(xs, bitsPerValue) + pad;
    ReadersAgree(Some(all), |xs|, bitsPerValue);
    FieldsBack(xs, bitsPerValue, pad);
    PackedBits(all);
  }

  /** A field of width 0 is given as the reference itself, which is what the scaling makes of zeros
      exactly when the reference is zero or there is no decimal scale. */
  lemma ConstantField(scaling: Scaling, n: nat)
    ensures seq(n, i => scaling.ref) == scaling.OfAll(Zeros(n))
            <==> n == 0 || scaling.ref == 0.0 || scaling.decimalScale == 0
  {
    AllZeros(scaling, n);
    var bin, dec := Scale(2.0, scaling.binaryScale), Scale(10.0, -scaling.decimalScale);
    assert scaling.Of(0) == scaling.ref * dec;
    hide Scale, Scaling.Of, Scaling.OfAll;
    FixedByFactor(scaling.ref, dec);
    SameThroughout(n, scaling.ref, scaling.Of(0));
  }

  lemma SameThroughout(n: nat, x: real, y: real)
    ensures seq(n, i => x) == seq(n, i => y) <==> n == 0 || x == y
  {
    if n > 0 { assert seq(n, i => x)[0] == x && seq(n, i => y)[0] == y; }
  }

  lemma FixedByFactor(x: real, factor: real)
    ensures x * factor == x <==> x == 0.0 || factor == 1.0
  {
    assert x * (factor - 1.0) == x * factor - x;
  }

  lemma {:induction false} AllZeros(scaling: Scaling, n: nat)
    ensures scaling.OfAll(Zeros(n)) == seq(n, i => scaling.Of(0))
  {
    if n == 0 {
    } else {
      AllZeros(scaling, n - 1);
      assert Zeros(n)[..n - 1] == Zeros(n - 1);
    }
  }
}
