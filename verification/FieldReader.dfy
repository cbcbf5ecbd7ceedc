/** `bitReader` (weather/noaa_weather_cache.go): big-endian fields through a 64-bit buffer, with a
    sticky error. */
module FieldReader {
  import opened Common
  import opened Bits

  const WORD: nat := 0x1_0000_0000_0000_0000

  /** What is left to read: nothing once an error has occurred. */
  type Source = Option<bits>

  /** How many bits the buffer holds when a field of n bits is taken from it, `left` bits over. */
  function Loaded(left: nat, n: nat): nat { if left >= n then left else left + 8 * ((n - left + 7) / 8) }

  /** The leading bits of a field that the 64-bit buffer has lost by then. */
  function Lost(left: nat, n: nat): nat {
    if Loaded(left, n) > 64 then Loaded(left, n) - 64 else 0
  }

  lemma NarrowFieldsAreWhole(left: nat, n: nat)
    requires left < 8
    ensures n <= 57 ==> Lost(left, n) == 0
    ensures Lost(left, n) <= n && Loaded(left, n) - n < 8
  {}

  /** What a 64-bit buffer gives for the next n bits: their number, less what it has lost. */
  function TakeBuffered(src: Source, n: nat): (nat, Source) {
    if src.None? || |src.value| < n then (0, None)
    else
      NarrowFieldsAreWhole(|src.value| % 8, n);
      (ToNat(src.value[Lost(|src.value| % 8, n)..n]), Some(src.value[n..]))
  }

  /** `read`. */
  function Take(src: Source, n: int): (nat, Source) {
    if src.None? || n == 0 then (0, src)
    else if n < 0 || n > 64 then (0, None)
    else TakeBuffered(src, n)
  }

  /** `align`: drops what is left of the current byte. */
  function Align(src: Source): Source {
    if src.None? then None else Some(src.value[|src.value| % 8..])
  }

  function TakeMany(src: Source, count: nat, n: int): (r: (seq<nat>, Source))
    ensures |r.0| == count
  {
    if count == 0 then ([], src) else
    var init := TakeMany(src, count - 1, n);
    var last := Take(init.1, n);
    (init.0 + [last.0], last.1)
  }

  lemma {:induction false} FieldsBack(vs: seq<nat>, n: nat, rest: bits)
    requires n <= 57 && AllBelow(vs, Pow2(n))
    ensures TakeMany(Some(Fields(vs, n) + rest), |vs|, n) == (vs, Some(rest))
  {
    hide Pow2, Take;
    if vs == [] {
      assert [] + rest == rest;
    } else {
      var init, last := vs[..|vs| - 1], FromNat(vs[|vs| - 1], n);
      FieldsBack(init, n, last + rest);
      assert Fields(vs, n) + rest == Fields(init, n) + (last + rest);
      FieldBack(vs[|vs| - 1], n, rest);
      assert vs == init + [vs[|vs| - 1]];
    }
  }

  lemma FieldBack(v: nat, n: nat, rest: bits)
    requires n <= 57 && v < Pow2(n)
    ensures Take(Some(FromNat(v, n) + rest), n) == (v, Some(rest))
  {
    if n == 0 {
      assert [] + rest == rest;
    } else {
      NarrowField(FromNat(v, n) + rest, n);
      FromNatToNat(v, n);
    }
  }

  /** Fields of up to 57 bits are read exactly ... */
  lemma NarrowField(s: bits, n: nat)
    requires 0 < n <= 57 && n <= |s|
    ensures Take(Some(s), n) == (ToNat(s[..n]), Some(s[n..]))
  {
    NarrowFieldsAreWhole(|s| % 8, n);
    assert s[0..n] == s[..n];
  }

  lemma {:induction false} LeadingZeros(s: bits, k: nat)
    requires k <= |s|
    ensures ToNat(s) == ToNat(s[k..]) <==> forall i :: 0 <= i < k ==> !s[i]
  {
    hide ToNat, Pow2;
    ToNatAppend(s[..k], s[k..]);
    assert s == s[..k] + s[k..];
    ZeroOnlyOfZeros(s[..k]);
    if ToNat(s[..k]) > 0 { assert ToNat(s[..k]) * Pow2(|s[k..]|) >= Pow2(|s[k..]|); }
  }

  lemma {:induction false} ZeroOnlyOfZeros(s: bits)
    ensures ToNat(s) == 0 <==> forall i :: 0 <= i < |s| ==> !s[i]
  {
    if s == [] {
    } else {
      ZeroOnlyOfZeros(s[..|s| - 1]);
      assert forall i :: 0 <= i < |s| - 1 ==> s[..|s| - 1][i] == s[i];
    }
  }

  /** ... and wider ones exactly when the bits the buffer loses are zeros. */
  lemma WideField(s: bits, n: nat)
    requires 0 < n <= 64 && n <= |s|
    ensures Take(Some(s), n).0 == ToNat(s[..n]) <==> forall i :: 0 <= i < Lost(|s| % 8, n) ==> !s[i]
  {
    NarrowFieldsAreWhole(|s| % 8, n);
    var lost := Lost(|s| % 8, n);
    assert s[..n][lost..] == s[lost..n];
    LeadingZeros(s[..n], lost);
  }

  /** A 58-bit field after one leftover bit is already misread. */
  lemma WideFieldMisread()
    ensures var s := [true] + seq(64, i => false);
      Take(Some(s), 58).0 != ToNat(s[..58])
  {
    var s := [true] + seq(64, i => false);
    WideField(s, 58);
    assert s[0];
  }

  /** The buffer after a byte has been shifted in: the top bits fall off a full word. */
  lemma ShiftIn(x: nat, c: byte)
    ensures (x % WORD) * 256 % WORD + c == (x * 256 + c) % WORD
  {
    var q, r := x / WORD, x % WORD;
    assert x == q * WORD + r;
    var q', r' := r * 256 / WORD, r * 256 % WORD;
    assert r * 256 == q' * WORD + r' && r' % 256 == 0;
    DivisionIsUnique(x * 256 + c, WORD, 256 * q + q', r' + c);
  }

  lemma NextByte(b: seq<byte>, s: bits, k: nat, i: nat)
    requires k <= |s| && i < |b| && s[k..] == BitsOf(b[i..])
    ensures k + 8 <= |s| && s[k + 8..] == BitsOf(b[i + 1..])
    ensures ToNat(s[..k + 8]) == ToNat(s[..k]) * 256 + b[i]
  {
    BitsOfFirst(b, i);
    assert s[..k + 8] == s[..k] + ByteBits(b[i]);
    ToNatAppend(s[..k], ByteBits(b[i]));
    ByteBitsToNat(b[i]);
    assert Pow2(8) == 256;
    assert s[k + 8..] == s[k..][8..];
  }

  /** The buffer holds the last 64 bits shifted into it. */
  lemma WordIs(s: bits, word: nat)
    requires word == ToNat(s) % WORD
    ensures word == ToNat(s[if |s| > 64 then |s| - 64 else 0..])
  {
    Pow2Of64();
    hide Pow2, ToNat, ShiftRight;
    if |s| > 64 {
      ShiftAndMask(s, |s| - 64);
    } else {
      ToNatBounded(s);
      Pow2Grows(|s|, 64);
      MaskSmall(ToNat(s), 64);
      assert s[0..] == s;
    }
  }

  /** Shifting and masking a full buffer. */
  lemma Extract(s: bits, n: nat, full: nat, word: nat)
    requires 0 < n <= full <= |s| && full - n < 8 && word == ToNat(s[..full]) % WORD
    ensures var lost := if full > 64 then full - 64 else 0;
      lost <= n && Mask(ShiftRight(word, full - n), n) == ToNat(s[lost..n])
    ensures Mask(word, full - n) == ToNat(s[n..full]) < Pow2(full - n)
  {
    hide ToNat, Pow2, Mask, ShiftRight;
    var lost := if full > 64 then full - 64 else 0;
    var t := s[lost..full];
    WordIs(s[..full], word);
    assert s[..full][lost..] == t;
    ShiftAndMask(t, n - lost);
    assert t[..n - lost] == s[lost..n] && t[n - lost..] == s[n..full];
    ToNatBounded(s[lost..n]);
    ToNatBounded(s[n..full]);
    Pow2Grows(n - lost, n);
    MaskSmall(ToNat(s[lost..n]), n);
  }

  // ---- The buffer ---------------------------------------------------------------------------

  /** Fewer than eight bits are left over between reads. */
  predicate Buffered(b: seq<byte>, bp: nat, buf: nat, bufLen: nat) {
    bp <= |b| && bufLen < 8 && buf < Pow2(bufLen)
  }

  /** The bits in the buffer, then those of the remaining bytes. */
  function Pending(b: seq<byte>, bp: nat, buf: nat, bufLen: nat): bits
    requires bp <= |b|
  {
    FromNat(buf, bufLen) + BitsOf(b[bp..])
  }

  lemma LeftOver(b: seq<byte>, bp: nat, buf: nat, bufLen: nat)
    requires Buffered(b, bp, buf, bufLen)
    ensures |Pending(b, bp, buf, bufLen)| % 8 == bufLen
  {}

  /** The buffer holds the first bits of s, as many as fit, and the rest are still in the bytes. */
  predicate Holds(b: seq<byte>, bp: nat, buf: nat, bufLen: nat, s: bits) {
    bp <= |b| && bufLen <= |s| && buf == ToNat(s[..bufLen]) % WORD && s[bufLen..] == BitsOf(b[bp..])
  }

  lemma AtFirst(b: seq<byte>, bp: nat, buf: nat, bufLen: nat)
    requires Buffered(b, bp, buf, bufLen)
    ensures Holds(b, bp, buf, bufLen, Pending(b, bp, buf, bufLen)) && bufLen <= |Pending(b, bp, buf, bufLen)|
  {
    hide BitsOf, ToNat;
    FromNatToNat(buf, bufLen);
    assert Pending(b, bp, buf, bufLen)[..bufLen] == FromNat(buf, bufLen);
    Pow2Grows(bufLen, 8);
    assert Pow2(8) == 256;
  }

  lemma OutOfBytes(b: seq<byte>, buf: nat, bufLen: nat, s: bits)
    requires Holds(b, |b|, buf, bufLen, s)
    ensures |s| == bufLen
  {}

  /** The buffer with a byte shifted in. */
  function ShiftedIn(buf: nat, c: byte): nat { buf * 256 % WORD + c }

  lemma Shifted(b: seq<byte>, bp: nat, buf: nat, bufLen: nat, s: bits)
    requires Holds(b, bp, buf, bufLen, s) && bp < |b|
    ensures Holds(b, bp + 1, ShiftedIn(buf, b[bp]), bufLen + 8, s) && bufLen + 8 <= |s|
  {
    hide BitsOf, ToNat;
    NextByte(b, s, bufLen, bp);
    ShiftIn(ToNat(s[..bufLen]), b[bp]);
  }

  /** Shifts bytes in until the buffer holds a field of n bits, or the bytes run out. */
  method Fill(b: seq<byte>, bp0: nat, buf0: nat, bufLen0: nat, n: nat)
    returns (err: bool, bp: nat, buf: nat, bufLen: nat)
    requires Buffered(b, bp0, buf0, bufLen0)
    ensures bp <= |b| && err == (|Pending(b, bp0, buf0, bufLen0)| < n)
    ensures !err ==> bufLen == Loaded(bufLen0, n) && Holds(b, bp, buf, bufLen, Pending(b, bp0, buf0, bufLen0))
  {
    hide Holds, Pending, ShiftedIn, Pow2;
    ghost var s := Pending(b, bp0, buf0, bufLen0);
    AtFirst(b, bp0, buf0, bufLen0);
    bp, buf, bufLen := bp0, buf0, bufLen0;
    ghost var taken: nat := 0;
    while bufLen < n
      invariant Holds(b, bp, buf, bufLen, s) && bp <= |b| && bufLen <= |s|
      invariant bufLen == bufLen0 + 8 * taken && (taken > 0 ==> bufLen < n + 8)
    {
      if bp >= |b| {
        OutOfBytes(b, buf, bufLen, s);
        return true, bp, buf, bufLen;
      }
      Shifted(b, bp, buf, bufLen, s);
      buf := ShiftedIn(buf, b[bp]);
      bp := bp + 1;
      bufLen, taken := bufLen + 8, taken + 1;
    }
    err := false;
  }

  /** Takes a field off a full buffer. */
  method Deliver(b: seq<byte>, ghost bp: nat, buf0: nat, bufLen0: nat, n: nat, ghost s: bits)
    returns (v: nat, buf: nat, bufLen: nat)
    requires Holds(b, bp, buf0, bufLen0, s) && 0 < n <= bufLen0 && bufLen0 - n < 8
    ensures Buffered(b, bp, buf, bufLen) && n <= |s| && Pending(b, bp, buf, bufLen) == s[n..]
    ensures var lost := if bufLen0 > 64 then bufLen0 - 64 else 0;
      lost <= n && v == ToNat(s[lost..n])
  {
    hide BitsOf, ToNat, Pow2, Mask, ShiftRight, FromNat;
    Extract(s, n, bufLen0, buf0);
    var shift := bufLen0 - n;
    v := Mask(ShiftRight(buf0, shift), n);
    ToNatFromNat(s[n..bufLen0]);
    assert s[n..] == s[n..bufLen0] + s[bufLen0..];
    bufLen := shift;
    buf := Mask(buf0, shift);
  }

  class BitReader {
    const b: seq<byte>
    var bp: nat
    var buf: nat
    var bufLen: nat
    var err: bool

    constructor (b: seq<byte>)
      ensures Valid() && State() == Some(BitsOf(b))
    {
      this.b, bp, buf, bufLen, err := b, 0, 0, 0, false;
      new;
      assert b[0..] == b && [] + BitsOf(b) == BitsOf(b);
    }

    ghost predicate Valid()
      reads this
    {
      bp <= |b| && (!err ==> Buffered(b, bp, buf, bufLen))
    }

    /** The bits still to come. */
    ghost function State(): Source
      requires Valid()
      reads this
    {
      if err then None else Some(Pending(b, bp, buf, bufLen))
    }

    /** `read`. */
    method Read(n: int) returns (v: nat)
      requires Valid()
      modifies this`bp, this`buf, this`bufLen, this`err
      ensures Valid() && (v, State()) == Take(old(State()), n)
    {
      if err || n == 0 { return 0; }
      if n < 0 || n > 64 {
        err := true;
        return 0;
      }
      LeftOver(b, bp, buf, bufLen);
      ghost var s := State().value;
      hide Pending, Buffered;
      err, bp, buf, bufLen := Fill(b, bp, buf, bufLen, n);
      if err { return 0; }
      v, buf, bufLen := Deliver(b, bp, buf, bufLen, n, s);
    }

    /** `align`. */
    method AlignToByte()
      requires Valid()
      modifies this`buf, this`bufLen
      ensures Valid() && State() == Align(old(State()))
    {
      if !err { LeftOver(b, bp, buf, bufLen); }
      ghost var s := State();
      buf, bufLen := 0, 0;
      assert !err ==> [] + BitsOf(b[bp..]) == s.value[|s.value| % 8..];
    }
  }
}
