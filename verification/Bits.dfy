/** Bit strings, most significant bit first: the common meaning of every bit reader here. */
module Bits {
  import opened Common

  type byte = x: int | 0 <= x < 256

  type bits = seq<bool>

  function Pow2(n: nat): (p: nat)
    ensures p >= 1
  {
    if n == 0 then 1 else 2 * Pow2(n - 1)
  }

  /** A bit string as a big-endian number. */
  function ToNat(s: bits): nat {
    if s == [] then 0 else 2 * ToNat(s[..|s| - 1]) + if s[|s| - 1] then 1 else 0
  }

  /** The n-bit string of a number below 2^n. */
  function FromNat(v: nat, n: nat): (s: bits)
    ensures |s| == n
  {
    if n == 0 then [] else FromNat(v / 2, n - 1) + [v % 2 == 1]
  }

  /** A run of numbers, each in a field of the same width. */
  function Fields(vs: seq<nat>, width: nat): bits {
    if vs == [] then [] else Fields(vs[..|vs| - 1], width) + FromNat(vs[|vs| - 1], width)
  }

  predicate AllBelow(vs: seq<nat>, bound: nat) { forall i :: 0 <= i < |vs| ==> vs[i] < bound }

  function ByteBits(b: byte): (s: bits)
    ensures |s| == 8
  {
    FromNat(b, 8)
  }

  /** The bits of a run of bytes. */
  function BitsOf(data: seq<byte>): (s: bits)
    ensures |s| == 8 * |data|
  {
    if data == [] then [] else ByteBits(data[0]) + BitsOf(data[1..])
  }

  lemma {:induction false} Pow2Adds(m: nat, n: nat)
    ensures Pow2(m + n) == Pow2(m) * Pow2(n)
  {
    if m == 0 {
    } else {
      Pow2Adds(m - 1, n);
      assert Pow2(m + n) == 2 * Pow2((m - 1) + n);
      TwiceRight(Pow2(n), Pow2(m - 1));
    }
  }

  lemma TwiceRight(a: nat, p: nat)
    ensures a * (2 * p) == 2 * (a * p) == (2 * p) * a && a * p == p * a
  {}

  lemma {:induction false} Pow2Grows(m: nat, n: nat)
    requires m <= n
    ensures Pow2(m) <= Pow2(n)
  {
    if m == n {
    } else {
      Pow2Grows(m, n - 1);
    }
  }

  lemma DivisionIsNatural(w: nat, d: nat)
    requires d > 0
    ensures w / d >= 0
  {
    var q := w / d;
    assert w == q * d + w % d;
    assert (q + 1) * d > 0;
  }

  /** `w >> k`. */
  function ShiftRight(w: nat, k: nat): nat {
    DivisionIsNatural(w, Pow2(k));
    w / Pow2(k)
  }

  /** `w & (1 << k - 1)`. */
  function Mask(w: nat, k: nat): nat { w % Pow2(k) }

  lemma MaskSmall(w: nat, k: nat)
    requires w < Pow2(k)
    ensures Mask(w, k) == w
  {
    hide Pow2;
    DivisionIsUnique(w, Pow2(k), 0, w);
  }

  lemma Pow2Of64()
    ensures Pow2(64) == 0x1_0000_0000_0000_0000
  {
    assert Pow2(8) == 0x100;
    hide Pow2;
    Pow2Adds(8, 8);
    assert Pow2(16) == 0x1_0000;
    Pow2Adds(16, 16);
    assert Pow2(32) == 0x1_0000_0000;
    Pow2Adds(32, 32);
  }

  lemma {:induction false} ToNatBounded(s: bits)
    ensures ToNat(s) < Pow2(|s|)
  {
    if s == [] {
    } else {
      ToNatBounded(s[..|s| - 1]);
    }
  }

  lemma {:induction false} ToNatAppend(a: bits, b: bits)
    ensures ToNat(a + b) == ToNat(a) * Pow2(|b|) + ToNat(b)
  {
    if b == [] {
      assert a + b == a;
    } else {
      var init := b[..|b| - 1];
      assert (a + b)[..|a + b| - 1] == a + init;
      assert ToNat(a + b) == 2 * ToNat(a + init) + ToNat(b) - 2 * ToNat(init);
      assert Pow2(|b|) == 2 * Pow2(|init|);
      hide ToNat, Pow2;
      ToNatAppend(a, init);
      TwiceRight(ToNat(a), Pow2(|init|));
    }
  }

  lemma {:induction false} FromNatToNat(v: nat, n: nat)
    requires v < Pow2(n)
    ensures ToNat(FromNat(v, n)) == v
  {
    if n == 0 {
    } else {
      FromNatToNat(v / 2, n - 1);
      assert FromNat(v, n)[..n - 1] == FromNat(v / 2, n - 1);
    }
  }

  lemma {:induction false} ToNatFromNat(s: bits)
    ensures ToNat(s) < Pow2(|s|) && FromNat(ToNat(s), |s|) == s
  {
    ToNatBounded(s);
    if s == [] {
    } else {
      ToNatFromNat(s[..|s| - 1]);
      assert s == s[..|s| - 1] + [s[|s| - 1]];
    }
  }

  lemma ByteBitsToNat(b: byte)
    ensures ToNat(ByteBits(b)) == b
  {
    assert Pow2(8) == 256;
    FromNatToNat(b, 8);
  }

  lemma BitsOfFirst(data: seq<byte>, i: nat)
    requires i < |data|
    ensures BitsOf(data[i..]) == ByteBits(data[i]) + BitsOf(data[i + 1..])
  {
    assert data[i..][1..] == data[i + 1..];
  }

  /** Shifting right drops the last bits, and masking keeps the last ones ... */
  lemma ShiftAndMask(s: bits, j: nat)
    requires j <= |s|
    ensures ShiftRight(ToNat(s), |s| - j) == ToNat(s[..j]) && Mask(ToNat(s), |s| - j) == ToNat(s[j..])
  {
    hide Pow2, ToNat;
    assert s == s[..j] + s[j..];
    ToNatAppend(s[..j], s[j..]);
    ToNatBounded(s[j..]);
    DivisionIsUnique(ToNat(s), Pow2(|s| - j), ToNat(s[..j]), ToNat(s[j..]));
  }

  /** ... so the field s[i..j] of a word is what `(w >> (n - j)) & mask` gives. */
  lemma Field(s: bits, i: nat, j: nat)
    requires i <= j <= |s|
    ensures Mask(ShiftRight(ToNat(s), |s| - j), j - i) == ToNat(s[i..j])
  {
    hide ShiftRight, Mask, ToNat;
    ShiftAndMask(s, j);
    ShiftAndMask(s[..j], i);
    assert s[..j][i..] == s[i..j];
  }

  /** Any bit string of whole bytes is the content of some bytes. */
  function Pack(s: bits): (data: seq<byte>)
    requires |s| % 8 == 0
  {
    if s == [] then [] else
    ToNatBounded(s[..8]);
    assert Pow2(8) == 256;
    [ToNat(s[..8])] + Pack(s[8..])
  }

  lemma {:induction false} PackedBits(s: bits)
    requires |s| % 8 == 0
    ensures BitsOf(Pack(s)) == s
  {
    if s == [] {
    } else {
      ToNatFromNat(s[..8]);
      PackedBits(s[8..]);
      assert Pack(s)[1..] == Pack(s[8..]);
      assert s[..8] + s[8..] == s;
    }
  }
}
