/** `aecBitReader` (weather/grib_ccsds.go): bit fields from a byte slice, most significant first. */
module AecReader {
  import opened Common
  import opened Bits
  import opened AecCode

  /** A reader's result is what a parser of the remaining bits gives. */
  predicate Agrees<T(==)>(r: Result<T>, p: Parse<T>, rest: bits) {
    if p.Some? then r == Ok(p.value.0) && rest == p.value.1 else r.Err?
  }

  class AecBitReader {
    const data: seq<byte>
    var bytePos: nat
    var bitPos: nat

    constructor (data: seq<byte>)
      ensures Valid() && this.data == data && Rest() == BitsOf(data)
    {
      this.data, bytePos, bitPos := data, 0, 0;
      new;
      assert data[0..] == data && BitsOf(data)[0..] == BitsOf(data);
    }

    ghost predicate Valid()
      reads this
    {
      bytePos <= |data| && bitPos < 8 && (bytePos == |data| ==> bitPos == 0)
    }

    /** The bits not yet read. */
    ghost function Rest(): bits
      requires Valid()
      reads this
    {
      BitsOf(data[bytePos..])[bitPos..]
    }

    lemma Exhausted()
      requires Valid() && bytePos == |data|
      ensures Rest() == []
    {}

    /** The next bits of the current byte. */
    lemma InByte(take: nat)
      requires Valid() && bytePos < |data| && bitPos + take <= 8
      ensures take <= |Rest()| && Rest()[..take] == ByteBits(data[bytePos])[bitPos..bitPos + take]
      ensures ToNat(Rest()[..take]) == Mask(ShiftRight(data[bytePos], 8 - bitPos - take), take)
      ensures bitPos + take < 8 ==> Rest()[take..] == BitsOf(data[bytePos..])[bitPos + take..]
      ensures bitPos + take == 8 ==> Rest()[take..] == BitsOf(data[bytePos + 1..])
    {
      hide ToNat, ByteBits, Mask, ShiftRight;
      var b := ByteBits(data[bytePos]);
      BitsOfFirst(data, bytePos);
      ByteBitsToNat(data[bytePos]);
      Field(b, bitPos, bitPos + take);
    }

    lemma TakeTwice(s: bits, i: nat, j: nat)
      requires i + j <= |s|
      ensures s[..i + j] == s[..i] + s[i..][..j] && s[i..][j..] == s[i + j..]
      ensures ToNat(s[..i + j]) == ToNat(s[..i]) * Pow2(j) + ToNat(s[i..][..j])
    {
      assert s[..i + j] == s[..i] + s[i..][..j];
      ToNatAppend(s[..i], s[i..][..j]);
    }

    /** `readBits`: the next n bits as a number. Fields are at most 64 bits, so the accumulator,
        a uint64 in the code, holds them. */
    method ReadBits(n: nat) returns (r: Result<nat>)
      requires Valid() && n <= 64
      modifies this
      ensures Valid() && Agrees(r, AecCode.ReadBits(old(Rest()), n), Rest())
    {
      hide BitsOf, ToNat, Pow2, Mask, ShiftRight, Rest;
      ghost var all := Rest();
      var v, left := 0, n;
      ZeroBits(all);
      while left > 0
        invariant Valid() && 0 <= left <= n && n - left <= |all|
        invariant Rest() == all[n - left..] && v == ToNat(all[..n - left])
      {
        if bytePos >= |data| {
          Exhausted();
          return Err("aec: read past end of stream");
        }
        var take := if 8 - bitPos > left then left else 8 - bitPos;
        var chunk := Chunk(take);
        TakeTwice(all, n - left, take);
        v := v * Pow2(take) + chunk;
        left := left - take;
      }
      r := Ok(v);
    }

    /** The part of a field that the current byte holds. */
    method Chunk(take: nat) returns (chunk: nat)
      requires Valid() && bytePos < |data| && bitPos + take <= 8
      modifies this
      ensures Valid() && take <= |old(Rest())|
      ensures Rest() == old(Rest())[take..] && chunk == ToNat(old(Rest())[..take])
    {
      hide BitsOf, ToNat, Pow2, Mask, ShiftRight;
      InByte(take);
      var shift := 8 - bitPos - take;
      chunk := Mask(ShiftRight(data[bytePos], shift), take);
      bitPos := bitPos + take;
      if bitPos >= 8 {
        bytePos, bitPos := bytePos + 1, 0;
        WholeByte();
      }
    }

    lemma WholeByte()
      requires Valid() && bitPos == 0
      ensures Rest() == BitsOf(data[bytePos..])
    {}

    lemma ZeroBits(s: bits)
      ensures s[0..] == s && ToNat(s[..0]) == 0
    {}

    /** `readFS`: the number of zeros before the first one. */
    method ReadFS() returns (r: Result<nat>)
      requires Valid()
      modifies this
      ensures Valid() && Agrees(r, AecCode.ReadFS(old(Rest())), Rest())
    {
      ghost var all := Rest();
      var count := 0;
      while true
        invariant Valid() && count <= FS_LIMIT && ReadFSFrom(Rest(), count) == AecCode.ReadFS(all)
        decreases |Rest()|
      {
        ghost var before := Rest();
        var b := ReadBits(1);
        if b.Err? { return Err(b.message); }
        FirstBit(before);
        if b.value == 1 { return Ok(count); }
        count := count + 1;
        if count > FS_LIMIT { return Err("aec: runaway FS decode"); }
      }
    }

    lemma FirstBit(s: bits)
      requires |s| >= 1
      ensures ToNat(s[..1]) == if s[0] then 1 else 0
    {
      assert s[..1][..0] == [];
    }

    /** Skips to the next byte boundary. */
    method SkipToByte()
      requires Valid()
      modifies this
      ensures Valid() && Rest() == old(Rest()[|Rest()| % 8..])
    {
      if bitPos != 0 {
        BitsOfFirst(data, bytePos);
        bytePos, bitPos := bytePos + 1, 0;
      }
    }
  }
}
