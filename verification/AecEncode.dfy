/** An encoder for the coded data format that may make any legal choice of code option in every
    block, and the proof that decoding inverts it. */
module AecEncode {
  import opened Common
  import opened Bits
  import opened Preprocessor
  import opened AecCode

  /** The choices: k-split (k = 0 is the fundamental sequence alone), the second extension with
      whatever partners it likes for the samples outside the block, a run of a stated number of zero
      blocks, zero blocks for the rest of the segment, or no compression. */
  datatype Code = Split(k: nat) | SecondExtension(lead: nat, tail: nat) | ZeroRun(blocks: nat) | ZeroRest | Raw

  function Ones(n: nat): bits { seq(n, i => true) }

  function FS(m: nat): bits { seq(m, i => false) + [true] }

  function FSs(ms: seq<nat>): bits {
    if ms == [] then [] else FSs(ms[..|ms| - 1]) + FS(ms[|ms| - 1])
  }

  function Pairs(coded: seq<nat>, odd: bool, lead: nat, tail: nat): seq<nat> {
    if coded == [] then []
    else if odd then [PairNumber(lead, coded[0])] + Pairs(coded[1..], false, lead, tail)
    else if |coded| == 1 then [PairNumber(coded[0], tail)]
    else [PairNumber(coded[0], coded[1])] + Pairs(coded[2..], false, lead, tail)
  }

  /** As FSs, from the front. */
  function Sequence(ms: seq<nat>): bits {
    if ms == [] then [] else FS(ms[0]) + Sequence(ms[1..])
  }

  function Highs(vs: seq<nat>, k: nat): (h: seq<nat>)
    ensures |h| == |vs| && forall i :: 0 <= i < |h| ==> h[i] == ShiftRight(vs[i], k)
  {
    seq(|vs|, i requires 0 <= i < |vs| => ShiftRight(vs[i], k))
  }

  function Lows(vs: seq<nat>, k: nat): (l: seq<nat>)
    ensures |l| == |vs| && forall i :: 0 <= i < |l| ==> l[i] == Mask(vs[i], k)
  {
    seq(|vs|, i requires 0 <= i < |vs| => Mask(vs[i], k))
  }

  /** How many blocks a choice covers. */
  function Covered(code: Code, blockIndex: nat, nBlocks: nat): nat
    requires blockIndex < nBlocks
  {
    match code
    case ZeroRun(n) => n
    case ZeroRest => var toAlign := 64 - blockIndex % 64; if nBlocks - blockIndex < toAlign then nBlocks - blockIndex else toAlign
    case _ => 1
  }

  /** The run-length value written for a choice of zero blocks. */
  function ZeroNumber(code: Code): nat {
    match code
    case ZeroRun(n) => if n == 0 then 0 else if n <= 4 then n - 1 else n
    case _ => 4
  }

  /** A choice may be made for these values: it can represent them. */
  predicate LegalCode(cfg: Config, code: Code, vals: seq<nat>, blockIndex: nat, nBlocks: nat)
    requires cfg.Valid() && blockIndex < nBlocks
  {
    && 1 <= Covered(code, blockIndex, nBlocks) <= nBlocks - blockIndex
    && |vals| == Covered(code, blockIndex, nBlocks) * cfg.blockSize
    && (code.Raw? ==> AllBelow(vals, Pow2(cfg.bps)))
    && (!code.Raw? ==>
          && HeadLength(cfg, blockIndex) <= |vals|
          && AllBelow(vals[..HeadLength(cfg, blockIndex)], Pow2(cfg.bps))
          && LegalPayload(cfg, code, vals[HeadLength(cfg, blockIndex)..]))
  }

  /** The first block of an interval is led by the reference sample of the preprocessor. */
  function HeadLength(cfg: Config, blockIndex: nat): nat { if blockIndex == 0 && cfg.preprocess then 1 else 0 }

  predicate LegalPayload(cfg: Config, code: Code, coded: seq<nat>)
    requires cfg.Valid()
  {
    match code
    case Split(k) => k + 2 < Pow2(cfg.IdBits())
    case SecondExtension(_, _) => cfg.bps >= 3
    case ZeroRun(_) => coded == Zeros(|coded|)
    case ZeroRest => coded == Zeros(|coded|)
    case Raw => false
  }

  /** The fundamental sequences a choice writes, by their lengths. */
  function Sequences(cfg: Config, code: Code, coded: seq<nat>, blockIndex: nat): seq<nat> {
    match code
    case Split(k) => Highs(coded, k)
    case SecondExtension(lead, tail) => Pairs(coded, HeadLength(cfg, blockIndex) == 1, lead, tail)
    case Raw => []
    case _ => [ZeroNumber(code)]
  }

  /** None of them is longer than the decoder accepts. */
  predicate Short(cfg: Config, code: Code, vals: seq<nat>, blockIndex: nat)
    requires |vals| >= HeadLength(cfg, blockIndex)
  {
    AllAtMost(Sequences(cfg, code, vals[HeadLength(cfg, blockIndex)..], blockIndex), FS_LIMIT)
  }

  function Identifier(cfg: Config, code: Code): bits {
    match code
    case Split(k) => FromNat(k + 1, cfg.IdBits())
    case SecondExtension(_, _) => FromNat(0, cfg.IdBits()) + [true]
    case Raw => Ones(cfg.IdBits())
    case _ => FromNat(0, cfg.IdBits()) + [false]
  }

  function EncodePayload(cfg: Config, code: Code, coded: seq<nat>, blockIndex: nat): bits
    requires cfg.Valid() && LegalPayload(cfg, code, coded)
  {
    match code
    case Split(k) => FSs(Highs(coded, k)) + if k == 0 then [] else Fields(Lows(coded, k), k)
    case SecondExtension(lead, tail) => Sequence(Pairs(coded, HeadLength(cfg, blockIndex) == 1, lead, tail))
    case ZeroRun(_) => FS(ZeroNumber(code))
    case ZeroRest => FS(ZeroNumber(code))
  }

  /** One block, or one run of zero blocks. */
  function EncodeBlock(cfg: Config, code: Code, vals: seq<nat>, blockIndex: nat, nBlocks: nat): bits
    requires cfg.Valid() && blockIndex < nBlocks && LegalCode(cfg, code, vals, blockIndex, nBlocks)
  {
    if code.Raw? then Identifier(cfg, code) + Fields(vals, cfg.bps)
    else
      var h := HeadLength(cfg, blockIndex);
      Identifier(cfg, code) + (Fields(vals[..h], cfg.bps) + EncodePayload(cfg, code, vals[h..], blockIndex))
  }

  // ---- Reading back the pieces --------------------------------------------------------------

  lemma ReadBitsBack(v: nat, n: nat, tail: bits)
    requires v < Pow2(n)
    ensures ReadBits(FromNat(v, n) + tail, n) == Some((v, tail))
  {
    FromNatToNat(v, n);
    assert (FromNat(v, n) + tail)[..n] == FromNat(v, n);
    assert (FromNat(v, n) + tail)[n..] == tail;
  }

  lemma {:induction false} ReadFSBackFrom(m: nat, count: nat, tail: bits)
    requires count + m <= FS_LIMIT
    ensures ReadFSFrom(FS(m) + tail, count) == Some((count + m, tail))
    decreases m
  {
    if m == 0 {
      assert FS(0) + tail == [true] + tail;
    } else {
      assert FS(m) + tail == [false] + (FS(m - 1) + tail);
      ReadFSBackFrom(m - 1, count + 1, tail);
    }
  }

  /** A longer run of zeros is refused: the limit is exact. */
  lemma {:induction false} LongFSRefused(m: nat, count: nat, tail: bits)
    requires count + m > FS_LIMIT && count <= FS_LIMIT
    ensures ReadFSFrom(FS(m) + tail, count).None?
    decreases m
  {
    assert FS(m) + tail == [false] + (FS(m - 1) + tail);
    if count + 1 <= FS_LIMIT { LongFSRefused(m - 1, count + 1, tail); }
  }

  lemma ReadFSBack(m: nat, tail: bits)
    ensures ReadFS(FS(m) + tail) == if m <= FS_LIMIT then Some((m, tail)) else None
  {
    if m <= FS_LIMIT { ReadFSBackFrom(m, 0, tail); } else { LongFSRefused(m, 0, tail); }
  }

  lemma {:induction false} ReadFSsBack(ms: seq<nat>, tail: bits)
    ensures ReadFSs(FSs(ms) + tail, |ms|) == if AllAtMost(ms, FS_LIMIT) then Some((ms, tail)) else None
  {
    hide ReadFS, FS;
    assert [] + tail == tail;
    if ms == [] {
    } else {
      var init, last := ms[..|ms| - 1], ms[|ms| - 1];
      assert ms == init + [last];
      assert FSs(ms) + tail == FSs(init) + (FS(last) + tail);
      ReadFSsBack(init, FS(last) + tail);
      ReadFSBack(last, tail);
    }
  }

  lemma {:induction false} ReadFieldsBack(vs: seq<nat>, width: nat, tail: bits)
    requires AllBelow(vs, Pow2(width))
    ensures ReadFields(Fields(vs, width) + tail, |vs|, width) == Some((vs, tail))
  {
    assert [] + tail == tail;
    if vs == [] {
    } else {
      var init, last := vs[..|vs| - 1], vs[|vs| - 1];
      assert vs == init + [last];
      assert Fields(vs, width) + tail == Fields(init, width) + (FromNat(last, width) + tail);
      ReadFieldsBack(init, width, FromNat(last, width) + tail);
      ReadBitsBack(last, width, tail);
    }
  }

  lemma {:induction false} ReadPairsBack(coded: seq<nat>, odd: bool, lead: nat, last: nat, tail: bits)
    ensures ReadPairs(Sequence(Pairs(coded, odd, lead, last)) + tail, |coded|, odd)
         == if AllAtMost(Pairs(coded, odd, lead, last), FS_LIMIT) then Some((coded, tail)) else None
    decreases |coded|
  {
    hide ReadFS, Unpair, PairNumber, FS;
    assert [] + tail == tail;
    if coded == [] {
    } else {
      var ms := Pairs(coded, odd, lead, last);
      var rest := Sequence(ms[1..]) + tail;
      assert Sequence(ms) + tail == FS(ms[0]) + rest;
      ReadFSBack(ms[0], rest);
      assert AllAtMost(ms, FS_LIMIT) <==> ms[0] <= FS_LIMIT && AllAtMost(ms[1..], FS_LIMIT);
      if odd {
        UnpairPair(lead, coded[0]);
        assert coded == [coded[0]] + coded[1..];
        assert ms[1..] == Pairs(coded[1..], false, lead, last);
        ReadPairsBack(coded[1..], false, lead, last, tail);
      } else if |coded| == 1 {
        UnpairPair(coded[0], last);
        assert ms[1..] == [] && coded == [coded[0]];
      } else {
        UnpairPair(coded[0], coded[1]);
        assert coded == [coded[0], coded[1]] + coded[2..];
        assert ms[1..] == Pairs(coded[2..], false, lead, last);
        ReadPairsBack(coded[2..], false, lead, last, tail);
      }
    }
  }

  lemma SplitJoins(vs: seq<nat>, k: nat)
    ensures Joined(Highs(vs, k), Lows(vs, k), k) == vs
  {
    forall i | 0 <= i < |vs| ensures Join(Highs(vs, k)[i], k, Lows(vs, k)[i]) == vs[i] {
      QuotientAndRemainder(vs[i], Pow2(k));
    }
  }

  lemma QuotientAndRemainder(v: nat, d: nat)
    requires d > 0
    ensures v / d >= 0 && v / d * d + v % d == v
  {
    var q := v / d;
    assert v == q * d + v % d;
    assert (q + 1) * d > 0;
  }

  lemma ReadSplitBack(cfg: Config, coded: seq<nat>, k: nat, tail: bits)
    ensures ReadSplit(cfg, (FSs(Highs(coded, k)) + if k == 0 then [] else Fields(Lows(coded, k), k)) + tail, |coded|, k)
         == if AllAtMost(Highs(coded, k), FS_LIMIT) then Some((coded, tail)) else None
  {
    if k == 0 {
      assert FSs(Highs(coded, 0)) + [] + tail == FSs(Highs(coded, 0)) + tail;
      ReadFSsBack(Highs(coded, 0), tail);
      assert Highs(coded, 0) == coded;
    } else {
      var lows := Fields(Lows(coded, k), k);
      assert FSs(Highs(coded, k)) + lows + tail == FSs(Highs(coded, k)) + (lows + tail);
      ReadFSsBack(Highs(coded, k), lows + tail);
      ReadFieldsBack(Lows(coded, k), k, tail);
      SplitJoins(coded, k);
    }
  }

  lemma ZeroNumberBack(code: Code, blockIndex: nat, nBlocks: nat)
    requires code.ZeroRun? || code.ZeroRest?
    requires blockIndex < nBlocks && 1 <= Covered(code, blockIndex, nBlocks) <= nBlocks - blockIndex
    ensures ZeroBlocks(ZeroNumber(code), blockIndex, nBlocks) == Covered(code, blockIndex, nBlocks)
  {}

  // ---- Reading back a block -----------------------------------------------------------------

  lemma PayloadBack(cfg: Config, code: Code, coded: seq<nat>, blockIndex: nat, nBlocks: nat, tail: bits)
    requires cfg.Valid() && blockIndex < nBlocks && 1 <= Covered(code, blockIndex, nBlocks) <= nBlocks - blockIndex
    requires LegalPayload(cfg, code, coded)
    requires |coded| == RunLength(cfg, blockIndex, Covered(code, blockIndex, nBlocks))
    ensures var id := if code.Split? then code.k + 1 else 0;
      id != cfg.IdNC()
      && ReadPayload(cfg, EncodePayload(cfg, code, coded, blockIndex) + tail, blockIndex, nBlocks, id, code.SecondExtension?)
         == if AllAtMost(Sequences(cfg, code, coded, blockIndex), FS_LIMIT)
            then Some((Chunk(coded, Covered(code, blockIndex, nBlocks)), tail)) else None
  {
    hide ReadFS, ReadSplit, ReadPairs, ZeroBlocks, RunLength, Covered, FS, FSs, Pairs, ZeroNumber, AllAtMost;
    IdNCBig(cfg);
    match code
    case Split(k) =>
      OneBlockCovered(cfg, code, blockIndex, nBlocks);
      ReadSplitBack(cfg, coded, k, tail);
    case SecondExtension(lead, last) =>
      OneBlockCovered(cfg, code, blockIndex, nBlocks);
      ReadPairsBack(coded, HasRef(cfg, blockIndex), lead, last, tail);
    case ZeroRun(n) => ZeroPayloadBack(code, blockIndex, nBlocks, tail);
    case ZeroRest => ZeroPayloadBack(code, blockIndex, nBlocks, tail);
  }

  lemma {:induction false} AllOnes(n: nat)
    ensures FromNat(Pow2(n) - 1, n) == Ones(n)
  {
    if n == 0 {
    } else {
      AllOnes(n - 1);
      HalfOfOnes(Pow2(n - 1));
      assert Ones(n) == Ones(n - 1) + [true];
    }
  }

  lemma HalfOfOnes(half: nat)
    requires half >= 1
    ensures (2 * half - 1) / 2 == half - 1 && (2 * half - 1) % 2 == 1
  {}

  /** Identifiers are the shortest, of three bits at least, that number as many options as samples have
      bits. */
  lemma IdBitsIsLeast(cfg: Config)
    requires cfg.Valid()
    ensures 3 <= cfg.IdBits() && cfg.bps <= Pow2(cfg.IdBits()) && (cfg.IdBits() > 3 ==> cfg.bps > Pow2(cfg.IdBits() - 1))
  {
    assert Pow2(3) == 8 && Pow2(4) == 16 && Pow2(5) == 32;
  }

  lemma IdNCBig(cfg: Config)
    requires cfg.Valid()
    ensures 7 <= cfg.IdNC() < Pow2(cfg.IdBits())
  {
    assert Pow2(3) == 8 && Pow2(4) == 16 && Pow2(5) == 32;
  }

  lemma OneBlockCovered(cfg: Config, code: Code, blockIndex: nat, nBlocks: nat)
    requires cfg.Valid() && blockIndex < nBlocks && (code.Split? || code.SecondExtension? || code.Raw?)
    ensures Covered(code, blockIndex, nBlocks) == 1 && RunLength(cfg, blockIndex, 1) == Coded(cfg, blockIndex)
  {}

  lemma ZeroPayloadBack(code: Code, blockIndex: nat, nBlocks: nat, tail: bits)
    requires code.ZeroRest? || code.ZeroRun?
    requires blockIndex < nBlocks && 1 <= Covered(code, blockIndex, nBlocks) <= nBlocks - blockIndex
    ensures ReadFS(FS(ZeroNumber(code)) + tail)
         == if AllAtMost([ZeroNumber(code)], FS_LIMIT) then Some((ZeroNumber(code), tail)) else None
    ensures ZeroBlocks(ZeroNumber(code), blockIndex, nBlocks) == Covered(code, blockIndex, nBlocks)
  {
    ReadFSBack(ZeroNumber(code), tail);
    assert [ZeroNumber(code)][0] == ZeroNumber(code);
    ZeroNumberBack(code, blockIndex, nBlocks);
  }

  lemma RefBack(cfg: Config, head: seq<nat>, blockIndex: nat, tail: bits)
    requires |head| == HeadLength(cfg, blockIndex) && AllBelow(head, Pow2(cfg.bps))
    ensures ReadRef(cfg, Fields(head, cfg.bps) + tail, blockIndex) == Some((head, tail))
  {
    ReadFieldsBack(head, cfg.bps, tail);
    assert [] + tail == tail;
  }

  lemma ReadOneBit(b: bool, tail: bits)
    ensures ReadBits([b] + tail, 1) == Some((if b then 1 else 0, tail))
  {
    assert ([b] + tail)[..1] == [b] && ([b] + tail)[1..] == tail;
    assert [b][..0] == [] && ToNat([b]) == 2 * ToNat([]) + if b then 1 else 0;
  }

  lemma IdentifierBack(cfg: Config, code: Code, tail: bits)
    requires cfg.Valid() && (code.Split? ==> code.k + 2 < Pow2(cfg.IdBits()))
    ensures var id := if code.Split? then code.k + 1 else if code.Raw? then cfg.IdNC() else 0;
      var r := ReadBits(Identifier(cfg, code) + tail, cfg.IdBits());
      && r.Some? && r.value.0 == id
      && ReadBits(r.value.1, if id == 0 then 1 else 0) ==
           Some((if code.SecondExtension? then 1 else 0, tail))
  {
    IdNCBig(cfg);
    if code.Split? {
      ReadBitsBack(code.k + 1, cfg.IdBits(), tail);
      assert tail[..0] == [] && tail[0..] == tail;
    } else if code.Raw? {
      AllOnes(cfg.IdBits());
      ReadBitsBack(cfg.IdNC(), cfg.IdBits(), tail);
      assert tail[..0] == [] && tail[0..] == tail;
    } else {
      var sub := [code.SecondExtension?];
      assert Identifier(cfg, code) + tail == FromNat(0, cfg.IdBits()) + (sub + tail);
      ReadBitsBack(0, cfg.IdBits(), sub + tail);
      ReadOneBit(code.SecondExtension?, tail);
    }
  }

  /** A legal choice reads back, or is refused, by its fundamental sequences. */
  lemma BlockBack(cfg: Config, code: Code, vals: seq<nat>, blockIndex: nat, nBlocks: nat, tail: bits)
    requires cfg.Valid() && blockIndex < nBlocks && LegalCode(cfg, code, vals, blockIndex, nBlocks)
    ensures ReadBlock(cfg, EncodeBlock(cfg, code, vals, blockIndex, nBlocks) + tail, blockIndex, nBlocks)
         == if Short(cfg, code, vals, blockIndex)
            then Some((Chunk(vals, Covered(code, blockIndex, nBlocks)), tail)) else None
  {
    hide ReadBits, ReadFields, ReadRef, ReadPayload, EncodePayload, Fields, Identifier, RunLength, Covered, LegalPayload;
    hide Sequences, AllAtMost;
    var n := Covered(code, blockIndex, nBlocks);
    IdNCBig(cfg);
    if code.Raw? {
      var rest := Fields(vals, cfg.bps) + tail;
      assert EncodeBlock(cfg, code, vals, blockIndex, nBlocks) + tail == Identifier(cfg, code) + rest;
      IdentifierBack(cfg, code, rest);
      RawIsOne(cfg, code, vals, blockIndex, nBlocks);
      RawIdentifier(cfg, code, rest);
      RawIsShort(cfg, code, vals, blockIndex);
      ReadFieldsBack(vals, cfg.bps, tail);
    } else {
      var h := HeadLength(cfg, blockIndex);
      var head, coded := vals[..h], vals[h..];
      var payload := EncodePayload(cfg, code, coded, blockIndex) + tail;
      var rest := Fields(head, cfg.bps) + payload;
      assert EncodeBlock(cfg, code, vals, blockIndex, nBlocks) + tail == Identifier(cfg, code) + rest;
      SplitFits(cfg, code, coded, blockIndex);
      IdentifierBack(cfg, code, rest);
      RefBack(cfg, head, blockIndex, payload);
      WholeRun(cfg, blockIndex, n);
      PayloadBack(cfg, code, coded, blockIndex, nBlocks, tail);
      assert head + coded == vals;
    }
  }

  lemma SplitFits(cfg: Config, code: Code, coded: seq<nat>, blockIndex: nat)
    requires cfg.Valid() && LegalPayload(cfg, code, coded)
    ensures !code.Raw? && (code.Split? ==> code.k + 2 < Pow2(cfg.IdBits()))
  {}

  lemma RawIsOne(cfg: Config, code: Code, vals: seq<nat>, blockIndex: nat, nBlocks: nat)
    requires cfg.Valid() && blockIndex < nBlocks && code.Raw? && |vals| == Covered(code, blockIndex, nBlocks) * cfg.blockSize
    ensures Covered(code, blockIndex, nBlocks) == 1 && |vals| == cfg.blockSize
  {}

  lemma RawIsShort(cfg: Config, code: Code, vals: seq<nat>, blockIndex: nat)
    requires code.Raw? && |vals| >= HeadLength(cfg, blockIndex)
    ensures Short(cfg, code, vals, blockIndex)
  {}

  lemma RawIdentifier(cfg: Config, code: Code, tail: bits)
    requires cfg.Valid() && code.Raw?
    ensures ReadBits(Identifier(cfg, code) + tail, cfg.IdBits()) == Some((cfg.IdNC(), tail))
  {
    IdNCBig(cfg);
    AllOnes(cfg.IdBits());
    ReadBitsBack(cfg.IdNC(), cfg.IdBits(), tail);
  }

  // ---- Intervals and streams ----------------------------------------------------------------

  /** The choices fit the values of the blocks from blockIndex to nBlocks, and cover them exactly. */
  predicate LegalCodes(cfg: Config, codes: seq<Code>, vals: seq<nat>, blockIndex: nat, nBlocks: nat)
    requires cfg.Valid() && blockIndex <= nBlocks
  {
    if codes == [] then blockIndex == nBlocks && vals == []
    else
      blockIndex < nBlocks
      && var n := Covered(codes[0], blockIndex, nBlocks);
         1 <= n <= nBlocks - blockIndex && n * cfg.blockSize <= |vals|
         && LegalCode(cfg, codes[0], vals[..n * cfg.blockSize], blockIndex, nBlocks)
         && LegalCodes(cfg, codes[1..], vals[n * cfg.blockSize..], blockIndex + n, nBlocks)
  }

  /** No fundamental sequence of these blocks is longer than the decoder accepts. */
  predicate ShortCodes(cfg: Config, codes: seq<Code>, vals: seq<nat>, blockIndex: nat, nBlocks: nat)
    requires cfg.Valid() && blockIndex <= nBlocks && LegalCodes(cfg, codes, vals, blockIndex, nBlocks)
  {
    if codes == [] then true else
    var n := Covered(codes[0], blockIndex, nBlocks);
    HasHead(cfg, blockIndex, n, vals);
    Short(cfg, codes[0], vals[..n * cfg.blockSize], blockIndex)
    && ShortCodes(cfg, codes[1..], vals[n * cfg.blockSize..], blockIndex + n, nBlocks)
  }

  lemma HasHead(cfg: Config, blockIndex: nat, n: nat, vals: seq<nat>)
    requires cfg.Valid() && n >= 1 && n * cfg.blockSize <= |vals|
    ensures |vals[..n * cfg.blockSize]| >= HeadLength(cfg, blockIndex)
  {
    PositiveProduct(n, cfg.blockSize);
  }

  function EncodeBlocks(cfg: Config, codes: seq<Code>, vals: seq<nat>, blockIndex: nat, nBlocks: nat): bits
    requires cfg.Valid() && blockIndex <= nBlocks && LegalCodes(cfg, codes, vals, blockIndex, nBlocks)
  {
    if codes == [] then [] else
    var n := Covered(codes[0], blockIndex, nBlocks);
    EncodeBlock(cfg, codes[0], vals[..n * cfg.blockSize], blockIndex, nBlocks)
    + EncodeBlocks(cfg, codes[1..], vals[n * cfg.blockSize..], blockIndex + n, nBlocks)
  }

  lemma {:induction false} BlocksBack(cfg: Config, codes: seq<Code>, vals: seq<nat>, blockIndex: nat, nBlocks: nat, tail: bits)
    requires cfg.Valid() && blockIndex <= nBlocks && LegalCodes(cfg, codes, vals, blockIndex, nBlocks)
    ensures ReadBlocks(cfg, EncodeBlocks(cfg, codes, vals, blockIndex, nBlocks) + tail, blockIndex, nBlocks)
         == if ShortCodes(cfg, codes, vals, blockIndex, nBlocks) then Some((vals, tail)) else None
    decreases |codes|
  {
    hide ReadBlock, EncodeBlock, LegalCode, Covered, Short;
    if codes == [] {
      assert [] + tail == tail;
    } else {
      var n := Covered(codes[0], blockIndex, nBlocks);
      var k := n * cfg.blockSize;
      var first := EncodeBlock(cfg, codes[0], vals[..k], blockIndex, nBlocks);
      var rest := EncodeBlocks(cfg, codes[1..], vals[k..], blockIndex + n, nBlocks) + tail;
      assert EncodeBlocks(cfg, codes, vals, blockIndex, nBlocks) + tail == first + rest;
      BlockBack(cfg, codes[0], vals[..k], blockIndex, nBlocks, rest);
      BlocksBack(cfg, codes[1..], vals[k..], blockIndex + n, nBlocks, tail);
      assert vals[..k] + vals[k..] == vals;
    }
  }

  /** One reference-sample interval: its blocks, their samples, padded out as the encoder pleases, the
      choices it makes, and the bits that fill it up to a byte when that is asked for. */
  datatype Interval = Interval(blocks: nat, samples: seq<nat>, codes: seq<Code>, fill: bits)

  /** An interval has as many blocks as it takes to hold what remains, but no more than a full one. */
  predicate HoldsBlocks(cfg: Config, blocks: nat, remaining: nat) {
    && 0 < blocks <= cfg.rsi && (blocks - 1) * cfg.blockSize < remaining
    && (blocks < cfg.rsi ==> remaining <= blocks * cfg.blockSize)
  }

  function Values(cfg: Config, xs: seq<nat>): (vals: seq<nat>)
    requires cfg.Valid() && AllAtMost(xs, cfg.XMax())
    ensures |vals| == |xs|
  {
    XMaxIsMax(cfg);
    if cfg.preprocess then MapAll(xs, cfg.XMax()) else xs
  }

  predicate LegalInterval(cfg: Config, iv: Interval, remaining: nat)
    requires cfg.Valid() && remaining > 0
  {
    && AllAtMost(iv.samples, cfg.XMax())
    && HoldsBlocks(cfg, iv.blocks, remaining) && |iv.samples| == iv.blocks * cfg.blockSize
    && LegalCodes(cfg, iv.codes, Values(cfg, iv.samples), 0, iv.blocks)
    && var len := |EncodeBlocks(cfg, iv.codes, Values(cfg, iv.samples), 0, iv.blocks)|;
       if cfg.padRsi then |iv.fill| < 8 && (len + |iv.fill|) % 8 == 0 else iv.fill == []
  }

  /** The decoder counts the blocks of an interval as the encoder does. */
  lemma BlocksOf(cfg: Config, blocks: nat, remaining: nat)
    requires cfg.Valid() && remaining > 0
    ensures HoldsBlocks(cfg, blocks, remaining) <==> blocks == NBlocks(cfg, remaining)
  {
    CountHolds(cfg, remaining);
    hide NBlocks, Config.Valid;
    if HoldsBlocks(cfg, blocks, remaining) { OneCount(cfg, blocks, NBlocks(cfg, remaining), remaining); }
  }

  lemma CountHolds(cfg: Config, remaining: nat)
    requires cfg.Valid() && remaining > 0
    ensures HoldsBlocks(cfg, NBlocks(cfg, remaining), remaining)
  {
    var n, size := NBlocks(cfg, remaining), cfg.blockSize;
    assert (n - 1) * size == n * size - size;
    if remaining < cfg.rsi * size {
      var up := remaining + size - 1;
      assert up == n * size + up % size;
      if n > cfg.rsi { MoreBlocks(cfg.rsi, n, size); }
    } else {
      assert n * size - size < remaining;
    }
  }

  lemma MoreBlocks(m: nat, n: nat, size: nat)
    requires m < n
    ensures (m + 1) * size <= n * size && (m + 1) * size == m * size + size && (n - 1) * size >= m * size
  {
    assert (n - 1) * size == n * size - size && (m + 1) * size == m * size + size;
    assert (n - m - 1) * size >= 0;
    assert (n - m - 1) * size == n * size - m * size - size;
  }

  lemma OneCount(cfg: Config, m: nat, n: nat, remaining: nat)
    requires HoldsBlocks(cfg, m, remaining) && HoldsBlocks(cfg, n, remaining)
    ensures m == n
  {
    if m < n { MoreBlocks(m, n, cfg.blockSize); } else if n < m { MoreBlocks(n, m, cfg.blockSize); }
  }

  predicate ShortInterval(cfg: Config, iv: Interval, remaining: nat)
    requires cfg.Valid() && remaining > 0 && LegalInterval(cfg, iv, remaining)
  {
    ShortCodes(cfg, iv.codes, Values(cfg, iv.samples), 0, iv.blocks)
  }

  /** The samples still wanted after an interval. */
  function Left(iv: Interval, remaining: nat): nat {
    if |iv.samples| >= remaining then 0 else remaining - |iv.samples|
  }

  /** A stream that holds `remaining` samples. */
  predicate LegalStream(cfg: Config, ivs: seq<Interval>, remaining: nat)
    requires cfg.Valid()
  {
    if ivs == [] then remaining == 0
    else remaining > 0 && LegalInterval(cfg, ivs[0], remaining)
         && LegalStream(cfg, ivs[1..], Left(ivs[0], remaining))
  }

  /** No fundamental sequence of the stream is longer than the decoder accepts. */
  predicate ShortStream(cfg: Config, ivs: seq<Interval>, remaining: nat)
    requires cfg.Valid() && LegalStream(cfg, ivs, remaining)
  {
    ivs != [] ==>
      && ShortInterval(cfg, ivs[0], remaining)
      && ShortStream(cfg, ivs[1..], Left(ivs[0], remaining))
  }

  function EncodeInterval(cfg: Config, iv: Interval, remaining: nat): bits
    requires cfg.Valid() && remaining > 0 && LegalInterval(cfg, iv, remaining)
  {
    EncodeBlocks(cfg, iv.codes, Values(cfg, iv.samples), 0, iv.blocks) + iv.fill
  }

  function EncodeStream(cfg: Config, ivs: seq<Interval>, remaining: nat): bits
    requires cfg.Valid() && LegalStream(cfg, ivs, remaining)
  {
    if ivs == [] then [] else
    EncodeInterval(cfg, ivs[0], remaining)
    + EncodeStream(cfg, ivs[1..], Left(ivs[0], remaining))
  }

  function AllSamples(ivs: seq<Interval>): seq<nat> {
    if ivs == [] then [] else ivs[0].samples + AllSamples(ivs[1..])
  }

  /** A legal stream holds the samples asked for and less than a block more, and every interval of it but
      the last is full. */
  lemma {:induction false} StreamSize(cfg: Config, ivs: seq<Interval>, remaining: nat)
    requires cfg.Valid() && LegalStream(cfg, ivs, remaining)
    ensures remaining <= |AllSamples(ivs)| && (remaining > 0 ==> |AllSamples(ivs)| < remaining + cfg.blockSize)
    ensures forall i :: 0 <= i < |ivs| - 1 ==> |ivs[i].samples| == cfg.rsi * cfg.blockSize
    decreases |ivs|
  {
    hide LegalInterval;
    if ivs == [] {
    } else {
      IntervalSize(cfg, ivs[0], remaining);
      var rest, left := ivs[1..], Left(ivs[0], remaining);
      StreamSize(cfg, rest, left);
      if left == 0 { NothingLeft(cfg, rest); }
      forall i | 0 <= i < |ivs| - 1 ensures |ivs[i].samples| == cfg.rsi * cfg.blockSize {
        if i > 0 { assert ivs[i] == rest[i - 1]; }
      }
    }
  }

  lemma IntervalSize(cfg: Config, iv: Interval, remaining: nat)
    requires cfg.Valid() && remaining > 0 && LegalInterval(cfg, iv, remaining)
    ensures |iv.samples| < remaining + cfg.blockSize
    ensures remaining > |iv.samples| ==> |iv.samples| == cfg.rsi * cfg.blockSize
  {
    hide EncodeBlocks, Values, LegalCodes, AllAtMost;
    assert (iv.blocks - 1) * cfg.blockSize == iv.blocks * cfg.blockSize - cfg.blockSize;
  }

  lemma NothingLeft(cfg: Config, ivs: seq<Interval>)
    requires cfg.Valid() && LegalStream(cfg, ivs, 0)
    ensures ivs == []
  {}

  lemma RestoreValues(cfg: Config, xs: seq<nat>)
    requires cfg.Valid() && AllAtMost(xs, cfg.XMax())
    ensures var v := Values(cfg, xs);
      (cfg.preprocess && v != [] ==> v[0] <= cfg.XMax()) && Restore(cfg, v) == xs
  {
    hide Config.XMax;
    XMaxIsMax(cfg);
    if cfg.preprocess { UnmapAllMapAll(xs, cfg.XMax()); }
  }

  lemma AlignBack(cfg: Config, fill: bits, tail: bits)
    requires if cfg.padRsi then |fill| < 8 && |tail| % 8 == 0 else fill == []
    ensures Align(cfg, fill + tail) == tail
  {
    if cfg.padRsi {
      assert |fill + tail| % 8 == |fill|;
      assert (fill + tail)[|fill|..] == tail;
    } else {
      assert [] + tail == tail;
    }
  }

  lemma {:induction false} StreamIsBytes(cfg: Config, ivs: seq<Interval>, remaining: nat)
    requires cfg.Valid() && LegalStream(cfg, ivs, remaining) && cfg.padRsi
    ensures |EncodeStream(cfg, ivs, remaining)| % 8 == 0
    decreases |ivs|
  {
    hide EncodeInterval, LegalInterval, Left;
    if ivs == [] {
    } else {
      IntervalIsBytes(cfg, ivs[0], remaining);
      StreamIsBytes(cfg, ivs[1..], Left(ivs[0], remaining));
    }
  }

  lemma IntervalIsBytes(cfg: Config, iv: Interval, remaining: nat)
    requires cfg.Valid() && remaining > 0 && LegalInterval(cfg, iv, remaining) && cfg.padRsi
    ensures |EncodeInterval(cfg, iv, remaining)| % 8 == 0
  {
    hide EncodeBlocks, Values, LegalCodes, AllAtMost, HoldsBlocks;
  }

  lemma IntervalBack(cfg: Config, iv: Interval, remaining: nat, rest: bits)
    requires cfg.Valid() && remaining > 0 && LegalInterval(cfg, iv, remaining) && (cfg.padRsi ==> |rest| % 8 == 0)
    ensures iv.samples != []
    ensures ReadAll(cfg, EncodeInterval(cfg, iv, remaining) + rest, remaining)
         == if ShortInterval(cfg, iv, remaining) then ReadOn(cfg, iv.samples, rest, remaining) else None
  {
    hide ReadBlocks, EncodeBlocks, Values, LegalCodes, AllAtMost, NBlocks, HoldsBlocks, Restore, Align, Config.XMax, ReadOn;
    BlocksOf(cfg, iv.blocks, remaining);
    var n := iv.blocks;
    assert EncodeInterval(cfg, iv, remaining) + rest
        == EncodeBlocks(cfg, iv.codes, Values(cfg, iv.samples), 0, n) + (iv.fill + rest);
    BlocksBack(cfg, iv.codes, Values(cfg, iv.samples), 0, n, iv.fill + rest);
    RestoreValues(cfg, iv.samples);
    AlignBack(cfg, iv.fill, rest);
    PositiveProduct(n, cfg.blockSize);
  }

  lemma {:induction false} AllBack(cfg: Config, ivs: seq<Interval>, remaining: nat, tail: bits)
    requires cfg.Valid() && LegalStream(cfg, ivs, remaining) && (cfg.padRsi ==> |tail| % 8 == 0)
    ensures ReadAll(cfg, EncodeStream(cfg, ivs, remaining) + tail, remaining)
         == if ShortStream(cfg, ivs, remaining) then Some(AllSamples(ivs)) else None
    decreases |ivs|
  {
    hide LegalInterval, EncodeInterval, ShortInterval;
    if ivs == [] {
    } else {
      var left := Left(ivs[0], remaining);
      var rest := EncodeStream(cfg, ivs[1..], left) + tail;
      assert EncodeStream(cfg, ivs, remaining) + tail == EncodeInterval(cfg, ivs[0], remaining) + rest;
      if cfg.padRsi { StreamIsBytes(cfg, ivs[1..], left); }
      IntervalBack(cfg, ivs[0], remaining, rest);
      AllBack(cfg, ivs[1..], left, tail);
      if left == 0 { assert ivs[0].samples + [] == ivs[0].samples; }
    }
  }

  /** Round trip: whatever legal choices the encoder makes in every block, and whatever fills up and
      follows its whole bytes, decoding them gives back exactly the samples if every fundamental
      sequence is within the limit, and is refused as corrupt if one of them is not. */
  lemma RoundTrip(cfg: Config, ivs: seq<Interval>, n: nat, tail: bits)
    requires cfg.Valid() && LegalStream(cfg, ivs, n) && |EncodeStream(cfg, ivs, n) + tail| % 8 == 0
    ensures ShortStream(cfg, ivs, n) ==> |AllSamples(ivs)| >= n
    ensures Decode(cfg, BitsOf(Pack(EncodeStream(cfg, ivs, n) + tail)), n)
         == if ShortStream(cfg, ivs, n) then Some(AllSamples(ivs)[..n]) else None
  {
    hide LegalStream, ShortStream, EncodeStream, ReadAll, Pack, BitsOf;
    if cfg.padRsi { StreamIsBytes(cfg, ivs, n); }
    AllBack(cfg, ivs, n, tail);
    PackedBits(EncodeStream(cfg, ivs, n) + tail);
  }

  // ---- Every sample list has a stream -------------------------------------------------------

  function RawCodes(n: nat): seq<Code> { if n == 0 then [] else [Raw] + RawCodes(n - 1) }

  lemma {:induction false} RawCodesLegal(cfg: Config, vals: seq<nat>, blockIndex: nat, nBlocks: nat)
    requires cfg.Valid() && blockIndex <= nBlocks && |vals| == (nBlocks - blockIndex) * cfg.blockSize
    requires AllBelow(vals, Pow2(cfg.bps))
    ensures LegalCodes(cfg, RawCodes(nBlocks - blockIndex), vals, blockIndex, nBlocks)
    ensures ShortCodes(cfg, RawCodes(nBlocks - blockIndex), vals, blockIndex, nBlocks)
    decreases nBlocks - blockIndex
  {
    hide LegalCode, Short, Covered, Pow2, IdSizeBits, HeadLength;
    if blockIndex == nBlocks {
    } else {
      var m, k := nBlocks - blockIndex, cfg.blockSize;
      OneMore(m - 1, k);
      assert RawCodes(m)[0] == Raw && RawCodes(m)[1..] == RawCodes(m - 1);
      assert |vals| == (m - 1) * k + k && |vals[k..]| == (nBlocks - (blockIndex + 1)) * k;
      RawIsLegal(cfg, vals[..k], blockIndex, nBlocks);
      RawCodesLegal(cfg, vals[k..], blockIndex + 1, nBlocks);
      assert 1 * k == k;
    }
  }

  lemma OneMore(m: nat, k: nat)
    ensures (m + 1) * k == m * k + k && m * k >= 0
  {}

  lemma RawIsLegal(cfg: Config, vals: seq<nat>, blockIndex: nat, nBlocks: nat)
    requires cfg.Valid() && blockIndex < nBlocks && |vals| == cfg.blockSize && AllBelow(vals, Pow2(cfg.bps))
    ensures Covered(Raw, blockIndex, nBlocks) == 1 && LegalCode(cfg, Raw, vals, blockIndex, nBlocks)
    ensures Short(cfg, Raw, vals, blockIndex)
  {}

  function Fill(n: nat): (f: bits)
    ensures |f| < 8 && (n + |f|) % 8 == 0
  {
    seq((8 - n % 8) % 8, i => false)
  }

  function Resized(xs: seq<nat>, total: nat, bound: nat): (samples: seq<nat>)
    requires AllAtMost(xs, bound)
    ensures |samples| == total && AllAtMost(samples, bound)
    ensures if total <= |xs| then samples == xs[..total] else samples[..|xs|] == xs
  {
    if total <= |xs| then xs[..total] else xs + Zeros(total - |xs|)
  }

  /** One interval of uncompressed blocks, padded with zeros. */
  function RawInterval(cfg: Config, xs: seq<nat>, remaining: nat): (iv: Interval)
    requires cfg.Valid() && remaining == |xs| > 0 && AllAtMost(xs, cfg.XMax())
    ensures if |iv.samples| <= |xs| then iv.samples == xs[..|iv.samples|] else iv.samples[..|xs|] == xs
  {
    hide Config.XMax, Config.Valid, RawCodes, LegalCodes, ShortCodes, EncodeBlocks, Values, NBlocks;
    var n := NBlocks(cfg, remaining);
    var samples := Resized(xs, n * cfg.blockSize, cfg.XMax());
    RawSamplesLegal(cfg, samples, n);
    Interval(n, samples, RawCodes(n),
      if cfg.padRsi then Fill(|EncodeBlocks(cfg, RawCodes(n), Values(cfg, samples), 0, n)|) else [])
  }

  lemma RawIntervalLegal(cfg: Config, xs: seq<nat>, remaining: nat)
    requires cfg.Valid() && remaining == |xs| > 0 && AllAtMost(xs, cfg.XMax())
    ensures var iv := RawInterval(cfg, xs, remaining);
      LegalInterval(cfg, iv, remaining) && ShortInterval(cfg, iv, remaining)
  {
    hide Config.XMax, Config.Valid, RawCodes, LegalCodes, ShortCodes, EncodeBlocks, Values, NBlocks, HoldsBlocks;
    var n := NBlocks(cfg, remaining);
    BlocksOf(cfg, n, remaining);
    RawSamplesLegal(cfg, Resized(xs, n * cfg.blockSize, cfg.XMax()), n);
  }

  lemma RawSamplesLegal(cfg: Config, samples: seq<nat>, n: nat)
    requires cfg.Valid() && |samples| == n * cfg.blockSize && AllAtMost(samples, cfg.XMax())
    ensures LegalCodes(cfg, RawCodes(n), Values(cfg, samples), 0, n)
    ensures ShortCodes(cfg, RawCodes(n), Values(cfg, samples), 0, n)
  {
    hide Config.XMax, RawCodes, LegalCodes, ShortCodes, MapAll;
    XMaxIsMax(cfg);
    XMaxBelow(cfg, Values(cfg, samples));
    RawCodesLegal(cfg, Values(cfg, samples), 0, n);
  }

  lemma XMaxBelow(cfg: Config, vals: seq<nat>)
    requires AllAtMost(vals, cfg.XMax())
    ensures AllBelow(vals, Pow2(cfg.bps))
  {}

  /** Every list of samples of at most bps bits is the content of some legal stream within the limit. */
  lemma {:induction false} EveryListHasAStream(cfg: Config, xs: seq<nat>) returns (ivs: seq<Interval>)
    requires cfg.Valid() && AllAtMost(xs, cfg.XMax())
    ensures LegalStream(cfg, ivs, |xs|) && ShortStream(cfg, ivs, |xs|)
    ensures |AllSamples(ivs)| >= |xs| && AllSamples(ivs)[..|xs|] == xs
    decreases |xs|
  {
    hide LegalInterval, ShortInterval, Config.XMax;
    if xs == [] {
      ivs := [];
    } else {
      var iv := RawInterval(cfg, xs, |xs|);
      RawIntervalLegal(cfg, xs, |xs|);
      SomeSamples(cfg, iv, |xs|);
      var k := |iv.samples|;
      if k >= |xs| {
        ivs := [iv];
        assert ivs[1..] == [];
        assert iv.samples + [] == iv.samples;
      } else {
        var rest := EveryListHasAStream(cfg, xs[k..]);
        ivs := [iv] + rest;
        assert ivs[1..] == rest;
        assert AllSamples(ivs)[..|xs|] == xs[..k] + AllSamples(rest)[..|xs| - k] == xs;
      }
    }
  }

  lemma SomeSamples(cfg: Config, iv: Interval, remaining: nat)
    requires cfg.Valid() && remaining > 0 && LegalInterval(cfg, iv, remaining)
    ensures iv.samples != []
  {
    PositiveProduct(iv.blocks, cfg.blockSize);
  }
}
