/** `aecDecode` (weather/grib_ccsds.go): the decoder's loops over intervals, blocks and samples. */
module AecDecode {
  import opened Common
  import opened Bits
  import opened Preprocessor
  import opened AecCode
  import opened AecReader

  const FLAG_PREPROCESSOR: bv8 := 0x08
  const FLAG_RESTRICTED: bv8 := 0x10
  const FLAG_PAD_RSI: bv8 := 0x20

  lemma PrefixedTwice(a: seq<nat>, b: seq<nat>, p: Parse<seq<nat>>)
    ensures Prefixed(a + b, p) == Prefixed(a, Prefixed(b, p))
  {
    if p.Some? { assert a + b + p.value.0 == a + (b + p.value.0); }
  }

  lemma PrefixedNothing(p: Parse<seq<nat>>)
    ensures Prefixed([], p) == p
  {
    if p.Some? { assert [] + p.value.0 == p.value.0; }
  }

  lemma IdWidth(cfg: Config)
    requires cfg.Valid()
    ensures cfg.IdBits() <= 5 && 7 <= cfg.IdNC() <= 31
  {
    assert Pow2(3) == 8 && Pow2(4) == 16 && Pow2(5) == 32;
  }

  /** A run of raw fields: uncompressed samples, low parts, the reference. */
  method ReadRaw(rd: AecBitReader, count: nat, width: nat) returns (r: Result<seq<nat>>)
    requires rd.Valid() && width <= 64
    modifies rd
    ensures rd.Valid() && Agrees(r, ReadFields(old(rd.Rest()), count, width), rd.Rest())
  {
    hide AecCode.ReadBits;
    ghost var all := rd.Rest();
    var vs: seq<nat> := [];
    var j := 0;
    while j < count
      invariant rd.Valid() && 0 <= j <= count && ReadFields(all, j, width) == Some((vs, rd.Rest()))
    {
      var v := rd.ReadBits(width);
      if v.Err? {
        FieldsFail(all, j + 1, count, width);
        return Err(v.message);
      }
      vs := vs + [v.value];
      j := j + 1;
    }
    r := Ok(vs);
  }

  lemma {:induction false} FieldsFail(s: bits, j: nat, n: nat, width: nat)
    requires j <= n && ReadFields(s, j, width).None?
    ensures ReadFields(s, n, width).None?
    decreases n
  {
    if j == n {
    } else {
      FieldsFail(s, j, n - 1, width);
    }
  }

  method ReadHighs(rd: AecBitReader, count: nat) returns (r: Result<seq<nat>>)
    requires rd.Valid()
    modifies rd
    ensures rd.Valid() && Agrees(r, ReadFSs(old(rd.Rest()), count), rd.Rest())
  {
    hide AecCode.ReadFS;
    ghost var all := rd.Rest();
    var vs: seq<nat> := [];
    var j := 0;
    while j < count
      invariant rd.Valid() && 0 <= j <= count && ReadFSs(all, j) == Some((vs, rd.Rest()))
    {
      var h := rd.ReadFS();
      if h.Err? {
        FSsFail(all, j + 1, count);
        return Err(h.message);
      }
      vs := vs + [h.value];
      j := j + 1;
    }
    r := Ok(vs);
  }

  lemma {:induction false} FSsFail(s: bits, j: nat, n: nat)
    requires j <= n && ReadFSs(s, j).None?
    ensures ReadFSs(s, n).None?
    decreases n
  {
    if j == n {
    } else {
      FSsFail(s, j, n - 1);
    }
  }

  /** The k-split option: all the high parts, then all the low parts. */
  method SplitBlock(rd: AecBitReader, cfg: Config, need: nat, k: nat) returns (r: Result<seq<nat>>)
    requires rd.Valid() && k <= 64
    modifies rd
    ensures rd.Valid() && Agrees(r, ReadSplit(cfg, old(rd.Rest()), need, k), rd.Rest())
  {
    hide ReadFSs, ReadFields, Join;
    var highs := ReadHighs(rd, need);
    if highs.Err? { return highs; }
    if k == 0 { return highs; }
    var lows := ReadRaw(rd, need, k);
    if lows.Err? { return lows; }
    var vs := highs.value;
    var j := 0;
    while j < need
      invariant 0 <= j <= need && |vs| == need
      invariant forall i :: 0 <= i < j ==> vs[i] == Join(highs.value[i], k, lows.value[i])
      invariant forall i :: j <= i < need ==> vs[i] == highs.value[i]
    {
      vs := vs[j := Join(vs[j], k, lows.value[j])];
      j := j + 1;
    }
    assert vs == Joined(highs.value, lows.value, k);
    r := Ok(vs);
  }

  /** Corrects a low estimate of the root of m upwards. */
  method CorrectedRoot(m: nat, estimate: nat) returns (k: nat)
    requires Triangle(estimate) <= m
    ensures k == Root(m)
  {
    hide Root;
    k := estimate;
    TriangleFormula(k + 1);
    while (k + 1) * (k + 2) / 2 <= m
      invariant Triangle(k) <= m && Triangle(k + 1) == (k + 1) * (k + 2) / 2
      decreases m - k
    {
      k := k + 1;
      TriangleFormula(k + 1);
    }
    RootUnique(m, k, Root(m));
  }

  /** The square-root estimate the search starts from is a parameter: any that is never too high. */
  ghost predicate NeverHigh(estimate: nat -> nat) {
    forall m: nat :: Triangle(estimate(m)) <= m
  }

  lemma LowAt(estimate: nat -> nat, m: nat)
    requires NeverHigh(estimate)
    ensures Triangle(estimate(m)) <= m
  {}

  /** One pair number and its two members. */
  method ReadPair(rd: AecBitReader, estimate: nat -> nat) returns (r: Result<(nat, nat)>)
    requires rd.Valid() && NeverHigh(estimate)
    modifies rd
    ensures rd.Valid()
    ensures var m := AecCode.ReadFS(old(rd.Rest()));
      if m.None? then r.Err? else r == Ok(Unpair(m.value.0)) && rd.Rest() == m.value.1
  {
    hide AecCode.ReadFS, Root, IsRoot, Triangle, Unpair, NeverHigh;
    var m := rd.ReadFS();
    if m.Err? { return Err(m.message); }
    LowAt(estimate, m.value);
    var k := CorrectedRoot(m.value, estimate(m.value));
    RootSplits(m.value);
    var s2 := m.value - Triangle(k);
    var s1 := k - s2;
    r := Ok((s1, s2));
  }

  /** The second-extension option. */
  method PairBlock(rd: AecBitReader, need: nat, odd: bool, estimate: nat -> nat) returns (r: Result<seq<nat>>)
    requires rd.Valid() && NeverHigh(estimate)
    modifies rd
    ensures rd.Valid() && Agrees(r, ReadPairs(old(rd.Rest()), need, odd), rd.Rest())
  {
    hide AecCode.ReadFS, Unpair, Triangle, ReadPairs, Prefixed, AecBitReader.Rest, AecBitReader.Valid;
    ghost var all := rd.Rest();
    var vs: seq<nat> := [];
    var blockI := if odd then 1 else 0;
    var emitted := 0;
    PrefixedNothing(ReadPairs(all, need, odd));
    while emitted < need
      invariant rd.Valid() && 0 <= emitted <= need && 0 <= blockI
      invariant ReadPairs(all, need, odd) == Prefixed(vs, ReadPairs(rd.Rest(), need - emitted, blockI % 2 == 1))
    {
      hide ReadPairs, Prefixed;
      ghost var before, was := rd.Rest(), vs;
      PairsFail(before, need - emitted, blockI % 2 == 1, was);
      var pair := ReadPair(rd, estimate);
      if pair.Err? { return Err(pair.message); }
      PairsStep(before, need - emitted, blockI % 2 == 1, was);
      if blockI % 2 == 0 {
        vs, blockI, emitted := vs + [pair.value.0], blockI + 1, emitted + 1;
        if emitted >= need { break; }
      }
      vs, blockI, emitted := vs + [pair.value.1], blockI + 1, emitted + 1;
    }
    PairsDone(rd.Rest(), blockI % 2 == 1, vs);
    r := Ok(vs);
  }

  lemma PairsFail(s: bits, need: nat, odd: bool, vs: seq<nat>)
    requires need > 0
    ensures AecCode.ReadFS(s).None? ==> Prefixed(vs, ReadPairs(s, need, odd)).None?
  {
    hide AecCode.ReadFS;
  }

  lemma PairsDone(s: bits, odd: bool, vs: seq<nat>)
    ensures Prefixed(vs, ReadPairs(s, 0, odd)) == Some((vs, s))
  {
    assert vs + [] == vs;
  }

  lemma RootSplits(m: nat)
    ensures Triangle(Root(m)) <= m && m - Triangle(Root(m)) <= Root(m)
    ensures Unpair(m).0 == Root(m) - (m - Triangle(Root(m))) && Unpair(m).1 == m - Triangle(Root(m))
  {
    UnpairByRoot(m, Root(m));
  }

  lemma PairsStep(s: bits, need: nat, odd: bool, vs: seq<nat>)
    requires need > 0 && AecCode.ReadFS(s).Some?
    ensures var m := AecCode.ReadFS(s).value;
      var pair := Unpair(m.0);
      Prefixed(vs, ReadPairs(s, need, odd)) ==
        if odd then Prefixed(vs + [pair.1], ReadPairs(m.1, need - 1, false))
        else if need == 1 then Prefixed(vs + [pair.0], ReadPairs(m.1, 0, true))
        else Prefixed(vs + [pair.0] + [pair.1], ReadPairs(m.1, need - 2, false))
  {
    hide AecCode.ReadFS, Unpair;
    var m := AecCode.ReadFS(s).value;
    var pair := Unpair(m.0);
    if odd {
      PrefixedTwice(vs, [pair.1], ReadPairs(m.1, need - 1, false));
    } else if need == 1 {
      PrefixedTwice(vs, [pair.0], ReadPairs(m.1, 0, true));
      PairsDone(m.1, true, [pair.0]);
    } else {
      PrefixedTwice(vs, [pair.0, pair.1], ReadPairs(m.1, need - 2, false));
      assert vs + [pair.0] + [pair.1] == vs + [pair.0, pair.1];
    }
  }

  // ---- Blocks -------------------------------------------------------------------------------

  /** A run of zero blocks: the first may be one sample short, for the reference. */
  method ZeroBlockRun(rd: AecBitReader, cfg: Config, blockIndex: nat, nBlocks: nat) returns (r: Result<Chunk>)
    requires rd.Valid() && cfg.Valid() && blockIndex < nBlocks
    modifies rd
    ensures rd.Valid() && Agrees(r, ReadPayload(cfg, old(rd.Rest()), blockIndex, nBlocks, 0, false), rd.Rest())
  {
    hide AecCode.ReadFS, RunLength, AecBitReader.Valid, AecBitReader.Rest;
    IdWidth(cfg);
    var m := rd.ReadFS();
    if m.Err? { return Err(m.message); }
    var zeroBlocks := ZeroBlocks(m.value, blockIndex, nBlocks);
    ghost var rest := rd.Rest();
    var zeros: seq<nat> := [];
    var b := 0;
    while b < zeroBlocks
      invariant 0 <= b <= zeroBlocks && rd.Valid() && rd.Rest() == rest
      invariant zeros == Zeros(if b == 0 then 0 else RunLength(cfg, blockIndex, b))
    {
      var emit := if HasRef(cfg, blockIndex + b) then cfg.blockSize - 1 else cfg.blockSize;
      LongerRun(cfg, blockIndex, b);
      zeros := zeros + Zeros(emit);
      b := b + 1;
    }
    r := Ok(Chunk(zeros, zeroBlocks));
  }

  lemma LongerRun(cfg: Config, blockIndex: nat, b: nat)
    requires 0 < cfg.blockSize
    ensures RunLength(cfg, blockIndex, b + 1) ==
      (if b == 0 then 0 else RunLength(cfg, blockIndex, b)) + (if HasRef(cfg, blockIndex + b) then cfg.blockSize - 1 else cfg.blockSize)
  {
    if b > 0 { assert b * cfg.blockSize == (b - 1) * cfg.blockSize + cfg.blockSize; }
  }

  /** What follows the identifier and the reference, by code option. */
  method DecodePayload(rd: AecBitReader, cfg: Config, blockIndex: nat, nBlocks: nat, id: nat, isSE: bool,
                       estimate: nat -> nat) returns (r: Result<Chunk>)
    requires rd.Valid() && cfg.Valid() && blockIndex < nBlocks && id != cfg.IdNC() && id < Pow2(cfg.IdBits())
    requires NeverHigh(estimate)
    modifies rd
    ensures rd.Valid() && Agrees(r, ReadPayload(cfg, old(rd.Rest()), blockIndex, nBlocks, id, isSE), rd.Rest())
  {
    hide AecCode.ReadFS, ReadPairs, ReadSplit, RunLength, ZeroBlocks, Triangle, AecBitReader.Valid, AecBitReader.Rest;
    IdWidth(cfg);
    var need := if HasRef(cfg, blockIndex) then cfg.blockSize - 1 else cfg.blockSize;
    if id == 0 && !isSE {
      r := ZeroBlockRun(rd, cfg, blockIndex, nBlocks);
    } else if id == 0 && isSE && cfg.bps >= 3 {
      var v := PairBlock(rd, need, HasRef(cfg, blockIndex), estimate);
      r := if v.Err? then Err(v.message) else Ok(Chunk(v.value, 1));
    } else {
      var k := id - 1;
      if k < 0 || k > cfg.IdNC() - 2 { return Err("aec: invalid id"); }
      var v := SplitBlock(rd, cfg, need, k);
      r := if v.Err? then Err(v.message) else Ok(Chunk(v.value, 1));
    }
  }

  /** One turn of the block loop: identifier, selecting bit, reference and payload, in that order. */
  method DecodeBlock(rd: AecBitReader, cfg: Config, blockIndex: nat, nBlocks: nat, estimate: nat -> nat)
      returns (r: Result<Chunk>)
    requires rd.Valid() && cfg.Valid() && blockIndex < nBlocks
    requires NeverHigh(estimate)
    modifies rd
    ensures rd.Valid() && Agrees(r, ReadBlock(cfg, old(rd.Rest()), blockIndex, nBlocks), rd.Rest())
  {
    hide ReadFields, ReadPayload, RunLength, Triangle, AecBitReader.Valid, AecBitReader.Rest, ToNat;
    IdWidth(cfg);
    ghost var all := rd.Rest();
    var id := rd.ReadBits(cfg.IdBits());
    if id.Err? { return Err(id.message); }
    ToNatBounded(all[..cfg.IdBits()]);
    if id.value == cfg.IdNC() {
      var v := ReadRaw(rd, cfg.blockSize, cfg.bps);
      return if v.Err? then Err(v.message) else Ok(Chunk(v.value, 1));
    }
    var isLowEntropy := id.value == 0;
    var sub := rd.ReadBits(if isLowEntropy then 1 else 0);
    if sub.Err? { return Err(sub.message); }
    var isSE := sub.value == 1;
    var ref := ReadRaw(rd, if HasRef(cfg, blockIndex) then 1 else 0, cfg.bps);
    NoFields(cfg, blockIndex);
    if ref.Err? { return Err(ref.message); }
    var payload := DecodePayload(rd, cfg, blockIndex, nBlocks, id.value, isSE, estimate);
    if payload.Err? { return payload; }
    r := Ok(Chunk(ref.value + payload.value.samples, payload.value.blocks));
  }

  lemma NoFields(cfg: Config, blockIndex: nat)
    ensures forall s: bits :: ReadRef(cfg, s, blockIndex) == ReadFields(s, if HasRef(cfg, blockIndex) then 1 else 0, cfg.bps)
  {}

  /** The block loop of one interval. */
  method DecodeBlocks(rd: AecBitReader, cfg: Config, nBlocks: nat, estimate: nat -> nat) returns (r: Result<seq<nat>>)
    requires rd.Valid() && cfg.Valid()
    requires NeverHigh(estimate)
    modifies rd
    ensures rd.Valid() && Agrees(r, ReadBlocks(cfg, old(rd.Rest()), 0, nBlocks), rd.Rest())
  {
    hide ReadBlock, Triangle, AecBitReader.Valid, AecBitReader.Rest;
    ghost var all := rd.Rest();
    var out: seq<nat> := [];
    var blockIndex := 0;
    PrefixedNothing(ReadBlocks(cfg, all, 0, nBlocks));
    while blockIndex < nBlocks
      invariant rd.Valid() && 0 <= blockIndex <= nBlocks
      invariant ReadBlocks(cfg, all, 0, nBlocks) == Prefixed(out, ReadBlocks(cfg, rd.Rest(), blockIndex, nBlocks))
    {
      hide ReadBlocks, Prefixed;
      ghost var before := rd.Rest();
      var chunk := DecodeBlock(rd, cfg, blockIndex, nBlocks, estimate);
      BlocksStep(cfg, before, blockIndex, nBlocks, out);
      if chunk.Err? { return Err(chunk.message); }
      out, blockIndex := out + chunk.value.samples, blockIndex + chunk.value.blocks;
    }
    BlocksDone(cfg, rd.Rest(), nBlocks, out);
    r := Ok(out);
  }

  lemma BlocksStep(cfg: Config, s: bits, blockIndex: nat, nBlocks: nat, out: seq<nat>)
    requires cfg.Valid() && blockIndex < nBlocks
    ensures var c := ReadBlock(cfg, s, blockIndex, nBlocks);
      Prefixed(out, ReadBlocks(cfg, s, blockIndex, nBlocks)) ==
        if c.None? then None
        else Prefixed(out + c.value.0.samples, ReadBlocks(cfg, c.value.1, blockIndex + c.value.0.blocks, nBlocks))
  {
    hide ReadBlock;
    var c := ReadBlock(cfg, s, blockIndex, nBlocks);
    if c.Some? {
      PrefixedTwice(out, c.value.0.samples, ReadBlocks(cfg, c.value.1, blockIndex + c.value.0.blocks, nBlocks));
    }
  }

  lemma BlocksDone(cfg: Config, s: bits, nBlocks: nat, out: seq<nat>)
    requires cfg.Valid()
    ensures Prefixed(out, ReadBlocks(cfg, s, nBlocks, nBlocks)) == Some((out, s))
  {
    assert out + [] == out;
  }

  // ---- Intervals ----------------------------------------------------------------------------

  /** The preprocessor's inverse, in place over out[start..]. The clamp never fires. */
  method InvertInPlace(cfg: Config, values: seq<nat>, start: nat) returns (out: seq<nat>)
    requires cfg.Valid() && start < |values| && values[start] <= cfg.XMax()
    ensures IsMax(cfg.XMax()) && out == values[..start] + UnmapAll(values[start..], cfg.XMax())
  {
    XMaxIsMax(cfg);
    var xMax := cfg.XMax();
    hide Config.XMax;
    out := values;
    assert UnmapAll(values[start..start + 1], xMax) == [values[start]];
    var prev := values[start];
    var i := start + 1;
    hide UnmapAll, Unmap, IsMax;
    while i < |out|
      invariant Inverted(values, start, i, xMax, out) && prev <= xMax && prev == out[i - 1]
    {
      InvertedNext(values, start, i, xMax, out);
      hide Inverted;
      var d := out[i];
      var newVal := InvertOne(prev, d, xMax);
      out := out[i := newVal];
      prev := newVal;
      i := i + 1;
    }
    assert values[start..i] == values[start..];
  }

  /** The values of the interval before position i have been replaced by its samples. */
  ghost predicate Inverted(values: seq<nat>, start: nat, i: nat, xMax: nat, out: seq<nat>) {
    && start < i <= |values| == |out| && IsMax(xMax) && values[start] <= xMax
    && out == values[..start] + UnmapAll(values[start..i], xMax) + values[i..]
  }

  lemma InvertedNext(values: seq<nat>, start: nat, i: nat, xMax: nat, out: seq<nat>)
    requires Inverted(values, start, i, xMax, out) && i < |values|
    ensures |out| == |values| && 0 <= Unmap(out[i - 1], out[i], xMax) <= xMax
    ensures Inverted(values, start, i + 1, xMax, out[i := Unmap(out[i - 1], out[i], xMax)])
  {
    hide UnmapAll, Unmap, IsMax;
    var before, done, rest := values[..start], UnmapAll(values[start..i], xMax), values[i..];
    assert out[i - 1] == done[|done| - 1] && out[i] == values[i];
    UnmapInRange(out[i - 1], out[i], xMax);
    var v: nat := Unmap(out[i - 1], out[i], xMax);
    Unmapped(values[start..i], values[i], xMax);
    assert values[start..i + 1] == values[start..i] + [values[i]];
    assert rest[1..] == values[i + 1..];
    SetNext(before, done, rest, v);
  }

  lemma SetNext(before: seq<nat>, done: seq<nat>, rest: seq<nat>, v: nat)
    requires rest != []
    ensures (before + done + rest)[|before| + |done| := v] == before + (done + [v]) + rest[1..]
  {}

  /** One sample of the inverse, with the two clamps that never fire. */
  method InvertOne(prev: nat, d: nat, xMax: int) returns (newVal: nat)
    requires IsMax(xMax) && prev <= xMax
    ensures newVal == Unmap(prev, d, xMax) && newVal <= xMax
  {
    UnmapInRange(prev, d, xMax);
    var halfD := d / 2 + d % 2;
    var upper := prev >= xMax / 2 + 1;
    if halfD <= if upper then xMax - prev else prev {
      var v := prev + if d % 2 == 0 then d / 2 else -(d / 2 + 1);
      if v < 0 {
        assert false;
      } else if v > xMax {
        assert false;
      }
      newVal := v;
    } else {
      newVal := if upper then xMax - d % (xMax + 1) else d % (xMax + 1);
    }
  }

  function JoinedTo(out: seq<nat>, p: Option<seq<nat>>): Option<seq<nat>> {
    if p.None? then None else Some(out + p.value)
  }

  /** One interval of ReadAll. */
  lemma AllStep(cfg: Config, s: bits, remaining: nat, out: seq<nat>)
    requires cfg.Valid() && remaining > 0
    ensures var v := ReadBlocks(cfg, s, 0, NBlocks(cfg, remaining));
      if v.None? then JoinedTo(out, ReadAll(cfg, s, remaining)) == None
      else
        && v.value.0 != [] && (cfg.preprocess ==> v.value.0[0] <= cfg.XMax())
        && var xs, rest := Restore(cfg, v.value.0), Align(cfg, v.value.1);
           JoinedTo(out, ReadAll(cfg, s, remaining)) ==
             if |xs| >= remaining then Some(out + xs) else JoinedTo(out + xs, ReadAll(cfg, rest, remaining - |xs|))
  {
    hide ReadBlocks, NBlocks, Restore, Align, Config.XMax;
    var v := ReadBlocks(cfg, s, 0, NBlocks(cfg, remaining));
    if v.Some? {
      PositiveProduct(NBlocks(cfg, remaining), cfg.blockSize);
      if cfg.preprocess { RefInRange(cfg, s, NBlocks(cfg, remaining)); }
      var xs, rest := Restore(cfg, v.value.0), Align(cfg, v.value.1);
      if |xs| < remaining {
        var p := ReadAll(cfg, rest, remaining - |xs|);
        if p.Some? { assert out + xs + p.value == out + (xs + p.value); }
      }
    }
  }

  /** Appends the values of an interval and inverts the preprocessor over them. */
  method RestoreInto(cfg: Config, out: seq<nat>, values: seq<nat>) returns (longer: seq<nat>)
    requires cfg.Valid() && values != [] && (cfg.preprocess ==> values[0] <= cfg.XMax())
    ensures longer == out + Restore(cfg, values)
  {
    hide Config.XMax, UnmapAll;
    longer := out + values;
    if cfg.preprocess {
      assert longer[..|out|] == out && longer[|out|..] == values;
      longer := InvertInPlace(cfg, longer, |out|);
    }
  }

  /** The interval loop: blocks, then the inverse, then the padding, until n samples are out. */
  method DecodeAll(rd: AecBitReader, cfg: Config, n: nat, estimate: nat -> nat) returns (r: Result<seq<nat>>)
    requires rd.Valid() && cfg.Valid()
    requires NeverHigh(estimate)
    modifies rd
    ensures var all := ReadAll(cfg, old(rd.Rest()), n);
      if all.Some? then r == Ok(all.value) else r.Err?
  {
    hide ReadAll, ReadBlocks, Restore, Triangle, NBlocks, Config.XMax, AecBitReader.Valid, AecBitReader.Rest;
    ghost var all := rd.Rest();
    var out: seq<nat> := [];
    AllStarts(cfg, all, n);
    while |out| < n
      invariant rd.Valid()
      invariant ReadAll(cfg, all, n) ==
        if |out| >= n then Some(out) else JoinedTo(out, ReadAll(cfg, rd.Rest(), n - |out|))
      decreases n - |out|
    {
      hide JoinedTo;
      var remaining := n - |out|;
      var nBlocks := NBlocks(cfg, remaining);
      AllStep(cfg, rd.Rest(), remaining, out);
      var values := DecodeBlocks(rd, cfg, nBlocks, estimate);
      if values.Err? { return Err(values.message); }
      out := RestoreInto(cfg, out, values.value);
      if cfg.padRsi { rd.SkipToByte(); }
    }
    r := Ok(out);
  }

  lemma AllStarts(cfg: Config, s: bits, n: nat)
    requires cfg.Valid()
    ensures ReadAll(cfg, s, n) == if n == 0 then Some([]) else JoinedTo([], ReadAll(cfg, s, n))
  {
    var p := ReadAll(cfg, s, n);
    if n > 0 && p.Some? { assert [] + p.value == p.value; }
  }

  /** `aecDecode`. The flags are libaec's; only three of them matter here. */
  method Decode(packed: seq<byte>, bps: int, flags: bv8, blockSize: int, rsi: int, n: nat, estimate: nat -> nat)
      returns (r: Result<seq<nat>>)
    requires NeverHigh(estimate)
    ensures bps == 0 ==> r == Ok(Zeros(n))
    ensures bps != 0 && (bps < 1 || bps > 32 || flags & FLAG_RESTRICTED != 0 || blockSize <= 0 || rsi <= 0) ==> r.Err?
    ensures 1 <= bps <= 32 && flags & FLAG_RESTRICTED == 0 && blockSize > 0 && rsi > 0 ==>
      var cfg := Config(bps, blockSize, rsi, flags & FLAG_PREPROCESSOR != 0, flags & FLAG_PAD_RSI != 0);
      var samples := AecCode.Decode(cfg, BitsOf(packed), n);
      if samples.Some? then r == Ok(samples.value) else r.Err?
  {
    if bps == 0 { return Ok(Zeros(n)); }
    if bps < 1 || bps > 32 { return Err("aec: bps outside [1,32]"); }
    if flags & FLAG_RESTRICTED != 0 { return Err("aec: restricted option set not implemented"); }
    if blockSize <= 0 { return Err("aec: blockSize invalid"); }
    if rsi <= 0 { return Err("aec: rsi invalid"); }
    hide ReadAll, BitsOf, Triangle;
    var cfg := Config(bps, blockSize, rsi, flags & FLAG_PREPROCESSOR != 0, flags & FLAG_PAD_RSI != 0);
    var rd := new AecBitReader(packed);
    var out := DecodeAll(rd, cfg, n, estimate);
    if out.Err? { return out; }
    r := Ok(if |out.value| > n then out.value[..n] else out.value);
    assert |out.value| == n ==> out.value[..n] == out.value;
  }
}
