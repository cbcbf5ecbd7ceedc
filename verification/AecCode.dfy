/** The coded data format of CCSDS 121.0-B-3 in the layout libaec writes (weather/grib_ccsds.go,
    `aecDecode`), as a parser of bit strings, and an encoder that may make any legal choice. */
module AecCode {
  import opened Common
  import opened Bits
  import opened Preprocessor

  /** A parse: a value and the bits left over, or nothing for a corrupt stream. */
  type Parse<T> = Option<(T, bits)>

  datatype Config = Config(bps: nat, blockSize: nat, rsi: nat, preprocess: bool, padRsi: bool) {
    ghost predicate Valid() { 1 <= bps <= 32 && 0 < blockSize && 0 < rsi }

    function IdBits(): nat { IdSizeBits(bps) }

    /** The identifier of an uncompressed block: all ones. */
    function IdNC(): nat { Pow2(IdBits()) - 1 }

    function XMax(): nat { Pow2(bps) - 1 }
  }

  /** `idSizeBits`. */
  function IdSizeBits(bps: int): nat {
    if bps <= 0 then 0 else if bps <= 8 then 3 else if bps <= 16 then 4 else 5
  }

  /** The longest run of zeros a fundamental sequence may hold. */
  const FS_LIMIT: nat := 0x10_0000

  const ROS: nat := 5

  // ---- Reading ------------------------------------------------------------------------------

  function ReadBits(s: bits, n: nat): Parse<nat> {
    if |s| < n then None else Some((ToNat(s[..n]), s[n..]))
  }

  function ReadFSFrom(s: bits, count: nat): (p: Parse<nat>)
    ensures p.Some? ==> |p.value.1| < |s|
  {
    if s == [] then None
    else if s[0] then Some((count, s[1..]))
    else if count + 1 > FS_LIMIT then None
    else ReadFSFrom(s[1..], count + 1)
  }

  /** `readFS`: the number of zeros before the first one. */
  function ReadFS(s: bits): (p: Parse<nat>)
    ensures p.Some? ==> |p.value.1| < |s|
  {
    ReadFSFrom(s, 0)
  }

  function ReadFSs(s: bits, n: nat): (p: Parse<seq<nat>>)
    ensures p.Some? ==> |p.value.0| == n
  {
    if n == 0 then Some(([], s)) else
    var init := ReadFSs(s, n - 1);
    if init.None? then None else
    var m := ReadFS(init.value.1);
    if m.None? then None else Some((init.value.0 + [m.value.0], m.value.1))
  }

  function ReadFields(s: bits, n: nat, width: nat): (p: Parse<seq<nat>>)
    ensures p.Some? ==> |p.value.0| == n
  {
    if n == 0 then Some(([], s)) else
    var init := ReadFields(s, n - 1, width);
    if init.None? then None else
    var v := ReadBits(init.value.1, width);
    if v.None? then None else Some((init.value.0 + [v.value.0], v.value.1))
  }

  // ---- The second extension -----------------------------------------------------------------

  function Triangle(k: nat): (t: nat)
    ensures t >= k
  {
    if k == 0 then 0 else Triangle(k - 1) + k
  }

  lemma {:induction false} TriangleFormula(k: nat)
    ensures Triangle(k) == k * (k + 1) / 2
  {
    if k == 0 {
    } else {
      TriangleFormula(k - 1);
      assert k * (k + 1) == (k - 1) * k + 2 * k;
    }
  }

  /** The number of a pair: pairs are counted along the diagonals of equal sum. */
  function PairNumber(s1: nat, s2: nat): nat { Triangle(s1 + s2) + s2 }

  predicate IsRoot(m: nat, k: nat) { Triangle(k) <= m < Triangle(k + 1) }

  function RootFrom(m: nat, k: nat): (r: nat)
    requires Triangle(k) <= m
    ensures IsRoot(m, r)
    decreases m - k
  {
    if Triangle(k + 1) <= m then RootFrom(m, k + 1) else k
  }

  /** The sum of the pair numbered m. */
  function Root(m: nat): (k: nat)
    ensures IsRoot(m, k)
  {
    RootFrom(m, 0)
  }

  lemma {:induction false} TriangleMonotone(j: nat, k: nat)
    requires j <= k
    ensures Triangle(j) <= Triangle(k)
    decreases k - j
  {
    if j == k {
    } else {
      TriangleMonotone(j + 1, k);
    }
  }

  lemma RootUnique(m: nat, j: nat, k: nat)
    requires IsRoot(m, j) && IsRoot(m, k)
    ensures j == k
  {
    if j < k { TriangleMonotone(j + 1, k); } else if k < j { TriangleMonotone(k + 1, j); }
  }

  /** Both members of the pair numbered m. */
  function Unpair(m: nat): (nat, nat) {
    var k := Root(m);
    var s2 := m - Triangle(k);
    (k - s2, s2)
  }

  lemma {:induction false} PairRoot(s1: nat, s2: nat)
    ensures Root(PairNumber(s1, s2)) == s1 + s2
  {
    hide RootFrom, Root;
    assert Triangle(s1 + s2 + 1) == Triangle(s1 + s2) + s1 + s2 + 1;
    RootUnique(PairNumber(s1, s2), s1 + s2, Root(PairNumber(s1, s2)));
  }

  lemma {:induction false} UnpairPair(s1: nat, s2: nat)
    ensures Unpair(PairNumber(s1, s2)).0 == s1 && Unpair(PairNumber(s1, s2)).1 == s2
  {
    PairRoot(s1, s2);
    UnpairByRoot(PairNumber(s1, s2), s1 + s2);
  }

  lemma {:induction false} UnpairByRoot(m: nat, k: nat)
    requires Root(m) == k
    ensures Unpair(m).1 == m - Triangle(k) && Unpair(m).0 == k - (m - Triangle(k))
  {
    hide Triangle, RootFrom, Root;
  }

  /** The samples of a second-extension block: both members of each pair, except that an odd start
      keeps only the second of the first pair and an odd end only the first of the last. */
  function ReadPairs(s: bits, need: nat, odd: bool): (p: Parse<seq<nat>>)
    ensures p.Some? ==> |p.value.0| == need
    decreases need
  {
    hide ReadFS, Unpair;
    if need == 0 then Some(([], s)) else
    var m := ReadFS(s);
    if m.None? then None else
    var pair := Unpair(m.value.0);
    if odd then Prefixed([pair.1], ReadPairs(m.value.1, need - 1, false))
    else if need == 1 then Some(([pair.0], m.value.1))
    else Prefixed([pair.0, pair.1], ReadPairs(m.value.1, need - 2, false))
  }

  function Prefixed(head: seq<nat>, tail: Parse<seq<nat>>): Parse<seq<nat>> {
    if tail.None? then None else Some((head + tail.value.0, tail.value.1))
  }

  // ---- One block, or a run of zero blocks ---------------------------------------------------

  /** How many blocks the run-length value m of a zero block stands for. */
  function ZeroBlocks(m: nat, blockIndex: nat, nBlocks: nat): (n: nat)
    requires blockIndex < nBlocks
    ensures 1 <= n <= nBlocks - blockIndex
  {
    var rem, toAlign := nBlocks - blockIndex, 64 - blockIndex % 64;
    var n := if m + 1 < ROS then m + 1 else if m + 1 == ROS then if rem < toAlign then rem else toAlign else m;
    if n > rem then rem else n
  }

  function Zeros(n: nat): (z: seq<nat>)
    ensures |z| == n && forall i :: 0 <= i < n ==> z[i] == 0
  {
    seq(n, i => 0)
  }

  datatype Chunk = Chunk(samples: seq<nat>, blocks: nat)

  /** The block holds the reference sample of its interval. */
  predicate HasRef(cfg: Config, blockIndex: nat) { blockIndex == 0 && cfg.preprocess }

  function ReadRef(cfg: Config, s: bits, blockIndex: nat): (p: Parse<seq<nat>>)
    ensures p.Some? ==> |p.value.0| == if HasRef(cfg, blockIndex) then 1 else 0
  {
    if HasRef(cfg, blockIndex) then ReadFields(s, 1, cfg.bps) else Some(([], s))
  }

  function Coded(cfg: Config, blockIndex: nat): nat
    requires 0 < cfg.blockSize
  {
    if HasRef(cfg, blockIndex) then cfg.blockSize - 1 else cfg.blockSize
  }

  function Join(high: nat, k: nat, low: nat): nat { high * Pow2(k) + low }

  /** The coded samples of a run of blocks starting at blockIndex. */
  function RunLength(cfg: Config, blockIndex: nat, blocks: nat): nat
    requires 0 < cfg.blockSize && 0 < blocks
  {
    (blocks - 1) * cfg.blockSize + Coded(cfg, blockIndex)
  }

  lemma OneBlock(cfg: Config, blockIndex: nat)
    requires 0 < cfg.blockSize
    ensures RunLength(cfg, blockIndex, 1) == Coded(cfg, blockIndex)
  {}

  lemma WholeRun(cfg: Config, blockIndex: nat, blocks: nat)
    requires 0 < cfg.blockSize && 0 < blocks
    ensures RunLength(cfg, blockIndex, blocks) + (if HasRef(cfg, blockIndex) then 1 else 0) == blocks * cfg.blockSize
  {
    assert (blocks - 1) * cfg.blockSize == blocks * cfg.blockSize - cfg.blockSize;
  }

  /** High parts over low parts of k bits. */
  function Joined(highs: seq<nat>, lows: seq<nat>, k: nat): (v: seq<nat>)
    requires |highs| == |lows|
    ensures |v| == |highs| && forall i :: 0 <= i < |v| ==> v[i] == Join(highs[i], k, lows[i])
  {
    seq(|highs|, i requires 0 <= i < |highs| => Join(highs[i], k, lows[i]))
  }

  function ReadSplit(cfg: Config, s: bits, need: nat, k: nat): (p: Parse<seq<nat>>)
    ensures p.Some? ==> |p.value.0| == need
  {
    var highs := ReadFSs(s, need);
    if highs.None? then None else
    if k == 0 then highs else
    var lows := ReadFields(highs.value.1, need, k);
    if lows.None? then None else Some((Joined(highs.value.0, lows.value.0, k), lows.value.1))
  }

  /** What follows the identifier (and, for identifier 0, the selecting bit) and the reference. */
  function ReadPayload(cfg: Config, s: bits, blockIndex: nat, nBlocks: nat, id: nat, second: bool): (p: Parse<Chunk>)
    requires cfg.Valid() && blockIndex < nBlocks && id != cfg.IdNC()
    ensures p.Some? ==> 1 <= p.value.0.blocks <= nBlocks - blockIndex
    ensures p.Some? ==> |p.value.0.samples| == RunLength(cfg, blockIndex, p.value.0.blocks)
  {
    hide RunLength, ZeroBlocks;
    OneBlock(cfg, blockIndex);
    if id == 0 && !second then
      var m := ReadFS(s);
      if m.None? then None else
      var z := ZeroBlocks(m.value.0, blockIndex, nBlocks);
      Some((Chunk(Zeros(RunLength(cfg, blockIndex, z)), z), m.value.1))
    else if id == 0 && cfg.bps >= 3 then
      var v := ReadPairs(s, Coded(cfg, blockIndex), HasRef(cfg, blockIndex));
      if v.None? then None else Some((Chunk(v.value.0, 1), v.value.1))
    else if id == 0 || id - 1 > cfg.IdNC() - 2 then None
    else
      var v := ReadSplit(cfg, s, Coded(cfg, blockIndex), id - 1);
      if v.None? then None else Some((Chunk(v.value.0, 1), v.value.1))
  }

  /** One coded block, or a run of zero blocks. Whatever the option, every block yields exactly
      blockSize samples, the reference included. */
  function ReadBlock(cfg: Config, s: bits, blockIndex: nat, nBlocks: nat): (p: Parse<Chunk>)
    requires cfg.Valid() && blockIndex < nBlocks
    ensures p.Some? ==> 1 <= p.value.0.blocks <= nBlocks - blockIndex
    ensures p.Some? ==> |p.value.0.samples| == p.value.0.blocks * cfg.blockSize
  {
    hide RunLength;
    var id := ReadBits(s, cfg.IdBits());
    if id.None? then None else
    if id.value.0 == cfg.IdNC() then
      var v := ReadFields(id.value.1, cfg.blockSize, cfg.bps);
      if v.None? then None else Some((Chunk(v.value.0, 1), v.value.1))
    else
      var sub := ReadBits(id.value.1, if id.value.0 == 0 then 1 else 0);
      if sub.None? then None else
      var ref := ReadRef(cfg, sub.value.1, blockIndex);
      if ref.None? then None else
      var p := ReadPayload(cfg, ref.value.1, blockIndex, nBlocks, id.value.0, sub.value.0 == 1);
      if p.None? then None else
      WholeRun(cfg, blockIndex, p.value.0.blocks);
      Some((Chunk(ref.value.0 + p.value.0.samples, p.value.0.blocks), p.value.1))
  }

  /** The remaining blocks of a reference-sample interval. */
  function ReadBlocks(cfg: Config, s: bits, blockIndex: nat, nBlocks: nat): (p: Parse<seq<nat>>)
    requires cfg.Valid() && blockIndex <= nBlocks
    ensures p.Some? ==> |p.value.0| == (nBlocks - blockIndex) * cfg.blockSize
    decreases nBlocks - blockIndex
  {
    if blockIndex == nBlocks then Some(([], s)) else
    var c := ReadBlock(cfg, s, blockIndex, nBlocks);
    if c.None? then None else
    var n := c.value.0.blocks;
    var rest := ReadBlocks(cfg, c.value.1, blockIndex + n, nBlocks);
    Distribute(n, nBlocks - blockIndex - n, cfg.blockSize);
    Prefixed(c.value.0.samples, rest)
  }

  // ---- The whole stream ---------------------------------------------------------------------

  /** The blocks of the next interval: a full one, or what the remaining samples need. */
  function NBlocks(cfg: Config, remaining: nat): (n: nat)
    requires cfg.Valid() && remaining > 0
    ensures n > 0
  {
    if remaining < cfg.rsi * cfg.blockSize then CeilDivPositive(remaining, cfg.blockSize) else cfg.rsi
  }

  function CeilDivPositive(n: nat, d: nat): (q: nat)
    requires n > 0 && d > 0
    ensures q > 0
  {
    AtLeastOne(n, d);
    (n + d - 1) / d
  }

  lemma AtLeastOne(n: nat, d: nat)
    requires n > 0 && d > 0
    ensures (n + d - 1) / d > 0
  {
    if n + d - 1 < d { assert false; }
    assert (n + d - 1) / d >= d / d;
  }

  lemma XMaxIsMax(cfg: Config)
    requires cfg.Valid()
    ensures IsMax(cfg.XMax())
  {
    var half := Pow2(cfg.bps - 1);
    assert cfg.XMax() == 2 * half - 1;
    hide Config.XMax, Pow2, IsMax, IdSizeBits;
    OddIsMax(half);
  }

  lemma OddIsMax(half: nat)
    requires half >= 1
    ensures IsMax(2 * half - 1)
  {}

  /** The samples of an interval from its decoded values. */
  function Restore(cfg: Config, values: seq<nat>): (xs: seq<nat>)
    requires cfg.Valid() && (cfg.preprocess && values != [] ==> values[0] <= cfg.XMax())
    ensures |xs| == |values|
  {
    XMaxIsMax(cfg);
    if cfg.preprocess then UnmapAll(values, cfg.XMax()) else values
  }

  /** Skips to the next byte of a stream of whole bytes. */
  function Align(cfg: Config, s: bits): bits {
    if cfg.padRsi then s[|s| % 8..] else s
  }

  /** The first value of an interval is its reference, read as bps raw bits. */
  lemma RefInRange(cfg: Config, s: bits, nBlocks: nat)
    requires cfg.Valid() && 0 < nBlocks && cfg.preprocess && ReadBlocks(cfg, s, 0, nBlocks).Some?
    ensures var v := ReadBlocks(cfg, s, 0, nBlocks).value.0;
      v != [] && v[0] <= cfg.XMax()
  {
    var c := ReadBlock(cfg, s, 0, nBlocks);
    BlockStartsWithRef(cfg, s, nBlocks);
    PositiveProduct(c.value.0.blocks, cfg.blockSize);
  }

  lemma PositiveProduct(m: nat, n: nat)
    requires m > 0 && n > 0
    ensures m * n > 0
  {}

  lemma {:induction false} FieldsBounded(s: bits, n: nat, width: nat, i: nat)
    requires ReadFields(s, n, width).Some? && i < n
    ensures ReadFields(s, n, width).value.0[i] < Pow2(width)
  {
    var init := ReadFields(s, n - 1, width);
    if i == n - 1 {
      ToNatBounded(init.value.1[..width]);
    } else {
      FieldsBounded(s, n - 1, width, i);
    }
  }

  lemma BlockStartsWithRef(cfg: Config, s: bits, nBlocks: nat)
    requires cfg.Valid() && 0 < nBlocks && cfg.preprocess && ReadBlock(cfg, s, 0, nBlocks).Some?
    ensures var v := ReadBlock(cfg, s, 0, nBlocks).value.0.samples;
      v != [] && v[0] <= cfg.XMax()
  {
    hide ReadPayload, RunLength;
    var id := ReadBits(s, cfg.IdBits());
    if id.value.0 == cfg.IdNC() {
      FieldsBounded(id.value.1, cfg.blockSize, cfg.bps, 0);
    } else {
      var sub := ReadBits(id.value.1, if id.value.0 == 0 then 1 else 0);
      FieldsBounded(sub.value.1, 1, cfg.bps, 0);
    }
  }

  /** Interval after interval, until the samples asked for have been read. */
  function ReadAll(cfg: Config, s: bits, remaining: nat): (p: Option<seq<nat>>)
    requires cfg.Valid()
    ensures p.Some? ==> |p.value| >= remaining
    decreases remaining
  {
    if remaining == 0 then Some([]) else
    var nBlocks := NBlocks(cfg, remaining);
    var v := ReadBlocks(cfg, s, 0, nBlocks);
    if v.None? then None else
    PositiveProduct(nBlocks, cfg.blockSize);
    if cfg.preprocess then
      RefInRange(cfg, s, nBlocks);
      ReadOn(cfg, Restore(cfg, v.value.0), Align(cfg, v.value.1), remaining)
    else ReadOn(cfg, Restore(cfg, v.value.0), Align(cfg, v.value.1), remaining)
  }

  function ReadOn(cfg: Config, xs: seq<nat>, s: bits, remaining: nat): (p: Option<seq<nat>>)
    requires cfg.Valid() && xs != [] && remaining > 0
    ensures p.Some? ==> |p.value| >= remaining
    decreases remaining, 0
  {
    if |xs| >= remaining then Some(xs) else
    var rest := ReadAll(cfg, s, remaining - |xs|);
    if rest.None? then None else Some(xs + rest.value)
  }

  /** The n samples of a stream. */
  function Decode(cfg: Config, s: bits, n: nat): (p: Option<seq<nat>>)
    requires cfg.Valid()
    ensures p.Some? ==> |p.value| == n
  {
    var all := ReadAll(cfg, s, n);
    if all.None? then None else Some(all.value[..n])
  }
}
